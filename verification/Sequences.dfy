/**
 Facts about concatenating and cutting sequences that several modules need.
 */
module Sequences {

  lemma Associative<T>(a: seq<T>, b: seq<T>, c: seq<T>)
    ensures (a + b) + c == a + (b + c)
  {
  }

  lemma AssociativeFour<T>(a: seq<T>, b: seq<T>, c: seq<T>, d: seq<T>)
    ensures ((a + b) + c) + d == a + (b + (c + d))
  {
  }

  /** An element in front does not disturb one at the end. */
  lemma FrontAndBack<T>(whole: seq<T>, rest: seq<T>, init: seq<T>, inner: seq<T>, front: seq<T>, back: seq<T>)
    requires whole == front + rest && rest == inner + back && init == front + inner
    ensures whole == init + back
  {
  }

  lemma JoinSlices<T>(s: seq<T>, a: nat, b: nat)
    requires a <= b <= |s|
    ensures s[..b] == s[..a] + s[a..b]
  {
  }

  lemma SliceOfSlice<T>(s: seq<T>, a: nat, b: nat)
    requires a <= b <= |s|
    ensures s[a..][..b - a] == s[a..b] && s[a..][b - a..] == s[b..]
  {
  }

  lemma CutConcat<T>(a: seq<T>, b: seq<T>, n: nat)
    requires n <= |a|
    ensures (a + b)[..n] == a[..n] && (a + b)[n..] == a[n..] + b
  {
  }

  lemma Behind<T>(a: seq<T>, b: seq<T>, text: seq<T>)
    requires text == a + b
    ensures text[|a|..] == b
  {
  }

  /** Agreeing on `j` elements is agreeing on the first and on `j - 1` of the others. */
  lemma FirstAgrees<T>(x: T, next: seq<T>, v: seq<T>, j: nat)
    requires 0 < j <= |v| && j <= |next| + 1 && ([x] + next)[..j] == v[..j]
    ensures v[0] == x && next[..j - 1] == v[1..][..j - 1]
    ensures v[1..][j - 1..] == v[j..] && v[..j] == [x] + v[1..][..j - 1]
  {
    assert ([x] + next)[..j][0] == x && v[..j][0] == v[0];
    assert ([x] + next)[..j][1..] == next[..j - 1];
    assert v[..j][1..] == v[1..][..j - 1];
  }

  lemma Rotated<T>(p: seq<T>, w: seq<T>)
    requires p != [] && w != []
    ensures (p + w)[0] == p[0] && (p + w)[1..] == (p[1..] + [w[0]]) + w[1..]
  {
  }
}

/**
 The exact condition for the string codecs: a printed string reads back as itself if and
 only if it is framed.

 A reader that takes a multi-byte symbol takes printed bytes as they are.  When one of
 them is the start of an escape, the text can go on agreeing with the string only through
 a run of backslashes, and then as many stray backslashes are left in front of the rest.
 */
module JsonStringExact {
  import opened Bytes
  import opened Sequences
  import opened JsonNumber
  import opened JsonString

  /** Reading `text` as the inside of a quoted string yields `s`. */
  ghost predicate Reads(text: seq<byte>, s: seq<byte>) {
    TokensAdvance();
    var r := ReadLoop(ReadToken, IsQuote, text);
    r.Ok? && r.value == s
  }

  lemma ReadsOne(text: seq<byte>, s: seq<byte>) returns (bytes: seq<byte>, n: nat)
    requires Reads(text, s) && text != [] && text[0] != QUOTE
    ensures ReadToken(text) == Token(bytes, n) && 0 < n <= |text|
    ensures |bytes| <= |s| && s == bytes + s[|bytes|..] && Reads(text[n..], s[|bytes|..])
  {
    TokensAdvance();
    var t := ReadToken(text);
    bytes, n := t.bytes, t.length;
    var v := ReadLoop(ReadToken, IsQuote, text[n..]).value;
    assert s == bytes + v;
    assert s[|bytes|..] == v;
  }

  /** A known first token. */
  lemma ReadsHead(head: seq<byte>, bytes: seq<byte>, tail: seq<byte>, s: seq<byte>)
    requires head != [] && head[0] != QUOTE && ReadToken(head + tail) == Token(bytes, |head|)
    requires Reads(head + tail, s)
    ensures |bytes| <= |s| && s == bytes + s[|bytes|..] && Reads(tail, s[|bytes|..])
  {
    var b, n := ReadsOne(head + tail, s);
    assert (head + tail)[|head|..] == tail;
  }

  lemma ReadsByte(c: byte, controls: bool, tail: seq<byte>, s: seq<byte>)
    requires 0 < c < 128 && Reads(EscapeByte(c, controls) + tail, s)
    ensures s != [] && s[0] == c && Reads(tail, s[1..])
  {
    EscapedToken(c, controls, tail);
    ReadsHead(EscapeByte(c, controls), [c], tail, s);
  }

  /** The printed string followed by its closing quote and whatever comes after. */
  function Printed(s: seq<byte>, controls: bool, rest: seq<byte>): seq<byte> {
    Escape(s, controls) + ([QUOTE] + rest)
  }

  lemma PrintedFirst(s: seq<byte>, controls: bool, rest: seq<byte>)
    ensures s == [] || s[0] == 0 ==> Printed(s, controls, rest) == [QUOTE] + rest
    ensures s != [] && s[0] != 0 ==>
              Printed(s, controls, rest) == EscapeByte(s[0], controls) + Printed(s[1..], controls, rest)
  {
    if s != [] && s[0] != 0 {
      Associative(EscapeByte(s[0], controls), Escape(s[1..], controls), [QUOTE] + rest);
    } else {
      assert [] + ([QUOTE] + rest) == [QUOTE] + rest;
    }
  }

  lemma ReadsNothing(rest: seq<byte>, s: seq<byte>)
    requires Reads([QUOTE] + rest, s)
    ensures s == []
  {
  }

  // ---------------------------------------------------------------- nothing is read twice

  ghost predicate Ascii(p: seq<byte>) {
    forall i :: 0 <= i < |p| ==> 0 < p[i] < 128
  }

  lemma NotHighFirst(p: seq<byte>, w: seq<byte>, controls: bool, rest: seq<byte>)
    requires p != [] && Ascii(p) && w != [] && w[0] >= 128
    ensures !Reads(Printed(w, controls, rest), p + w)
  {
    PrintedFirst(w, controls, rest);
    if Reads(Printed(w, controls, rest), p + w) {
      HighFirst([w[0]] + Printed(w[1..], controls, rest), p + w);
    }
  }

  lemma HighFirst(text: seq<byte>, s: seq<byte>)
    requires text != [] && text[0] >= 128 && Reads(text, s)
    ensures s != [] && s[0] >= 128
  {
    var b, n := ReadsOne(text, s);
    assert b[0] == text[0];
  }

  /** A printed string never reads as itself with plain characters in front. */
  lemma {:induction false} NothingExtra(p: seq<byte>, w: seq<byte>, controls: bool, rest: seq<byte>)
    requires p != [] && Ascii(p)
    ensures !Reads(Printed(w, controls, rest), p + w)
    decreases |w|
  {
    PrintedFirst(w, controls, rest);
    if w != [] && w[0] >= 128 {
      NotHighFirst(p, w, controls, rest);
    } else if Reads(Printed(w, controls, rest), p + w) {
      if w == [] || w[0] == 0 {
        ReadsNothing(rest, p + w);
      } else {
        Rotated(p, w);
        ReadsByte(w[0], controls, Printed(w[1..], controls, rest), p + w);
        NothingExtra(p[1..] + [w[0]], w[1..], controls, rest);
      }
    }
  }

  // ---------------------------------------------------------------- stray backslashes

  function Backslashes(k: nat): (r: seq<byte>)
    ensures |r| == k && forall i :: 0 <= i < k ==> r[i] == BACKSLASH
  {
    seq(k, _ => BACKSLASH)
  }

  lemma MoveBackslash(k: nat)
    ensures Backslashes(k) + [BACKSLASH] == [BACKSLASH] + Backslashes(k) == Backslashes(k + 1)
  {
  }

  /** What follows a backslash that went over to the string. */
  lemma DropBackslash(k: nat, v: seq<byte>, u: seq<byte>)
    requires v != [] && v[0] == BACKSLASH && Backslashes(k) + v == u
    ensures u != [] && u[0] == BACKSLASH && u[1..] == Backslashes(k) + v[1..]
  {
    MoveBackslash(k);
    assert v == [BACKSLASH] + v[1..];
    Associative(Backslashes(k), [BACKSLASH], v[1..]);
    assert u == [BACKSLASH] + (Backslashes(k) + v[1..]);
  }

  /** An even number of them, read already. */
  lemma {:induction false} NoEvenRun(k: nat, v: seq<byte>, u: seq<byte>, controls: bool, rest: seq<byte>)
    requires k > 0 && Backslashes(k) + v == u
    ensures !Reads(Printed(u, controls, rest), v)
    decreases |u|
  {
    PrintedFirst(u, controls, rest);
    assert u[0] == Backslashes(k)[0] == BACKSLASH;
    if Reads(Printed(u, controls, rest), v) {
      ReadsByte(BACKSLASH, controls, Printed(u[1..], controls, rest), v);
      DropBackslash(k, v, u);
      NoEvenRun(k, v[1..], u[1..], controls, rest);
    }
  }

  lemma PlainHead(v: seq<byte>, controls: bool, rest: seq<byte>, c: byte)
    requires Printed(v, controls, rest)[0] == c && c != QUOTE && c != BACKSLASH
    ensures v != [] && v[0] == c && EscapeByte(c, controls) == [c]
    ensures Printed(v, controls, rest) == [c] + Printed(v[1..], controls, rest)
  {
    PrintedFirst(v, controls, rest);
  }

  /** The one escape that yields its own letter. */
  lemma HexOfLetter(text: seq<byte>)
    requires |text| >= 6 && text[0] == BACKSLASH && text[1] == 117
    requires ReadToken(text).Token? && ReadToken(text).bytes[0] == 117
    ensures ReadToken(text) == Token([117], 6) && text[2..6] == [48, 48, 55, 53]
  {
    var (a, b, c, d) := (HexValue(text[2]), HexValue(text[3]), HexValue(text[4]), HexValue(text[5]));
    var h := a.value * 4096 + b.value * 256 + c.value * 16 + d.value;
    assert Utf8Of(h)[0] == 117;
    assert h == 117;
    HexDigitsOf117(a.value, b.value, c.value, d.value);
    assert text[2] == 48 && text[3] == 48 && text[4] == 55 && text[5] == 53;
  }

  lemma HexDigitsOf117(a: nat, b: nat, c: nat, d: nat)
    requires b < 16 && c < 16 && d < 16 && a * 4096 + b * 256 + c * 16 + d == 117
    ensures a == 0 && b == 0 && c == 7 && d == 5
  {
  }

  /** The four digits of that escape, as part of the string. */
  lemma FourDigits(u: seq<byte>, controls: bool, rest: seq<byte>)
    requires |Printed(u, controls, rest)| >= 4 && Printed(u, controls, rest)[..4] == [48, 48, 55, 53]
    ensures |u| >= 4 && u == [48, 48, 55, 53] + u[4..]
    ensures Printed(u, controls, rest)[4..] == Printed(u[4..], controls, rest)
  {
    var x := Printed(u, controls, rest);
    assert x[0] == x[..4][0] && x[1] == x[..4][1] && x[2] == x[..4][2] && x[3] == x[..4][3];
    PlainHead(u, controls, rest, 48);
    PlainHead(u[1..], controls, rest, 48);
    PlainHead(u[1..][1..], controls, rest, 55);
    PlainHead(u[1..][1..][1..], controls, rest, 53);
    assert u[1..][1..][1..][1..] == u[4..];
    assert x == [48] + ([48] + ([55] + ([53] + Printed(u[4..], controls, rest))));
  }

  lemma LetterToken(x: seq<byte>, u: seq<byte>)
    requires u != [] && u[0] == 117 && Reads([BACKSLASH, 117] + x, u)
    ensures |x| >= 4 && x[..4] == [48, 48, 55, 53] && Reads(x[4..], u[1..])
  {
    var text := [BACKSLASH, 117] + x;
    var b, n := ReadsOne(text, u);
    assert b[0] == u[0];
    HexOfLetter(text);
    assert x[..4] == text[2..6] && text[6..] == x[4..];
  }

  lemma NotAfterLetterU(u: seq<byte>, controls: bool, rest: seq<byte>)
    requires u != [] && u[0] == 117
    ensures !Reads([BACKSLASH] + Printed(u, controls, rest), u)
  {
    var x := Printed(u[1..], controls, rest);
    PrintedFirst(u, controls, rest);
    assert [BACKSLASH] + ([117] + x) == [BACKSLASH, 117] + x;
    if Reads([BACKSLASH, 117] + x, u) {
      LetterToken(x, u);
      FourDigits(u[1..], controls, rest);
      NothingExtra([48, 48, 55, 53], u[1..][4..], controls, rest);
    }
  }

  /** One backslash in front of a character that is printed as it is. */
  lemma NotAfterPlain(u: seq<byte>, controls: bool, rest: seq<byte>)
    requires u != [] && u[0] != 0 && EscapeByte(u[0], controls) == [u[0]]
    ensures !Reads([BACKSLASH] + Printed(u, controls, rest), u)
  {
    if u[0] == 117 {
      NotAfterLetterU(u, controls, rest);
    } else {
      var text := [BACKSLASH] + Printed(u, controls, rest);
      PrintedFirst(u, controls, rest);
      assert text[1] == u[0];
      if Reads(text, u) {
        var b, n := ReadsOne(text, u);
      }
    }
  }

  lemma ReadsPair(tail: seq<byte>, v: seq<byte>)
    requires Reads([BACKSLASH, BACKSLASH] + tail, v)
    ensures v != [] && v[0] == BACKSLASH && Reads(tail, v[1..])
  {
    ReadsHead([BACKSLASH, BACKSLASH], [BACKSLASH], tail, v);
  }

  /** An odd number of them: all but the last read already. */
  lemma {:induction false} NoOddRun(k: nat, v: seq<byte>, u: seq<byte>, controls: bool, rest: seq<byte>)
    requires Backslashes(k) + v == u
    ensures !Reads([BACKSLASH] + Printed(u, controls, rest), v)
    decreases |u|
  {
    var text := [BACKSLASH] + Printed(u, controls, rest);
    assert k > 0 ==> u != [] && u[0] == Backslashes(k)[0] == BACKSLASH;
    assert k == 0 ==> v == u;
    if Reads(text, v) {
      PrintedFirst(u, controls, rest);
      if u == [] || u[0] == 0 {
        var b, n := ReadsOne(text, v);
      } else if EscapeByte(u[0], controls) == [u[0]] {
        NotAfterPlain(u, controls, rest);
      } else {
        NoOddRunBeforeEscape(k, v, u, controls, rest);
        NoOddRun(k, v[1..], u[1..], controls, rest);
      }
    }
  }

  lemma NoOddRunBeforeEscape(k: nat, v: seq<byte>, u: seq<byte>, controls: bool, rest: seq<byte>)
    requires Backslashes(k) + v == u && u != [] && u[0] != 0 && EscapeByte(u[0], controls) != [u[0]]
    requires Reads([BACKSLASH] + Printed(u, controls, rest), v)
    ensures v != [] && Backslashes(k) + v[1..] == u[1..]
    ensures Reads([BACKSLASH] + Printed(u[1..], controls, rest), v[1..])
  {
    PrintedFirst(u, controls, rest);
    var e, tail := EscapeByte(u[0], controls), Printed(u[1..], controls, rest);
    assert [BACKSLASH] + (e + tail) == [BACKSLASH, BACKSLASH] + (e[1..] + tail);
    ReadsPair(e[1..] + tail, v);
    DropBackslash(k, v, u);
    assert e[1..] == [BACKSLASH];
  }

  lemma TwoMore(k: nat, tail: seq<byte>)
    ensures Backslashes(2 * (k + 1)) + tail == [BACKSLASH, BACKSLASH] + (Backslashes(2 * k) + tail)
  {
  }

  /** Pairs of backslashes read as backslashes. */
  lemma {:induction false} PeelPairs(k: nat, tail: seq<byte>, v: seq<byte>) returns (left: seq<byte>)
    requires Reads(Backslashes(2 * k) + tail, v)
    ensures v == Backslashes(k) + left && Reads(tail, left)
    decreases k
  {
    if k == 0 {
      left := v;
      assert Backslashes(0) + tail == tail && Backslashes(0) + v == v;
    } else {
      TwoMore(k - 1, tail);
      ReadsPair(Backslashes(2 * (k - 1)) + tail, v);
      left := PeelPairs(k - 1, tail, v[1..]);
      MoveBackslash(k - 1);
      Associative([BACKSLASH], Backslashes(k - 1), left);
      assert v == [BACKSLASH] + v[1..];
    }
  }

  /** No stray backslash in front of a printed string goes unnoticed. */
  lemma NoStrayBackslashes(m: nat, u: seq<byte>, controls: bool, rest: seq<byte>)
    requires m > 0
    ensures !Reads(Backslashes(m) + Printed(u, controls, rest), u)
  {
    var tail := Printed(u, controls, rest);
    if Reads(Backslashes(m) + tail, u) {
      if m % 2 == 0 {
        assert m == 2 * (m / 2);
        var v := PeelPairs(m / 2, tail, u);
        NoEvenRun(m / 2, v, u, controls, rest);
      } else {
        assert m == 2 * (m / 2) + 1;
        assert Backslashes(m) + tail == Backslashes(2 * (m / 2)) + ([BACKSLASH] + tail);
        var v := PeelPairs(m / 2, [BACKSLASH] + tail, u);
        NoOddRun(m / 2, v, u, controls, rest);
      }
    }
  }

  // ---------------------------------------------------------------- inside a symbol

  lemma BackslashFirst(a: nat, x: seq<byte>)
    ensures Backslashes(a) + ([BACKSLASH, BACKSLASH] + x) == [BACKSLASH] + (Backslashes(a + 1) + x)
  {
  }

  /** Behind `a` backslashes the text agrees with `j` bytes of the string and leaves as many backslashes more. */
  ghost predicate RunOn(a: nat, v: seq<byte>, j: nat, controls: bool, rest: seq<byte>)
    requires j <= |v|
  {
    Backslashes(a) + Printed(v, controls, rest) == v[..j] + (Backslashes(a + j) + Printed(v[j..], controls, rest))
  }

  lemma RunStep(a: nat, v: seq<byte>, j: nat, controls: bool, rest: seq<byte>)
    requires 0 < j <= |v| && RunOn(a + 1, v[1..], j - 1, controls, rest)
    requires Backslashes(a) + Printed(v, controls, rest)
          == [BACKSLASH] + (Backslashes(a + 1) + Printed(v[1..], controls, rest))
    requires v[1..][j - 1..] == v[j..] && v[..j] == [BACKSLASH] + v[1..][..j - 1]
    ensures RunOn(a, v, j, controls, rest)
  {
    Associative([BACKSLASH], v[1..][..j - 1], Backslashes(a + j) + Printed(v[j..], controls, rest));
  }

  /** Text that agrees with the string although backslashes came in between: all it agrees on is backslashes. */
  lemma {:induction false} RunGoesOn(a: nat, v: seq<byte>, j: nat, controls: bool, rest: seq<byte>)
    requires 0 < a && j <= |v| && j <= |Backslashes(a) + Printed(v, controls, rest)|
    requires (Backslashes(a) + Printed(v, controls, rest))[..j] == v[..j]
    ensures RunOn(a, v, j, controls, rest)
    decreases j
  {
    if j == 0 {
      assert v[0..] == v;
    } else {
      StartsWithBackslash(a, v, j, controls, rest);
      FirstAgrees(BACKSLASH, Backslashes(a + 1) + Printed(v[1..], controls, rest), v, j);
      RunGoesOn(a + 1, v[1..], j - 1, controls, rest);
      RunStep(a, v, j, controls, rest);
    }
  }

  lemma StartsWithBackslash(a: nat, v: seq<byte>, j: nat, controls: bool, rest: seq<byte>)
    requires 0 < a && 0 < j <= |v| && j <= |Backslashes(a) + Printed(v, controls, rest)|
    requires (Backslashes(a) + Printed(v, controls, rest))[..j] == v[..j]
    ensures Backslashes(a) + Printed(v, controls, rest)
         == [BACKSLASH] + (Backslashes(a + 1) + Printed(v[1..], controls, rest))
  {
    var text := Backslashes(a) + Printed(v, controls, rest);
    assert text[0] == text[..j][0] == v[..j][0];
    PrintedFirst(v, controls, rest);
    BackslashFirst(a, Printed(v[1..], controls, rest));
  }

  /** The printed text is the first `j` bytes of the string, `m` backslashes, and the rest as printed. */
  ghost predicate Leaves(v: seq<byte>, j: nat, m: nat, controls: bool, rest: seq<byte>)
    requires j <= |v|
  {
    && Printed(v, controls, rest) == v[..j] + (Backslashes(m) + Printed(v[j..], controls, rest))
    && (m == 0 ==> forall i :: 0 <= i < j ==> IsPlain(v[i], controls))
  }

  lemma LeavesAfterPlain(v: seq<byte>, j: nat, m: nat, controls: bool, rest: seq<byte>)
    requires 0 < j <= |v| && IsPlain(v[0], controls) && Leaves(v[1..], j - 1, m, controls, rest)
    ensures Leaves(v, j, m, controls, rest)
  {
    PrintedFirst(v, controls, rest);
    assert v[1..][j - 1..] == v[j..] && v[..j] == [v[0]] + v[1..][..j - 1];
    Associative([v[0]], v[1..][..j - 1], Backslashes(m) + Printed(v[j..], controls, rest));
    assert forall i | 0 < i < j :: v[i] == v[1..][i - 1];
  }

  lemma LeavesAfterEscape(v: seq<byte>, j: nat, controls: bool, rest: seq<byte>)
    requires 0 < j <= |v| && j <= |Printed(v, controls, rest)| && Printed(v, controls, rest)[..j] == v[..j]
    requires v[0] != 0 && !IsPlain(v[0], controls)
    ensures Leaves(v, j, j, controls, rest)
  {
    var text := Printed(v, controls, rest);
    var next := Backslashes(1) + Printed(v[1..], controls, rest);
    PrintedFirst(v, controls, rest);
    assert text[0] == text[..j][0] == v[..j][0];
    assert text == [BACKSLASH] + next;
    FirstAgrees(BACKSLASH, next, v, j);
    RunGoesOn(1, v[1..], j - 1, controls, rest);
    Associative([BACKSLASH], v[1..][..j - 1], Backslashes(j) + Printed(v[j..], controls, rest));
  }

  /**
   The first `j` bytes of printed text agree with the string: then none of them was escaped,
   or a number of backslashes is left over.
   */
  lemma {:induction false} AgreesInside(v: seq<byte>, j: nat, controls: bool, rest: seq<byte>) returns (m: nat)
    requires j <= |v| && j <= |Printed(v, controls, rest)| && Printed(v, controls, rest)[..j] == v[..j]
    ensures Leaves(v, j, m, controls, rest)
    decreases j
  {
    var text := Printed(v, controls, rest);
    if j == 0 {
      m := 0;
      assert v[0..] == v;
    } else {
      assert text[0] == text[..j][0] == v[..j][0];
      PrintedFirst(v, controls, rest);
      if IsPlain(v[0], controls) {
        FirstAgrees(v[0], Printed(v[1..], controls, rest), v, j);
        m := AgreesInside(v[1..], j - 1, controls, rest);
        LeavesAfterPlain(v, j, m, controls, rest);
      } else {
        m := j;
        LeavesAfterEscape(v, j, controls, rest);
      }
    }
  }

  lemma SymbolToken(s: seq<byte>, tail: seq<byte>) returns (n: nat)
    requires s != [] && s[0] >= 128 && Reads([s[0]] + tail, s)
    ensures SymbolLength(s[0]) == Some(n) && 0 < n <= |s| && n <= |tail| + 1
    ensures ([s[0]] + tail)[..n] == s[..n] && Reads(tail[n - 1..], s[n..])
  {
    var text := [s[0]] + tail;
    var b;
    b, n := ReadsOne(text, s);
    assert b == text[..n];
    assert text[n..] == tail[n - 1..];
  }

  /** The symbol at the front of `s` has `n` bytes; behind the first, the printed text leaves `m` backslashes. */
  ghost predicate SymbolLeaves(s: seq<byte>, n: nat, m: nat, controls: bool, rest: seq<byte>) {
    && 0 < n <= |s| && n <= |Printed(s[1..], controls, rest)| + 1
    && Printed(s[1..], controls, rest)[n - 1..] == Backslashes(m) + Printed(s[n..], controls, rest)
    && (m == 0 ==> forall i :: 1 <= i < n ==> IsPlain(s[i], controls))
  }

  lemma SymbolShape(s: seq<byte>, n: nat, controls: bool, rest: seq<byte>) returns (m: nat)
    requires 0 < n <= |s| && n <= |Printed(s[1..], controls, rest)| + 1
    requires ([s[0]] + Printed(s[1..], controls, rest))[..n] == s[..n]
    ensures SymbolLeaves(s, n, m, controls, rest)
  {
    var v, tail := s[1..], Printed(s[1..], controls, rest);
    FirstAgrees(s[0], tail, s, n);
    m := AgreesInside(v, n - 1, controls, rest);
    Behind(v[..n - 1], Backslashes(m) + Printed(s[n..], controls, rest), tail);
    assert forall i | 1 <= i < n :: s[i] == v[i - 1];
  }

  /** Since stray backslashes would show, none is left over. */
  lemma NoneLeft(m: nat, u: seq<byte>, controls: bool, rest: seq<byte>)
    requires Reads(Backslashes(m) + Printed(u, controls, rest), u)
    ensures m == 0 && Reads(Printed(u, controls, rest), u)
  {
    if m > 0 {
      NoStrayBackslashes(m, u, controls, rest);
    }
    assert Backslashes(0) + Printed(u, controls, rest) == Printed(u, controls, rest);
  }

  /** A multi-byte symbol: it is whole and plain, and the rest is read from the rest. */
  lemma SymbolExact(s: seq<byte>, controls: bool, rest: seq<byte>) returns (n: nat)
    requires s != [] && s[0] >= 128 && Reads(Printed(s, controls, rest), s)
    ensures SymbolLength(s[0]) == Some(n) && 0 < n <= |s|
    ensures forall i :: 1 <= i < n ==> IsPlain(s[i], controls)
    ensures Reads(Printed(s[n..], controls, rest), s[n..])
  {
    PrintedFirst(s, controls, rest);
    n := SymbolToken(s, Printed(s[1..], controls, rest));
    var m := SymbolShape(s, n, controls, rest);
    NoneLeft(m, s[n..], controls, rest);
  }

  /** Only framed strings read back as themselves. */
  lemma {:induction false} ReadsBackIsFramed(s: seq<byte>, controls: bool, rest: seq<byte>)
    requires Reads(Printed(s, controls, rest), s)
    ensures Framed(s, controls)
    decreases |s|
  {
    if s != [] {
      PrintedFirst(s, controls, rest);
      if s[0] == 0 {
        ReadsNothing(rest, s);
      } else if s[0] < 128 {
        ReadsByte(s[0], controls, Printed(s[1..], controls, rest), s);
        ReadsBackIsFramed(s[1..], controls, rest);
      } else {
        var n := SymbolExact(s, controls, rest);
        ReadsBackIsFramed(s[n..], controls, rest);
      }
    }
  }

  /**
   Each codec undoes itself on a string, whatever text follows, if and only if the string
   is framed: free of NUL and made of symbols whose continuation bytes need no escaping.
   */
  lemma QuotedRoundTripIff(s: seq<byte>, rest: seq<byte>)
    ensures ParseQuoted(PrintString(s, true) + rest) == Ok(s, rest) <==> Framed(s, true)
  {
    PrintedTail(s, true, rest);
    if Framed(s, true) {
      QuotedRoundTrip(s, rest);
    } else if ParseQuoted(PrintString(s, true) + rest) == Ok(s, rest) {
      ReadsBackIsFramed(s, true, rest);
    }
  }

  lemma LooseRoundTripIff(s: seq<byte>, rest: seq<byte>)
    ensures ParseLoose(PrintString(s, false) + rest) == Ok(s, rest) <==> Framed(s, false)
  {
    PrintedTail(s, false, rest);
    if Framed(s, false) {
      LooseRoundTrip(s, rest);
    } else if ParseLoose(PrintString(s, false) + rest) == Ok(s, rest) {
      ReadsBackIsFramed(s, false, rest);
    }
  }
}

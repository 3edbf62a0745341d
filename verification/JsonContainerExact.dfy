/**
 The exact condition for pairs and lists: they read back as themselves if and only if all
 their strings are framed.
 */
module JsonContainerExact {
  import opened Bytes
  import opened Sequences
  import opened Store
  import opened JsonNumber
  import opened JsonString
  import opened JsonStringExact
  import opened JsonContainer

  // ---------------------------------------------------------------- any container

  /** An element that reads as itself in front of some text is good, and good elements fit into the container. */
  ghost predicate ExactBy<T(!new)>(good: T -> bool, print1: T -> seq<byte>, read: seq<byte> -> Parse<T>, right: byte) {
    && (forall x :: good(x) ==> Fits(print1, read, x, right))
    && (forall x :: print1(x) != [] && StartsValue(print1(x)) && print1(x)[0] != right)
    && (forall x, rest :: read(print1(x) + rest).Ok? && read(print1(x) + rest).value == x ==> good(x))
  }

  /** The first element of what is read was read first. */
  lemma FirstItem<T>(read: seq<byte> -> Parse<T>, text: seq<byte>, right: byte, xs: seq<T>, rest: seq<byte>)
    requires Consumes(read) && StartsValue(text) && text[0] != right && xs != []
    requires ReadItems(read, text, right) == Ok(xs, rest)
    ensures read(text).Ok? && read(text).value == xs[0]
  {
  }

  lemma MoreItems<T>(read: seq<byte> -> Parse<T>, text: seq<byte>, right: byte, xs: seq<T>, rest: seq<byte>,
                     tail: seq<byte>)
    requires Consumes(read) && StartsValue(text) && text[0] != right && right != COMMA && |xs| > 1
    requires read(text) == Ok(xs[0], [COMMA] + tail) && ReadItems(read, text, right) == Ok(xs, rest)
    ensures ReadItems(read, tail, right) == Ok(xs[1..], rest)
  {
    assert ([COMMA] + tail)[1..] == tail;
  }

  lemma {:induction false} ItemsExact<T(!new)>(good: T -> bool, print1: T -> seq<byte>, read: seq<byte> -> Parse<T>,
                                               xs: seq<T>, right: byte, rest: seq<byte>)
    requires Consumes(read) && ExactBy(good, print1, read, right) && right != COMMA
    requires ReadItems(read, PrintItems(print1, xs) + ([right] + rest), right) == Ok(xs, rest)
    ensures forall i :: 0 <= i < |xs| ==> good(xs[i])
    decreases |xs|
  {
    if xs != [] {
      var close := [right] + rest;
      var after := AfterFirst(print1, xs, close);
      ItemsText(print1, xs, close);
      var text := print1(xs[0]) + after;
      FirstItem(read, text, right, xs, rest);
      assert good(xs[0]);
      if |xs| > 1 {
        assert Fits(print1, read, xs[0], right) && StopsItem(after, right);
        MoreItems(read, text, right, xs, rest, PrintItems(print1, xs[1..]) + close);
        ItemsExact(good, print1, read, xs[1..], right, rest);
        assert forall i | 0 < i < |xs| :: xs[i] == xs[1..][i - 1];
      }
    }
  }

  lemma ContainerRoundTripIff<T(!new)>(good: T -> bool, print1: T -> seq<byte>, read: seq<byte> -> Parse<T>,
                                       xs: seq<T>, left: byte, right: byte, rest: seq<byte>)
    requires Consumes(read) && ExactBy(good, print1, read, right)
    requires !IsSpace(right) && right != SLASH && right != COMMA && left != 110
    ensures ParseContainer(read, PrintContainer(print1, xs, left, right) + rest, left, right) == Ok(xs, rest)
            <==> forall i :: 0 <= i < |xs| ==> good(xs[i])
  {
    var text := PrintContainer(print1, xs, left, right) + rest;
    assert text[0] == left && text[1..] == PrintItems(print1, xs) + ([right] + rest);
    if forall i :: 0 <= i < |xs| ==> good(xs[i]) {
      ContainerRoundTrip(print1, read, xs, left, right, rest);
    } else if ParseContainer(read, text, left, right) == Ok(xs, rest) {
      ItemsExact(good, print1, read, xs, right, rest);
    }
  }

  // ---------------------------------------------------------------- pairs

  lemma KeyPartExact(e: Entry, rest: seq<byte>)
    requires ParsePair(PrintPair(e) + rest).Ok? && ParsePair(PrintPair(e) + rest).value == e
    ensures Framed(e.0, true)
  {
    var value := PrintString(e.1, false) + rest;
    AssociativeFour(PrintString(e.0, true), [COLON], PrintString(e.1, false), rest);
    PrintedTail(e.0, true, [COLON] + value);
    ReadsBackIsFramed(e.0, true, [COLON] + value);
  }

  lemma ValuePartExact(e: Entry, rest: seq<byte>)
    requires Framed(e.0, true)
    requires ParsePair(PrintPair(e) + rest).Ok? && ParsePair(PrintPair(e) + rest).value == e
    ensures Framed(e.1, false)
  {
    var value := PrintString(e.1, false) + rest;
    AssociativeFour(PrintString(e.0, true), [COLON], PrintString(e.1, false), rest);
    QuotedRoundTrip(e.0, [COLON] + value);
    assert ([COLON] + value)[1..] == value;
    PrintedTail(e.1, false, rest);
    ReadsBackIsFramed(e.1, false, rest);
  }

  lemma PairRoundTripIff(e: Entry, rest: seq<byte>)
    ensures ParsePair(PrintPair(e) + rest) == Ok(e, rest) <==> FramedEntry(e)
  {
    if FramedEntry(e) {
      PairRoundTrip(e, rest);
    } else if ParsePair(PrintPair(e) + rest) == Ok(e, rest) {
      KeyPartExact(e, rest);
      ValuePartExact(e, rest);
    }
  }

  lemma PairsAreExact()
    ensures ExactBy(FramedEntry, PrintPair, ParsePair, RBRACE)
  {
    forall e | FramedEntry(e) ensures Fits(PrintPair, ParsePair, e, RBRACE) {
      PairFits(e);
    }
    forall e: Entry ensures PrintPair(e) != [] && PrintPair(e)[0] == QUOTE {
    }
    forall e, rest | ParsePair(PrintPair(e) + rest).Ok? && ParsePair(PrintPair(e) + rest).value == e
      ensures FramedEntry(e)
    {
      KeyPartExact(e, rest);
      ValuePartExact(e, rest);
    }
  }

  /** A list of pairs reads back, in order and up to the following text, if and only if every pair is framed. */
  lemma PairsRoundTripIff(es: seq<Entry>, rest: seq<byte>)
    ensures ParsePairs(PrintPairs(es) + rest) == Ok(es, rest) <==> forall i :: 0 <= i < |es| ==> FramedEntry(es[i])
  {
    PairReaderConsumes();
    PairsAreExact();
    ContainerRoundTripIff(FramedEntry, PrintPair, ParsePair, es, LBRACE, RBRACE, rest);
    assert (PrintPairs(es) + rest)[0] == LBRACE;
  }

  // ---------------------------------------------------------------- keys

  predicate FramedKey(k: Key) {
    Framed(k, true)
  }

  lemma KeyExact(k: Key, rest: seq<byte>)
    requires ParseQuoted(PrintKey(k) + rest).Ok? && ParseQuoted(PrintKey(k) + rest).value == k
    ensures FramedKey(k)
  {
    PrintedTail(k, true, rest);
    ReadsBackIsFramed(k, true, rest);
  }

  lemma KeysAreExact()
    ensures ExactBy(FramedKey, PrintKey, ParseQuoted, RBRACKET)
  {
    forall k | FramedKey(k) ensures Fits(PrintKey, ParseQuoted, k, RBRACKET) {
      forall rest | StopsItem(rest, RBRACKET) ensures ParseQuoted(PrintKey(k) + rest) == Ok(k, rest) {
        QuotedRoundTrip(k, rest);
      }
    }
    forall k, rest | ParseQuoted(PrintKey(k) + rest).Ok? && ParseQuoted(PrintKey(k) + rest).value == k
      ensures FramedKey(k)
    {
      KeyExact(k, rest);
    }
  }

  lemma KeysRoundTripIff(ks: seq<Key>, rest: seq<byte>)
    ensures ParseKeys(PrintKeys(ks) + rest) == Ok(ks, rest) <==> forall i :: 0 <= i < |ks| ==> FramedKey(ks[i])
  {
    assert Consumes(ParseQuoted);
    KeysAreExact();
    ContainerRoundTripIff(FramedKey, PrintKey, ParseQuoted, ks, LBRACKET, RBRACKET, rest);
  }
}

/**
 Bracketed lists of JSON values, of key/value pairs in particular: printing, reading, and
 the maps read from them.

 The printer and the reader are the same for every element type; they are given the
 element's own printer and reader.
 */
module JsonContainer {
  import opened Bytes
  import opened Sequences
  import opened Store
  import opened JsonNumber
  import opened JsonString

  const COMMA: byte := 44
  const COLON: byte := 58
  const LBRACE: byte := 123
  const RBRACE: byte := 125
  const LBRACKET: byte := 91
  const RBRACKET: byte := 93

  /** An element reader takes something from the text whenever it succeeds. */
  ghost predicate Consumes<T>(read: seq<byte> -> Parse<T>) {
    forall text :: read(text).Ok? ==> |read(text).rest| < |text|
  }

  // ---------------------------------------------------------------- any container

  function PrintItems<T>(print1: T -> seq<byte>, xs: seq<T>): seq<byte>
    decreases |xs|
  {
    if xs == [] then []
    else if |xs| == 1 then print1(xs[0])
    else print1(xs[0]) + [COMMA] + PrintItems(print1, xs[1..])
  }

  function PrintContainer<T>(print1: T -> seq<byte>, xs: seq<T>, left: byte, right: byte): seq<byte> {
    [left] + PrintItems(print1, xs) + [right]
  }

  method WriteContainer<T>(print1: T -> seq<byte>, xs: seq<T>, left: byte, right: byte) returns (out: seq<byte>)
    ensures out == PrintContainer(print1, xs, left, right)
  {
    out := [left];
    var i := 0;
    while i < |xs|
      invariant i <= |xs|
      invariant out + PrintItems(print1, xs[i..]) == [left] + PrintItems(print1, xs)
    {
      assert xs[i..][1..] == xs[i + 1..];
      out := out + print1(xs[i]);
      i := i + 1;
      if i < |xs| {
        out := out + [COMMA];
      }
    }
    out := out + [right];
  }

  /** The reader's loop, after the opening bracket. */
  function ReadItems<T>(read: seq<byte> -> Parse<T>, text: seq<byte>, right: byte): (r: Parse<seq<T>>)
    requires Consumes(read)
    ensures r.Ok? ==> |r.rest| < |text|
    decreases |text|
  {
    var t0 := SkipSpace(text, false);
    if t0 == [] then Fail
    else if t0[0] == right then Ok([], t0[1..])
    else
      match read(t0)
      case Fail => Fail
      case Ok(x, after) =>
        var t1 := SkipSpace(after, false);
        if t1 == [] then Fail
        else if t1[0] == right then Ok([x], t1[1..])
        else if t1[0] != COMMA then Fail
        else
          match ReadItems(read, t1[1..], right)
          case Fail => Fail
          case Ok(xs, rest) => Ok([x] + xs, rest)
  }

  /** Null reads as the empty container. */
  function ParseContainer<T>(read: seq<byte> -> Parse<T>, text: seq<byte>, left: byte, right: byte): (r: Parse<seq<T>>)
    requires Consumes(read)
    ensures r.Ok? ==> |r.rest| < |text|
  {
    if IsNull(text) then ParseNull(text, [])
    else if text == [] || text[0] != left then Fail
    else ReadItems(read, text[1..], right)
  }

  function Extend<T>(xs: seq<T>, r: Parse<seq<T>>): Parse<seq<T>> {
    match r
    case Fail => Fail
    case Ok(ys, rest) => Ok(xs + ys, rest)
  }

  lemma ExtendStep<T>(read: seq<byte> -> Parse<T>, text: seq<byte>, right: byte, xs: seq<T>, x: T, more: seq<byte>)
    requires Consumes(read)
    requires var t0 := SkipSpace(text, false);
             t0 != [] && t0[0] != right && read(t0).Ok? && read(t0).value == x
             && var t1 := SkipSpace(read(t0).rest, false);
                t1 != [] && t1[0] != right && t1[0] == COMMA && more == t1[1..]
    ensures Extend(xs, ReadItems(read, text, right)) == Extend(xs + [x], ReadItems(read, more, right))
  {
    var r := ReadItems(read, more, right);
    if r.Ok? {
      Associative(xs, [x], r.value);
    }
  }

  method ReadContainer<T>(read: seq<byte> -> Parse<T>, text: seq<byte>, left: byte, right: byte)
          returns (r: Parse<seq<T>>)
    requires Consumes(read)
    ensures r == ParseContainer(read, text, left, right)
  {
    if IsNull(text) {
      return ParseNull(text, []);
    }
    if text == [] || text[0] != left {
      return Fail;
    }
    var beg, xs := text[1..], [];
    ghost var whole := ReadItems(read, beg, right);
    assert Extend([], whole) == whole by {
      if whole.Ok? { assert [] + whole.value == whole.value; }
    }
    while true
      invariant Extend(xs, ReadItems(read, beg, right)) == whole
      decreases |beg|
    {
      var t0 := SkipSpace(beg, false);
      if t0 == [] {
        return Fail;
      }
      if t0[0] == right {
        assert xs + [] == xs;
        return Ok(xs, t0[1..]);
      }
      var one := read(t0);
      if one.Fail? {
        return Fail;
      }
      var t1 := SkipSpace(one.rest, false);
      if t1 == [] {
        return Fail;
      }
      if t1[0] == right {
        return Ok(xs + [one.value], t1[1..]);
      }
      if t1[0] != COMMA {
        return Fail;
      }
      ExtendStep(read, beg, right, xs, one.value, t1[1..]);
      xs, beg := xs + [one.value], t1[1..];
    }
  }

  /** The element's printer and reader fit together inside this container. */
  ghost predicate Fits<T>(print1: T -> seq<byte>, read: seq<byte> -> Parse<T>, x: T, right: byte) {
    && print1(x) != []
    && !IsSpace(print1(x)[0]) && print1(x)[0] != SLASH && print1(x)[0] != right
    && forall rest :: StopsItem(rest, right) ==> read(print1(x) + rest) == Ok(x, rest)
  }

  predicate StopsItem(rest: seq<byte>, right: byte) {
    rest != [] && (rest[0] == COMMA || rest[0] == right)
  }

  lemma ReadLast<T>(read: seq<byte> -> Parse<T>, text: seq<byte>, right: byte, x: T, rest: seq<byte>)
    requires Consumes(read) && !IsSpace(right) && right != SLASH
    requires text != [] && !IsSpace(text[0]) && text[0] != SLASH && text[0] != right
    requires read(text) == Ok(x, [right] + rest)
    ensures ReadItems(read, text, right) == Ok([x], rest)
  {
    assert ([right] + rest)[1..] == rest;
  }

  lemma ReadMore<T>(read: seq<byte> -> Parse<T>, text: seq<byte>, right: byte, x: T, tail: seq<byte>, xs: seq<T>,
                    rest: seq<byte>)
    requires Consumes(read) && right != COMMA
    requires text != [] && !IsSpace(text[0]) && text[0] != SLASH && text[0] != right
    requires read(text) == Ok(x, [COMMA] + tail) && ReadItems(read, tail, right) == Ok(xs, rest)
    ensures ReadItems(read, text, right) == Ok([x] + xs, rest)
  {
    assert ([COMMA] + tail)[1..] == tail;
  }

  /** What comes after the first element of a printed list. */
  function AfterFirst<T>(print1: T -> seq<byte>, xs: seq<T>, close: seq<byte>): seq<byte>
    requires xs != []
  {
    if |xs| == 1 then close else [COMMA] + (PrintItems(print1, xs[1..]) + close)
  }

  lemma ItemsText<T>(print1: T -> seq<byte>, xs: seq<T>, close: seq<byte>)
    requires xs != []
    ensures PrintItems(print1, xs) + close == print1(xs[0]) + AfterFirst(print1, xs, close)
  {
    if |xs| > 1 {
      Associative(print1(xs[0]) + [COMMA], PrintItems(print1, xs[1..]), close);
      Associative(print1(xs[0]), [COMMA], PrintItems(print1, xs[1..]) + close);
    }
  }

  lemma ReadFirst<T>(print1: T -> seq<byte>, read: seq<byte> -> Parse<T>, x: T, right: byte, after: seq<byte>)
    requires Fits(print1, read, x, right) && StopsItem(after, right)
    ensures StartsWith(read, print1(x) + after, right, x, after)
  {
  }

  /** This text starts with an element that is read up to `after`. */
  ghost predicate StartsWith<T>(read: seq<byte> -> Parse<T>, text: seq<byte>, right: byte, x: T, after: seq<byte>) {
    text != [] && !IsSpace(text[0]) && text[0] != SLASH && text[0] != right && read(text) == Ok(x, after)
  }

  lemma OneItem<T>(print1: T -> seq<byte>, read: seq<byte> -> Parse<T>, xs: seq<T>, right: byte, rest: seq<byte>)
    requires Consumes(read) && !IsSpace(right) && right != SLASH && right != COMMA && |xs| == 1
    requires StartsWith(read, print1(xs[0]) + ([right] + rest), right, xs[0], [right] + rest)
    ensures ReadItems(read, PrintItems(print1, xs) + ([right] + rest), right) == Ok(xs, rest)
  {
    ItemsText(print1, xs, [right] + rest);
    ReadLast(read, print1(xs[0]) + ([right] + rest), right, xs[0], rest);
    assert xs == [xs[0]];
  }

  lemma OneMoreItem<T>(print1: T -> seq<byte>, read: seq<byte> -> Parse<T>, xs: seq<T>, right: byte, rest: seq<byte>,
                       tail: seq<byte>)
    requires Consumes(read) && right != COMMA && |xs| > 1
    requires tail == PrintItems(print1, xs[1..]) + ([right] + rest)
    requires StartsWith(read, print1(xs[0]) + ([COMMA] + tail), right, xs[0], [COMMA] + tail)
    requires ReadItems(read, tail, right) == Ok(xs[1..], rest)
    ensures ReadItems(read, PrintItems(print1, xs) + ([right] + rest), right) == Ok(xs, rest)
  {
    ItemsText(print1, xs, [right] + rest);
    ReadMore(read, print1(xs[0]) + ([COMMA] + tail), right, xs[0], tail, xs[1..], rest);
    assert xs == [xs[0]] + xs[1..];
  }

  lemma NoItems<T>(read: seq<byte> -> Parse<T>, right: byte, rest: seq<byte>)
    requires Consumes(read) && !IsSpace(right) && right != SLASH
    ensures ReadItems(read, [] + ([right] + rest), right) == Ok([], rest)
  {
    assert [] + ([right] + rest) == [right] + rest && ([right] + rest)[1..] == rest;
  }

  lemma {:induction false} ItemsRoundTrip<T>(print1: T -> seq<byte>, read: seq<byte> -> Parse<T>, xs: seq<T>,
                                             right: byte, rest: seq<byte>)
    requires Consumes(read) && !IsSpace(right) && right != SLASH && right != COMMA
    requires forall i :: 0 <= i < |xs| ==> Fits(print1, read, xs[i], right)
    ensures ReadItems(read, PrintItems(print1, xs) + ([right] + rest), right) == Ok(xs, rest)
    decreases |xs|
  {
    if xs == [] {
      NoItems(read, right, rest);
    } else {
      ReadFirst(print1, read, xs[0], right, AfterFirst(print1, xs, [right] + rest));
      if |xs| == 1 {
        OneItem(print1, read, xs, right, rest);
      } else {
        ItemsRoundTrip(print1, read, xs[1..], right, rest);
        OneMoreItem(print1, read, xs, right, rest, PrintItems(print1, xs[1..]) + ([right] + rest));
      }
    }
  }

  /** Reading a printed container gives back the same elements in the same order, and stops after the bracket. */
  lemma ContainerRoundTrip<T>(print1: T -> seq<byte>, read: seq<byte> -> Parse<T>, xs: seq<T>, left: byte,
                              right: byte, rest: seq<byte>)
    requires Consumes(read) && !IsSpace(right) && right != SLASH && right != COMMA && left != 110
    requires forall i :: 0 <= i < |xs| ==> Fits(print1, read, xs[i], right)
    ensures ParseContainer(read, PrintContainer(print1, xs, left, right) + rest, left, right) == Ok(xs, rest)
  {
    ItemsRoundTrip(print1, read, xs, right, rest);
    assert (PrintContainer(print1, xs, left, right) + rest)[1..] == PrintItems(print1, xs) + ([right] + rest);
  }

  // ---------------------------------------------------------------- pairs

  function PrintPair(e: Entry): seq<byte> {
    PrintString(e.0, true) + [COLON] + PrintString(e.1, false)
  }

  function ParsePair(text: seq<byte>): (r: Parse<Entry>)
    ensures r.Ok? ==> |r.rest| < |text|
  {
    match ParseQuoted(text)
    case Fail => Fail
    case Ok(k, after) =>
      var t0 := SkipSpace(after, false);
      if t0 == [] || t0[0] != COLON then Fail
      else
        var t1 := SkipSpace(t0[1..], false);
        if t1 == [] then Fail
        else
          match ParseLoose(t1)
          case Fail => Fail
          case Ok(v, rest) => Ok((k, v), rest)
  }

  lemma PairReaderConsumes()
    ensures Consumes(ParsePair)
  {
  }

  predicate FramedEntry(e: Entry) {
    Framed(e.0, true) && Framed(e.1, false)
  }

  lemma PairRoundTrip(e: Entry, rest: seq<byte>)
    requires FramedEntry(e)
    ensures ParsePair(PrintPair(e) + rest) == Ok(e, rest)
  {
    var value := PrintString(e.1, false) + rest;
    AssociativeFour(PrintString(e.0, true), [COLON], PrintString(e.1, false), rest);
    QuotedRoundTrip(e.0, [COLON] + value);
    LooseRoundTrip(e.1, rest);
    AfterKey(PrintString(e.0, true) + ([COLON] + value), e.0, value, e.1, rest);
  }

  lemma AfterKey(text: seq<byte>, k: Key, value: seq<byte>, v: Value, rest: seq<byte>)
    requires ParseQuoted(text) == Ok(k, [COLON] + value)
    requires value != [] && value[0] == QUOTE && ParseLoose(value) == Ok(v, rest)
    ensures ParsePair(text) == Ok((k, v), rest)
  {
    assert ([COLON] + value)[1..] == value;
  }

  lemma PairFits(e: Entry)
    requires FramedEntry(e)
    ensures Fits(PrintPair, ParsePair, e, RBRACE)
  {
    assert PrintPair(e)[0] == QUOTE;
    forall rest | StopsItem(rest, RBRACE) ensures ParsePair(PrintPair(e) + rest) == Ok(e, rest) {
      PairRoundTrip(e, rest);
    }
  }

  function PrintPairs(es: seq<Entry>): seq<byte> {
    PrintContainer(PrintPair, es, LBRACE, RBRACE)
  }

  /** The pair-vector reader: an empty bracket pair also reads as no pairs. */
  function ParsePairs(text: seq<byte>): (r: Parse<seq<Entry>>)
    ensures r.Ok? ==> |r.rest| < |text|
  {
    PairReaderConsumes();
    if [LBRACKET, RBRACKET] <= text then Ok([], text[2..])
    else ParseContainer(ParsePair, text, LBRACE, RBRACE)
  }

  // ---------------------------------------------------------------- lists of keys

  function PrintKey(k: Key): seq<byte> {
    PrintString(k, true)
  }

  function PrintKeys(ks: seq<Key>): seq<byte> {
    PrintContainer(PrintKey, ks, LBRACKET, RBRACKET)
  }

  function ParseKeys(text: seq<byte>): (r: Parse<seq<Key>>)
    ensures r.Ok? ==> |r.rest| < |text|
  {
    assert Consumes(ParseQuoted);
    ParseContainer(ParseQuoted, text, LBRACKET, RBRACKET)
  }

  // ---------------------------------------------------------------- maps

  /** Inserting pairs into a map keeps the first value given for a key. */
  function MapOf(es: seq<Entry>): map<Key, Value>
    decreases |es|
  {
    if es == [] then map[] else MapOf(es[1..])[es[0].0 := es[0].1]
  }

  /** Of several pairs for a key the first counts. */
  lemma {:induction false} MapOfFirst(es: seq<Entry>, k: Key)
    ensures k in MapOf(es) <==> exists i :: 0 <= i < |es| && es[i].0 == k
    ensures forall i :: 0 <= i < |es| && es[i].0 == k && (forall j :: 0 <= j < i ==> es[j].0 != k) ==>
              k in MapOf(es) && MapOf(es)[k] == es[i].1
    decreases |es|
  {
    if es != [] {
      MapOfFirst(es[1..], k);
      assert forall i | 0 < i < |es| :: es[i] == es[1..][i - 1];
    }
  }

  function ParseMap(text: seq<byte>): (r: Parse<map<Key, Value>>)
  {
    PairReaderConsumes();
    match ParseContainer(ParsePair, text, LBRACE, RBRACE)
    case Fail => Fail
    case Ok(es, rest) => Ok(MapOf(es), rest)
  }

  /** A listing of a map in whatever order its container visits it. */
  ghost predicate Lists(order: seq<Key>, m: map<Key, Value>) {
    && (forall k :: k in order <==> k in m)
    && forall i, j :: 0 <= i < j < |order| ==> order[i] != order[j]
  }

  function PrintMap(m: map<Key, Value>, order: seq<Key>): seq<byte>
    requires forall k :: k in order ==> k in m
  {
    PrintPairs(EntriesAt(m, order))
  }

  lemma {:induction false} MapOfListing(m: map<Key, Value>, order: seq<Key>)
    requires forall k :: k in order ==> k in m
    ensures MapOf(EntriesAt(m, order)) == map k | k in order :: m[k]
    decreases |order|
  {
    if order != [] {
      assert EntriesAt(m, order)[1..] == EntriesAt(m, order[1..]);
      MapOfListing(m, order[1..]);
      assert order == [order[0]] + order[1..];
    }
  }

  predicate FramedMap(m: map<Key, Value>) {
    forall k :: k in m ==> Framed(k, true) && Framed(m[k], false)
  }

  /** Whatever the printing order, the printed map reads back as the same map. */
  lemma MapRoundTrip(m: map<Key, Value>, order: seq<Key>, rest: seq<byte>)
    requires Lists(order, m) && FramedMap(m)
    ensures ParseMap(PrintMap(m, order) + rest) == Ok(m, rest)
  {
    var es := EntriesAt(m, order);
    PairReaderConsumes();
    forall i | 0 <= i < |es| ensures Fits(PrintPair, ParsePair, es[i], RBRACE) {
      assert order[i] in m;
      PairFits(es[i]);
    }
    ContainerRoundTrip(PrintPair, ParsePair, es, LBRACE, RBRACE, rest);
    MapOfListing(m, order);
    assert (map k | k in order :: m[k]) == m;
  }
}

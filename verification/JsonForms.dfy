/**
 What the readers accept and the printers write, character by character: blanks and
 comments, null, bare words, the escapes of section 7 of RFC 8259, and leading zeros.
 */
module JsonForms {
  import opened Bytes
  import opened Sequences
  import opened Store
  import opened JsonNumber
  import opened JsonString
  import opened JsonContainer

  // ---------------------------------------------------------------- blanks and comments

  predicate AllBlank(pad: seq<byte>) {
    forall i :: 0 <= i < |pad| ==> pad[i] == 32 || pad[i] == 9 || pad[i] == 13 || pad[i] == 10
  }

  /** Blanks in front of anything are skipped, and nothing else with them. */
  lemma {:induction false} SkipsBlanks(pad: seq<byte>, text: seq<byte>)
    requires AllBlank(pad)
    ensures SkipSpace(pad + text, false) == SkipSpace(text, false)
    decreases |pad|
  {
    if pad == [] {
      assert [] + text == text;
    } else {
      assert (pad + text)[1..] == pad[1..] + text;
      SkipsBlanks(pad[1..], text);
    }
  }

  lemma PadThenValue(pad: seq<byte>, text: seq<byte>)
    requires AllBlank(pad) && StartsValue(text)
    ensures SkipSpace(pad + text, false) == text
  {
    SkipsBlanks(pad, text);
  }

  /** In text free of slashes only blanks are skipped. */
  lemma {:induction false} SkipsOnlyBlanks(text: seq<byte>)
    requires 47 !in text
    ensures AllBlank(text[..|text| - |SkipSpace(text, false)|])
    decreases |text|
  {
    if text != [] && IsSpace(text[0]) {
      SkipsOnlyBlanks(text[1..]);
      var n := |text[1..]| - |SkipSpace(text[1..], false)|;
      assert text[..n + 1] == [text[0]] + text[1..][..n];
    }
  }

  /** The inside of a comment, its opening star included, up to the star that ends it. */
  ghost predicate Unended(body: seq<byte>) {
    forall i :: 0 <= i < |body| - 1 ==> !(body[i] == 42 && body[i + 1] == 47)
  }

  lemma {:induction false} SkipsInside(body: seq<byte>, text: seq<byte>)
    requires Unended(body + [42]) && (body != [] ==> body[0] != 42 || |body| == 1 || body[1] != 47)
    ensures SkipSpace(body + ([42, 47] + text), true) == SkipSpace([47] + text, false)
    decreases |body|
  {
    if body == [] {
      assert [] + ([42, 47] + text) == [42, 47] + text && ([42, 47] + text)[1..] == [47] + text;
    } else {
      var all := body + ([42, 47] + text);
      assert all[1..] == body[1..] + ([42, 47] + text);
      assert (body + [42])[0] == body[0];
      assert all[1] == (body + [42])[1];
      forall i | 0 <= i < |body[1..] + [42]| - 1
        ensures !((body[1..] + [42])[i] == 42 && (body[1..] + [42])[i + 1] == 47)
      {
        assert (body[1..] + [42])[i] == (body + [42])[i + 1];
        assert (body[1..] + [42])[i + 1] == (body + [42])[i + 2];
      }
      if |body| > 1 {
        assert body[1..][0] == (body + [42])[1];
        assert |body| > 2 ==> body[1..][1] == (body + [42])[2];
      }
      SkipsInside(body[1..], text);
    }
  }

  /** A comment in front of anything that does not start with a star is skipped. */
  lemma SkipsComment(inside: seq<byte>, text: seq<byte>)
    requires Unended([42] + inside + [42]) && (text == [] || text[0] != 42)
    ensures SkipSpace([47, 42] + inside + [42, 47] + text, false) == SkipSpace(text, false)
  {
    var body := [42] + inside;
    var all := [47, 42] + inside + [42, 47] + text;
    assert all[1..] == body + ([42, 47] + text);
    assert all[0] == 47 && all[1] == 42;
    assert inside != [] ==> body[1] == ([42] + inside + [42])[1] && ([42] + inside + [42])[0] == 42;
    SkipsInside(body, text);
    assert ([47] + text)[1..] == text;
  }

  // ---------------------------------------------------------------- laid-out containers

  /** The element is read wherever it stands. */
  ghost predicate ReadsAnywhere<T>(print1: T -> seq<byte>, read: seq<byte> -> Parse<T>, x: T, right: byte) {
    && StartsValue(print1(x)) && print1(x)[0] != right
    && forall rest :: read(print1(x) + rest) == Ok(x, rest)
  }

  /** The elements with the same blanks in front of and behind each, and inside empty brackets. */
  function LaidOut<T>(print1: T -> seq<byte>, xs: seq<T>, pad: seq<byte>): seq<byte>
    decreases |xs|
  {
    if xs == [] then pad
    else if |xs| == 1 then pad + (print1(xs[0]) + pad)
    else pad + (print1(xs[0]) + (pad + ([COMMA] + LaidOut(print1, xs[1..], pad))))
  }

  lemma PaddedItem<T>(print1: T -> seq<byte>, read: seq<byte> -> Parse<T>, x: T, pad: seq<byte>, after: seq<byte>,
                      right: byte)
    requires AllBlank(pad) && ReadsAnywhere(print1, read, x, right)
    ensures var t0 := SkipSpace(pad + (print1(x) + after), false);
            t0 == print1(x) + after && t0 != [] && t0[0] != right && read(t0) == Ok(x, after)
  {
    PadThenValue(pad, print1(x) + after);
  }

  lemma LastLaidOut<T>(print1: T -> seq<byte>, read: seq<byte> -> Parse<T>, x: T, pad: seq<byte>, right: byte,
                       rest: seq<byte>)
    requires Consumes(read) && AllBlank(pad) && ReadsAnywhere(print1, read, x, right)
    requires StartsValue([right])
    ensures ReadItems(read, pad + (print1(x) + (pad + ([right] + rest))), right) == Ok([x], rest)
  {
    PaddedItem(print1, read, x, pad, pad + ([right] + rest), right);
    PadThenValue(pad, [right] + rest);
    assert ([right] + rest)[1..] == rest;
  }

  lemma MoreLaidOut<T>(print1: T -> seq<byte>, read: seq<byte> -> Parse<T>, x: T, pad: seq<byte>, right: byte,
                       more: seq<byte>, xs: seq<T>, rest: seq<byte>)
    requires Consumes(read) && AllBlank(pad) && ReadsAnywhere(print1, read, x, right)
    requires right != COMMA && ReadItems(read, more, right) == Ok(xs, rest)
    ensures ReadItems(read, pad + (print1(x) + (pad + ([COMMA] + more))), right) == Ok([x] + xs, rest)
  {
    PaddedItem(print1, read, x, pad, pad + ([COMMA] + more), right);
    PadThenValue(pad, [COMMA] + more);
    assert ([COMMA] + more)[1..] == more;
  }

  lemma EmptyLaidOut<T>(read: seq<byte> -> Parse<T>, pad: seq<byte>, right: byte, rest: seq<byte>)
    requires Consumes(read) && AllBlank(pad) && StartsValue([right])
    ensures ReadItems(read, pad + ([right] + rest), right) == Ok([], rest)
  {
    PadThenValue(pad, [right] + rest);
    assert ([right] + rest)[1..] == rest;
  }

  lemma LaidOutText<T>(print1: T -> seq<byte>, xs: seq<T>, pad: seq<byte>, close: seq<byte>)
    requires xs != []
    ensures LaidOut(print1, xs, pad) + close
         == if |xs| == 1 then pad + (print1(xs[0]) + (pad + close))
            else pad + (print1(xs[0]) + (pad + ([COMMA] + (LaidOut(print1, xs[1..], pad) + close))))
  {
    if |xs| == 1 {
      Nested(pad, print1(xs[0]), pad, close);
    } else {
      var more := LaidOut(print1, xs[1..], pad);
      Nested(pad, print1(xs[0]), pad + ([COMMA] + more), close);
      Nested(pad, [COMMA], more, close);
    }
  }

  lemma Nested(a: seq<byte>, b: seq<byte>, c: seq<byte>, d: seq<byte>)
    ensures (a + (b + c)) + d == a + (b + (c + d))
  {
  }

  lemma OneLaidOut<T>(print1: T -> seq<byte>, read: seq<byte> -> Parse<T>, xs: seq<T>, pad: seq<byte>,
                      right: byte, rest: seq<byte>)
    requires Consumes(read) && AllBlank(pad) && StartsValue([right])
    requires |xs| == 1 && ReadsAnywhere(print1, read, xs[0], right)
    ensures ReadItems(read, LaidOut(print1, xs, pad) + ([right] + rest), right) == Ok(xs, rest)
  {
    LaidOutText(print1, xs, pad, [right] + rest);
    LastLaidOut(print1, read, xs[0], pad, right, rest);
    assert xs == [xs[0]];
  }

  lemma OneMoreLaidOut<T>(print1: T -> seq<byte>, read: seq<byte> -> Parse<T>, xs: seq<T>, pad: seq<byte>,
                          right: byte, rest: seq<byte>, more: seq<byte>)
    requires Consumes(read) && AllBlank(pad) && right != COMMA
    requires |xs| > 1 && ReadsAnywhere(print1, read, xs[0], right)
    requires more == LaidOut(print1, xs[1..], pad) + ([right] + rest)
    requires ReadItems(read, more, right) == Ok(xs[1..], rest)
    ensures ReadItems(read, LaidOut(print1, xs, pad) + ([right] + rest), right) == Ok(xs, rest)
  {
    LaidOutText(print1, xs, pad, [right] + rest);
    MoreLaidOut(print1, read, xs[0], pad, right, more, xs[1..], rest);
    assert xs == [xs[0]] + xs[1..];
  }

  lemma {:induction false} LaidOutItems<T>(print1: T -> seq<byte>, read: seq<byte> -> Parse<T>, xs: seq<T>,
                                           pad: seq<byte>, right: byte, rest: seq<byte>)
    requires Consumes(read) && AllBlank(pad) && StartsValue([right]) && right != COMMA
    requires forall i :: 0 <= i < |xs| ==> ReadsAnywhere(print1, read, xs[i], right)
    ensures ReadItems(read, LaidOut(print1, xs, pad) + ([right] + rest), right) == Ok(xs, rest)
    decreases |xs|
  {
    if xs == [] {
      EmptyLaidOut(read, pad, right, rest);
    } else {
      assert ReadsAnywhere(print1, read, xs[0], right);
      if |xs| == 1 {
        OneLaidOut(print1, read, xs, pad, right, rest);
      } else {
        LaidOutItems(print1, read, xs[1..], pad, right, rest);
        OneMoreLaidOut(print1, read, xs, pad, right, rest, LaidOut(print1, xs[1..], pad) + ([right] + rest));
      }
    }
  }

  /** A pair with blanks around its colon. */
  function LaidOutPair(e: Entry, pad: seq<byte>): seq<byte> {
    PrintString(e.0, true) + (pad + ([58] + (pad + PrintString(e.1, false))))
  }

  lemma LaidOutPairReads(e: Entry, pad: seq<byte>, rest: seq<byte>)
    requires FramedEntry(e) && AllBlank(pad)
    ensures ParsePair(LaidOutPair(e, pad) + rest) == Ok(e, rest)
  {
    var value := PrintString(e.1, false) + rest;
    var tail := [58] + (pad + value);
    assert LaidOutPair(e, pad) + rest == PrintString(e.0, true) + (pad + tail);
    QuotedRoundTrip(e.0, pad + tail);
    PadThenValue(pad, tail);
    assert tail[1..] == pad + value;
    PadThenValue(pad, value);
    LooseRoundTrip(e.1, rest);
  }

  /** Pairs laid out with any blanks around every string, colon, comma and bracket read as the same pairs. */
  lemma LaidOutPairsRead(es: seq<Entry>, pad: seq<byte>, rest: seq<byte>)
    requires AllBlank(pad) && forall i :: 0 <= i < |es| ==> FramedEntry(es[i])
    ensures ParsePairs([123] + (LaidOut(e => LaidOutPair(e, pad), es, pad) + ([125] + rest))) == Ok(es, rest)
  {
    var print1 := (e: Entry) => LaidOutPair(e, pad);
    PairReaderConsumes();
    forall i | 0 <= i < |es| ensures ReadsAnywhere(print1, ParsePair, es[i], RBRACE) {
      forall after ensures ParsePair(print1(es[i]) + after) == Ok(es[i], after) {
        LaidOutPairReads(es[i], pad, after);
      }
    }
    LaidOutItems(print1, ParsePair, es, pad, RBRACE, rest);
    var text := [123] + (LaidOut(print1, es, pad) + ([125] + rest));
    assert text[0] == 123 && text[1..] == LaidOut(print1, es, pad) + ([125] + rest);
  }

  // ---------------------------------------------------------------- null, brackets and bare words

  const WORD_NULL: seq<byte> := [110, 117, 108, 108]

  /** The word null reads as nothing: no pairs, no keys, the empty string; and so do empty brackets as pairs. */
  lemma NullReads(rest: seq<byte>)
    ensures ParsePairs(WORD_NULL + rest) == Ok([], rest) && ParseKeys(WORD_NULL + rest) == Ok([], rest)
    ensures ParseQuoted(WORD_NULL + rest) == Ok([], rest) && ParseLoose(WORD_NULL + rest) == Ok([], rest)
    ensures ParsePairs([91, 93] + rest) == Ok([], rest)
  {
    var text := WORD_NULL + rest;
    assert WORD_NULL <= text && text[4..] == rest && text[0] == 110;
    assert ([91, 93] + rest)[2..] == rest;
  }

  /** Anything else that starts with the letter n is refused. */
  lemma NotNull(text: seq<byte>)
    requires text != [] && text[0] == 110 && !(WORD_NULL <= text)
    ensures ParsePairs(text).Fail? && ParseKeys(text).Fail? && ParseQuoted(text).Fail? && ParseLoose(text).Fail?
  {
  }

  // ---------------------------------------------------------------- what is refused

  /** Pairs start with a brace, empty brackets or the letter n; keys with a bracket or that letter. */
  lemma WrongOpening(text: seq<byte>)
    ensures (text == [] || (text[0] != 123 && text[0] != 110)) && !([91, 93] <= text) ==> ParsePairs(text).Fail?
    ensures text == [] || (text[0] != 91 && text[0] != 110) ==> ParseKeys(text).Fail?
    ensures text == [] || (text[0] != 34 && text[0] != 110) ==> ParseQuoted(text).Fail?
  {
  }

  /** A key must be followed by a colon and that by a value. */
  lemma MissingColon(k: Key, after: seq<byte>)
    requires Framed(k, true)
    requires var t := SkipSpace(after, false); t == [] || t[0] != 58 || SkipSpace(t[1..], false) == []
    ensures ParsePair(PrintString(k, true) + after).Fail?
  {
    QuotedRoundTrip(k, after);
  }

  /** A pair must be followed by a comma or the closing brace. */
  lemma MissingComma(e: Entry, after: seq<byte>)
    requires FramedEntry(e)
    requires var t := SkipSpace(after, false); t == [] || (t[0] != 44 && t[0] != 125)
    ensures ParsePairs([123] + (PrintPair(e) + after)).Fail?
  {
    PairReaderConsumes();
    PairRoundTrip(e, after);
    var text := [123] + (PrintPair(e) + after);
    assert text[0] == 123 && text[1..] == PrintPair(e) + after;
    assert StartsValue(PrintPair(e) + after);
  }

  /** A comma before the closing brace is let pass. */
  lemma TrailingComma(e: Entry, rest: seq<byte>)
    requires FramedEntry(e)
    ensures ParsePairs([123] + (PrintPair(e) + ([44] + ([125] + rest)))) == Ok([e], rest)
  {
    PairReaderConsumes();
    var tail := [125] + rest;
    var items := PrintPair(e) + ([44] + tail);
    PairRoundTrip(e, [44] + tail);
    NoItems(ParsePair, RBRACE, rest);
    assert [] + tail == tail;
    assert StartsValue(items);
    ReadMore(ParsePair, items, RBRACE, e, tail, [], rest);
    assert [e] + [] == [e];
    assert ([123] + items)[0] == 123 && ([123] + items)[1..] == items;
  }

  /** A string without its closing quote is refused. */
  lemma {:induction false} Unterminated(text: seq<byte>)
    requires 34 !in text
    ensures ReadBody(text).Fail?
    decreases |text|
  {
    TokensAdvance();
    if text != [] && ReadToken(text).Token? {
      var n := ReadToken(text).length;
      assert forall c :: c in text[n..] ==> c in text;
      Unterminated(text[n..]);
    }
  }

  /** A four-digit escape with anything but digits in it, or cut short, is refused. */
  lemma BrokenHexEscape(text: seq<byte>)
    requires |text| >= 2 && text[0] == 92 && text[1] == 117
    requires |text| < 6 || exists i :: 2 <= i < 6 && HexValue(text[i]).None?
    ensures ReadToken(text) == Bad
  {
  }

  /** Made of whole symbols, none of which starts with a brace, a bracket, a blank or a comma. */
  predicate BareWord(s: seq<byte>)
    decreases |s|
  {
    s == [] || (
      && s[0] != 125 && s[0] != 93 && s[0] != 32 && s[0] != 44
      && SymbolLength(s[0]).Some? && SymbolLength(s[0]).value <= |s|
      && BareWord(s[SymbolLength(s[0]).value..]))
  }

  lemma BareSymbol(sym: seq<byte>, tail: seq<byte>, u: seq<byte>, left: seq<byte>)
    requires sym != [] && !EndsBare(sym[0]) && SymbolLength(sym[0]) == Some(|sym|) && ReadBare(tail) == Ok(u, left)
    ensures ReadBare(sym + tail) == Ok(sym + u, left)
  {
    TokensAdvance();
    CutConcat(sym, tail, |sym|);
    assert sym[..|sym|] == sym && sym[|sym|..] + tail == tail;
    assert ReadSymbol(sym + tail) == Token(sym, |sym|);
  }

  lemma BareEnd(c: byte, rest: seq<byte>)
    requires EndsBare(c)
    ensures ReadBare([c] + rest) == Ok([], [c] + rest)
  {
    TokensAdvance();
  }

  lemma {:induction false} BareLoop(s: seq<byte>, c: byte, rest: seq<byte>)
    requires BareWord(s) && (c == 125 || c == 93 || c == 32 || c == 44)
    ensures ReadBare(s + ([c] + rest)) == Ok(s, [c] + rest)
    decreases |s|
  {
    var tail := [c] + rest;
    if s == [] {
      BareEnd(c, rest);
      assert [] + tail == tail;
    } else {
      var n := SymbolLength(s[0]).value;
      BareLoop(s[n..], c, rest);
      BareSymbol(s[..n], s[n..] + tail, s[n..], tail);
      Associative(s[..n], s[n..], tail);
      assert s == s[..n] + s[n..];
    }
  }

  /** The second codec takes a bare word up to a closing brace or bracket, a blank or a comma. */
  lemma BareWordReads(s: seq<byte>, c: byte, rest: seq<byte>)
    requires BareWord(s) && s != [] && s[0] != 34 && s[0] != 110
    requires c == 125 || c == 93 || c == 32 || c == 44
    ensures ParseLoose(s + ([c] + rest)) == Ok(s, [c] + rest)
  {
    BareLoop(s, c, rest);
  }

  // ---------------------------------------------------------------- escapes

  /** The two-character escapes, as written by both printers. */
  lemma ShortEscapes(controls: bool)
    ensures EscapeByte(34, controls) == [92, 34] && EscapeByte(92, controls) == [92, 92]
    ensures EscapeByte(47, controls) == [92, 47] && EscapeByte(8, controls) == [92, 98]
    ensures EscapeByte(12, controls) == [92, 102] && EscapeByte(10, controls) == [92, 110]
    ensures EscapeByte(13, controls) == [92, 114] && EscapeByte(9, controls) == [92, 116]
  {
  }

  /** Every other byte is written as it is, but for control bytes in the first codec. */
  lemma OtherBytes(c: byte, controls: bool)
    requires c !in [34, 92, 47, 8, 12, 10, 13, 9]
    ensures c >= 32 || !controls ==> EscapeByte(c, controls) == [c]
    ensures c < 32 && controls ==>
              EscapeByte(c, controls) == [92, 117, 48, 48, 48 + c / 16, HexDigit(c % 16)]
  {
  }

  /** The first codec writes no raw control byte. */
  lemma {:induction false} NoRawControls(s: seq<byte>)
    ensures forall i :: 0 <= i < |Escape(s, true)| ==> Escape(s, true)[i] >= 32
    decreases |s|
  {
    if s != [] && s[0] != 0 {
      NoRawControls(s[1..]);
    }
  }

  /** Hexadecimal digits, small and capital letters alike. */
  lemma HexValues(n: nat)
    requires n < 16
    ensures n < 10 ==> HexValue(48 + n) == Some(n)
    ensures n >= 10 ==> HexValue(87 + n) == Some(n) && HexValue(55 + n) == Some(n)
    ensures HexDigit(n) == if n < 10 then 48 + n else 87 + n
  {
  }

  lemma NotHex(c: byte)
    requires !(48 <= c <= 57) && !(97 <= c <= 102) && !(65 <= c <= 70)
    ensures HexValue(c) == None
  {
  }

  /** The code point that one well-formed sequence stands for (section 3 of RFC 3629). */
  function CodePoint(s: seq<byte>): nat
    requires 1 <= |s| <= 3 && Utf8Sequence(s, |s|)
  {
    var lead: int := s[0];
    if |s| == 1 then lead
    else
      var second: int := s[1];
      if |s| == 2 then (lead - 192) * 64 + (second - 128)
      else
        var third: int := s[2];
        (lead - 224) * 4096 + (second - 128) * 64 + (third - 128)
  }

  /** The bytes written for a number are its one well-formed sequence if and only if it is no surrogate. */
  lemma EncodesCodePoint(h: nat)
    requires h < 0x10000
    ensures var s := Utf8Of(h);
            && 1 <= |s| <= 3 && (Utf8Sequence(s, |s|) <==> h < 0xD800 || h >= 0xE000)
            && (Utf8Sequence(s, |s|) ==> CodePoint(s) == h)
  {
    if h > 0x7FF {
      var a, b, c := h / 4096, (h / 64) % 64, h % 64;
      assert h == a * 4096 + b * 64 + c;
    }
  }

  /** A four-digit escape reads as the bytes of the code point its digits spell. */
  lemma HexEscapeReads(digits: seq<byte>, tail: seq<byte>)
    requires |digits| == 4 && forall i :: 0 <= i < 4 ==> HexValue(digits[i]).Some?
    ensures var h := HexValue(digits[0]).value * 4096 + HexValue(digits[1]).value * 256
                     + HexValue(digits[2]).value * 16 + HexValue(digits[3]).value;
            ReadToken([92, 117] + digits + tail) == Token(Utf8Of(h), 6)
  {
    var text := [92, 117] + digits + tail;
    assert text[2] == digits[0] && text[3] == digits[1] && text[4] == digits[2] && text[5] == digits[3];
  }

  /** Any other letter after a backslash is refused. */
  lemma OtherEscapesFail(c: byte, tail: seq<byte>)
    requires c !in [34, 92, 47, 98, 102, 110, 114, 116, 117]
    ensures ReadToken([92, c] + tail) == Bad
  {
  }

  /** Which bytes lead a symbol, and how long it is (section 3 of RFC 3629); the others lead none. */
  lemma LeadBytes(c: byte)
    ensures c < 0x80 ==> SymbolLength(c) == Some(1)
    ensures 0xC0 <= c < 0xE0 ==> SymbolLength(c) == Some(2)
    ensures 0xE0 <= c < 0xF0 ==> SymbolLength(c) == Some(3)
    ensures 0xF0 <= c < 0xF8 ==> SymbolLength(c) == Some(4)
    ensures 0x80 <= c < 0xC0 || c >= 0xF8 ==> SymbolLength(c) == None
  {
  }

  // ---------------------------------------------------------------- printed text

  lemma {:induction false} PlainText(s: seq<byte>, controls: bool)
    requires forall i :: 0 <= i < |s| ==> IsPlain(s[i], controls)
    ensures PrintString(s, controls) == [34] + s + [34]
    decreases |s|
  {
    EscapePlain(s, |s|, controls);
    assert s[|s|..] == [] && s[..|s|] == s;
  }

  /** Two pairs and two keys as printed. */
  lemma PrintedForms(a: Entry, b: Entry)
    ensures PrintPairs([a, b])
         == [123] + PrintString(a.0, true) + [58] + PrintString(a.1, false) + [44]
            + PrintString(b.0, true) + [58] + PrintString(b.1, false) + [125]
    ensures PrintKeys([a.0, b.0]) == [91] + PrintString(a.0, true) + [44] + PrintString(b.0, true) + [93]
    ensures PrintPairs([]) == [123, 125] && PrintKeys([]) == [91, 93]
  {
    assert [a, b][1..] == [b] && [a.0, b.0][1..] == [b.0];
    assert PrintItems(PrintPair, [a, b]) == PrintPair(a) + [COMMA] + PrintPair(b);
    assert PrintItems(PrintKey, [a.0, b.0]) == PrintKey(a.0) + [COMMA] + PrintKey(b.0);
  }

  // ---------------------------------------------------------------- numbers

  /** A zero ends the number at once, whatever follows, with or without a sign. */
  lemma LeadingZero(rest: seq<byte>)
    ensures ParseInteger([48] + rest) == Ok(0, rest) && ParseInteger([45, 48] + rest) == Ok(0, rest)
  {
    assert ([48] + rest)[1..] == rest;
    assert ([45, 48] + rest)[1..] == [48] + rest;
  }

  /** A number starts with a digit, or a minus sign and a digit, and nothing else reads as one. */
  lemma NumberStarts(text: seq<byte>)
    ensures ParseInteger(text).Ok? <==>
            || (text != [] && 48 <= text[0] <= 57)
            || (|text| > 1 && text[0] == 45 && 48 <= text[1] <= 57)
  {
  }

  /** The digits of a number, the last one least. */
  function Value(digits: seq<byte>): nat
    requires forall i :: 0 <= i < |digits| ==> 48 <= digits[i] <= 57
    decreases |digits|
  {
    if digits == [] then 0 else Value(digits[..|digits| - 1]) * 10 + (digits[|digits| - 1] - 48)
  }

  lemma ValueLast(digits: seq<byte>, d: byte)
    requires (forall i :: 0 <= i < |digits| ==> 48 <= digits[i] <= 57) && 48 <= d <= 57
    ensures Value(digits + [d]) == Value(digits) * 10 + (d - 48)
  {
    assert (digits + [d])[..|digits|] == digits;
  }

  predicate AllDigits(s: seq<byte>) {
    forall i :: 0 <= i < |s| ==> 48 <= s[i] <= 57
  }

  lemma FoldOne(d: byte, tail: seq<byte>, acc: nat)
    requires 48 <= d <= 57
    ensures FoldDigits([d] + tail, acc) == FoldDigits(tail, acc * 10 + (d - 48))
  {
    assert ([d] + tail)[1..] == tail;
  }

  lemma {:induction false} FoldsValue(done: seq<byte>, digits: seq<byte>, rest: seq<byte>)
    requires AllDigits(done) && AllDigits(digits) && (rest == [] || !(48 <= rest[0] <= 57))
    ensures FoldDigits(digits + rest, Value(done)) == (Value(done + digits), rest)
    decreases |digits|
  {
    if digits == [] {
      assert [] + rest == rest && done + [] == done;
    } else {
      var d, more := digits[0], digits[1..];
      ValueLast(done, d);
      FoldOne(d, more + rest, Value(done));
      FoldsValue(done + [d], more, rest);
      assert digits == [d] + more;
      Associative([d], more, rest);
      Associative(done, [d], more);
    }
  }

  lemma FoldsAll(digits: seq<byte>, rest: seq<byte>)
    requires AllDigits(digits) && (rest == [] || !(48 <= rest[0] <= 57))
    ensures FoldDigits(digits + rest, 0) == (Value(digits), rest)
  {
    assert Value([]) == 0 && [] + digits == digits;
    FoldsValue([], digits, rest);
  }

  lemma SignThenDigits(text: seq<byte>, n: nat, rest: seq<byte>)
    requires text != [] && 48 < text[0] <= 57 && FoldDigits(text, 0) == (n, rest)
    ensures var v: int := n; ParseInteger(text) == Ok(v, rest) && ParseInteger([45] + text) == Ok(-v, rest)
  {
    assert ([45] + text)[1..] == text;
  }

  /** All digits there are make up the number, unless it starts with a zero. */
  lemma ReadsAllDigits(text: seq<byte>, digits: seq<byte>, rest: seq<byte>)
    requires text == digits + rest && digits != [] && digits[0] != 48 && AllDigits(digits)
    requires rest == [] || !(48 <= rest[0] <= 57)
    ensures var n: int := Value(digits);
            ParseInteger(text) == Ok(n, rest) && ParseInteger([45] + text) == Ok(-n, rest)
  {
    FoldsAll(digits, rest);
    assert text[0] == digits[0];
    SignThenDigits(text, Value(digits), rest);
  }

  /** The buffer sizes and the least and greatest values of one and eight bytes. */
  lemma MachineSizes()
    ensures BufferSize(1, false) == 3 && BufferSize(1, true) == 4 && BufferSize(8, true) == 21
    ensures forall v :: InRange(v, 1, true) <==> -128 <= v <= 127
    ensures forall v :: InRange(v, 1, false) <==> 0 <= v <= 255
    ensures forall v :: InRange(v, 8, true) <==> -0x8000_0000_0000_0000 <= v <= 0x7FFF_FFFF_FFFF_FFFF
  {
    assert Pow(256, 1) == 256;
    assert Pow(256, 2) == 65536;
    assert Pow(256, 4) == 0x1_0000_0000 by { assert Pow(256, 3) == 0x100_0000; }
    assert Pow(256, 6) == 0x1_0000_0000_0000 by { assert Pow(256, 5) == 0x100_0000_0000; }
    assert Pow(256, 8) == 0x1_0000_0000_0000_0000 by { assert Pow(256, 7) == 0x100_0000_0000_0000; }
  }
}

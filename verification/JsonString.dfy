/**
 The two JSON string codecs.

 Both escape the same characters; the first also writes the remaining control bytes as
 four-digit hexadecimal escapes, the second lets them through and accepts unquoted text.
 Readers fail where the source throws.
 */
module JsonString {
  import opened Bytes
  import opened Sequences
  import opened JsonNumber

  const QUOTE: byte := 34
  const BACKSLASH: byte := 92
  const SLASH: byte := 47

  // ---------------------------------------------------------------- space and null

  predicate IsSpace(c: byte) {
    c == 32 || c == 9 || c == 13 || c == 10
  }

  /** Skips blanks and comments.  A comment's closing slash is read again as a stray slash, which is skipped too. */
  function SkipSpace(text: seq<byte>, inComment: bool): (rest: seq<byte>)
    ensures |rest| <= |text|
    decreases |text|
  {
    if text == [] || (!inComment && !IsSpace(text[0]) && text[0] != SLASH) then text
    else SkipSpace(text[1..], InComment(text, inComment))
  }

  /** Whether the text is inside a comment after its first character. */
  predicate InComment(text: seq<byte>, before: bool)
    requires text != []
  {
    if before then !(text[0] == 42 && |text| > 1 && text[1] == SLASH)
    else text[0] == SLASH && |text| > 1 && text[1] == 42
  }

  /** Something a value can start with: no blank and no slash. */
  predicate StartsValue(text: seq<byte>) {
    text != [] && !IsSpace(text[0]) && text[0] != SLASH
  }

  /** What is left is the end of the text, and it is empty or starts a value. */
  lemma {:induction false} SkipSpaceStops(text: seq<byte>, inComment: bool)
    ensures var rest := SkipSpace(text, inComment);
            rest == text[|text| - |rest|..] && (rest == [] || StartsValue(rest))
    decreases |text|
  {
    if text != [] && (inComment || !StartsValue(text)) {
      var tail, inside := text[1..], InComment(text, inComment);
      SkipSpaceStops(tail, inside);
      var rest := SkipSpace(tail, inside);
      assert tail[|tail| - |rest|..] == text[|text| - |rest|..];
    }
  }

  /** Text that starts a value is left alone, and no other. */
  lemma SkipSpaceKeepsIff(text: seq<byte>)
    ensures SkipSpace(text, false) == text <==> text == [] || StartsValue(text)
  {
    if text != [] && !StartsValue(text) {
      assert |SkipSpace(text, false)| <= |text[1..]|;
    }
  }

  predicate IsNull(text: seq<byte>) {
    text != [] && text[0] == 110
  }

  const NULL: seq<byte> := [110, 117, 108, 108]

  /** Reads the word null; the result of reading anything else that starts with n is an error. */
  function ParseNull<T>(text: seq<byte>, default: T): (r: Parse<T>)
    ensures r.Ok? ==> |r.rest| < |text|
  {
    if NULL <= text then Ok(default, text[4..]) else Fail
  }

  // ---------------------------------------------------------------- printing

  function HexDigit(n: nat): (c: byte)
    requires n < 16
  {
    if n < 10 then 48 + n else 87 + n
  }

  /** How one byte is written inside the quotes. */
  function EscapeByte(c: byte, controls: bool): (r: seq<byte>)
    ensures 1 <= |r| <= 6
  {
    if c == QUOTE || c == BACKSLASH || c == SLASH then [BACKSLASH, c]
    else if c == 9 then [BACKSLASH, 116]
    else if c == 8 then [BACKSLASH, 98]
    else if c == 13 then [BACKSLASH, 114]
    else if c == 10 then [BACKSLASH, 110]
    else if c == 12 then [BACKSLASH, 102]
    else if controls && c < 32 then [BACKSLASH, 117, 48, 48, HexDigit(c / 16), HexDigit(c % 16)]
    else [c]
  }

  /** The escaped text; printing stops at a NUL byte. */
  function Escape(s: seq<byte>, controls: bool): seq<byte>
    decreases |s|
  {
    if s == [] || s[0] == 0 then [] else EscapeByte(s[0], controls) + Escape(s[1..], controls)
  }

  function PrintString(s: seq<byte>, controls: bool): (r: seq<byte>)
    ensures |r| >= 2 && r[0] == QUOTE
  {
    [QUOTE] + Escape(s, controls) + [QUOTE]
  }

  lemma EscapeUnroll(s: seq<byte>, i: nat, controls: bool, out: seq<byte>)
    requires i < |s| && s[i] != 0
    ensures out + Escape(s[i..], controls) == out + EscapeByte(s[i], controls) + Escape(s[i + 1..], controls)
  {
    assert s[i..][1..] == s[i + 1..];
  }

  method WriteString(s: seq<byte>, controls: bool) returns (out: seq<byte>)
    ensures out == PrintString(s, controls)
  {
    out := [QUOTE];
    var i := 0;
    while i < |s| && s[i] != 0
      invariant i <= |s|
      invariant out + Escape(s[i..], controls) == [QUOTE] + Escape(s, controls)
    {
      EscapeUnroll(s, i, controls, out);
      out := out + EscapeByte(s[i], controls);
      i := i + 1;
    }
    assert out + [] == out;
    out := out + [QUOTE];
  }

  // ---------------------------------------------------------------- reading

  function HexValue(c: byte): (r: Option<nat>)
    ensures r.Some? ==> r.value < 16
  {
    if 48 <= c <= 57 then Some(c - 48)
    else if 97 <= c <= 102 then Some(c - 87)
    else if 65 <= c <= 70 then Some(c - 55)
    else None
  }

  /** The bytes of a code point below 65536. */
  function Utf8Of(h: nat): (r: seq<byte>)
    requires h < 65536
    ensures |r| >= 1
  {
    if h <= 0x7F then [h]
    else if h <= 0x7FF then [192 + h / 64, 128 + h % 64]
    else [224 + h / 4096, 128 + (h / 64) % 64, 128 + h % 64]
  }

  /** The single-letter escapes. */
  function Unescaped(c: byte): Option<byte> {
    if c == QUOTE || c == BACKSLASH || c == SLASH then Some(c)
    else if c == 116 then Some(9)
    else if c == 98 then Some(8)
    else if c == 114 then Some(13)
    else if c == 110 then Some(10)
    else if c == 102 then Some(12)
    else None
  }

  /** Length of a symbol by its lead byte; None for a byte that cannot lead. */
  function SymbolLength(c: byte): Option<nat> {
    if c < 128 then Some(1)
    else if 192 <= c < 224 then Some(2)
    else if 224 <= c < 240 then Some(3)
    else if 240 <= c < 248 then Some(4)
    else None
  }

  /** What one turn of the reading loop takes from the text and yields. */
  datatype Token = Token(bytes: seq<byte>, length: nat) | Bad

  function ReadHex(text: seq<byte>): (t: Token)
    ensures t.Token? ==> t.length == 6 <= |text|
  {
    if |text| < 6 then Bad
    else
      var (a, b, c, d) := (HexValue(text[2]), HexValue(text[3]), HexValue(text[4]), HexValue(text[5]));
      if a.Some? && b.Some? && c.Some? && d.Some? then
        Token(Utf8Of(a.value * 4096 + b.value * 256 + c.value * 16 + d.value), 6)
      else Bad
  }

  function ReadSymbol(text: seq<byte>): (t: Token)
    ensures t.Token? ==> 0 < t.length <= |text|
  {
    if text == [] then Bad
    else
      match SymbolLength(text[0])
      case None => Bad
      case Some(n) => if |text| < n then Bad else Token(text[..n], n)
  }

  function ReadToken(text: seq<byte>): (t: Token)
    ensures t.Token? ==> 0 < t.length <= |text|
  {
    if text == [] then Bad
    else if text[0] != BACKSLASH then ReadSymbol(text)
    else if |text| == 1 then Bad
    else if text[1] == 117 then ReadHex(text)
    else
      match Unescaped(text[1])
      case Some(c) => Token([c], 2)
      case None => Bad
  }

  ghost predicate Advances(token: seq<byte> -> Token) {
    forall text :: token(text).Token? ==> 0 < token(text).length <= |text|
  }

  /** The reading loop of both forms: token after token up to a byte that stops it, which must be there. */
  function ReadLoop(token: seq<byte> -> Token, stop: byte -> bool, text: seq<byte>): (r: Parse<seq<byte>>)
    requires Advances(token)
    ensures r.Ok? ==> r.rest != [] && |r.rest| <= |text|
    decreases |text|
  {
    if text == [] then Fail
    else if stop(text[0]) then Ok([], text)
    else
      match token(text)
      case Bad => Fail
      case Token(bytes, n) => Prepend(bytes, ReadLoop(token, stop, text[n..]))
  }

  function Prepend(out: seq<byte>, r: Parse<seq<byte>>): (p: Parse<seq<byte>>)
    ensures p.Ok? <==> r.Ok?
    ensures p.Ok? ==> p.rest == r.rest
  {
    match r
    case Ok(v, rest) => Ok(out + v, rest)
    case Fail => Fail
  }

  predicate IsQuote(c: byte) {
    c == QUOTE
  }

  predicate EndsBare(c: byte) {
    c == 125 || c == 32 || c == 93 || c == 44
  }

  lemma TokensAdvance()
    ensures Advances(ReadToken) && Advances(ReadSymbol)
  {
  }

  /** The quoted form after its opening quote. */
  function ReadBody(text: seq<byte>): (r: Parse<seq<byte>>)
    ensures r.Ok? ==> |r.rest| < |text|
  {
    TokensAdvance();
    match ReadLoop(ReadToken, IsQuote, text)
    case Fail => Fail
    case Ok(v, rest) => Ok(v, rest[1..])
  }

  /** The unquoted form: symbols up to a closing bracket, a blank or a comma. */
  function ReadBare(text: seq<byte>): (r: Parse<seq<byte>>)
    ensures r.Ok? ==> |r.rest| <= |text|
  {
    TokensAdvance();
    ReadLoop(ReadSymbol, EndsBare, text)
  }

  /** First codec: null reads as the empty string, anything else must be quoted. */
  function ParseQuoted(text: seq<byte>): (r: Parse<seq<byte>>)
    ensures r.Ok? ==> |r.rest| < |text|
  {
    if IsNull(text) then ParseNull(text, [])
    else if text == [] || text[0] != QUOTE then Fail
    else ReadBody(text[1..])
  }

  /** Second codec: null, quoted or bare. */
  function ParseLoose(text: seq<byte>): (r: Parse<seq<byte>>)
    ensures r.Ok? ==> |r.rest| <= |text|
  {
    if IsNull(text) then ParseNull(text, [])
    else if text == [] then Fail
    else if text[0] == QUOTE then ReadBody(text[1..])
    else ReadBare(text)
  }

  lemma PrependTwice(out: seq<byte>, bytes: seq<byte>, r: Parse<seq<byte>>)
    ensures Prepend(out, Prepend(bytes, r)) == Prepend(out + bytes, r)
  {
    if r.Ok? {
      Associative(out, bytes, r.value);
    }
  }

  lemma PrependNothing(r: Parse<seq<byte>>)
    ensures Prepend([], r) == r
  {
    if r.Ok? {
      assert [] + r.value == r.value;
    }
  }

  lemma UnrollLoop(token: seq<byte> -> Token, stop: byte -> bool, text: seq<byte>, i: nat, out: seq<byte>)
    requires Advances(token) && i < |text| && !stop(text[i])
    ensures var t := token(text[i..]);
            var rest := ReadLoop(token, stop, text[i..]);
            if t.Bad? then rest.Fail?
            else Prepend(out, rest) == Prepend(out + t.bytes, ReadLoop(token, stop, text[i + t.length..]))
  {
    var t := token(text[i..]);
    if t.Token? {
      assert text[i..][t.length..] == text[i + t.length..];
      PrependTwice(out, t.bytes, ReadLoop(token, stop, text[i + t.length..]));
    }
  }

  method RunLoop(token: seq<byte> -> Token, stop: byte -> bool, text: seq<byte>) returns (r: Parse<seq<byte>>)
    requires Advances(token)
    ensures r == ReadLoop(token, stop, text)
  {
    var i, out := 0, [];
    assert text[0..] == text;
    PrependNothing(ReadLoop(token, stop, text));
    while i < |text| && !stop(text[i])
      invariant i <= |text|
      invariant Prepend(out, ReadLoop(token, stop, text[i..])) == ReadLoop(token, stop, text)
    {
      UnrollLoop(token, stop, text, i, out);
      var t := token(text[i..]);
      if t.Bad? {
        return Fail;
      }
      out, i := out + t.bytes, i + t.length;
    }
    if i == |text| {
      return Fail;
    }
    assert out + [] == out;
    return Ok(out, text[i..]);
  }

  // ---------------------------------------------------------------- round trip

  predicate IsPlain(c: byte, controls: bool) {
    c != 0 && EscapeByte(c, controls) == [c]
  }

  /**
   The text splits into symbols whose continuation bytes need no escaping: the property the
   codecs rely on.  Well-formed UTF-8 has it.
   */
  predicate Framed(s: seq<byte>, controls: bool)
    decreases |s|
  {
    s == [] || (
      && s[0] != 0
      && SymbolLength(s[0]).Some?
      && var n := SymbolLength(s[0]).value;
      && n <= |s|
      && (forall i :: 1 <= i < n ==> IsPlain(s[i], controls))
      && Framed(s[n..], controls))
  }

  lemma {:induction false} EscapePlain(s: seq<byte>, n: nat, controls: bool)
    requires n <= |s| && forall i :: 0 <= i < n ==> IsPlain(s[i], controls)
    ensures Escape(s, controls) == s[..n] + Escape(s[n..], controls)
    decreases n
  {
    if n > 0 {
      var t := s[1..];
      assert IsPlain(s[0], controls);
      EscapePlain(t, n - 1, controls);
      EscapeOnePlain(s, controls);
      assert t[n - 1..] == s[n..];
      assert s[..n] == [s[0]] + t[..n - 1];
      Associative([s[0]], t[..n - 1], Escape(s[n..], controls));
    } else {
      assert s[0..] == s;
    }
  }

  lemma EscapeOnePlain(s: seq<byte>, controls: bool)
    requires s != [] && IsPlain(s[0], controls)
    ensures Escape(s, controls) == [s[0]] + Escape(s[1..], controls)
  {
  }

  lemma HexBack(n: nat)
    requires n < 16
    ensures HexValue(HexDigit(n)) == Some(n)
  {
  }

  lemma ControlToken(c: byte, tail: seq<byte>)
    requires c < 32
    ensures ReadToken([BACKSLASH, 117, 48, 48, HexDigit(c / 16), HexDigit(c % 16)] + tail) == Token([c], 6)
  {
    HexBack(c / 16);
    HexBack(c % 16);
    assert HexValue(48) == Some(0);
    assert (c / 16) * 16 + c % 16 == c;
  }

  /** An escaped single byte is read back as that byte. */
  lemma EscapedToken(c: byte, controls: bool, tail: seq<byte>)
    requires 0 < c < 128
    ensures ReadToken(EscapeByte(c, controls) + tail) == Token([c], |EscapeByte(c, controls)|)
  {
    var e := EscapeByte(c, controls);
    if |e| == 6 {
      ControlToken(c, tail);
    } else if |e| == 2 {
      assert (e + tail)[1] == e[1];
    } else {
      assert (e + tail)[..1] == [c];
    }
  }

  lemma EscapeFirst(s: seq<byte>, controls: bool, after: seq<byte>)
    requires s != [] && s[0] != 0
    ensures Escape(s, controls) + after == EscapeByte(s[0], controls) + (Escape(s[1..], controls) + after)
  {
  }

  lemma EscapeSymbol(s: seq<byte>, n: nat, controls: bool, after: seq<byte>)
    requires n <= |s| && forall i :: 0 <= i < n ==> IsPlain(s[i], controls)
    ensures Escape(s, controls) + after == s[..n] + (Escape(s[n..], controls) + after)
  {
    EscapePlain(s, n, controls);
  }

  ghost predicate TakesByte(token: seq<byte> -> Token, c: byte, controls: bool, tail: seq<byte>) {
    token(EscapeByte(c, controls) + tail) == Token([c], |EscapeByte(c, controls)|)
  }

  ghost predicate TakesSymbol(token: seq<byte> -> Token, sym: seq<byte>, tail: seq<byte>) {
    token(sym + tail) == Token(sym, |sym|)
  }

  predicate IsSymbol(sym: seq<byte>) {
    sym != [] && sym[0] >= 128 && SymbolLength(sym[0]) == Some(|sym|)
  }

  /** A token reader that takes back escaped single bytes and plain symbols, and does not stop at them. */
  ghost predicate Undoes(token: seq<byte> -> Token, stop: byte -> bool, controls: bool) {
    && Advances(token)
    && (forall c: byte, tail :: 0 < c < 128 ==> TakesByte(token, c, controls, tail))
    && (forall c: byte :: 0 < c ==> !stop(EscapeByte(c, controls)[0]))
    && (forall sym, tail :: IsSymbol(sym) ==> TakesSymbol(token, sym, tail))
  }

  lemma LoopOne(token: seq<byte> -> Token, stop: byte -> bool, head: seq<byte>, bytes: seq<byte>, tail: seq<byte>,
                v: seq<byte>, rest: seq<byte>)
    requires Advances(token) && head != [] && !stop(head[0]) && token(head + tail) == Token(bytes, |head|)
    requires ReadLoop(token, stop, tail) == Ok(v, rest)
    ensures ReadLoop(token, stop, head + tail) == Ok(bytes + v, rest)
  {
    assert (head + tail)[|head|..] == tail;
  }

  lemma LoopByte(token: seq<byte> -> Token, stop: byte -> bool, c: byte, u: seq<byte>, controls: bool, after: seq<byte>)
    requires Undoes(token, stop, controls) && 0 < c < 128
    requires ReadLoop(token, stop, Escape(u, controls) + after) == Ok(u, after)
    ensures ReadLoop(token, stop, Escape([c] + u, controls) + after) == Ok([c] + u, after)
  {
    var tail := Escape(u, controls) + after;
    assert ([c] + u)[1..] == u;
    EscapeFirst([c] + u, controls, after);
    assert TakesByte(token, c, controls, tail);
    LoopOne(token, stop, EscapeByte(c, controls), [c], tail, u, after);
  }

  lemma EscapeOfSymbol(sym: seq<byte>, u: seq<byte>, controls: bool, after: seq<byte>)
    requires forall i :: 0 <= i < |sym| ==> IsPlain(sym[i], controls)
    ensures Escape(sym + u, controls) + after == sym + (Escape(u, controls) + after)
  {
    var s := sym + u;
    assert s[..|sym|] == sym && s[|sym|..] == u;
    assert forall i | 0 <= i < |sym| :: s[i] == sym[i];
    EscapeSymbol(s, |sym|, controls, after);
  }

  lemma LoopSymbol(token: seq<byte> -> Token, stop: byte -> bool, sym: seq<byte>, u: seq<byte>, controls: bool,
                   after: seq<byte>)
    requires Undoes(token, stop, controls) && IsSymbol(sym)
    requires forall i :: 0 <= i < |sym| ==> IsPlain(sym[i], controls)
    requires ReadLoop(token, stop, Escape(u, controls) + after) == Ok(u, after)
    ensures ReadLoop(token, stop, Escape(sym + u, controls) + after) == Ok(sym + u, after)
  {
    EscapeOfSymbol(sym, u, controls, after);
    assert TakesSymbol(token, sym, Escape(u, controls) + after);
    assert EscapeByte(sym[0], controls) == [sym[0]];
    LoopOne(token, stop, sym, sym, Escape(u, controls) + after, u, after);
  }

  lemma FramedSymbol(s: seq<byte>, controls: bool)
    requires Framed(s, controls) && s != [] && s[0] >= 128
    ensures var n := SymbolLength(s[0]).value;
            && n <= |s| && IsSymbol(s[..n]) && s == s[..n] + s[n..]
            && forall i :: 0 <= i < n ==> IsPlain(s[..n][i], controls)
  {
  }

  lemma {:induction false} LoopRoundTrip(token: seq<byte> -> Token, stop: byte -> bool, s: seq<byte>, controls: bool,
                                         after: seq<byte>)
    requires Undoes(token, stop, controls) && Framed(s, controls)
    requires after != [] && stop(after[0])
    ensures ReadLoop(token, stop, Escape(s, controls) + after) == Ok(s, after)
    decreases |s|
  {
    if s == [] {
      assert Escape(s, controls) + after == after;
    } else {
      var n := SymbolLength(s[0]).value;
      LoopRoundTrip(token, stop, s[n..], controls, after);
      if n == 1 {
        LoopByte(token, stop, s[0], s[1..], controls, after);
        assert s == [s[0]] + s[1..];
      } else {
        FramedSymbol(s, controls);
        LoopSymbol(token, stop, s[..n], s[n..], controls, after);
      }
    }
  }

  lemma TokensUndo(controls: bool)
    ensures Undoes(ReadToken, IsQuote, controls)
  {
    forall c: byte, tail | 0 < c < 128 ensures TakesByte(ReadToken, c, controls, tail) {
      EscapedToken(c, controls, tail);
    }
    forall sym, tail | IsSymbol(sym) ensures TakesSymbol(ReadToken, sym, tail) {
      assert (sym + tail)[..|sym|] == sym;
    }
  }

  lemma BodyRoundTrip(s: seq<byte>, controls: bool, rest: seq<byte>)
    requires Framed(s, controls)
    ensures ReadBody(Escape(s, controls) + ([QUOTE] + rest)) == Ok(s, rest)
  {
    TokensUndo(controls);
    LoopRoundTrip(ReadToken, IsQuote, s, controls, [QUOTE] + rest);
    assert ([QUOTE] + rest)[1..] == rest;
  }

  lemma PrintedTail(s: seq<byte>, controls: bool, rest: seq<byte>)
    ensures (PrintString(s, controls) + rest)[1..] == Escape(s, controls) + ([QUOTE] + rest)
    ensures (PrintString(s, controls) + rest)[0] == QUOTE
  {
  }

  /** The first codec reads back what it printed, and stops right after the closing quote. */
  lemma QuotedRoundTrip(s: seq<byte>, rest: seq<byte>)
    requires Framed(s, true)
    ensures ParseQuoted(PrintString(s, true) + rest) == Ok(s, rest)
  {
    BodyRoundTrip(s, true, rest);
    PrintedTail(s, true, rest);
  }

  /** So does the second. */
  lemma LooseRoundTrip(s: seq<byte>, rest: seq<byte>)
    requires Framed(s, false)
    ensures ParseLoose(PrintString(s, false) + rest) == Ok(s, rest)
  {
    BodyRoundTrip(s, false, rest);
    PrintedTail(s, false, rest);
  }

  // ---------------------------------------------------------------- UTF-8

  predicate IsTail(c: byte) {
    128 <= c <= 191
  }

  /** One well-formed sequence of `n` bytes at the front (section 4 of RFC 3629). */
  predicate Utf8Sequence(s: seq<byte>, n: nat)
    requires 1 <= n <= |s|
  {
    || (n == 1 && s[0] < 128)
    || (n == 2 && 0xC2 <= s[0] <= 0xDF && IsTail(s[1]))
    || (n == 3 && IsTail(s[1]) && IsTail(s[2])
        && ((s[0] == 0xE0 && s[1] >= 0xA0) || 0xE1 <= s[0] <= 0xEC || (s[0] == 0xED && s[1] <= 0x9F)
            || 0xEE <= s[0] <= 0xEF))
    || (n == 4 && IsTail(s[1]) && IsTail(s[2]) && IsTail(s[3])
        && ((s[0] == 0xF0 && s[1] >= 0x90) || 0xF1 <= s[0] <= 0xF3 || (s[0] == 0xF4 && s[1] <= 0x8F)))
  }

  ghost predicate WellFormedUtf8(s: seq<byte>)
    decreases |s|
  {
    s == [] || exists n :: 1 <= n <= |s| && Utf8Sequence(s, n) && WellFormedUtf8(s[n..])
  }

  lemma {:induction false} Utf8IsFramed(s: seq<byte>, controls: bool)
    requires WellFormedUtf8(s) && 0 !in s
    ensures Framed(s, controls)
    decreases |s|
  {
    if s != [] {
      var n :| 1 <= n <= |s| && Utf8Sequence(s, n) && WellFormedUtf8(s[n..]);
      Utf8IsFramed(s[n..], controls);
      assert s[0] in s;
    }
  }

  /**
   For every NUL-free, well-formed UTF-8 string and every following text, each codec's
   reader undoes its printer and stops exactly at the following text.
   */
  lemma Utf8RoundTrip(s: seq<byte>, rest: seq<byte>)
    requires WellFormedUtf8(s) && 0 !in s
    ensures ParseQuoted(PrintString(s, true) + rest) == Ok(s, rest)
    ensures ParseLoose(PrintString(s, false) + rest) == Ok(s, rest)
  {
    Utf8IsFramed(s, true);
    Utf8IsFramed(s, false);
    QuotedRoundTrip(s, rest);
    LooseRoundTrip(s, rest);
  }

  /** Neither condition can be dropped: a NUL cuts the text, and a lead byte swallows the quote after it. */
  lemma RoundTripNeedsBoth(rest: seq<byte>)
    ensures ParseQuoted(PrintString([97, 0, 98], true) + rest) == Ok([97], rest)
    ensures ParseQuoted(PrintString([0xC3], true)) == Fail
  {
    assert Escape([97, 0, 98], true) == Escape([97], true) by {
      assert [97, 0, 98][1..] == [0, 98] && [97][1..] == [];
    }
    assert Framed([97], true) by { assert [97][1..] == []; }
    QuotedRoundTrip([97], rest);
    var text: seq<byte> := [0xC3, QUOTE];
    assert Escape([0xC3], true) == [0xC3] by { assert [0xC3][1..] == []; }
    assert PrintString([0xC3], true)[1..] == text;
    assert text[2..] == [];
    assert ReadToken(text) == Token(text[..2], 2);
    TokensAdvance();
    assert ReadLoop(ReadToken, IsQuote, []) == Fail;
    assert ReadLoop(ReadToken, IsQuote, text) == Fail;
  }

  // ---------------------------------------------------------------- what printed strings never contain

  /** No line break survives unescaped, so printed strings can travel line by line. */
  lemma {:induction false} EscapeHasNoBreaks(s: seq<byte>, controls: bool)
    ensures 13 !in Escape(s, controls) && 10 !in Escape(s, controls)
    decreases |s|
  {
    if s != [] && s[0] != 0 {
      EscapeHasNoBreaks(s[1..], controls);
      assert 13 !in EscapeByte(s[0], controls) && 10 !in EscapeByte(s[0], controls);
    }
  }
}

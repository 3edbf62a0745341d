/**
 Decimal text of integers: the printer that works in a fixed buffer, and the reader.
 */
module JsonNumber {
  import opened Bytes
  import opened Sequences

  const MINUS: byte := 45
  const ZERO: byte := 48

  // ---------------------------------------------------------------- canonical decimal

  function Digits(n: nat): (r: seq<byte>)
    ensures |r| >= 1 && forall i :: 0 <= i < |r| ==> 48 <= r[i] <= 57
    ensures r[0] == ZERO <==> n == 0
  {
    if n < 10 then [48 + n] else Digits(n / 10) + [48 + n % 10]
  }

  /** The canonical decimal text of an integer: no leading zeros, a minus sign if negative. */
  function Decimal(v: int): (r: seq<byte>)
    ensures |r| >= 1
  {
    if v < 0 then [MINUS] + Digits(-v) else Digits(v)
  }

  /** Digits with the least significant first, as the printer's loop produces them; empty for zero. */
  function LowDigits(n: nat): (r: seq<byte>)
    ensures (r == []) == (n == 0)
  {
    if n == 0 then [] else [48 + n % 10] + LowDigits(n / 10)
  }

  function Reversed<T>(s: seq<T>): (r: seq<T>)
    ensures |r| == |s| && forall i :: 0 <= i < |s| ==> r[i] == s[|s| - 1 - i]
  {
    seq(|s|, i requires 0 <= i < |s| => s[|s| - 1 - i])
  }

  lemma {:induction false} ReversedLowDigits(n: nat)
    requires n > 0
    ensures Reversed(LowDigits(n)) == Digits(n)
  {
    var d := 48 + n % 10;
    if n < 10 {
      assert LowDigits(n / 10) == [];
      assert LowDigits(n) == [d] + [];
    } else {
      ReversedLowDigits(n / 10);
      assert Reversed([d] + LowDigits(n / 10)) == Reversed(LowDigits(n / 10)) + [d];
    }
  }

  // ---------------------------------------------------------------- buffer size

  function Pow(b: nat, e: nat): (r: nat)
    ensures b > 0 ==> r > 0
  {
    if e == 0 then 1 else b * Pow(b, e - 1)
  }

  /** Decimal digits the buffer provides for a value of `n` bytes. */
  function DigitRoom(n: nat): nat {
    n * 2 + n / 2 + n % 2
  }

  function BufferSize(n: nat, signed: bool): nat {
    DigitRoom(n) + (if signed then 1 else 0)
  }

  predicate InRange(v: int, n: nat, signed: bool)
    requires n > 0
  {
    if signed then -(Pow(256, n) / 2) <= v < Pow(256, n) / 2 else 0 <= v < Pow(256, n)
  }

  lemma {:induction false} LowDigitsLength(n: nat, k: nat)
    requires n < Pow(10, k)
    ensures |LowDigits(n)| <= k
    decreases k
  {
    if n > 0 {
      assert k > 0;
      assert n / 10 < Pow(10, k - 1);
      LowDigitsLength(n / 10, k - 1);
    }
  }

  lemma PowFive(e: nat)
    ensures Pow(10, e + 5) == 100000 * Pow(10, e)
  {
    assert Pow(10, e + 1) == 10 * Pow(10, e);
    assert Pow(10, e + 2) == 10 * Pow(10, e + 1);
    assert Pow(10, e + 3) == 10 * Pow(10, e + 2);
    assert Pow(10, e + 4) == 10 * Pow(10, e + 3);
    assert Pow(10, e + 5) == 10 * Pow(10, e + 4);
  }

  /** Two bytes need at most five digits, so the room provided is always enough. */
  lemma {:induction false} RoomSuffices(n: nat)
    ensures Pow(256, n) <= Pow(10, DigitRoom(n))
  {
    if n == 1 {
      assert Pow(256, 0) == 1 && Pow(10, 0) == 1;
      assert Pow(10, 1) == 10 && Pow(10, 2) == 100 && Pow(10, 3) == 1000;
    } else if n >= 2 {
      RoomSuffices(n - 2);
      assert Pow(256, n - 1) == 256 * Pow(256, n - 2);
      assert Pow(256, n) == 65536 * Pow(256, n - 2);
      assert DigitRoom(n) == DigitRoom(n - 2) + 5;
      PowFive(DigitRoom(n - 2));
    }
  }

  // ---------------------------------------------------------------- the printer

  /** Exclusive or of the `n` lowest bits, the lowest first. */
  function XorBits(a: nat, b: nat, n: nat): (r: nat)
    ensures r < Pow(2, n)
  {
    if n == 0 then 0
    else (if a % 2 == b % 2 then 0 else 1) + 2 * XorBits(a / 2, b / 2, n - 1)
  }

  /** Exclusive or of two bytes. */
  function Xor(a: byte, b: byte): byte {
    assert Pow(2, 8) == 256 by { PowTwo(); }
    XorBits(a, b, 8)
  }

  lemma PowTwo()
    ensures Pow(2, 8) == 256
  {
    assert Pow(2, 2) == 4;
    assert Pow(2, 4) == 16;
    assert Pow(2, 6) == 64;
  }

  /** Exclusive or with the same bits, from either side, is undone by doing it again. */
  lemma {:induction false} XorCancels(a: nat, b: nat, n: nat)
    requires a < Pow(2, n) && b < Pow(2, n)
    ensures XorBits(b, XorBits(a, b, n), n) == a
    ensures XorBits(XorBits(a, b, n), a, n) == b
    decreases n
  {
    if n > 0 {
      var x := XorBits(a, b, n);
      assert x / 2 == XorBits(a / 2, b / 2, n - 1);
      XorCancels(a / 2, b / 2, n - 1);
    }
  }

  /** Three exclusive ors exchange two bytes. */
  lemma XorSwap(a: byte, b: byte)
    ensures Xor(b, Xor(a, b)) == a && Xor(Xor(a, b), a) == b
  {
    PowTwo();
    XorCancels(a, b, 8);
  }

  method SwapBytes(buf: array<byte>, i: nat, j: nat)
    requires i < buf.Length && j < buf.Length && i != j
    modifies buf
    ensures buf[i] == old(buf[j]) && buf[j] == old(buf[i])
    ensures forall k :: 0 <= k < buf.Length && k != i && k != j ==> buf[k] == old(buf[k])
  {
    XorSwap(buf[i], buf[j]);
    buf[i] := Xor(buf[i], buf[j]);
    buf[j] := Xor(buf[j], buf[i]);
    buf[i] := Xor(buf[i], buf[j]);
  }

  /** The swap loop: reverses `buf[beg..end]` in place by exclusive or. */
  method ReverseInPlace(buf: array<byte>, beg: nat, end: nat)
    requires beg <= end <= buf.Length
    modifies buf
    ensures buf[beg..end] == Reversed(old(buf[beg..end]))
    ensures buf[..beg] == old(buf[..beg]) && buf[end..] == old(buf[end..])
  {
    var lo, cur := beg, end;
    while cur - lo > 1
      invariant beg <= lo <= cur + 1 && cur <= end && lo + cur == beg + end
      invariant forall i :: 0 <= i < beg || lo <= i < cur || end <= i < buf.Length ==> buf[i] == old(buf[i])
      invariant forall i :: beg <= i < lo || cur <= i < end ==> buf[i] == old(buf[beg + end - 1 - i])
    {
      SwapBytes(buf, lo, cur - 1);
      cur, lo := cur - 1, lo + 1;
    }
  }

  function Abs(v: int): nat {
    if v < 0 then -v else v
  }

  /** Division and remainder as the machine does them: toward zero. */
  function TruncDiv(v: int): int {
    if v < 0 then -((-v) / 10) else v / 10
  }

  function TruncMod(v: int): int {
    v - 10 * TruncDiv(v)
  }

  lemma NextDigit(v: int)
    requires v != 0
    ensures LowDigits(Abs(v)) == [48 + Abs(TruncMod(v))] + LowDigits(Abs(TruncDiv(v)))
    ensures 0 <= Abs(TruncMod(v)) < 10 && Abs(TruncDiv(v)) < Abs(v)
    ensures v < 0 ==> TruncMod(v) <= 0 && TruncDiv(v) <= 0
    ensures v > 0 ==> TruncMod(v) >= 0 && TruncDiv(v) >= 0
  {
  }

  /** The digits written and those still to come. */
  function Pending(done: seq<byte>, v: int): seq<byte> {
    done + LowDigits(Abs(v))
  }

  lemma NextPending(done: seq<byte>, v: int)
    requires v != 0
    ensures |done| < |Pending(done, v)|
    ensures 0 <= Abs(TruncMod(v)) < 10 && Abs(TruncDiv(v)) < Abs(v)
    ensures Pending(done, v) == Pending(done + [48 + Abs(TruncMod(v))], TruncDiv(v))
  {
    NextDigit(v);
    Associative(done, [48 + Abs(TruncMod(v))], LowDigits(Abs(TruncDiv(v))));
  }

  /** What the machine computes for the next digit, counting from '0' up or down by the sign. */
  lemma DigitOfEitherSign(v: int, negative: bool)
    requires if negative then v <= 0 else v >= 0
    ensures (if negative then 48 - TruncMod(v) else 48 + TruncMod(v)) == 48 + Abs(TruncMod(v))
    ensures if negative then TruncDiv(v) <= 0 else TruncDiv(v) >= 0
  {
    if v != 0 {
      NextDigit(v);
    }
  }

  /** The digit loop, for either sign. */
  method WriteDigits(buf: array<byte>, beg: nat, value: int) returns (end: nat)
    requires beg + |LowDigits(Abs(value))| <= buf.Length
    modifies buf
    ensures end == beg + |LowDigits(Abs(value))|
    ensures buf[beg..end] == LowDigits(Abs(value)) && buf[..beg] == old(buf[..beg])
  {
    var v := value;
    end := beg;
    while v != 0
      invariant beg <= end <= buf.Length && buf[..beg] == old(buf[..beg])
      invariant if value < 0 then v <= 0 else v >= 0
      invariant Pending(buf[beg..end], v) == LowDigits(Abs(value))
      decreases Abs(v)
    {
      NextPending(buf[beg..end], v);
      DigitOfEitherSign(v, value < 0);
      PutByte(buf, beg, end, if value < 0 then 48 - TruncMod(v) else 48 + TruncMod(v));
      end, v := end + 1, TruncDiv(v);
    }
  }

  method PutByte(buf: array<byte>, beg: nat, end: nat, c: byte)
    requires beg <= end < buf.Length
    modifies buf
    ensures buf[beg..end + 1] == old(buf[beg..end]) + [c] && buf[..beg] == old(buf[..beg])
  {
    buf[end] := c;
  }

  /** The digits of a non-zero value behind whatever stands before `beg`. */
  method WriteMagnitude(buf: array<byte>, beg: nat, value: int) returns (end: nat)
    requires value != 0 && beg + |LowDigits(Abs(value))| <= buf.Length
    modifies buf
    ensures beg <= end <= buf.Length && buf[..end] == old(buf[..beg]) + Digits(Abs(value))
  {
    end := WriteDigits(buf, beg, value);
    ReversedLowDigits(Abs(value));
    ReverseInPlace(buf, beg, end);
    JoinSlices(buf[..], beg, end);
    assert buf[..][..beg] == buf[..beg] && buf[..][beg..end] == buf[beg..end] && buf[..][..end] == buf[..end];
  }

  /** The printer's work on its buffer. */
  method Fill(buf: array<byte>, value: int, signed: bool) returns (end: nat)
    requires signed || value >= 0
    requires 1 <= buf.Length && (if signed then 1 else 0) + |LowDigits(Abs(value))| <= buf.Length
    modifies buf
    ensures end <= buf.Length && buf[..end] == Decimal(value)
  {
    if value == 0 {
      buf[0] := ZERO;
      return 1;
    }
    var beg := 0;
    if signed && value < 0 {
      buf[0] := MINUS;
      beg := 1;
    }
    assert buf[..beg] == if value < 0 then [MINUS] else [];
    end := WriteMagnitude(buf, beg, value);
  }

  /**
   Prints a value of `n` bytes through a buffer of the computed size.  Every write falls
   inside the buffer, and the text is the canonical decimal, the least value included.
   */
  method Serialize(value: int, n: nat, signed: bool) returns (text: seq<byte>)
    requires n > 0 && InRange(value, n, signed)
    ensures text == Decimal(value)
    ensures |text| <= 2 * n + n / 2 + n % 2 + (if signed then 1 else 0)
  {
    RoomFor(value, n, signed);
    var buf := new byte[BufferSize(n, signed)](_ => 0);
    var end := Fill(buf, value, signed);
    text := buf[..end];
  }

  lemma RoomFor(value: int, n: nat, signed: bool)
    requires n > 0 && InRange(value, n, signed)
    ensures 1 <= BufferSize(n, signed) && (if signed then 1 else 0) + |LowDigits(Abs(value))| <= BufferSize(n, signed)
    ensures signed || value >= 0
  {
    RoomSuffices(n);
    LowDigitsLength(Abs(value), DigitRoom(n));
  }

  // ---------------------------------------------------------------- the reader

  datatype Parse<T> = Ok(value: T, rest: seq<byte>) | Fail

  predicate IsDigit(c: byte) {
    48 <= c <= 57
  }

  /** Reads digits as long as there are any, adding them to `acc`. */
  function FoldDigits(text: seq<byte>, acc: nat): (r: (nat, seq<byte>))
    ensures |r.1| <= |text|
    ensures text != [] && IsDigit(text[0]) ==> |r.1| < |text|
    decreases |text|
  {
    if text == [] || !IsDigit(text[0]) then (acc, text)
    else FoldDigits(text[1..], acc * 10 + (text[0] - 48))
  }

  /** The integer reader: a zero ends the number at once, and text after the digits is left over. */
  function ParseInteger(text: seq<byte>): (r: Parse<int>)
    ensures r.Ok? ==> |r.rest| < |text|
  {
    if text == [] then Fail
    else
      var neg := text[0] == MINUS;
      var body := if neg then text[1..] else text;
      if body == [] || !IsDigit(body[0]) then Fail
      else if body[0] == ZERO then Ok(0, body[1..])
      else
        var r := FoldDigits(body, 0);
        var n: int := r.0;
        Ok(if neg then -n else n, r.1)
  }

  method ReadInteger(text: seq<byte>) returns (r: Parse<int>)
    ensures r == ParseInteger(text)
  {
    if text == [] {
      return Fail;
    }
    var v: int, i: int := 0, 0;
    var neg := text[0] == MINUS;
    if neg {
      i := 1;
    }
    if i == |text| || !IsDigit(text[i]) {
      return Fail;
    }
    if text[i] == ZERO {
      return Ok(0, text[i + 1..]);
    }
    ghost var body := text[i..];
    while i < |text| && IsDigit(text[i])
      invariant 0 <= i <= |text| && v >= 0
      invariant FoldDigits(text[i..], v) == FoldDigits(body, 0)
    {
      assert text[i..][1..] == text[i + 1..];
      v, i := v * 10 + (text[i] - 48), i + 1;
    }
    return Ok(if neg then -v else v, text[i..]);
  }

  lemma {:induction false} FoldOfDigits(n: nat, acc: nat, rest: seq<byte>)
    requires rest == [] || !IsDigit(rest[0])
    ensures FoldDigits(Digits(n) + rest, acc) == (acc * Pow(10, |Digits(n)|) + n, rest)
  {
    FoldThen(n, acc, rest);
  }

  /** Reading printed digits leaves the accumulator shifted and the number added. */
  lemma {:induction false} FoldThen(n: nat, acc: nat, rest: seq<byte>)
    ensures FoldDigits(Digits(n) + rest, acc) == FoldDigits(rest, acc * Pow(10, |Digits(n)|) + n)
    decreases n
  {
    var d := 48 + n % 10;
    if n < 10 {
      assert (Digits(n) + rest)[1..] == rest;
      assert Pow(10, 1) == 10;
    } else {
      var hi := Digits(n / 10);
      assert Digits(n) + rest == hi + ([d] + rest);
      FoldThen(n / 10, acc, [d] + rest);
      assert ([d] + rest)[1..] == rest;
      assert Pow(10, |hi| + 1) == 10 * Pow(10, |hi|);
      calc {
        (acc * Pow(10, |hi|) + n / 10) * 10 + (d - 48);
        acc * Pow(10, |hi|) * 10 + n;
        { MulShift(acc, Pow(10, |hi|)); }
        acc * Pow(10, |hi| + 1) + n;
      }
    }
  }

  lemma MulShift(a: nat, b: nat)
    ensures a * b * 10 == a * (10 * b)
  {
  }

  lemma PositiveRoundTrip(n: int, rest: seq<byte>)
    requires n > 0 && (rest == [] || !IsDigit(rest[0]))
    ensures ParseInteger(Digits(n) + rest) == Ok(n, rest)
    ensures ParseInteger([MINUS] + (Digits(n) + rest)) == Ok(-n, rest)
  {
    var body := Digits(n) + rest;
    FoldOfDigits(n, 0, rest);
    assert body[0] == Digits(n)[0];
    assert ([MINUS] + body)[1..] == body;
  }

  /** What the printer prints, the reader reads back, whatever non-digit text follows. */
  lemma NumberRoundTrip(v: int, rest: seq<byte>)
    requires rest == [] || !IsDigit(rest[0])
    ensures ParseInteger(Decimal(v) + rest) == Ok(v, rest)
  {
    if v == 0 {
      assert ([ZERO] + rest)[1..] == rest;
    } else {
      PositiveRoundTrip(Abs(v), rest);
      assert [MINUS] + (Digits(Abs(v)) + rest) == [MINUS] + Digits(Abs(v)) + rest;
    }
  }
}

/** Base64 and base32 as hooks/base.cpp codes them.

    The four loops keep an `int` accumulator that is never masked: it overflows after a few input
    characters. They are proved against `Encode` and `Decode`, which regroup the whole bit string at
    once (RFC 4648, sections 4 and 6), and the laws of the encoding are proved about those two. */
module Base {
  import opened Characters
  import opened Bits
  import opened Int32

  const UPPER := "ABCDEFGHIJKLMNOPQRSTUVWXYZ"
  const LOWER := "abcdefghijklmnopqrstuvwxyz"
  const DECIMAL := "0123456789"
  const B64DIGITS := UPPER + LOWER + DECIMAL + "+/"
  const B32DIGITS := UPPER + "234567"

  /** An alphabet and the number of bits each of its digits carries. */
  datatype Codec = Codec(digits: string, width: nat)

  const BASE64 := Codec(B64DIGITS, 6)
  const BASE32 := Codec(B32DIGITS, 5)

  /** One character for every digit value, no character twice, and no padding character. */
  ghost predicate Sound(c: Codec) {
    && (c.width == 5 || c.width == 6)
    && |c.digits| == Pow2(c.width)
    && Ascii(c.digits)
    && '=' !in c.digits
    && forall i, j :: 0 <= i < j < |c.digits| ==> c.digits[i] != c.digits[j]
  }

  // ----- alphabets and digit tables -----

  /** The last position of `d` in `digits`, or -1: what the table-building loops leave at `d`. */
  function IndexOf(digits: string, d: char): (i: int)
    ensures -1 <= i < |digits|
    ensures i == -1 <==> d !in digits
    ensures i != -1 ==> digits[i] == d
  {
    if digits == [] then -1
    else if digits[|digits| - 1] == d then |digits| - 1
    else
      assert digits == digits[..|digits| - 1] + [digits[|digits| - 1]];
      IndexOf(digits[..|digits| - 1], d)
  }

  ghost predicate AllDigits(c: Codec, s: string) {
    forall i :: 0 <= i < |s| ==> s[i] in c.digits
  }

  lemma UpperLowerDecimal()
    ensures forall i :: 0 <= i < 26 ==> UPPER[i] as int == 'A' as int + i
    ensures forall i :: 0 <= i < 26 ==> LOWER[i] as int == 'a' as int + i
    ensures forall i :: 0 <= i < 10 ==> DECIMAL[i] as int == '0' as int + i
  {
  }

  /** The character code of the base64 digit `k` (RFC 4648, table 1). */
  function Code64(k: nat): nat {
    if k < 26 then 65 + k else if k < 52 then 71 + k else if k < 62 then k - 4
    else if k == 62 then 43 else 47
  }

  lemma Base64Codes()
    ensures |B64DIGITS| == 64
    ensures forall k :: 0 <= k < 64 ==> B64DIGITS[k] as int == Code64(k)
  {
    UpperLowerDecimal();
    forall k | 0 <= k < 64 ensures B64DIGITS[k] as int == Code64(k) {
      if k < 26 {
        assert B64DIGITS[k] == UPPER[k];
      } else if k < 52 {
        assert B64DIGITS[k] == LOWER[k - 26];
      } else if k < 62 {
        assert B64DIGITS[k] == DECIMAL[k - 52];
      }
    }
  }

  /** The character code of the base32 digit `k` (RFC 4648, table 3). */
  function Code32(k: nat): nat {
    if k < 26 then 65 + k else 24 + k
  }

  lemma Base32Codes()
    ensures |B32DIGITS| == 32
    ensures forall k :: 0 <= k < 32 ==> B32DIGITS[k] as int == Code32(k)
  {
  }

  lemma SoundByCodes(c: Codec, code: nat -> nat)
    requires c.width == 5 || c.width == 6
    requires |c.digits| == Pow2(c.width)
    requires forall k :: 0 <= k < |c.digits| ==> c.digits[k] as int == code(k)
    requires forall k :: 0 <= k < |c.digits| ==> code(k) < 128 && code(k) != '=' as int
    requires forall i, j :: 0 <= i < j < |c.digits| ==> code(i) != code(j)
    ensures Sound(c)
  {
  }

  lemma Base64IsSound()
    ensures Sound(BASE64)
  {
    hide B64DIGITS, Ascii;
    Pow2Literals();
    Base64Codes();
    SoundByCodes(BASE64, Code64);
  }

  lemma Base32IsSound()
    ensures Sound(BASE32)
  {
    hide B32DIGITS, Ascii;
    Pow2Literals();
    Base32Codes();
    SoundByCodes(BASE32, Code32);
  }

  lemma IndexOfDigit(c: Codec, v: nat)
    requires Sound(c)
    requires v < |c.digits|
    ensures IndexOf(c.digits, c.digits[v]) == v
  {
  }

  /** What one table-building loop computes: the position of every character, -1 for the others. */
  ghost predicate IsTable(table: seq<int>, digits: string) {
    |table| == 256 && forall d: char :: d as int < 256 ==> table[d as int] == IndexOf(digits, d)
  }

  method DigitTable(digits: string) returns (table: array<int>)
    requires Ascii(digits)
    ensures fresh(table) && IsTable(table[..], digits)
  {
    table := new int[256](_ => -1);
    for i := 0 to |digits|
      invariant IsTable(table[..], digits[..i])
    {
      table[digits[i] as int] := i;
      assert digits[..i + 1][..i] == digits[..i];
    }
    assert digits[..|digits|] == digits;
  }

  // ----- the unbounded specification -----

  function Text(c: Codec, values: seq<nat>): (s: string)
    requires Below(values, |c.digits|)
    ensures |s| == |values|
  {
    seq(|values|, i requires 0 <= i < |values| => c.digits[values[i]])
  }

  function Values(c: Codec, s: string): (values: seq<nat>)
    requires AllDigits(c, s)
    ensures |values| == |s| && Below(values, |c.digits|)
  {
    seq(|s|, i requires 0 <= i < |s| => IndexOf(c.digits, s[i]))
  }

  /** The digit values of `x`: its bits, filled up with zeros, cut into groups of `width`. */
  function DigitsOf(x: seq<Byte>, width: nat): (values: seq<nat>)
    requires 0 < width
    ensures Below(values, Pow2(width))
  {
    PackFilled(Spread(x, 8), width);
    Pack(FillUp(Spread(x, 8), width), width)
  }

  function Encode(c: Codec, x: seq<Byte>): string
    requires Sound(c)
  {
    Text(c, DigitsOf(x, c.width))
  }

  function Padded(s: string): (t: string)
    ensures s <= t && |t| % 4 == 0 && |t| < |s| + 4
  {
    s + seq((4 - |s| % 4) % 4, _ => '=')
  }

  /** The bits carried by a string of digits. */
  function StreamOf(c: Codec, s: string): seq<bool>
    requires AllDigits(c, s)
  {
    Spread(Values(c, s), c.width)
  }

  function WholeBytes(bits: seq<bool>): seq<Byte> {
    SpreadPack(bits, 8);
    Pow2Literals();
    Pack(bits, 8)
  }

  /** The length of the longest prefix made of digits only. */
  function DigitRun(c: Codec, s: string): (n: nat)
    ensures n <= |s| && AllDigits(c, s[..n])
    ensures n < |s| ==> s[n] !in c.digits
  {
    if s == [] || s[0] !in c.digits then 0 else 1 + DigitRun(c, s[1..])
  }

  function Decode(c: Codec, s: string): seq<Byte> {
    WholeBytes(StreamOf(c, s[..DigitRun(c, s)]))
  }

  // ----- the loops -----

  /** Where an encoding loop stands: `values` are out, the bits `left` are still in the accumulator. */
  ghost predicate Emitting(c: Codec, x: seq<Byte>, val: int, values: seq<nat>, left: seq<bool>, out: string) {
    && Spread(x, 8) == Spread(values, c.width) + left
    && Tracks(val, Spread(x, 8))
    && Below(values, |c.digits|)
    && out == Text(c, values)
  }

  lemma PushByte(c: Codec, x: seq<Byte>, b: Byte, val: int, values: seq<nat>, left: seq<bool>, out: string)
    requires Emitting(c, x, val, values, left, out)
    ensures Emitting(c, x + [b], Add(Shl(val, 8), b), values, left + ToBits(b, 8), out)
  {
    hide Shl, Add, Tracks, Pow2, ToBits, Spread;
    Pow2Literals();
    SpreadAppend(x, b, 8);
    TracksPush(val, Spread(x, 8), b, 8);
  }

  lemma EmitDigit(c: Codec, x: seq<Byte>, val: int, values: seq<nat>, left: seq<bool>, out: string)
    requires Sound(c)
    requires Emitting(c, x, val, values, left, out)
    requires c.width <= |left| <= 32
    ensures var digit := Low(Shr(val, |left| - c.width), c.width);
      Emitting(c, x, val, values + [digit], left[c.width..], out + [c.digits[digit]])
  {
    hide Shr, Low, Tracks, Pow2, Value, Spread;
    var group, after := left[..c.width], left[c.width..];
    assert left == group + after;
    assert Spread(values, c.width) + left == Spread(values, c.width) + group + after;
    TracksRead(val, Spread(values, c.width), group, after);
    SpreadGroup(values, group, c.width);
  }

  /** After the last byte: what is left, if anything, is emitted with zeros behind it. */
  lemma FlushDigit(c: Codec, x: seq<Byte>, val: int, values: seq<nat>, left: seq<bool>, out: string)
    requires Sound(c)
    requires Emitting(c, x, val, values, left, out)
    requires |left| < c.width
    ensures Encode(c, x) == if left == [] then out
                            else out + [c.digits[Low(Shl(val, c.width - |left|), c.width)]]
  {
    hide Shl, Tracks, Low, Pow2, Value, Spread, Pack, FillUp;
    if left == [] {
      assert Spread(values, c.width) + left == Spread(values, c.width);
      PackSpread(values, c.width);
    } else {
      FilledIs(values, left, c.width);
      TracksFlush(val, Spread(values, c.width), left, c.width - |left|);
    }
  }

  lemma StartEmitting(c: Codec)
    ensures Emitting(c, [], 0, [], [], "")
  {
  }

  method EncodeLoop(c: Codec, input: seq<Byte>) returns (out: string)
    requires Sound(c)
    ensures out == Encode(c, input)
  {
    hide Shl, Add, Shr, Low, Pow2, Emitting, Encode, ToBits;
    StartEmitting(c);
    out := "";
    var val, bits := 0, 0;
    ghost var values: seq<nat>, left: seq<bool> := [], [];
    for i := 0 to |input|
      invariant 0 <= bits == |left| < c.width
      invariant Emitting(c, input[..i], val, values, left, out)
    {
      PushByte(c, input[..i], input[i], val, values, left, out);
      assert input[..i + 1] == input[..i] + [input[i]];
      val := Add(Shl(val, 8), input[i]);
      bits := bits + 8;
      left := left + ToBits(input[i], 8);
      while c.width <= bits
        invariant 0 <= bits == |left| < c.width + 8
        invariant Emitting(c, input[..i + 1], val, values, left, out)
      {
        EmitDigit(c, input[..i + 1], val, values, left, out);
        var digit := Low(Shr(val, bits - c.width), c.width);
        out := out + [c.digits[digit]];
        bits := bits - c.width;
        values, left := values + [digit], left[c.width..];
      }
    }
    assert input[..|input|] == input;
    FlushDigit(c, input, val, values, left, out);
    if 0 < bits {
      out := out + [c.digits[Low(Shl(val, c.width - bits), c.width)]];
    }
  }

  /** Where a decoding loop stands after the digits `s`: `out` is out, `left` in the accumulator. */
  ghost predicate Collecting(c: Codec, s: string, val: int, left: seq<bool>, out: seq<Byte>) {
    && AllDigits(c, s)
    && StreamOf(c, s) == Spread(out, 8) + left
    && Tracks(val, StreamOf(c, s))
  }

  lemma PushDigit(c: Codec, s: string, d: char, val: int, left: seq<bool>, out: seq<Byte>)
    requires Sound(c)
    requires Collecting(c, s, val, left, out)
    requires d in c.digits
    ensures Collecting(c, s + [d], Add(Shl(val, c.width), IndexOf(c.digits, d)),
                       left + ToBits(IndexOf(c.digits, d), c.width), out)
  {
    hide Shl, Add, Tracks, Pow2, ToBits, Spread, IndexOf;
    var v := IndexOf(c.digits, d);
    assert Values(c, s + [d]) == Values(c, s) + [v];
    SpreadAppend(Values(c, s), v, c.width);
    TracksPush(val, StreamOf(c, s), v, c.width);
  }

  lemma EmitByte(c: Codec, s: string, val: int, left: seq<bool>, out: seq<Byte>)
    requires Collecting(c, s, val, left, out)
    requires 8 <= |left| <= 32
    ensures var b := Low(Shr(val, |left| - 8), 8);
      b < 256 && Collecting(c, s, val, left[8..], out + [b])
  {
    hide Shr, Low, Tracks, Pow2, Value, Spread;
    Pow2Literals();
    var group, after := left[..8], left[8..];
    assert left == group + after;
    assert Spread(out, 8) + left == Spread(out, 8) + group + after;
    TracksRead(val, Spread(out, 8), group, after);
    SpreadGroup(out, group, 8);
  }

  lemma StopDecoding(c: Codec, s: string, n: nat, val: int, left: seq<bool>, out: seq<Byte>)
    requires n <= |s| && (n < |s| ==> s[n] !in c.digits)
    requires Collecting(c, s[..n], val, left, out)
    requires |left| < 8
    ensures out == Decode(c, s)
  {
    Pow2Literals();
    DigitRunIs(c, s, n);
    PackIs(out, left, 8);
  }

  lemma StartCollecting(c: Codec)
    ensures Collecting(c, "", 0, [], [])
  {
  }

  method DecodeLoop(c: Codec, input: string) returns (out: seq<Byte>)
    requires Sound(c) && Ascii(input)
    ensures out == Decode(c, input)
  {
    hide Shl, Add, Shr, Low, Pow2, Collecting, Decode, ToBits, IndexOf, AllDigits;
    StartCollecting(c);
    var dd := DigitTable(c.digits);
    out := [];
    var val, bits, i := 0, 0, 0;
    ghost var left: seq<bool> := [];
    while i < |input|
      invariant 0 <= i <= |input| && 0 <= bits == |left| < 8
      invariant Collecting(c, input[..i], val, left, out)
      invariant IsTable(dd[..], c.digits)
    {
      var digit := dd[input[i] as int];
      assert digit == dd[..][input[i] as int] == IndexOf(c.digits, input[i]);
      if digit == -1 { break; }
      PushDigit(c, input[..i], input[i], val, left, out);
      assert input[..i + 1] == input[..i] + [input[i]];
      val := Add(Shl(val, c.width), digit);
      bits := bits + c.width;
      left := left + ToBits(digit, c.width);
      i := i + 1;
      if 8 <= bits {
        EmitByte(c, input[..i], val, left, out);
        out := out + [Low(Shr(val, bits - 8), 8)];
        bits := bits - 8;
        left := left[8..];
      }
    }
    StopDecoding(c, input, i, val, left, out);
  }

  method B64Encode(input: seq<Byte>, padded: bool) returns (out: string)
    ensures Sound(BASE64)
    ensures out == if padded then Padded(Encode(BASE64, input)) else Encode(BASE64, input)
  {
    Base64IsSound();
    out := EncodeLoop(BASE64, input);
    ghost var digits := out;
    while padded && |out| % 4 != 0
      invariant digits <= out <= Padded(digits)
      invariant !padded ==> out == digits
      decreases |Padded(digits)| - |out|
    {
      out := out + "=";
    }
  }

  method B64Decode(input: string) returns (out: seq<Byte>)
    requires Ascii(input)
    ensures out == Decode(BASE64, input)
  {
    Base64IsSound();
    out := DecodeLoop(BASE64, input);
  }

  method B32Encode(input: seq<Byte>) returns (out: string)
    ensures Sound(BASE32)
    ensures out == Encode(BASE32, input)
  {
    Base32IsSound();
    out := EncodeLoop(BASE32, input);
  }

  method B32Decode(input: string) returns (out: seq<Byte>)
    requires Ascii(input)
    ensures out == Decode(BASE32, input)
  {
    Base32IsSound();
    out := DecodeLoop(BASE32, input);
  }

  method UsesAlphabet(c: Codec, input: string) returns (ok: bool)
    requires Sound(c) && Ascii(input)
    ensures ok <==> AllDigits(c, input)
  {
    var dd := DigitTable(c.digits);
    for i := 0 to |input|
      invariant AllDigits(c, input[..i])
      invariant IsTable(dd[..], c.digits)
    {
      assert dd[input[i] as int] == dd[..][input[i] as int] == IndexOf(c.digits, input[i]);
      if dd[input[i] as int] == -1 { return false; }
    }
    return true;
  }

  method UsesB32Alphabet(input: string) returns (ok: bool)
    requires Ascii(input)
    ensures ok <==> AllDigits(BASE32, input)
  {
    Base32IsSound();
    ok := UsesAlphabet(BASE32, input);
  }

  lemma {:induction false} DigitRunIs(c: Codec, s: string, n: nat)
    requires n <= |s| && AllDigits(c, s[..n])
    requires n < |s| ==> s[n] !in c.digits
    ensures DigitRun(c, s) == n
  {
    if n != 0 {
      assert s[..n][0] == s[0];
      assert s[1..][..n - 1] == s[..n][1..];
      DigitRunIs(c, s[1..], n - 1);
    }
  }
}

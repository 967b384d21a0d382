/** The laws of the two encodings: round trips, lengths, concatenation, the canonical spellings of
    RFC 4648, section 3.5, and which strings a decoder cannot tell apart. */
module BaseLaws {
  import opened Characters
  import opened Bits
  import opened Base
  import opened DivMod

  // ----- from bytes to text and back -----

  lemma EncodeValues(c: Codec, x: seq<Byte>)
    requires Sound(c)
    ensures AllDigits(c, Encode(c, x))
    ensures Values(c, Encode(c, x)) == DigitsOf(x, c.width)
  {
    hide DigitsOf, IndexOf, Pow2;
    var digits := DigitsOf(x, c.width);
    forall k | 0 <= k < |digits| ensures IndexOf(c.digits, c.digits[digits[k]]) == digits[k] {
      IndexOfDigit(c, digits[k]);
    }
  }

  lemma EncodeStream(c: Codec, x: seq<Byte>)
    requires Sound(c)
    ensures AllDigits(c, Encode(c, x))
    ensures StreamOf(c, Encode(c, x)) == FillUp(Spread(x, 8), c.width)
  {
    hide Encode, Values, FillUp, Pack, Spread, Pow2;
    EncodeValues(c, x);
    PackFilled(Spread(x, 8), c.width);
  }

  /** Decoding undoes encoding, whatever follows the digits, as padding does. */
  lemma DecodeEncode(c: Codec, x: seq<Byte>, rest: string)
    requires Sound(c)
    requires rest != "" ==> rest[0] !in c.digits
    ensures Decode(c, Encode(c, x) + rest) == x
  {
    hide Encode, Decode, WholeBytes;
    EncodeStream(c, x);
    DecodeRun(c, Encode(c, x), rest);
    WholeBytesOfFilled(x, c.width);
  }

  lemma DecodeRun(c: Codec, digits: string, rest: string)
    requires AllDigits(c, digits)
    requires rest != "" ==> rest[0] !in c.digits
    ensures Decode(c, digits + rest) == WholeBytes(StreamOf(c, digits))
  {
    hide WholeBytes, StreamOf;
    assert (digits + rest)[..|digits|] == digits;
    DigitRunIs(c, digits + rest, |digits|);
  }

  lemma WholeBytesOfFilled(x: seq<Byte>, w: nat)
    requires 0 < w <= 8
    ensures WholeBytes(FillUp(Spread(x, 8), w)) == x
  {
    hide Spread, Pack, Rest;
    Pow2Literals();
    var stream := Spread(x, 8);
    assert stream + [] == stream;
    PackIs(x, FillUp(stream, w)[|stream|..], 8);
    assert FillUp(stream, w) == stream + FillUp(stream, w)[|stream|..];
  }

  lemma RoundTrip(c: Codec, x: seq<Byte>)
    requires Sound(c)
    ensures Decode(c, Encode(c, x)) == Decode(c, Padded(Encode(c, x))) == x
  {
    hide Encode, Decode;
    var text := Encode(c, x);
    assert text + "" == text;
    DecodeEncode(c, x, "");
    DecodeEncode(c, x, Padded(text)[|text|..]);
    assert text + Padded(text)[|text|..] == Padded(text);
  }

  lemma B64RoundTrip(x: seq<Byte>)
    ensures Sound(BASE64)
    ensures Decode(BASE64, Encode(BASE64, x)) == Decode(BASE64, Padded(Encode(BASE64, x))) == x
  {
    hide Encode, Decode;
    Base64IsSound();
    RoundTrip(BASE64, x);
  }

  lemma B32RoundTrip(x: seq<Byte>)
    ensures Sound(BASE32)
    ensures Decode(BASE32, Encode(BASE32, x)) == x
  {
    hide Encode, Decode;
    Base32IsSound();
    RoundTrip(BASE32, x);
  }

  lemma EncodedLengths(x: seq<Byte>)
    ensures Sound(BASE64) && Sound(BASE32)
    ensures |Encode(BASE64, x)| == (8 * |x| + 5) / 6
    ensures |Padded(Encode(BASE64, x))| == 4 * ((|x| + 2) / 3)
    ensures |Encode(BASE32, x)| == (8 * |x| + 4) / 5
  {
    hide Encode, B64DIGITS, B32DIGITS, Sound;
    Base64IsSound();
    Base32IsSound();
    EncodeLength(BASE64, x);
    EncodeLength(BASE32, x);
  }

  lemma EncodeLength(c: Codec, x: seq<Byte>)
    requires Sound(c)
    ensures 8 * |x| <= |Encode(c, x)| * c.width < 8 * |x| + c.width
  {
    hide DigitsOf;
    DigitsLength(x, c.width);
  }

  lemma DigitsLength(x: seq<Byte>, w: nat)
    requires 0 < w
    ensures 8 * |x| <= |DigitsOf(x, w)| * w < 8 * |x| + w
  {
    hide Pack, Rest, Spread;
    var stream := Spread(x, 8);
    SpreadLength(x, 8);
    PackFilled(stream, w);
    SpreadLength(DigitsOf(x, w), w);
  }

  /** Encoding distributes over concatenation when the left part fills its last digit. */
  lemma EncodeConcat(c: Codec, x: seq<Byte>, y: seq<Byte>)
    requires Sound(c)
    requires Rest(Spread(x, 8), c.width) == []
    ensures Encode(c, x + y) == Encode(c, x) + Encode(c, y)
  {
    hide Pack, Rest, Spread;
    var a, b := Spread(x, 8), Spread(y, 8);
    SpreadConcat(x, y, 8);
    PackConcat(a, b, c.width);
    FillUpConcat(a, b, c.width);
    PackConcat(a, FillUp(b, c.width), c.width);
  }

  lemma FillUpConcat(a: seq<bool>, b: seq<bool>, w: nat)
    requires 0 < w && Rest(a, w) == []
    ensures FillUp(a + b, w) == a + FillUp(b, w)
  {
    hide Pack, Rest;
    PackConcat(a, b, w);
  }

  lemma WholeDigits(x: seq<Byte>, n: nat, w: nat)
    requires 0 < w
    requires 8 * |x| == n * w
    ensures Rest(Spread(x, 8), w) == []
  {
    hide Pack, Rest, Spread;
    var stream := Spread(x, 8);
    SpreadLength(x, 8);
    PackLength(stream, w);
    NoSmallRest(n, |Pack(stream, w)|, |Rest(stream, w)|, w);
  }

  lemma NoSmallRest(n: nat, m: nat, r: nat, w: nat)
    requires r < w
    requires n * w == m * w + r
    ensures n == m && r == 0
  {
    assert (n - m) * w == r;
    NoSmallMultiple(n - m, w);
  }

  /** Whole groups of 3 bytes (base64, padded or not) and of 5 bytes (base32) can be encoded apart. */
  lemma EncodeWholeGroups(x: seq<Byte>, y: seq<Byte>)
    ensures Sound(BASE64) && Sound(BASE32)
    ensures |x| % 3 == 0 ==> Encode(BASE64, x + y) == Encode(BASE64, x) + Encode(BASE64, y)
    ensures |x| % 3 == 0 ==>
      Padded(Encode(BASE64, x + y)) == Padded(Encode(BASE64, x)) + Padded(Encode(BASE64, y))
    ensures |x| % 5 == 0 ==> Encode(BASE32, x + y) == Encode(BASE32, x) + Encode(BASE32, y)
  {
    hide Encode, Padded, Spread, Rest;
    EncodedLengths(x);
    if |x| % 3 == 0 {
      WholeDigits(x, |x| / 3 * 4, 6);
      EncodeConcat(BASE64, x, y);
      PaddedConcat(Encode(BASE64, x), Encode(BASE64, y));
    }
    if |x| % 5 == 0 {
      WholeDigits(x, |x| / 5 * 8, 5);
      EncodeConcat(BASE32, x, y);
    }
  }

  lemma PaddedConcat(s: string, t: string)
    requires |s| % 4 == 0
    ensures Padded(s + t) == Padded(s) + Padded(t)
  {
    assert |s + t| % 4 == |t| % 4;
    assert Padded(s) == s;
    var pads := seq((4 - |t| % 4) % 4, _ => '=');
    assert Padded(t) == t + pads && Padded(s + t) == s + t + pads;
  }

  // ----- from text to bytes and back -----

  /** The bits of `s` that fill whole bytes, and those after them that decoding drops. */
  ghost function Significant(c: Codec, s: string): seq<bool>
    requires AllDigits(c, s)
  {
    var stream := StreamOf(c, s);
    PackLength(stream, 8);
    stream[..|stream| - |Rest(stream, 8)|]
  }

  ghost function Leftover(c: Codec, s: string): seq<bool>
    requires AllDigits(c, s)
  {
    Rest(StreamOf(c, s), 8)
  }

  /** How many bits are dropped is a matter of length alone. */
  lemma LeftoverLength(c: Codec, s: string)
    requires AllDigits(c, s)
    ensures |Leftover(c, s)| == |s| * c.width % 8
  {
    hide Spread, Pack, Rest;
    var stream := StreamOf(c, s);
    SpreadLength(Values(c, s), c.width);
    PackLength(stream, 8);
    DivModExact(|Pack(stream, 8)|, 8, |Rest(stream, 8)|);
  }

  lemma DecodeDigits(c: Codec, s: string)
    requires AllDigits(c, s)
    ensures Decode(c, s) == WholeBytes(StreamOf(c, s))
    ensures StreamOf(c, s) == Spread(Decode(c, s), 8) + Leftover(c, s)
    ensures Spread(Decode(c, s), 8) == Significant(c, s)
  {
    hide Spread, Pack, Rest, StreamOf, Decode;
    assert s + "" == s;
    DecodeRun(c, s, "");
    SpreadPack(StreamOf(c, s), 8);
  }

  /** The kernel of the decoder: two digit strings decode alike exactly when they agree on the bits
      that fill whole bytes. */
  lemma DecodeKernel(c: Codec, s: string, t: string)
    requires AllDigits(c, s) && AllDigits(c, t)
    ensures Decode(c, s) == Decode(c, t) <==> Significant(c, s) == Significant(c, t)
  {
    hide Spread, Decode, Significant;
    DecodeDigits(c, s);
    DecodeDigits(c, t);
    Pow2Literals();
    if Significant(c, s) == Significant(c, t) {
      SpreadInjective(Decode(c, s), Decode(c, t), 8);
    }
  }

  lemma StreamInjective(c: Codec, s: string, t: string)
    requires Sound(c)
    requires AllDigits(c, s) && AllDigits(c, t)
    requires StreamOf(c, s) == StreamOf(c, t)
    ensures s == t
  {
    hide Spread;
    SpreadInjective(Values(c, s), Values(c, t), c.width);
    forall i | 0 <= i < |s| ensures s[i] == t[i] {
      assert Values(c, s)[i] == Values(c, t)[i];
    }
  }

  /** RFC 4648, section 3.5: a digit string is the encoding of what it decodes to exactly when the
      dropped bits are fewer than one digit carries and all zero. */
  lemma CanonicalSpelling(c: Codec, s: string)
    requires Sound(c)
    requires AllDigits(c, s)
    ensures Encode(c, Decode(c, s)) == s
       <==> |Leftover(c, s)| < c.width && Leftover(c, s) == Zeros(|Leftover(c, s)|)
  {
    hide Spread, Decode, Encode, StreamOf, Leftover, Rest;
    var x, left := Decode(c, s), Leftover(c, s);
    DecodeDigits(c, s);
    EncodeStream(c, x);
    if |left| < c.width && left == Zeros(|left|) {
      FilledByZeros(c, s, x, |left|);
      StreamInjective(c, Encode(c, x), s);
    }
    if Encode(c, x) == s {
      var stream := Spread(x, 8);
      assert left == (stream + left)[|stream|..];
      assert left == FillUp(stream, c.width)[|stream|..];
    }
  }

  /** Zeros that complete the last digit are exactly the zeros that encoding adds. */
  lemma FilledByZeros(c: Codec, s: string, x: seq<Byte>, k: nat)
    requires Sound(c) && AllDigits(c, s)
    requires k < c.width
    requires StreamOf(c, s) == Spread(x, 8) + Zeros(k)
    ensures FillUp(Spread(x, 8), c.width) == Spread(x, 8) + Zeros(k)
  {
    hide Spread, Pack, Rest, FillUp;
    SpreadLength(Values(c, s), c.width);
    FillUpWith(Spread(x, 8), |s|, k, c.width);
  }

  lemma FillUpWith(bits: seq<bool>, n: nat, k: nat, w: nat)
    requires k < w
    requires |bits| + k == n * w
    ensures FillUp(bits, w) == bits + Zeros(k)
  {
    hide Pack, Rest;
    var rest := Rest(bits, w);
    PackLength(bits, w);
    var m := |Pack(bits, w)|;
    assert (n - m) * w == |rest| + k;
    if rest == [] {
      NoSmallMultiple(n - m, w);
      assert bits + Zeros(0) == bits;
    } else {
      assert (n - m - 1) * w == |rest| + k - w;
      NoSmallMultiple(n - m - 1, w);
    }
  }

  // ----- both directions as arithmetic on one number -----

  /** The number whose digits in base `base` are `xs`, the most significant first. */
  ghost function NumberIn(xs: seq<nat>, base: nat): nat {
    if xs == [] then 0 else base * NumberIn(xs[..|xs| - 1], base) + xs[|xs| - 1]
  }

  lemma {:induction false} ValueOfSpread(xs: seq<nat>, w: nat)
    requires Below(xs, Pow2(w))
    ensures Value(Spread(xs, w)) == NumberIn(xs, Pow2(w))
  {
    hide Value, Spread, Pow2;
    if xs == [] {
      assert Spread(xs, w) == [] && Value([]) == 0 by { NothingSpread(w); }
    } else {
      var front, last := xs[..|xs| - 1], xs[|xs| - 1];
      ValueOfSpread(front, w);
      assert front + [last] == xs;
      SpreadAppend(front, last, w);
      ValueConcat(Spread(front, w), ToBits(last, w));
      ValueToBits(last, w);
    }
  }

  lemma NothingSpread(w: nat)
    ensures Spread([], w) == [] && Value([]) == 0
  {
  }

  lemma {:induction false} ValueOfZeros(bits: seq<bool>, n: nat)
    ensures Value(bits + Zeros(n)) == Value(bits) * Pow2(n)
  {
    hide Value, Pow2;
    ValueConcat(bits, Zeros(n));
    ZeroBits(n);
    ValueOfZero(n);
  }

  lemma ValueOfZero(n: nat)
    ensures Value(ToBits(0, n)) == 0
  {
    ValueToBits(0, n);
  }

  /** Encoding writes the bytes, read as one number in base 256 and shifted to fill the last digit, in
      base 2^width: every digit of the text is that digit of the number. */
  lemma EncodeIsNumber(c: Codec, x: seq<Byte>)
    requires Sound(c)
    ensures var digits := DigitsOf(x, c.width);
      && |Encode(c, x)| == |digits| && Below(digits, |c.digits|)
      && (forall k :: 0 <= k < |digits| ==> Encode(c, x)[k] == c.digits[digits[k]])
      && 0 <= |digits| * c.width - 8 * |x| < c.width
      && NumberIn(digits, Pow2(c.width)) == NumberIn(x, 256) * Pow2(|digits| * c.width - 8 * |x|)
  {
    hide Value, Spread, Pack, Rest, Pow2, NumberIn;
    var w, bits := c.width, Spread(x, 8);
    var digits := DigitsOf(x, w);
    Pow2Literals();
    PackFilled(bits, w);
    SpreadLength(x, 8);
    SpreadLength(digits, w);
    DigitsLength(x, w);
    ValueOfSpread(x, 8);
    ValueOfSpread(digits, w);
    var n := |digits| * w - 8 * |x|;
    assert FillUp(bits, w) == bits + Zeros(n);
    ValueOfZeros(bits, n);
  }

  lemma PackedNumber(bits: seq<bool>)
    ensures Pow2(8) == 256 && Below(Pack(bits, 8), 256)
    ensures |bits| == 8 * |Pack(bits, 8)| + |Rest(bits, 8)|
    ensures NumberIn(Pack(bits, 8), 256) == Value(bits) / Pow2(|Rest(bits, 8)|)
  {
    hide Value, Spread, Pack, Rest, Pow2, NumberIn;
    Pow2Literals();
    SpreadPack(bits, 8);
    PackLength(bits, 8);
    var bytes, rest := Pack(bits, 8), Rest(bits, 8);
    ValueOfSpread(bytes, 8);
    ValueConcat(Spread(bytes, 8), rest);
    ValueBound(rest);
    DivModExact(NumberIn(bytes, 256), Pow2(|rest|), Value(rest));
  }

  lemma ValuesSpell(c: Codec, s: string)
    requires Sound(c) && AllDigits(c, s)
    ensures Below(Values(c, s), Pow2(c.width)) && |Values(c, s)| == |s|
    ensures forall k :: 0 <= k < |s| ==> Values(c, s)[k] < |c.digits| && c.digits[Values(c, s)[k]] == s[k]
  {
    hide Pow2;
  }

  lemma InBytes(n: nat, bytes: nat, rest: nat)
    requires n == 8 * bytes + rest && rest < 8
    ensures n / 8 == bytes && n % 8 == rest
  {
  }

  /** Decoding a text of digits only reads them as one number in base 2^width, and writes it in base
      256 without the bits that do not fill a byte. */
  lemma DecodeIsNumber(c: Codec, s: string)
    requires Sound(c) && AllDigits(c, s)
    ensures var bytes, values := Decode(c, s), Values(c, s);
      && |values| == |s| && (forall k :: 0 <= k < |s| ==> values[k] < |c.digits| && c.digits[values[k]] == s[k])
      && |bytes| == |s| * c.width / 8
      && NumberIn(bytes, 256) == NumberIn(values, Pow2(c.width)) / Pow2(|s| * c.width % 8)
  {
    ValuesSpell(c, s);
    DecodeDigits(c, s);
    hide Value, Spread, Pack, Rest, Pow2, NumberIn, Values, Decode, DigitRun, Sound, AllDigits;
    var values := Values(c, s);
    var bits := Spread(values, c.width);
    PackedNumber(bits);
    SpreadLength(values, c.width);
    ValueOfSpread(values, c.width);
    InBytes(|s| * c.width, |Pack(bits, 8)|, |Rest(bits, 8)|);
  }

  /** The first foreign character and everything after it is ignored. */
  lemma StopsAtForeign(c: Codec, s: string, d: char, t: string)
    requires AllDigits(c, s) && d !in c.digits
    ensures Decode(c, s + ([d] + t)) == Decode(c, s)
  {
    hide Spread, Pack, Rest, StreamOf, Decode;
    DecodeRun(c, s, [d] + t);
    DecodeDigits(c, s);
  }
}

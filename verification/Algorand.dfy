/** Algorand addresses (hooks/algorand.cpp): a 32-byte key, the last four bytes of its hash, and the
    base32 text of the 36 bytes together.

    SHA-512/256 is a parameter: any function from byte strings to 32 bytes. */
module Algorand {
  import opened Characters
  import opened Bits
  import opened Base
  import opened BaseLaws

  type Key = k: seq<Byte> | |k| == 32 witness Blank()
  type Hash = seq<Byte> -> Key

  function Blank(): (k: seq<Byte>)
    ensures |k| == 32
  {
    seq(32, _ => 0)
  }

  // 52 times `A`, then `Y5HFKQ`
  const ZERO_ADDRESS := "AAAAAAAAAAAAAAAAAAAAAAAAAA" + "AAAAAAAAAAAAAAAAAAAAAAAAAA" + "Y5HFKQ"

  // ----- specification -----

  function WithChecksum(hash: Hash, key: seq<Byte>): seq<Byte> {
    key + hash(key)[28..]
  }

  function AddressOf(hash: Hash, key: seq<Byte>): string {
    Base32IsSound();
    Encode(BASE32, WithChecksum(hash, key))
  }

  function KeyOf(address: string): seq<Byte>
    requires 32 <= |Decode(BASE32, address)|
  {
    Decode(BASE32, address)[..32]
  }

  ghost predicate ValidChecksummed(hash: Hash, data: seq<Byte>) {
    |data| == 36 && data == WithChecksum(hash, data[..32])
  }

  ghost predicate Valid(hash: Hash, address: string) {
    && |address| == 58
    && AllDigits(BASE32, address)
    && ValidChecksummed(hash, Decode(BASE32, address))
  }

  /** The checksum is the last four bytes of the hash; 36 bytes are accepted exactly when those follow
      the key. */
  lemma LastFourBytes(hash: Hash, data: seq<Byte>)
    ensures var h := hash(data); WithChecksum(hash, data) == data + [h[28], h[29], h[30], h[31]]
    ensures |data| == 36 ==> var h := hash(data[..32]);
      ValidChecksummed(hash, data) <==> data[32..] == [h[28], h[29], h[30], h[31]]
    ensures |data| != 36 ==> !ValidChecksummed(hash, data)
  {
    if |data| == 36 {
      assert data == data[..32] + data[32..];
      var h := hash(data[..32]);
      assert h[28..] == [h[28], h[29], h[30], h[31]];
      assert WithChecksum(hash, data[..32])[32..] == h[28..];
    }
  }

  // ----- the code -----

  method Checksummed(hash: Hash, publicKey: seq<Byte>) returns (copy: seq<Byte>)
    ensures copy == WithChecksum(hash, publicKey)
    ensures var h := hash(publicKey); copy == publicKey + [h[28], h[29], h[30], h[31]]
  {
    copy := publicKey;
    var digest := hash(publicKey);
    copy := copy + digest[|digest| - 4..];
  }

  method IsValidChecksummed(hash: Hash, checksummedKey: seq<Byte>) returns (ok: bool)
    ensures ok <==> ValidChecksummed(hash, checksummedKey)
    ensures |checksummedKey| == 36 ==> var h := hash(checksummedKey[..32]);
      ok <==> checksummedKey[32..] == [h[28], h[29], h[30], h[31]]
    ensures |checksummedKey| != 36 ==> !ok
  {
    LastFourBytes(hash, checksummedKey);
    if |checksummedKey| != 36 { return false; }
    var key := checksummedKey[..32];
    var expected := Checksummed(hash, key);
    ok := checksummedKey == expected;
  }

  method IsValid(hash: Hash, address: string) returns (ok: bool)
    requires Ascii(address)
    ensures ok <==> Valid(hash, address)
  {
    hide AllDigits;
    ok := |address| == 58;
    if ok {
      ok := UsesB32Alphabet(address);
    }
    if ok {
      var data := B32Decode(address);
      ok := IsValidChecksummed(hash, data);
    }
  }

  class Address {
    var asString: string
    var publicKey: seq<Byte>

    /** Both size assertions hold of any 58 characters that carry at least 32 bytes. */
    constructor FromString(address: string)
      requires Ascii(address) && |address| == 58
      requires 32 <= |Decode(BASE32, address)|
      ensures asString == address && publicKey == KeyOf(address)
      ensures |asString| == 58 && |publicKey| == 32
    {
      var withChecksum := B32Decode(address);
      asString := address;
      publicKey := withChecksum[..32];
      new;
      assert |asString| == 58;
      assert |publicKey| == 32;
    }

    /** Both size assertions hold of any 32-byte key. */
    constructor FromKey(hash: Hash, key: seq<Byte>)
      requires |key| == 32
      ensures asString == AddressOf(hash, key) && publicKey == key
      ensures |asString| == 58 && |publicKey| == 32
    {
      hide AddressOf;
      var copy := Checksummed(hash, key);
      var text := B32Encode(copy);
      asString := text;
      publicKey := key;
      new;
      AddressLength(hash, key);
      assert asString == AddressOf(hash, key) by { IsAddressOf(hash, key, copy, text); }
      assert |asString| == 58;
      assert |publicKey| == 32;
    }

    /** The zero address. */
    constructor ()
      ensures asString == ZERO_ADDRESS && publicKey == Blank()
    {
      ZeroAddress();
      var withChecksum := B32Decode(ZERO_ADDRESS);
      asString := ZERO_ADDRESS;
      publicKey := withChecksum[..32];
      new;
      assert |asString| == 58;
      assert |publicKey| == 32;
    }
  }

  lemma IsAddressOf(hash: Hash, key: seq<Byte>, copy: seq<Byte>, text: string)
    requires copy == WithChecksum(hash, key)
    requires Sound(BASE32) && text == Encode(BASE32, copy)
    ensures text == AddressOf(hash, key)
  {
  }

  // ----- sizes: 290 bits carry 288 -----

  lemma AddressLength(hash: Hash, key: seq<Byte>)
    requires |key| == 32
    ensures |AddressOf(hash, key)| == 58
  {
    hide Encode;
    EncodedLengths(WithChecksum(hash, key));
  }

  /** Every 32-byte key has an address of 58 characters that is accepted and decodes to that key. */
  lemma AddressRoundTrip(hash: Hash, key: seq<Byte>)
    requires |key| == 32
    ensures var s := AddressOf(hash, key);
      && |s| == 58 && Valid(hash, s)
      && Decode(BASE32, s) == WithChecksum(hash, key)
      && KeyOf(s) == key
  {
    hide Encode, Decode, AllDigits;
    AddressLength(hash, key);
    B32RoundTrip(WithChecksum(hash, key));
    EncodeValues(BASE32, WithChecksum(hash, key));
    assert WithChecksum(hash, key)[..32] == key;
  }

  /** Accepted strings meet what the string constructor demands, so its assertions never fire. */
  lemma ValidIsConstructible(hash: Hash, s: string)
    requires Valid(hash, s)
    ensures Ascii(s) && |s| == 58 && 32 <= |Decode(BASE32, s)|
    ensures Decode(BASE32, s) == WithChecksum(hash, KeyOf(s))
  {
    hide Decode;
    Base32IsSound();
    forall i | 0 <= i < |s| ensures (s[i] as int) < 128 {
      assert s[i] in BASE32.digits;
    }
  }

  // ----- the four spellings of a key -----

  ghost predicate FiveBitCodec(c: Codec) { Sound(c) && c.width == 5 && |c.digits| == 32 }

  lemma Base32IsFiveBit()
    ensures FiveBitCodec(BASE32)
  {
    Base32IsSound();
    Base32Codes();
  }

  /** What the last digit of an address contributes to the key: its top three bits. */
  function TopBits(c: Codec, d: char): int {
    IndexOf(c.digits, d) / 4
  }

  lemma FiveBits(v: nat)
    requires v < 32
    ensures ToBits(v, 5) == ToBits(v / 4, 3) + [v / 2 % 2 == 1, v % 2 == 1]
  {
    assert v / 2 / 2 == v / 4;
    assert ToBits(v, 5) == ToBits(v / 4, 3) + [v / 2 % 2 == 1] + [v % 2 == 1];
  }

  lemma SuffixOf(a: seq<bool>, b: seq<bool>, a': seq<bool>, b': seq<bool>)
    requires a + b == a' + b' && |b| == |b'|
    ensures a == a' && b == b'
  {
    assert |a| == |a'|;
    assert a == (a + b)[..|a|] && a' == (a' + b')[..|a|];
    assert b == (a + b)[|a|..] && b' == (a' + b')[|a|..];
  }

  /** The 290 bits of 58 digits: 285 from the first 57, three that count and two that are dropped. */
  lemma AddressStream(c: Codec, s: string)
    requires FiveBitCodec(c)
    requires |s| == 58 && AllDigits(c, s)
    ensures var v := IndexOf(c.digits, s[57]);
      && 0 <= v < 32
      && Significant(c, s) == Spread(Values(c, s)[..57], 5) + ToBits(v / 4, 3)
      && Leftover(c, s) == [v / 2 % 2 == 1, v % 2 == 1]
  {
    hide Spread, Rest, Pack, IndexOf, ToBits, Significant;
    var values := Values(c, s);
    var v := values[57];
    var two := [v / 2 % 2 == 1, v % 2 == 1];
    assert values == values[..57] + [v];
    SpreadAppend(values[..57], v, 5);
    FiveBits(v);
    LeftoverLength(c, s);
    DecodeDigits(c, s);
    assert StreamOf(c, s) == Spread(values[..57], 5) + ToBits(v / 4, 3) + two;
    SuffixOf(Significant(c, s), Leftover(c, s), Spread(values[..57], 5) + ToBits(v / 4, 3), two);
  }

  /** Strings of 58 digits decode alike exactly when they agree on the first 57 characters and on
      the top three bits of the last one. */
  lemma SameDecoding(c: Codec, s: string, t: string)
    requires FiveBitCodec(c)
    requires |s| == 58 && AllDigits(c, s)
    requires |t| == 58 && AllDigits(c, t)
    ensures Decode(c, s) == Decode(c, t)
       <==> s[..57] == t[..57] && TopBits(c, s[57]) == TopBits(c, t[57])
  {
    hide Spread, Decode, Significant, Leftover, IndexOf, Value, ToBits;
    AddressStream(c, s);
    AddressStream(c, t);
    DecodeKernel(c, s, t);
    var a, b := Values(c, s)[..57], Values(c, t)[..57];
    var x, y := TopBits(c, s[57]), TopBits(c, t[57]);
    SameValues(c, s, t);
    if Decode(c, s) == Decode(c, t) {
      SuffixOf(Spread(a, 5), ToBits(x, 3), Spread(b, 5), ToBits(y, 3));
      SpreadInjective(a, b, 5);
      ThreeBits(x);
      ThreeBits(y);
    }
  }

  lemma ThreeBits(x: nat)
    requires x < 8
    ensures Value(ToBits(x, 3)) == x
  {
    assert Pow2(3) == 8;
    ValueToBits(x, 3);
  }

  lemma SameValues(c: Codec, s: string, t: string)
    requires |s| == 58 && AllDigits(c, s)
    requires |t| == 58 && AllDigits(c, t)
    ensures Values(c, s)[..57] == Values(c, t)[..57] <==> s[..57] == t[..57]
  {
    var a, b := Values(c, s), Values(c, t);
    if a[..57] == b[..57] {
      forall i | 0 <= i < 57 ensures s[i] == t[i] {
        assert a[..57][i] == b[..57][i];
      }
    }
    if s[..57] == t[..57] {
      forall i | 0 <= i < 57 ensures a[i] == b[i] {
        assert s[..57][i] == t[..57][i];
      }
    }
  }

  /** Two accepted strings name the same key exactly when they differ in the two dropped bits only. */
  lemma SameKey(hash: Hash, s: string, t: string)
    requires Valid(hash, s) && Valid(hash, t)
    ensures 32 <= |Decode(BASE32, s)| && 32 <= |Decode(BASE32, t)|
    ensures KeyOf(s) == KeyOf(t)
       <==> s[..57] == t[..57] && TopBits(BASE32, s[57]) == TopBits(BASE32, t[57])
  {
    hide Decode, AllDigits, TopBits, FiveBitCodec, B32DIGITS;
    ValidIsConstructible(hash, s);
    ValidIsConstructible(hash, t);
    Base32IsFiveBit();
    SameDecoding(BASE32, s, t);
  }

  /** `address` with the two dropped bits of its last digit set to `j`. */
  function Respell(c: Codec, address: string, j: nat): string
    requires |address| == 58 && j < 4
    requires |c.digits| == 32 && address[57] in c.digits
  {
    address[..57] + [c.digits[4 * TopBits(c, address[57]) + j]]
  }

  lemma RespellDigit(c: Codec, s: string, j: nat)
    requires FiveBitCodec(c)
    requires |s| == 58 && AllDigits(c, s) && j < 4
    ensures var t := Respell(c, s, j);
      && |t| == 58 && AllDigits(c, t)
      && t[..57] == s[..57] && TopBits(c, t[57]) == TopBits(c, s[57])
      && IndexOf(c.digits, t[57]) == 4 * TopBits(c, s[57]) + j
  {
  }

  lemma SpellingOf(c: Codec, s: string, t: string)
    requires FiveBitCodec(c)
    requires |s| == 58 && AllDigits(c, s)
    requires |t| == 58 && AllDigits(c, t)
    requires s[..57] == t[..57] && TopBits(c, s[57]) == TopBits(c, t[57])
    ensures t == Respell(c, s, IndexOf(c.digits, t[57]) % 4)
  {
  }

  ghost predicate IsSpelling(address: string, s: string)
    requires FiveBitCodec(BASE32)
    requires |address| == 58 && address[57] in BASE32.digits
  {
    exists j: nat :: j < 4 && s == Respell(BASE32, address, j)
  }

  lemma DistinctSpellings(c: Codec, s: string, i: nat, j: nat)
    requires FiveBitCodec(c)
    requires |s| == 58 && AllDigits(c, s)
    requires i < 4 && j < 4
    ensures Respell(c, s, i) == Respell(c, s, j) <==> i == j
  {
    hide Respell, IndexOf, TopBits;
    RespellDigit(c, s, i);
    RespellDigit(c, s, j);
  }

  /** The canonical spelling has zeros for the two dropped bits. */
  lemma CanonicalAddress(c: Codec, s: string)
    requires FiveBitCodec(c)
    requires |s| == 58 && AllDigits(c, s)
    ensures Encode(c, Decode(c, s)) == s <==> s == Respell(c, s, 0)
  {
    hide Decode, Encode, Significant, Leftover, Spread, Pack, Rest, IndexOf;
    CanonicalSpelling(c, s);
    AddressStream(c, s);
    RespellDigit(c, s, 0);
    var v := IndexOf(c.digits, s[57]);
    SpellingOf(c, s, s);
    DistinctSpellings(c, s, 0, v % 4);
    assert Zeros(2) == [false, false];
    assert v % 4 == 0 <==> v % 2 == 0 && v / 2 % 2 == 0;
  }

  /** Every 32-byte key has exactly four accepted spellings, told apart by the two dropped bits; the
      address that encoding returns is the one where they are zero. */
  lemma FourSpellings(hash: Hash, key: seq<Byte>, s: string)
    requires |key| == 32
    ensures FiveBitCodec(BASE32)
    ensures var a := AddressOf(hash, key);
      && |a| == 58 && a[57] in BASE32.digits
      && a == Respell(BASE32, a, 0)
      && (forall i: nat, j: nat | i < j < 4 :: Respell(BASE32, a, i) != Respell(BASE32, a, j))
      && (IsSpelling(a, s) <==> Valid(hash, s) && 32 <= |Decode(BASE32, s)| && KeyOf(s) == key)
  {
    hide Decode, Encode, FiveBitCodec, TopBits, IndexOf, Respell, B32DIGITS;
    var a := AddressOf(hash, key);
    Base32IsFiveBit();
    AddressRoundTrip(hash, key);
    CanonicalAddress(BASE32, a);
    forall i: nat, j: nat | i < j < 4 ensures Respell(BASE32, a, i) != Respell(BASE32, a, j) {
      DistinctSpellings(BASE32, a, i, j);
    }
    if IsSpelling(a, s) {
      var j: nat :| j < 4 && s == Respell(BASE32, a, j);
      RespellDigit(BASE32, a, j);
      SameDecoding(BASE32, a, s);
    }
    if Valid(hash, s) && 32 <= |Decode(BASE32, s)| && KeyOf(s) == key {
      ValidIsConstructible(hash, s);
      SameDecoding(BASE32, a, s);
      SpellingOf(BASE32, a, s);
    }
  }

  // ----- the zero address -----

  lemma {:induction false} SpreadZeros(n: nat, w: nat)
    ensures Spread(seq(n, _ => 0), w) == Zeros(n * w)
  {
    if n != 0 {
      assert seq(n, _ => 0)[1..] == seq(n - 1, _ => 0);
      SpreadZeros(n - 1, w);
      ZeroBits(w);
      assert n * w == w + (n - 1) * w;
    }
  }

  lemma FirstDigitsZero(c: Codec, s: string)
    requires FiveBitCodec(c)
    requires |s| == 58 && AllDigits(c, s)
    requires forall i :: 0 <= i < 52 ==> s[i] == c.digits[0]
    ensures |Decode(c, s)| == 36 && Decode(c, s)[..32] == Blank()
  {
    hide Spread, Decode, Leftover, IndexOf, ToBits, Value;
    var values, data := Values(c, s), Decode(c, s);
    var zeros := seq(52, _ => 0);
    IndexOfDigit(c, 0);
    assert values == zeros + values[52..];
    SpreadConcat(zeros, values[52..], 5);
    SpreadZeros(52, 5);
    SpreadLength(values, 5);
    DecodeDigits(c, s);
    SpreadLength(data, 8);
    LeftoverLength(c, s);
    var head, tail := data[..32], data[32..];
    assert data == head + tail;
    SpreadConcat(head, tail, 8);
    SpreadLength(head, 8);
    SpreadZeros(32, 8);
    StreamStarts(c, s, zeros, values[52..]);
    assert Spread(head, 8) == StreamOf(c, s)[..256] == Zeros(256);
    Pow2Literals();
    SpreadInjective(head, Blank(), 8);
  }

  lemma StreamStarts(c: Codec, s: string, a: seq<nat>, b: seq<nat>)
    requires c.width == 5 && AllDigits(c, s)
    requires Values(c, s) == a + b && |a| == 52
    requires Spread(a, 5) == Zeros(260)
    requires 256 <= |StreamOf(c, s)|
    ensures StreamOf(c, s)[..256] == Zeros(256)
  {
    hide Spread;
    SpreadConcat(a, b, 5);
    assert (Spread(a, 5) + Spread(b, 5))[..256] == Spread(a, 5)[..256] == Zeros(256);
  }

  /** The first 52 digits of the zero address are zero, and they cover the key. */
  lemma ZeroAddress()
    ensures |ZERO_ADDRESS| == 58 && Ascii(ZERO_ADDRESS)
    ensures AllDigits(BASE32, ZERO_ADDRESS)
    ensures 32 <= |Decode(BASE32, ZERO_ADDRESS)|
    ensures KeyOf(ZERO_ADDRESS) == Blank()
  {
    hide Decode;
    var s := ZERO_ADDRESS;
    Base32IsFiveBit();
    Base32Codes();
    var c := BASE32;
    assert c.digits[0] == 'A' && c.digits[24] == 'Y' && c.digits[29] == '5' && c.digits[7] == 'H'
        && c.digits[5] == 'F' && c.digits[10] == 'K' && c.digits[16] == 'Q';
    assert forall i :: 0 <= i < 52 ==> s[i] == 'A';
    assert s[52..] == "Y5HFKQ";
    forall i | 0 <= i < 58 ensures s[i] in c.digits {
      if 52 <= i {
        assert s[i] == s[52..][i - 52];
      }
    }
    FirstDigitsZero(c, s);
  }
}

/** Python's own `base64` module, as the client uses it: `b64encode` pads, `b64decode` skips foreign
    characters and stops at complete padding. What it decodes of an encoded text agrees with Base. */
module PyBase64 {
  import opened Common
  import opened Characters
  import opened Bits
  import opened Base
  import opened BaseLaws

  function B64EncodePadded(x: seq<Byte>): string {
    Base64IsSound();
    Padded(Encode(BASE64, x))
  }

  /** The digit values read before the input ends or its padding is complete; None is the error for
      a number of digits that needs padding and has none. */
  function Scan(s: string, values: seq<nat>, pads: nat): (r: Option<seq<nat>>)
    requires Below(values, 64)
    ensures r.Some? ==> Below(r.value, 64)
  {
    if s == "" then
      if |values| % 4 == 0 then Some(values) else None
    else if s[0] == '=' then
      if |values| % 4 < 2 then Scan(s[1..], values, pads)
      else if 4 <= |values| % 4 + pads + 1 then Some(values)
      else Scan(s[1..], values, pads + 1)
    else if s[0] in B64DIGITS then
      assert |B64DIGITS| == 64 by { Base64Codes(); }
      Scan(s[1..], values + [IndexOf(B64DIGITS, s[0])], 0)
    else Scan(s[1..], values, pads)
  }

  function B64DecodePy(s: string): Option<seq<Byte>> {
    match Scan(s, [], 0)
    case None => None
    case Some(values) => Some(WholeBytes(Spread(values, 6)))
  }

  lemma ScanDigit(d: char, rest: string, values: seq<nat>, pads: nat)
    requires Below(values, 64)
    requires d in B64DIGITS
    ensures IndexOf(B64DIGITS, d) < 64
    ensures Scan([d] + rest, values, pads) == Scan(rest, values + [IndexOf(B64DIGITS, d)], 0)
  {
    hide IndexOf, B64DIGITS;
    Base64Codes();
    assert d != '=' by { NoPadDigit(); }
    assert ([d] + rest)[1..] == rest;
  }

  lemma NoPadDigit()
    ensures '=' !in B64DIGITS
  {
    Base64Codes();
    assert forall k :: 0 <= k < 64 ==> Code64(k) != '=' as int;
  }

  lemma {:induction false} ScanDigits(s: string, rest: string, values: seq<nat>, pads: nat)
    requires Below(values, 64)
    requires AllDigits(BASE64, s)
    ensures Below(Values(BASE64, s), 64)
    ensures Scan(s + rest, values, pads)
         == Scan(rest, values + Values(BASE64, s), if s == "" then pads else 0)
  {
    hide IndexOf, B64DIGITS, Scan;
    Base64Codes();
    if s == "" {
      assert s + rest == rest;
      assert values + Values(BASE64, s) == values;
    } else {
      var d, tail := s[0], s[1..];
      var v := IndexOf(B64DIGITS, d);
      ScanDigit(d, tail + rest, values, pads);
      assert s + rest == [d] + (tail + rest);
      assert Values(BASE64, s) == [v] + Values(BASE64, tail);
      assert values + Values(BASE64, s) == (values + [v]) + Values(BASE64, tail);
      ScanDigits(tail, rest, values + [v], 0);
    }
  }

  lemma ScanPadding(values: seq<nat>, rest: string)
    requires Below(values, 64)
    requires |values| % 4 != 1
    requires rest == if |values| % 4 == 0 then "" else if |values| % 4 == 2 then "==" else "="
    ensures Scan(rest, values, 0) == Some(values)
  {
  }

  /** Python decodes what Python, or the hook, encoded. */
  lemma PyRoundTrip(x: seq<Byte>)
    ensures B64DecodePy(B64EncodePadded(x)) == Some(x)
  {
    hide Encode, Scan, StreamOf, WholeBytes, Spread;
    var c := BASE64;
    Base64IsSound();
    var text := Encode(c, x);
    var rest := Padded(text)[|text|..];
    EncodedLengths(x);
    EncodeStream(c, x);
    WholeBytesOfFilled(x, 6);
    assert Padded(text) == text + rest;
    ScanDigits(text, rest, [], 0);
    assert [] + Values(c, text) == Values(c, text);
    assert text == "" ==> rest == "";
    ScanPadding(Values(c, text), rest);
    assert StreamOf(c, text) == Spread(Values(c, text), 6) by { StreamIs(text); }
  }

  lemma StreamIs(s: string)
    requires AllDigits(BASE64, s)
    ensures StreamOf(BASE64, s) == Spread(Values(BASE64, s), 6)
  {
  }

  /** Encoded text holds alphabet digits and padding only. */
  lemma EncodedCharacters(x: seq<Byte>, i: nat)
    requires i < |B64EncodePadded(x)|
    ensures B64EncodePadded(x)[i] in B64DIGITS || B64EncodePadded(x)[i] == '='
    ensures (B64EncodePadded(x)[i] as int) < 128
  {
    hide Encode, AllDigits;
    Base64IsSound();
    EncodeStream(BASE64, x);
    PaddedCharacter(BASE64, Encode(BASE64, x), i);
  }

  lemma PaddedCharacter(c: Codec, s: string, i: nat)
    requires Sound(c) && AllDigits(c, s)
    requires i < |Padded(s)|
    ensures Padded(s)[i] in c.digits || Padded(s)[i] == '='
    ensures (Padded(s)[i] as int) < 128
  {
  }

  lemma EncodedEmpty(x: seq<Byte>)
    ensures |B64EncodePadded(x)| == 4 * ((|x| + 2) / 3)
    ensures B64EncodePadded(x) == "" <==> x == []
  {
    hide Encode;
    EncodedLengths(x);
  }

  // ----- other texts -----

  predicate Base64Text(s: string) {
    forall i :: 0 <= i < |s| ==> s[i] in B64DIGITS || s[i] == '='
  }

  function WithoutForeign(s: string): (t: string)
    ensures Base64Text(t)
  {
    if s == "" then ""
    else if s[0] in B64DIGITS || s[0] == '=' then [s[0]] + WithoutForeign(s[1..])
    else WithoutForeign(s[1..])
  }

  lemma {:induction false} ForeignScanned(s: string, values: seq<nat>, pads: nat)
    requires Below(values, 64)
    ensures Scan(s, values, pads) == Scan(WithoutForeign(s), values, pads)
    decreases |s|
  {
    hide IndexOf, B64DIGITS;
    if s != "" {
      Base64Codes();
      NoPadDigit();
      var t := WithoutForeign(s);
      if s[0] == '=' {
        assert t[1..] == WithoutForeign(s[1..]);
        if 2 <= |values| % 4 {
          ForeignScanned(s[1..], values, pads + 1);
        } else {
          ForeignScanned(s[1..], values, pads);
        }
      } else if s[0] in B64DIGITS {
        assert t[1..] == WithoutForeign(s[1..]);
        ForeignScanned(s[1..], values + [IndexOf(B64DIGITS, s[0])], 0);
      } else {
        ForeignScanned(s[1..], values, pads);
      }
    }
  }

  /** Foreign characters are skipped; digits without padding are decoded when they come in fours. */
  lemma LenientDecoding(s: string)
    ensures B64DecodePy(s) == B64DecodePy(WithoutForeign(s))
    ensures AllDigits(BASE64, s) ==>
      B64DecodePy(s) == if |s| % 4 == 0 then Some(Decode(BASE64, s)) else None
  {
    hide Scan, IndexOf, B64DIGITS, WholeBytes;
    ForeignScanned(s, [], 0);
    if AllDigits(BASE64, s) {
      ScanDigits(s, "", [], 0);
      assert s + "" == s && [] + Values(BASE64, s) == Values(BASE64, s);
      ScanEnd(Values(BASE64, s), 0);
      DecodeDigits(BASE64, s);
    }
  }

  lemma ScanEnd(values: seq<nat>, pads: nat)
    requires Below(values, 64)
    ensures Scan("", values, pads) == if |values| % 4 == 0 then Some(values) else None
  {
  }

  function Pads(n: nat): (s: string)
    ensures |s| == n
  {
    seq(n, _ => '=')
  }

  /** Padding that completes a group of four ends the text; incomplete padding at the end is an error. */
  lemma PaddingEnds(s: string, n: nat, rest: string)
    requires AllDigits(BASE64, s) && 2 <= |s| % 4 && 1 <= n <= 4 - |s| % 4
    ensures |s| % 4 + n == 4 ==> B64DecodePy(s + (Pads(n) + rest)) == Some(Decode(BASE64, s))
    ensures |s| % 4 + n < 4 ==> B64DecodePy(s + (Pads(n) + "")) == None
  {
    hide IndexOf, B64DIGITS, WholeBytes, Scan;
    var values := Values(BASE64, s);
    Base64Codes();
    ScanDigits(s, Pads(n) + rest, [], 0);
    ScanDigits(s, Pads(n) + "", [], 0);
    assert [] + values == values;
    PadsScanned(values, n, rest);
    DecodeDigits(BASE64, s);
  }

  lemma PadsScanned(values: seq<nat>, n: nat, rest: string)
    requires Below(values, 64) && 2 <= |values| % 4 && 1 <= n <= 4 - |values| % 4
    ensures |values| % 4 + n == 4 ==> Scan(Pads(n) + rest, values, 0) == Some(values)
    ensures |values| % 4 + n < 4 ==> Scan(Pads(n) + "", values, 0) == None
  {
    hide IndexOf, B64DIGITS;
    var s := Pads(n) + rest;
    assert s[0] == '=';
    if n == 1 {
      assert s[1..] == rest;
      assert (Pads(n) + "")[1..] == "";
    } else {
      assert s[1..][0] == '=';
    }
  }
}

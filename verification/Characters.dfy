/** Bytes, characters and letters. */
module Characters {
  type Byte = n: nat | n < 256

  predicate Ascii(s: string) { forall i :: 0 <= i < |s| ==> s[i] as int < 128 }

  predicate AsciiBytes(x: seq<Byte>) { forall i :: 0 <= i < |x| ==> x[i] < 128 }

  /** Every byte as the character of that code. */
  function Chars(x: seq<Byte>): (s: string)
    ensures |s| == |x| && forall i :: 0 <= i < |x| ==> s[i] as int == x[i]
  {
    seq(|x|, i requires 0 <= i < |x| => x[i] as char)
  }

  /** The codes of ASCII characters. */
  function Codes(s: string): (x: seq<Byte>)
    requires Ascii(s)
    ensures AsciiBytes(x) && Chars(x) == s
  {
    seq(|s|, i requires 0 <= i < |s| => s[i] as int)
  }

  function Upper(s: string): (u: string)
    ensures |u| == |s|
  {
    seq(|s|, i requires 0 <= i < |s| =>
      if 'a' <= s[i] <= 'z' then (s[i] as int - 32) as char else s[i])
  }

  /** Only lower-case letters change, each to the letter 32 codes below; none is left. */
  lemma UpperIs(s: string)
    ensures forall i :: 0 <= i < |s| ==>
      && !('a' <= Upper(s)[i] <= 'z')
      && (Upper(s)[i] == s[i] || ('a' <= s[i] <= 'z' && Upper(s)[i] as int + 32 == s[i] as int))
  {
  }
}

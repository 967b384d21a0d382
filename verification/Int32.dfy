/** The C++ `int` of the codec loops: two's complement, 32 bits, shifts and sums wrap around. */
module Int32 {
  import opened DivMod
  import opened Bits

  const MODULUS := 0x1_0000_0000

  function Wrap(v: int): (r: int)
    ensures -0x8000_0000 <= r < 0x8000_0000
  {
    (v + 0x8000_0000) % MODULUS - 0x8000_0000
  }

  /** `a + b` */
  function Add(a: int, b: int): int { Wrap(a + b) }

  /** `v << k` */
  function Shl(v: int, k: nat): int { Wrap(v * Pow2(k)) }

  /** `v >> k`: arithmetic, so rounding down also for a negative `v` */
  function Shr(v: int, k: nat): int { v / Pow2(k) }

  /** `v & (2^w - 1)`: the `w` low bits of the two's complement pattern */
  function Low(v: int, w: nat): (r: nat)
    ensures r < Pow2(w)
  {
    v % Pow2(w)
  }

  /** `val` is what is left of the number spelled by `stream` after 32-bit wrap-around. */
  ghost predicate Tracks(val: int, stream: seq<bool>) {
    (val - Value(stream)) % MODULUS == 0
  }

  lemma WrapCongruent(v: int) returns (q: int)
    ensures Wrap(v) == v + q * MODULUS
  {
    q := -((v + 0x8000_0000) / MODULUS);
  }

  lemma TracksOffset(val: int, stream: seq<bool>) returns (q: int)
    requires Tracks(val, stream)
    ensures val == Value(stream) + q * MODULUS
  {
    q := (val - Value(stream)) / MODULUS;
  }

  lemma TracksFromOffset(val: int, stream: seq<bool>, q: int)
    requires val == Value(stream) + q * MODULUS
    ensures Tracks(val, stream)
  {
  }

  /** `val = (val << w) + d` appends the `w` bits of `d`, however long the stream already is. */
  lemma TracksPush(val: int, stream: seq<bool>, d: nat, w: nat)
    requires Tracks(val, stream)
    requires d < Pow2(w)
    ensures Tracks(Add(Shl(val, w), d), stream + ToBits(d, w))
  {
    hide Wrap, Pow2, Value, ToBits;
    var p := Pow2(w);
    var q0 := TracksOffset(val, stream);
    var q1 := WrapCongruent(val * p);
    var q2 := WrapCongruent(Shl(val, w) + d);
    ValueConcat(stream, ToBits(d, w));
    ValueToBits(d, w);
    OffsetsAdd(Value(stream), q0, q1, q2, p, d, MODULUS);
    TracksFromOffset(Add(Shl(val, w), d), stream + ToBits(d, w), q0 * p + q1 + q2);
  }

  lemma OffsetsAdd(v: int, q0: int, q1: int, q2: int, p: int, d: int, m: int)
    ensures (v + q0 * m) * p + q1 * m + d + q2 * m == v * p + d + (q0 * p + q1 + q2) * m
  {
  }

  /** A multiple of `w * k` above the group does not reach the group. */
  lemma GroupOfSum(b: int, g: int, a: int, w: int, k: int, c: int)
    requires 0 <= g < w && 0 <= a < k
    ensures (((b * w + g) * k + a + c * (w * k)) / k) % w == g
  {
    assert (b * w + g) * k + a + c * (w * k) == ((b + c) * w + g) * k + a;
    DivModExact((b + c) * w + g, k, a);
    DivModExact(b + c, w, g);
  }

  lemma ModulusSplit(w: nat, k: nat) returns (rest: nat)
    requires w + k <= 32
    ensures MODULUS == rest * (Pow2(w) * Pow2(k))
  {
    rest := Pow2(32 - w - k);
    Pow2Add(w, k);
    Pow2Add(32 - w - k, w + k);
    Pow2Literals();
  }

  lemma OffsetBeyond(val: int, stream: seq<bool>, w: nat, k: nat) returns (c: int)
    requires Tracks(val, stream)
    requires w + k <= 32
    ensures val == Value(stream) + c * (Pow2(w) * Pow2(k))
  {
    var q := TracksOffset(val, stream);
    var rest := ModulusSplit(w, k);
    c := q * rest;
    Regroup(q, rest, Pow2(w) * Pow2(k));
  }

  lemma Regroup(x: int, y: int, z: int)
    ensures x * (y * z) == (x * y) * z
  {
  }

  /** `(val >> k) & (2^w - 1)` is the group of `w` bits that ends `k` bits before the end of the
      stream, as long as both fit in the 32 bits that are still right. */
  lemma TracksRead(val: int, before: seq<bool>, group: seq<bool>, after: seq<bool>)
    requires Tracks(val, before + group + after)
    requires |group| + |after| <= 32
    ensures Low(Shr(val, |after|), |group|) == Value(group)
  {
    hide Tracks, Pow2, Value, MODULUS;
    var c := OffsetBeyond(val, before + group + after, |group|, |after|);
    ValueConcat(before + group, after);
    ValueConcat(before, group);
    ValueBound(group);
    ValueBound(after);
    GroupOfSum(Value(before), Value(group), Value(after), Pow2(|group|), Pow2(|after|), c);
  }

  /** `(val << k) & (2^w - 1)` is the last `w - k` bits followed by `k` zeros. */
  lemma TracksFlush(val: int, before: seq<bool>, tail: seq<bool>, k: nat)
    requires Tracks(val, before + tail)
    requires |tail| + k <= 32
    ensures Low(Shl(val, k), |tail| + k) == Value(tail + Zeros(k))
  {
    hide Tracks, Pow2, Value, ToBits;
    TracksPush(val, before + tail, 0, k);
    ZeroBits(k);
    var shifted := Shl(val, k);
    assert Add(shifted, 0) == shifted;
    assert before + tail + Zeros(k) == before + (tail + Zeros(k)) + [];
    TracksRead(shifted, before, tail + Zeros(k), []);
    ShrNothing(shifted);
  }

  lemma ShrNothing(v: int)
    ensures Shr(v, 0) == v
  {
  }
}

/** Bit strings, most significant bit first, and the two regroupings of RFC 4648, section 3:
    numbers spread out into bits, and bits cut into equal groups.

    This is the unbounded reference that the streaming loops of Base.dfy are proved against. */
module Bits {

  function Pow2(n: nat): (p: nat)
    ensures 0 < p
  {
    if n == 0 then 1 else 2 * Pow2(n - 1)
  }

  /** The `w` low bits of `v`. */
  function ToBits(v: nat, w: nat): (bits: seq<bool>)
    ensures |bits| == w
  {
    if w == 0 then [] else ToBits(v / 2, w - 1) + [v % 2 == 1]
  }

  /** The number that `bits` spells in binary. */
  function Value(bits: seq<bool>): nat {
    if bits == [] then 0
    else 2 * Value(bits[..|bits| - 1]) + (if bits[|bits| - 1] then 1 else 0)
  }

  function Zeros(n: nat): (bits: seq<bool>)
    ensures |bits| == n
  {
    seq(n, _ => false)
  }

  /** Every number of `xs` written with `w` bits, one after the other. */
  function Spread(xs: seq<nat>, w: nat): (bits: seq<bool>) {
    if xs == [] then [] else ToBits(xs[0], w) + Spread(xs[1..], w)
  }

  /** The whole groups of `w` bits at the front of `bits`, each read as a number. */
  function Pack(bits: seq<bool>, w: nat): seq<nat>
    requires 0 < w
  {
    if |bits| < w then [] else [Value(bits[..w])] + Pack(bits[w..], w)
  }

  /** The bits after the last whole group. */
  function Rest(bits: seq<bool>, w: nat): (rest: seq<bool>)
    requires 0 < w
    ensures |rest| < w
  {
    if |bits| < w then bits else Rest(bits[w..], w)
  }

  /** `bits` followed by the zeros that complete the last group. */
  function FillUp(bits: seq<bool>, w: nat): seq<bool>
    requires 0 < w
  {
    if Rest(bits, w) == [] then bits else bits + Zeros(w - |Rest(bits, w)|)
  }

  ghost predicate Below(xs: seq<nat>, bound: nat) {
    forall i :: 0 <= i < |xs| ==> xs[i] < bound
  }

  // ----- numbers and their bits -----

  lemma Pow2Add(a: nat, b: nat)
    ensures Pow2(a + b) == Pow2(a) * Pow2(b)
  {
    if a != 0 {
      Pow2Add(a - 1, b);
    }
  }

  lemma Pow2Literals()
    ensures Pow2(5) == 32 && Pow2(6) == 64 && Pow2(8) == 256 && Pow2(32) == 0x1_0000_0000
  {
    Pow2Add(8, 8);
    Pow2Add(16, 16);
  }

  lemma ValueBound(bits: seq<bool>)
    ensures Value(bits) < Pow2(|bits|)
  {
  }

  lemma ValueToBits(v: nat, w: nat)
    requires v < Pow2(w)
    ensures Value(ToBits(v, w)) == v
  {
  }

  lemma {:induction false} ToBitsValue(bits: seq<bool>)
    ensures ToBits(Value(bits), |bits|) == bits
  {
    if bits != [] {
      var front, last := bits[..|bits| - 1], bits[|bits| - 1];
      ToBitsValue(front);
      assert Value(bits) / 2 == Value(front) && (Value(bits) % 2 == 1) == last;
      assert bits == front + [last];
    }
  }

  lemma {:induction false} ValueConcat(a: seq<bool>, b: seq<bool>)
    ensures Value(a + b) == Value(a) * Pow2(|b|) + Value(b)
  {
    if b == [] {
      assert a + b == a;
    } else {
      var front := b[..|b| - 1];
      ValueConcat(a, front);
      assert (a + b)[..|a + b| - 1] == a + front;
      assert Pow2(|b|) == 2 * Pow2(|front|);
      assert Value(a) * (2 * Pow2(|front|)) == 2 * (Value(a) * Pow2(|front|));
    }
  }

  // ----- spreading and packing -----

  lemma {:induction false} SpreadConcat(xs: seq<nat>, ys: seq<nat>, w: nat)
    ensures Spread(xs + ys, w) == Spread(xs, w) + Spread(ys, w)
  {
    hide ToBits;
    if xs == [] {
      assert xs + ys == ys;
    } else {
      assert (xs + ys)[1..] == xs[1..] + ys;
      SpreadConcat(xs[1..], ys, w);
    }
  }

  lemma SpreadAppend(xs: seq<nat>, x: nat, w: nat)
    ensures Spread(xs + [x], w) == Spread(xs, w) + ToBits(x, w)
  {
    SpreadConcat(xs, [x], w);
    assert [x][1..] == [];
  }

  lemma {:induction false} SpreadLength(xs: seq<nat>, w: nat)
    ensures |Spread(xs, w)| == |xs| * w
  {
    if xs != [] {
      SpreadLength(xs[1..], w);
      assert |xs| * w == w + |xs[1..]| * w;
    }
  }

  /** Packing keeps every bit: spread out again, it leaves only the rest. */
  lemma {:induction false} SpreadPack(bits: seq<bool>, w: nat)
    requires 0 < w
    ensures Spread(Pack(bits, w), w) + Rest(bits, w) == bits
    ensures Below(Pack(bits, w), Pow2(w))
  {
    hide Value, ToBits, Pow2;
    if w <= |bits| {
      SpreadPack(bits[w..], w);
      ToBitsValue(bits[..w]);
      ValueBound(bits[..w]);
      assert Pack(bits, w)[1..] == Pack(bits[w..], w);
      assert bits == bits[..w] + bits[w..];
    }
  }

  lemma PackGroup(group: seq<bool>, bits: seq<bool>, w: nat)
    requires 0 < w == |group|
    ensures Pack(group + bits, w) == [Value(group)] + Pack(bits, w)
    ensures Rest(group + bits, w) == Rest(bits, w)
  {
  }

  /** There is only one way to read `bits` as numbers of `w` bits and fewer than `w` bits of rest. */
  lemma {:induction false} PackIs(xs: seq<nat>, rest: seq<bool>, w: nat)
    requires |rest| < w
    requires Below(xs, Pow2(w))
    ensures Pack(Spread(xs, w) + rest, w) == xs
    ensures Rest(Spread(xs, w) + rest, w) == rest
  {
    if xs == [] {
      assert Spread(xs, w) + rest == rest;
    } else {
      var head, tail := ToBits(xs[0], w), Spread(xs[1..], w);
      assert Spread(xs, w) + rest == head + (tail + rest);
      PackIs(xs[1..], rest, w);
      PackGroup(head, tail + rest, w);
      ValueToBits(xs[0], w);
    }
  }

  /** The same for a stream without rest. */
  lemma PackSpread(xs: seq<nat>, w: nat)
    requires 0 < w
    requires Below(xs, Pow2(w))
    ensures Pack(Spread(xs, w), w) == xs
    ensures Rest(Spread(xs, w), w) == []
    ensures FillUp(Spread(xs, w), w) == Spread(xs, w)
  {
    PackIs(xs, [], w);
    assert Spread(xs, w) + [] == Spread(xs, w);
  }

  /** Filling up leaves no rest. */
  lemma PackFilled(bits: seq<bool>, w: nat)
    requires 0 < w
    ensures Spread(Pack(FillUp(bits, w), w), w) == FillUp(bits, w)
    ensures Below(Pack(FillUp(bits, w), w), Pow2(w))
  {
    SpreadPack(bits, w);
    var xs, rest := Pack(bits, w), Rest(bits, w);
    if rest == [] {
      assert Spread(xs, w) == bits;
    } else {
      FilledIs(xs, rest, w);
    }
  }

  /** The last number is what is left, followed by zeros. */
  lemma FilledIs(xs: seq<nat>, rest: seq<bool>, w: nat)
    requires 0 < |rest| < w
    requires Below(xs, Pow2(w))
    ensures FillUp(Spread(xs, w) + rest, w) == Spread(xs + [Value(rest + Zeros(w - |rest|))], w)
    ensures Below(xs + [Value(rest + Zeros(w - |rest|))], Pow2(w))
    ensures Pack(FillUp(Spread(xs, w) + rest, w), w) == xs + [Value(rest + Zeros(w - |rest|))]
  {
    hide Value, Pow2, Spread, Pack, Rest;
    var last := rest + Zeros(w - |rest|);
    var v := Value(last);
    PackIs(xs, rest, w);
    assert Spread(xs, w) + rest + Zeros(w - |rest|) == Spread(xs, w) + last;
    SpreadGroup(xs, last, w);
    PackSpread(xs + [v], w);
  }

  lemma SpreadGroup(xs: seq<nat>, group: seq<bool>, w: nat)
    requires |group| == w
    requires Below(xs, Pow2(w))
    ensures Spread(xs + [Value(group)], w) == Spread(xs, w) + group
    ensures Below(xs + [Value(group)], Pow2(w))
  {
    ToBitsValue(group);
    ValueBound(group);
    SpreadAppend(xs, Value(group), w);
  }

  lemma {:induction false} PackConcat(a: seq<bool>, b: seq<bool>, w: nat)
    requires 0 < w
    requires Rest(a, w) == []
    ensures Pack(a + b, w) == Pack(a, w) + Pack(b, w)
    ensures Rest(a + b, w) == Rest(b, w)
  {
    hide Value;
    if |a| < w {
      assert a + b == b;
    } else {
      PackConcat(a[w..], b, w);
      assert (a + b)[w..] == a[w..] + b;
      assert (a + b)[..w] == a[..w];
    }
  }

  lemma PackLength(bits: seq<bool>, w: nat)
    requires 0 < w
    ensures |bits| == |Pack(bits, w)| * w + |Rest(bits, w)|
  {
  }

  lemma SpreadInjective(xs: seq<nat>, ys: seq<nat>, w: nat)
    requires 0 < w
    requires Below(xs, Pow2(w)) && Below(ys, Pow2(w))
    requires Spread(xs, w) == Spread(ys, w)
    ensures xs == ys
  {
    PackSpread(xs, w);
    PackSpread(ys, w);
  }

  lemma ZeroBits(k: nat)
    ensures ToBits(0, k) == Zeros(k)
  {
  }
}

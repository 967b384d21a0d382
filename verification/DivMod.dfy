/** Division and multiples, for the modules that count in groups. */
module DivMod {
  lemma MulGrows(a: int, m: int)
    requires 1 <= a && 0 < m
    ensures m <= a * m
  {
  }

  lemma NoSmallMultiple(a: int, m: int)
    requires -m < a * m < m
    ensures a == 0
  {
  }

  lemma DivModExact(x: int, m: int, r: int)
    requires 0 <= r < m
    ensures (x * m + r) / m == x
    ensures (x * m + r) % m == r
  {
    var q, s := (x * m + r) / m, (x * m + r) % m;
    assert (q - x) * m == r - s;
    NoSmallMultiple(q - x, m);
  }
}

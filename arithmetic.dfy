/** Facts about Euclidean division that the buffer-group counters of the sort operator rely on. */
module Arithmetic {
  lemma {:induction false} MulAtLeast(d: int, g: int)
    requires d >= 1 && g > 0
    ensures d * g >= g
    decreases d
  {
    if d > 1 {
      MulAtLeast(d - 1, g);
      assert d * g == (d - 1) * g + g;
    }
  }

  /** Quotient and remainder are the unique q, r with a == q * g + r and 0 <= r < g. */
  lemma DivModUnique(a: int, g: int, q: int, r: int)
    requires g > 0 && 0 <= r < g && a == q * g + r
    ensures a / g == q && a % g == r
  {
    var q', r' := a / g, a % g;
    assert a == q' * g + r';
    assert 0 <= r' < g;
    assert (q - q') * g == r' - r;
    if q > q' {
      MulAtLeast(q - q', g);
    } else if q < q' {
      MulAtLeast(q' - q, g);
    }
  }

  /** q * g, written so that the solver does not have to reason about products. */
  function Multiple(q: nat, g: nat): nat {
    if q == 0 then 0 else Multiple(q - 1, g) + g
  }

  lemma {:induction false} MultipleIsProduct(q: nat, g: nat)
    ensures Multiple(q, g) == q * g
  {
    if q > 0 {
      MultipleIsProduct(q - 1, g);
      assert q * g == (q - 1) * g + g;
    }
  }

  /** DivModUnique for a == Multiple(q, g) + r. */
  lemma DivModMultiple(a: int, g: nat, q: nat, r: int)
    requires g > 0 && 0 <= r < g && a == Multiple(q, g) + r
    ensures a / g == q && a % g == r
  {
    MultipleIsProduct(q, g);
    DivModUnique(a, g, q, r);
  }

  /** Euclidean division written with Multiple: a == Multiple(a / g, g) + a % g. */
  lemma DivAsMultiple(a: nat, g: nat)
    requires g > 0
    ensures a == Multiple(a / g, g) + a % g
  {
    MultipleIsProduct(a / g, g);
  }

  lemma {:induction false} MultipleMonotonic(j: nat, q: nat, g: nat)
    requires j <= q
    ensures Multiple(j, g) <= Multiple(q, g)
    decreases q
  {
    if j < q {
      MultipleMonotonic(j, q - 1, g);
    }
  }

  /** With groups of at least two, k groups hold at least 2k items. */
  lemma {:induction false} MultipleAtLeastDouble(k: nat, g: nat)
    requires g >= 2
    ensures Multiple(k, g) >= k + k
  {
    if k > 0 {
      MultipleAtLeastDouble(k - 1, g);
    }
  }

  function Min(a: int, b: int): int {
    if a <= b then a else b
  }

  function Max(a: int, b: int): int {
    if a >= b then a else b
  }
}

/** Products and quotients of naturals: the mixed-radix facts behind wave ids and slices. */
module Arith {
  lemma {:induction false} MulMono(a: nat, b: nat, m: nat)
    requires a <= b
    ensures a * m <= b * m && m * a <= m * b
  {
  }

  lemma DivUnique(q: nat, r: nat, m: nat)
    requires r < m
    ensures (q * m + r) / m == q && (q * m + r) % m == r
  {
    var a := q * m + r;
    var q', r' := a / m, a % m;
    assert a == q' * m + r';
    if q' < q {
      MulMono(q' + 1, q, m);
      assert false;
    } else if q' > q {
      MulMono(q + 1, q', m);
      assert false;
    }
  }

  /** One more digit in front: `q` rows of `m`, at column r, stays inside n rows. */
  lemma RowBound(q: nat, r: nat, n: nat, m: nat)
    requires q < n && r < m
    ensures q * m + r < n * m
  {
    MulMono(q + 1, n, m);
  }

  lemma DivBelow(k: nat, n: nat, m: nat)
    requires m > 0 && k < n * m
    ensures k / m < n
  {
    if k / m >= n {
      MulMono(n, k / m, m);
      assert false;
    }
  }

  lemma Euclid(k: nat, m: nat)
    requires m > 0
    ensures k == (k / m) * m + k % m && k % m < m
  {
  }
}

/** The facts about products, quotients and remainders that the index
    arithmetic of the topology builders relies on: positions `i * h + x` in a
    list of rows of `h` elements, and their quotient and remainder by `h`. */
module Arith {

  /** Position `q * h + r` of a row of `h`: quotient `q`, remainder `r`. */
  lemma DivMod(q: nat, h: nat, r: nat)
    requires r < h
    ensures (q * h + r) / h == q && (q * h + r) % h == r
  {
    var n := q * h + r;
    assert n == h * (n / h) + n % h;
    assert h * (n / h - q) == r - n % h;
    MulSign(h, n / h - q);
  }

  lemma {:induction false} MulSign(h: int, d: int)
    requires 0 <= h
    ensures d >= 1 ==> h * d >= h
    ensures d <= -1 ==> h * d <= -h
    decreases if d >= 0 then d else -d
  {
    if d > 1 {
      MulSign(h, d - 1);
      assert h * d == h * (d - 1) + h;
    } else if d < -1 {
      MulSign(h, d + 1);
      assert h * d == h * (d + 1) - h;
    }
  }

  lemma NextRow(i: nat, h: nat)
    ensures i * h + h == (i + 1) * h
  {
  }

  /** The remainder modulo `h` steps by one and wraps to 0 at `h`. */
  lemma ModStep(i: nat, h: nat)
    requires 0 < h
    ensures (i + 1) % h == if i % h + 1 >= h then 0 else i % h + 1
  {
    if i % h + 1 < h {
      ModStepInside(i, h);
    } else {
      ModStepWrap(i, h);
    }
  }

  lemma ModStepInside(i: nat, h: nat)
    requires 0 < h && i % h + 1 < h
    ensures (i + 1) % h == i % h + 1
  {
    Decompose(i, h);
    DivMod(i / h, h, i % h + 1);
  }

  lemma ModStepWrap(i: nat, h: nat)
    requires 0 < h && i % h + 1 == h
    ensures (i + 1) % h == 0
  {
    Decompose(i, h);
    NextRow(i / h, h);
    DivMod(i / h + 1, h, 0);
  }

  /** Every `c` is row `c div h`, element `c mod h`. */
  lemma Decompose(c: nat, h: nat)
    requires 0 < h
    ensures c == (c / h) * h + c % h && c % h < h
  {
  }

  /** Element `x` of row `i` comes before the end of `rows` rows of `h`. */
  lemma RowBefore(i: nat, h: nat, x: nat, rows: nat)
    requires i < rows && x < h
    ensures i * h + x < rows * h
  {
    assert (i + 1) * h <= rows * h;
  }

  /** `c div h < bound` when `c < bound * h`. */
  lemma QuotientBound(c: nat, h: nat, bound: nat)
    requires 0 < h && c < bound * h
    ensures c / h < bound
  {
  }

  /** A multiple of four is even. */
  lemma QuarterEven(k: nat)
    requires k % 4 == 0
    ensures k % 2 == 0
  {
    var t := k / 4;
    Decompose(k, 4);
    DivMod(2 * t, 2, 0);
    assert k == (2 * t) * 2 + 0;
  }

  /** Halving a product with an even factor halves that factor. */
  lemma HalfProduct(x: nat, k: nat)
    requires k % 2 == 0
    ensures x * k / 2 == x * (k / 2)
  {
    assert x * k == 2 * (x * (k / 2));
  }

  // ---------------------------------------------------------------------------
  // Counting the numbers of a block or of a residue class

  predicate Within(lo: nat, n: nat, c: nat)
  {
    lo <= c < lo + n
  }

  /** The `n` numbers from `lo` on. */
  function Interval(lo: nat, n: nat): set<nat>
  {
    set c: nat | c < lo + n && Within(lo, n, c)
  }

  lemma {:induction false} IntervalSize(lo: nat, n: nat)
    ensures |Interval(lo, n)| == n
  {
    if n > 0 {
      IntervalSize(lo, n - 1);
      assert Interval(lo, n) == Interval(lo, n - 1) + {lo + n - 1};
    }
  }

  /** `c div h == p` exactly when `c` lies among the `h` numbers from `p * h`
      on. */
  lemma QuotientIs(c: nat, h: nat, p: nat)
    requires 0 < h
    ensures c / h == p <==> p * h <= c < p * h + h
  {
    Decompose(c, h);
    if p * h <= c < p * h + h {
      DivMod(p, h, c - p * h);
    }
  }

  /** A set holding exactly the numbers below `limit` whose quotient by `h` is
      `p` has `h` elements, when that block lies below `limit`. */
  lemma QuotientClassSize(s: set<nat>, limit: nat, h: nat, p: nat)
    requires 0 < h && p * h + h <= limit
    requires forall c: nat :: c in s <==> c < limit && c / h == p
    ensures |s| == h
  {
    forall c: nat
      ensures c in s <==> c in Interval(p * h, h)
    {
      QuotientIs(c, h, p);
    }
    assert s == Interval(p * h, h);
    IntervalSize(p * h, h);
  }

  /** The numbers below `n * h` with remainder `r` by `h`. */
  function Residues(r: nat, h: nat, n: nat): set<nat>
  {
    set a: nat | a < n * h && a % h == r
  }

  /** Below `n * h`, the numbers with remainder `r` are those below
      `(n - 1) * h` and `(n - 1) * h + r`. */
  lemma ResiduesStep(r: nat, h: nat, n: nat, a: nat)
    requires r < h && 0 < n
    ensures a < n * h && a % h == r <==> (a < (n - 1) * h && a % h == r) || a == (n - 1) * h + r
  {
    NextRow(n - 1, h);
    DivMod(n - 1, h, r);
    if a < n * h && a % h == r && a != (n - 1) * h + r {
      Decompose(a, h);
      QuotientBound(a, h, n);
      if a / h != n - 1 {
        RowBefore(a / h, h, r, n - 1);
      }
    }
  }

  lemma {:induction false} ResiduesSize(r: nat, h: nat, n: nat)
    requires r < h
    ensures |Residues(r, h, n)| == n
  {
    if n > 0 {
      ResiduesSize(r, h, n - 1);
      var last := (n - 1) * h + r;
      forall a: nat
        ensures a in Residues(r, h, n) <==> a in Residues(r, h, n - 1) || a == last
      {
        ResiduesStep(r, h, n, a);
      }
      assert Residues(r, h, n) == Residues(r, h, n - 1) + {last};
      assert last !in Residues(r, h, n - 1);
    }
  }

  /** A set holding exactly the numbers below `n * h` with remainder `r` has
      `n` elements. */
  lemma ResidueClassSize(s: set<nat>, h: nat, r: nat, n: nat)
    requires r < h
    requires forall a: nat :: a in s <==> a < n * h && a % h == r
    ensures |s| == n
  {
    assert s == Residues(r, h, n);
    ResiduesSize(r, h, n);
  }
}

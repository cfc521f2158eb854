/** The unsigned arithmetic of the source. */
module Machine {
  const CELL: nat := 0x1_0000_0000_0000_0000   // what a 64-bit counter counts modulo

  type U64 = x: nat | x < CELL

  const U32 := 0x1_0000_0000
  const I31 := 0x8000_0000   // bound on the non-negative values of a C int

  lemma WordSizes()
    ensures U32 == 0x1_0000_0000 == 2 * I31 && CELL == U32 * U32
  {
  }

  function Add32(a: nat, b: nat): nat { (a + b) % 0x1_0000_0000 }

  /** A sum that stays in range does not wrap. */
  method Advance(a: nat, b: nat) returns (sum: nat)
    requires a + b < U32
    ensures sum == a + b
  {
    sum := Add32(a, b);
  }

  function Mul32(a: nat, b: nat): nat { (a * b) % 0x1_0000_0000 }

  function Min(a: nat, b: nat): nat { if a < b then a else b }

  function CeilDiv(a: nat, b: nat): nat
    requires b > 0
  {
    a / b + (if a % b != 0 then 1 else 0)
  }

  /** It is the number of pieces of size `b` that it takes to cover `a`. */
  lemma CeilDivIs(a: nat, b: nat)
    requires b > 0
    ensures (CeilDiv(a, b) - 1) * b < a <= CeilDiv(a, b) * b
  {
    var q, r := a / b, a % b;
    assert a == q * b + r;
    assert (q - 1) * b == q * b - b && (q + 1) * b == q * b + b;
  }

  lemma BelowCeil(a: nat, b: nat, i: nat)
    requires b > 0 && i * b < a
    ensures i < CeilDiv(a, b)
  {
    var c := CeilDiv(a, b);
    CeilDivIs(a, b);
    if c <= i {
      RowsBelow(c, i, b);
    }
  }

  /** k * n, by repeated addition. */
  function Times(k: nat, n: nat): nat { if k == 0 then 0 else Times(k - 1, n) + n }

  lemma {:induction false} TimesIs(k: nat, n: nat)
    ensures Times(k, n) == k * n
  {
    if k > 0 {
      TimesIs(k - 1, n);
      assert k * n == (k - 1) * n + n;
    }
  }

  lemma {:induction false} TimesGrows(j: nat, k: nat, n: nat)
    requires j <= k
    ensures Times(j, n) <= Times(k, n)
    decreases k
  {
    if j < k {
      TimesGrows(j, k - 1, n);
    }
  }

  lemma QuotientTimes(d: nat, g: nat) returns (q: nat, r: nat)
    requires g > 0
    ensures d == Times(q, g) + r && r == d % g
  {
    q, r := d / g, d % g;
    QuotientAndRest(d, g);
    TimesIs(q, g);
  }

  lemma RowsBelow(a: nat, b: nat, width: nat)
    requires a <= b
    ensures a * width <= b * width
  {
  }

  /** Row `y` ends within `height` rows. */
  lemma RowInside(y: nat, width: nat, height: nat)
    requires y < height
    ensures Times(y, width) + width <= width * height
  {
    TimesIs(y + 1, width);
    RowsBelow(y + 1, height, width);
  }

  lemma QuotientAndRest(d: nat, g: nat)
    requires g > 0
    ensures d == d / g * g + d % g
  {
  }

  lemma MulAtLeast(k: nat, g: nat)
    requires k > 0 && g > 0
    ensures k * g >= g && k * g > 0
  {
    assert k * g == (k - 1) * g + g;
  }

  /** Quotient and remainder are unique. */
  lemma Unique(d: nat, m: nat, q: nat, r: nat, g: nat)
    requires m < g && r < g && d * g + m == q * g + r
    ensures d == q && m == r
  {
    if d < q {
      assert (q - d) * g == q * g - d * g;
      MulAtLeast(q - d, g);
    } else if d > q {
      assert (d - q) * g == d * g - q * g;
      MulAtLeast(d - q, g);
    }
  }

  lemma DivMod(n: nat, q: nat, r: nat, g: nat)
    requires g > 0 && r < g && n == q * g + r
    ensures n / g == q && n % g == r
  {
    assert n == (n / g) * g + n % g;
    Unique(n / g, n % g, q, r, g);
  }

  lemma MulSwap(a: nat, b: nat, c: nat, d: nat)
    ensures (a * b) * (c * d) == (a * c) * (b * d)
  {
  }

  lemma Small32(n: nat)
    requires n < U32
    ensures n % 0x1_0000_0000 == n
  {
  }

  lemma CeilStep(d: nat, g: nat)
    requires g > 0 && d > 0
    ensures CeilDiv(d, g) == 1 + CeilDiv(if d > g then d - g else 0, g)
  {
    if d > g {
      var q, r := (d - g) / g, (d - g) % g;
      assert d == (q + 1) * g + r by {
        assert (q + 1) * g == q * g + g;
      }
      DivMod(d, q + 1, r, g);
    } else if d == g {
      DivMod(d, 1, 0, g);
      DivMod(0, 0, 0, g);
    } else {
      DivMod(d, 0, d, g);
      DivMod(0, 0, 0, g);
    }
  }
}

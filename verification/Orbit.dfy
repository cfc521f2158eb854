/** The orbit z0 = c, z' = z^2 + c over the reals, and why escape is permanent. */
module Orbit {
  datatype Point = Point(x: real, y: real)

  function Mag2(z: Point): real { z.x * z.x + z.y * z.y }

  function Square(z: Point): Point { Point(z.x * z.x - z.y * z.y, z.x * z.y + z.x * z.y) }

  function Next(z: Point, c: Point): Point { Point(Square(z).x + c.x, Square(z).y + c.y) }

  function Iterate(c: Point, k: nat): Point {
    if k == 0 then c else Next(Iterate(c, k - 1), c)
  }

  /** One turn and the squared magnitude, written out. */
  lemma NextIs(z: Point, c: Point, w: Point)
    requires Next(z, c) == w
    ensures w.x == z.x * z.x - z.y * z.y + c.x && w.y == z.x * z.y + z.x * z.y + c.y
  {
  }

  lemma UnfoldIterate(c: Point, k: nat)
    ensures Iterate(c, k + 1) == Next(Iterate(c, k), c)
  {
  }

  /** The orbit starts at `c` itself, and each iterate comes from the one before. */
  lemma OrbitIs(c: Point, k: nat, z: Point, w: Point)
    requires Iterate(c, k) == z && Iterate(c, k + 1) == w
    ensures w.x == z.x * z.x - z.y * z.y + c.x && w.y == z.x * z.y + z.x * z.y + c.y
    ensures k == 0 ==> z == c
    ensures Mag2(z) == z.x * z.x + z.y * z.y
  {
    NextIs(z, c, w) by {
      UnfoldIterate(c, k);
    }
  }

  // ------------------------------------------------------ escape is permanent

  lemma SquareMag(z: Point)
    ensures Mag2(Square(z)) == Mag2(z) * Mag2(z)
  {
    var a, b := z.x * z.x, z.y * z.y;
    assert (z.x * z.y) * (z.x * z.y) == a * b;
    assert Square(z).y * Square(z).y == 4.0 * (a * b);
    assert Square(z).x * Square(z).x == a * a - 2.0 * (a * b) + b * b;
    assert (a + b) * (a + b) == a * a + 2.0 * (a * b) + b * b;
  }

  /** Parallelogram bound: |w - c|^2 <= 2|w|^2 + 2|c|^2. */
  lemma Parallelogram(w: Point, c: Point)
    ensures Mag2(Point(w.x - c.x, w.y - c.y)) <= 2.0 * Mag2(w) + 2.0 * Mag2(c)
  {
    var s, t := w.x + c.x, w.y + c.y;
    assert s * s >= 0.0 && t * t >= 0.0;
    assert (w.x - c.x) * (w.x - c.x) + s * s == 2.0 * (w.x * w.x) + 2.0 * (c.x * c.x);
    assert (w.y - c.y) * (w.y - c.y) + t * t == 2.0 * (w.y * w.y) + 2.0 * (c.y * c.y);
  }

  lemma MulMono(a: real, b: real, k: real)
    requires 0.0 <= k <= a && k <= b
    ensures k * k <= a * b
  {
    assert k * k <= a * k;
    assert a * k <= a * b;
  }

  lemma RadiusArithmetic(zz: real, cc: real, ww: real, k: real)
    requires k >= 4.0 && k >= cc && zz >= k && zz * zz <= 2.0 * ww + 2.0 * cc
    ensures ww >= k
  {
    MulMono(zz, zz, k);
    MulMono(k, k - 4.0, 0.0);
    assert k * (k - 4.0) == k * k - 4.0 * k;
  }

  /** One step cannot come back under a radius of at least 2 and at least |c|. */
  lemma StaysBeyond(z: Point, c: Point, k: real)
    requires k >= 4.0 && k >= Mag2(c) && Mag2(z) >= k
    ensures Mag2(Next(z, c)) >= k
  {
    var w := Next(z, c);
    SquareMag(z);
    Parallelogram(w, c);
    assert Point(w.x - c.x, w.y - c.y) == Square(z);
    RadiusArithmetic(Mag2(z), Mag2(c), Mag2(w), k);
  }

  lemma {:induction false} BeyondForever(c: Point, i: nat, j: nat, k: real)
    requires i <= j && k >= 4.0 && k >= Mag2(c) && Mag2(Iterate(c, i)) >= k
    ensures Mag2(Iterate(c, j)) >= k
    decreases j
  {
    if i < j {
      BeyondForever(c, i, j - 1, k);
      StaysBeyond(Iterate(c, j - 1), c, k);
    }
  }

  /** Escape is permanent, for every c: once |z|^2 >= 4, so for all later iterates. */
  lemma EscapeIsPermanent(c: Point, i: nat, j: nat)
    requires i <= j && Mag2(Iterate(c, i)) >= 4.0
    ensures Mag2(Iterate(c, j)) >= 4.0
  {
    if Mag2(c) <= 4.0 {
      BeyondForever(c, i, j, 4.0);
    } else {
      BeyondForever(c, 0, j, Mag2(c));
    }
  }

  // ----------------------------------------------------------------- counts

  predicate Inside(c: Point, k: nat) { Mag2(Iterate(c, k)) < 4.0 }

  /** What a vector lane accumulates: the iterates 1..n that lie inside. */
  function MaskedCount(c: Point, n: nat): nat {
    if n == 0 then 0 else MaskedCount(c, n - 1) + (if Inside(c, n) then 1 else 0)
  }

  /** Where the scalar loop stops: the first i whose next iterate is beyond radius 2. */
  function ScalarCount(c: Point, i: nat, bailout: nat): nat
    requires i <= bailout
    decreases bailout - i
  {
    if i == bailout || Mag2(Iterate(c, i + 1)) > 4.0 then i else ScalarCount(c, i + 1, bailout)
  }

  /** `m` is the number of leading iterates inside, capped at `n`. */
  ghost predicate Leading(c: Point, n: nat, m: nat) {
    && m <= n
    && (forall k: nat :: 1 <= k <= m ==> Inside(c, k))
    && (m < n ==> !Inside(c, m + 1))
  }

  /** A lane that goes on after its point has escaped counts nothing more, so it ends with
      the number of leading iterations inside. */
  lemma {:induction false} MaskedCountIsLeading(c: Point, n: nat)
    ensures Leading(c, n, MaskedCount(c, n))
    decreases n
  {
    if n > 0 {
      MaskedCountIsLeading(c, n - 1);
      if MaskedCount(c, n - 1) < n - 1 {
        EscapeIsPermanent(c, MaskedCount(c, n - 1) + 1, n);
      }
    }
  }

  /** Leaving the loop once a point is out loses nothing of its count. */
  lemma {:induction false} EarlyBreakIsHarmless(c: Point, i: nat, n: nat)
    requires i < n && !Inside(c, i + 1)
    ensures MaskedCount(c, n) == MaskedCount(c, i)
    decreases n
  {
    EscapeIsPermanent(c, i + 1, n);
    if n > i + 1 {
      EarlyBreakIsHarmless(c, i, n - 1);
    }
  }

  lemma {:induction false} ScalarCountIsFirst(c: Point, i: nat, bailout: nat)
    requires i <= bailout
    ensures var m := ScalarCount(c, i, bailout);
            && i <= m <= bailout
            && (forall k: nat :: i < k <= m ==> Mag2(Iterate(c, k)) <= 4.0)
            && (m < bailout ==> Mag2(Iterate(c, m + 1)) > 4.0)
    decreases bailout - i
  {
    if i < bailout && Mag2(Iterate(c, i + 1)) <= 4.0 {
      ScalarCountIsFirst(c, i + 1, bailout);
    }
  }

  /** Iterate k is the first that is not inside, and it lies exactly on the circle. */
  ghost predicate LeavesOnCircle(c: Point, k: nat) {
    k >= 1 && Mag2(Iterate(c, k)) == 4.0 && forall j: nat :: 1 <= j < k ==> Inside(c, j)
  }

  ghost predicate LandsOnCircle(c: Point, bailout: nat) {
    exists k: nat :: k <= bailout && LeavesOnCircle(c, k)
  }

  /** The scalar loop, which tests > 4, never stops before the masked count, which needs
      < 4. */
  lemma MaskedBelowScalar(c: Point, bailout: nat)
    ensures MaskedCount(c, bailout) <= ScalarCount(c, 0, bailout)
  {
    var s := ScalarCount(c, 0, bailout);
    MaskedCountIsLeading(c, bailout);
    ScalarCountIsFirst(c, 0, bailout);
    assert s < bailout ==> !Inside(c, s + 1);
  }

  /** The vector kernels and the scalar kernel count the same for every point and bailout,
      except exactly where the first iterate to leave lands on |z|^2 = 4. */
  lemma CountsAgreeIff(c: Point, bailout: nat)
    ensures MaskedCount(c, bailout) == ScalarCount(c, 0, bailout) <==> !LandsOnCircle(c, bailout)
  {
    var m := MaskedCount(c, bailout);
    MaskedCountIsLeading(c, bailout);
    ScalarCountIsFirst(c, 0, bailout);
    MaskedBelowScalar(c, bailout);
    if LandsOnCircle(c, bailout) {
      var k: nat :| k <= bailout && LeavesOnCircle(c, k);
      assert !Inside(c, k);
      assert m == k - 1;
      assert Mag2(Iterate(c, m + 1)) == 4.0;
    } else if m < bailout {
      assert !LeavesOnCircle(c, m + 1);
      assert Mag2(Iterate(c, m + 1)) > 4.0;
    }
  }

  /** What a pixel shows for a count. */
  function Shade(count: nat, bailout: nat): real
    requires bailout > 0
  {
    if count == bailout then 0.0 else (count as real) / (bailout as real)
  }

  /** `value` is what a pixel at `c` is drawn with: the number of leading iterates within the
      circle |z| = 2, by the scalar kernel's test or the vector kernels', as a fraction of
      the bailout, or black if none of them leaves. */
  ghost predicate DrawnWith(c: Point, bailout: nat, scalar: bool, count: nat, value: real)
    requires bailout > 0
  {
    && count <= bailout
    && (forall j: nat :: 1 <= j <= count ==> if scalar then Mag2(Iterate(c, j)) <= 4.0 else Mag2(Iterate(c, j)) < 4.0)
    && (count < bailout ==> if scalar then Mag2(Iterate(c, count + 1)) > 4.0 else Mag2(Iterate(c, count + 1)) >= 4.0)
    && value == if count < bailout then count as real / bailout as real else 0.0
  }

  lemma ShadeIs(count: nat, bailout: nat)
    requires 0 < bailout && count <= bailout
    ensures Shade(count, bailout) == if count < bailout then count as real / bailout as real else 0.0
  {
  }

  lemma ScalarDrawn(c: Point, bailout: nat) returns (count: nat)
    requires bailout > 0
    ensures DrawnWith(c, bailout, true, count, Shade(ScalarCount(c, 0, bailout), bailout))
  {
    count := ScalarCount(c, 0, bailout);
    ScalarCountIsFirst(c, 0, bailout);
    ShadeIs(count, bailout);
  }

  lemma MaskedDrawn(c: Point, bailout: nat) returns (count: nat)
    requires bailout > 0
    ensures DrawnWith(c, bailout, false, count, Shade(MaskedCount(c, bailout), bailout))
  {
    count := MaskedCount(c, bailout);
    MaskedCountIsLeading(c, bailout);
    ShadeIs(count, bailout);
    forall j: nat | 1 <= j <= count ensures Mag2(Iterate(c, j)) < 4.0 {
      assert Inside(c, j);
    }
  }

  lemma RealQuotient(a: nat, b: nat, n: nat)
    requires n > 0 && (a as real) / (n as real) == (b as real) / (n as real)
    ensures a == b
  {
    var d := n as real;
    assert (a as real) == (a as real) / d * d;
    assert (b as real) == (b as real) / d * d;
  }

  /** The orbit does not leave through the circle itself, or it does so on its first turn and
      then stays on or within it: count 0 and count `bailout` are both drawn black. */
  ghost predicate DrawnAlike(c: Point, bailout: nat) {
    || !LandsOnCircle(c, bailout)
    || (Mag2(Iterate(c, 1)) == 4.0 && forall k: nat :: 1 <= k <= bailout ==> Mag2(Iterate(c, k)) <= 4.0)
  }

  /** So the shades agree more often than the counts. */
  lemma ShadesAgreeIff(c: Point, bailout: nat)
    requires bailout > 0
    ensures Shade(MaskedCount(c, bailout), bailout) == Shade(ScalarCount(c, 0, bailout), bailout)
       <==> DrawnAlike(c, bailout)
  {
    var m, s := MaskedCount(c, bailout), ScalarCount(c, 0, bailout);
    CountsAgreeIff(c, bailout);
    MaskedCountIsLeading(c, bailout);
    ScalarCountIsFirst(c, 0, bailout);
    if m != s {
      if Shade(m, bailout) == Shade(s, bailout) {
        ShadesCollide(m, s, bailout);
      }
      MaskedBelowScalar(c, bailout);
      if m == 0 && s == bailout {
        FirstOutOnCircle(c, bailout);
      }
      if Mag2(Iterate(c, 1)) == 4.0 && forall k: nat :: 1 <= k <= bailout ==> Mag2(Iterate(c, k)) <= 4.0 {
        assert !Inside(c, 1);
        assert s == bailout;
      }
    }
  }

  lemma FirstOutOnCircle(c: Point, bailout: nat)
    requires bailout > 0 && MaskedCount(c, bailout) == 0 && ScalarCount(c, 0, bailout) == bailout
    ensures Mag2(Iterate(c, 1)) == 4.0
    ensures forall k: nat :: 1 <= k <= bailout ==> Mag2(Iterate(c, k)) <= 4.0
  {
    MaskedCountIsLeading(c, bailout);
    ScalarCountIsFirst(c, 0, bailout);
  }

  lemma ShadesCollide(m: nat, s: nat, bailout: nat)
    requires m <= bailout && s <= bailout && bailout > 0 && m != s && Shade(m, bailout) == Shade(s, bailout)
    ensures (m == 0 && s == bailout) || (s == 0 && m == bailout)
  {
    assert (0 as real) / (bailout as real) == 0.0;
    if m == bailout {
      RealQuotient(s, 0, bailout);
    } else if s == bailout {
      RealQuotient(m, 0, bailout);
    } else {
      RealQuotient(m, s, bailout);
    }
  }

  lemma TwoSteps(c: Point, z1: Point, z2: Point)
    requires Next(c, c) == z1 && Next(z1, c) == z2
    ensures Iterate(c, 1) == z1 && Iterate(c, 2) == z2
  {
    assert Iterate(c, 0) == c;
    assert Iterate(c, 1) == Next(Iterate(c, 0), c);
    assert Iterate(c, 2) == Next(Iterate(c, 1), c);
  }

  lemma DisagreeWhen(c: Point, z1: Point, z2: Point, bailout: nat)
    requires bailout > 1 && Next(c, c) == z1 && Next(z1, c) == z2 && Mag2(z1) == 4.0 && Mag2(z2) > 4.0
    ensures LandsOnCircle(c, bailout)
    ensures MaskedCount(c, bailout) == 0 && ScalarCount(c, 0, bailout) == 1
  {
    TwoSteps(c, z1, z2);
    assert LeavesOnCircle(c, 1);
    MaskedCountIsLeading(c, bailout);
    assert !Inside(c, 1);
    assert ScalarCount(c, 1, bailout) == 1;
  }

  /** A point where scalar and vector kernels differ: c = 1 goes to 2, on the circle, and
      then to 5. */
  lemma KernelsDisagree(bailout: nat) returns (c: Point)
    requires bailout > 1
    ensures c == Point(1.0, 0.0)
    ensures MaskedCount(c, bailout) == 0 && ScalarCount(c, 0, bailout) == 1
  {
    var z1, z2;
    c, z1, z2 := OneTwoFive();
    DisagreeWhen(c, z1, z2, bailout);
  }

  lemma OneTwoFive() returns (c: Point, z1: Point, z2: Point)
    ensures c == Point(1.0, 0.0) && Next(c, c) == z1 && Next(z1, c) == z2
    ensures Mag2(z1) == 4.0 && Mag2(z2) == 25.0
  {
    c := RealPoint(1.0);
    z1 := RealPoint(2.0);
    z2 := RealPoint(5.0);
    RealStep(c, c, z1);
    RealStep(z1, c, z2);
    RealMag(z1);
    RealMag(z2);
  }

  lemma RealPoint(x: real) returns (z: Point)
    ensures z == Point(x, 0.0)
  {
    z := Point(x, 0.0);
  }

  lemma RealStep(z: Point, c: Point, w: Point)
    requires z.y == 0.0 && c.y == 0.0 && w.y == 0.0 && z.x * z.x + c.x == w.x
    ensures Next(z, c) == w
  {
  }

  lemma RealMag(z: Point)
    requires z.y == 0.0
    ensures Mag2(z) == z.x * z.x
  {
  }
}

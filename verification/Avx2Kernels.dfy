/** mdb_avx2.c and mdb_avx2_fma.c: eight points at a time in registers, in plain and in
    fused form. */
module Avx2Kernels {
  import opened Geometry
  import opened Machine
  import opened Surface
  import opened Orbit
  import opened Kernels
  import opened Lanes

  /** _mm256_fmadd_ps: a * b + c */
  function FMAdd(a: Lanes8, b: Lanes8, c: Lanes8): Lanes8 { seq(8, j requires 0 <= j < 8 => a[j] * b[j] + c[j]) }

  /** _mm256_fmsub_ps: a * b - c */
  function FMSub(a: Lanes8, b: Lanes8, c: Lanes8): Lanes8 { seq(8, j requires 0 <= j < 8 => a[j] * b[j] - c[j]) }

  /** _mm256_movemask_ps, as a truth value */
  predicate AnySet(m: seq<bool>)
    requires |m| == 8
  {
    m[0] || m[1] || m[2] || m[3] || m[4] || m[5] || m[6] || m[7]
  }

  /** _mm256_and_ps of a mask and a value */
  function Masked(m: seq<bool>, a: Lanes8): Lanes8
    requires |m| == 8
  {
    seq(8, j requires 0 <= j < 8 => if m[j] then a[j] else 0.0)
  }

  /** The counts as the float lanes hold them. */
  function Floats(counts: seq<nat>): Lanes8
    requires |counts| == 8
  {
    seq(8, j requires 0 <= j < 8 => counts[j] as real)
  }

  lemma MaskedBump(cx: Lanes8, cy: Lanes8, zx: Lanes8, zy: Lanes8, i: nat)
    requires Track(cx, cy, zx, zy, i + 1)
    ensures Add(Floats(Counts(cx, cy, i)), Masked(Below(Mags(zx, zy), 4.0), Splat(1.0)))
         == Floats(Counts(cx, cy, i + 1))
  {
    forall j | 0 <= j < 8
      ensures Add(Floats(Counts(cx, cy, i)), Masked(Below(Mags(zx, zy), 4.0), Splat(1.0)))[j]
           == Floats(Counts(cx, cy, i + 1))[j]
    {
      TurnInside(cx, cy, zx, zy, i + 1, j);
    }
  }

  /** The counts of the lanes at the start of the loop. */
  lemma NoCounts(cx: Lanes8, cy: Lanes8)
    ensures Splat(0.0) == Floats(Counts(cx, cy, 0)) && Track(cx, cy, cx, cy, 0)
  {
  }

  /** mdb_point_probe of mdb_avx2.c */
  method PointProbe(cx: Lanes8, cy: Lanes8, bailout: nat) returns (vi: Lanes8)
    ensures vi == Floats(Counts(cx, cy, bailout))
  {
    var zx, zy := cx, cy;
    vi := Splat(0.0);
    NoCounts(cx, cy);
    var i := 0;
    while i < bailout
      invariant i <= bailout && Track(cx, cy, zx, zy, i)
      invariant vi == Floats(Counts(cx, cy, i))
    {
      TrackStep(cx, cy, zx, zy, i);
      var zx2, zy2, zxzy := Mul(zx, zx), Mul(zy, zy), Mul(zx, zy);
      zx := Sub(zx2, zy2);
      zx := Add(zx, cx);
      zy := Add(zxzy, zxzy);
      zy := Add(zy, cy);
      zx2, zy2 := Mul(zx, zx), Mul(zy, zy);
      var mag2 := Add(zx2, zy2);
      var bound := Below(mag2, 4.0);
      if AnySet(bound) {
        MaskedBump(cx, cy, zx, zy, i);
        vi := Add(vi, Masked(bound, Splat(1.0)));
      } else {
        AllOutIsFinal(cx, cy, zx, zy, i, bailout);
        break;
      }
      i := i + 1;
    }
  }

  /** The fused step is the plain step. */
  lemma FusedIsPlain(zx: Lanes8, zy: Lanes8, cx: Lanes8, cy: Lanes8)
    ensures FMSub(zx, zx, FMSub(zy, zy, cx)) == StepX(zx, zy, cx)
    ensures FMAdd(zx, zy, FMAdd(zx, zy, cy)) == StepY(zx, zy, cy)
  {
    forall j | 0 <= j < 8 ensures FMSub(zx, zx, FMSub(zy, zy, cx))[j] == StepX(zx, zy, cx)[j] {
      assert StepX(zx, zy, cx)[j] == zx[j] * zx[j] - zy[j] * zy[j] + cx[j];
      assert FMSub(zy, zy, cx)[j] == zy[j] * zy[j] - cx[j];
    }
    forall j | 0 <= j < 8 ensures FMAdd(zx, zy, FMAdd(zx, zy, cy))[j] == StepY(zx, zy, cy)[j] {
      assert StepY(zx, zy, cy)[j] == zx[j] * zy[j] + zx[j] * zy[j] + cy[j];
      assert FMAdd(zx, zy, cy)[j] == zx[j] * zy[j] + cy[j];
    }
  }

  lemma FusedMag(zx: Lanes8, zy: Lanes8)
    ensures FMAdd(zx, zx, Mul(zy, zy)) == Mags(zx, zy)
  {
    forall j | 0 <= j < 8 ensures FMAdd(zx, zx, Mul(zy, zy))[j] == Mags(zx, zy)[j] {
      assert Mul(zy, zy)[j] == zy[j] * zy[j] && Mul(zx, zx)[j] == zx[j] * zx[j];
    }
  }

  /** mdb_point_probe of mdb_avx2_fma.c: the orbit only moves on while some lane is
      inside. */
  method FusedPointProbe(cx: Lanes8, cy: Lanes8, bailout: nat) returns (vi: Lanes8)
    ensures vi == Floats(Counts(cx, cy, bailout))
  {
    var zx, zy := cx, cy;
    vi := Splat(0.0);
    NoCounts(cx, cy);
    var i := 0;
    while i < bailout
      invariant i <= bailout && Track(cx, cy, zx, zy, i)
      invariant vi == Floats(Counts(cx, cy, i))
    {
      TrackStep(cx, cy, zx, zy, i);
      FusedIsPlain(zx, zy, cx, cy);
      var zy2cx := FMSub(zy, zy, cx);
      var zx1 := FMSub(zx, zx, zy2cx);
      var zxzycy := FMAdd(zx, zy, cy);
      var zy1 := FMAdd(zx, zy, zxzycy);
      var mag2 := FMAdd(zx1, zx1, Mul(zy1, zy1));
      FusedMag(zx1, zy1);
      var bound := Below(mag2, 4.0);
      if AnySet(bound) {
        MaskedBump(cx, cy, zx1, zy1, i);
        vi := Add(vi, Masked(bound, Splat(1.0)));
        zx := zx1;
        zy := zy1;
      } else {
        AllOutIsFinal(cx, cy, zx1, zy1, i, bailout);
        break;
      }
      i := i + 1;
    }
  }

  // --------------------------------------------------------------- blocks

  /** The clearing and the division that turn counts into colours. */
  method ShadeLanes(vi: Lanes8, bailout: Pos) returns (pixels: seq<real>)
    ensures |pixels| == 8
    ensures forall j :: 0 <= j < 8 ==>
              pixels[j] == if vi[j] == bailout as real then 0.0 else vi[j] / bailout as real
  {
    var mask := seq(8, j requires 0 <= j < 8 => vi[j] != bailout as real);
    var kept := Masked(mask, vi);
    assert 0.0 / bailout as real == 0.0;
    pixels := seq(8, j requires 0 <= j < 8 => kept[j] / bailout as real);
  }

  lemma ShadedCounts(v: View, x: nat, y: nat, vi: Lanes8, pixels: seq<real>)
    requires vi == Floats(Counts(XLanes(v, x), YLanes(v, y), v.bailout)) && |pixels| == 8
    requires forall j :: 0 <= j < 8 ==>
               pixels[j] == if vi[j] == v.bailout as real then 0.0 else vi[j] / v.bailout as real
    ensures pixels == GroupColours(v, x, y)
  {
    forall j | 0 <= j < 8 ensures pixels[j] == GroupColours(v, x, y)[j] {
      CountsShade(v, x, y, j);
      assert vi[j] == Counts(XLanes(v, x), YLanes(v, y), v.bailout)[j] as real;
    }
  }

  method PlainGroup(v: View, x: nat, cy: Lanes8, ghost y: nat) returns (pixels: seq<real>)
    requires cy == YLanes(v, y)
    ensures pixels == GroupColours(v, x, y)
  {
    var cx := Ramp(x);
    cx := Mul(cx, Splat(v.widthR));
    cx := Mul(cx, Splat(v.aspect));
    cx := Add(cx, Splat(CENTER));
    cx := Mul(cx, Splat(v.scale));
    cx := Add(cx, Splat(v.shiftX));
    var vi := PointProbe(cx, cy, v.bailout);
    pixels := ShadeLanes(vi, v.bailout);
    ShadedCounts(v, x, y, vi, pixels);
  }

  lemma FusedMapping(v: View, x: nat, y: nat)
    ensures FMAdd(FMAdd(Mul(Ramp(x), Splat(v.widthR)), Splat(v.aspect), Splat(CENTER)),
                  Splat(v.scale), Splat(v.shiftX)) == XLanes(v, x)
    ensures FMAdd(FMAdd(Splat(y as real), Splat(v.heightR), Splat(CENTER)),
                  Splat(v.scale), Splat(v.shiftY)) == YLanes(v, y)
  {
    FusedMulAdd(Mul(Ramp(x), Splat(v.widthR)), Splat(v.aspect), Splat(CENTER));
    FusedMulAdd(Add(Mul(Mul(Ramp(x), Splat(v.widthR)), Splat(v.aspect)), Splat(CENTER)),
                Splat(v.scale), Splat(v.shiftX));
    FusedMulAdd(Splat(y as real), Splat(v.heightR), Splat(CENTER));
    FusedMulAdd(Add(Mul(Splat(y as real), Splat(v.heightR)), Splat(CENTER)), Splat(v.scale), Splat(v.shiftY));
  }

  lemma FusedMulAdd(a: Lanes8, b: Lanes8, c: Lanes8)
    ensures FMAdd(a, b, c) == Add(Mul(a, b), c)
  {
    forall j | 0 <= j < 8 ensures FMAdd(a, b, c)[j] == Add(Mul(a, b), c)[j] {
      assert Mul(a, b)[j] == a[j] * b[j];
    }
  }

  method FusedGroup(v: View, x: nat, cy: Lanes8, ghost y: nat) returns (pixels: seq<real>)
    requires cy == YLanes(v, y)
    ensures pixels == GroupColours(v, x, y)
  {
    FusedMapping(v, x, y);
    var cx := Ramp(x);
    cx := Mul(cx, Splat(v.widthR));
    cx := FMAdd(cx, Splat(v.aspect), Splat(CENTER));
    cx := FMAdd(cx, Splat(v.scale), Splat(v.shiftX));
    var vi := FusedPointProbe(cx, cy, v.bailout);
    pixels := ShadeLanes(vi, v.bailout);
    ShadedCounts(v, x, y, vi, pixels);
  }

  /** The colours of eight neighbouring pixels, from the plain or the fused kernel. */
  method Group(v: View, fused: bool, x: nat, cy: Lanes8, ghost y: nat) returns (pixels: seq<real>)
    requires cy == YLanes(v, y)
    ensures pixels == GroupColours(v, x, y)
  {
    if fused {
      pixels := FusedGroup(v, x, cy, y);
    } else {
      pixels := PlainGroup(v, x, cy, y);
    }
  }

  method Avx2Group(v: View, surf: Canvas, fused: bool, x: nat, ghost xEnd: nat, cy: Lanes8, y: nat)
    requires surf.Valid() && x < xEnd && x < U32 && cy == YLanes(v, y)
    modifies surf.data
    ensures Apply(surf.data[..], LineStores(VectorColour(v), surf.width, surf.height, x + 8, xEnd, 8, y))
         == Apply(old(surf.data[..]), LineStores(VectorColour(v), surf.width, surf.height, x, xEnd, 8, y))
  {
    var pixels := Group(v, fused, x, cy, y);
    SetGroup(surf, VectorColour(v), x, xEnd, 8, y, pixels);
  }

  method MapY(v: View, fused: bool, y: nat) returns (cy: Lanes8)
    ensures cy == YLanes(v, y)
  {
    FusedMapping(v, 0, y);
    cy := Splat(y as real);
    if fused {
      cy := FMAdd(cy, Splat(v.heightR), Splat(CENTER));
      cy := FMAdd(cy, Splat(v.scale), Splat(v.shiftY));
    } else {
      cy := Mul(cy, Splat(v.heightR));
      cy := Add(cy, Splat(CENTER));
      cy := Mul(cy, Splat(v.scale));
      cy := Add(cy, Splat(v.shiftY));
    }
  }

  /** The column loop, which leaves the tile's right end out. */
  method Avx2Line(v: View, surf: Canvas, fused: bool, x0: nat, x1: nat, y: nat)
    requires surf.Valid() && x1 + 8 < U32
    modifies surf.data
    ensures surf.data[..] == Apply(old(surf.data[..]),
              LineStores(VectorColour(v), surf.width, surf.height, x0, x1, 8, y))
  {
    ghost var colour := VectorColour(v);
    ghost var goal := Apply(surf.data[..], LineStores(colour, surf.width, surf.height, x0, x1, 8, y));
    var cy := MapY(v, fused, y);
    var x := x0;
    while x < x1
      invariant x == x0 || x <= x1 + 7
      invariant Apply(surf.data[..], LineStores(colour, surf.width, surf.height, x, x1, 8, y)) == goal
      decreases x1 + 7 - x
    {
      Avx2Group(v, surf, fused, x, x1, cy, y);
      x := Advance(x, 8);
    }
    LineOver(surf.data[..], colour, surf.width, surf.height, x, x1, 8, y);
  }

  /** One turn of the row loop. */
  method Avx2Row(v: View, surf: Canvas, fused: bool, x0: nat, x1: nat, y: nat, ghost yEnd: nat)
    requires surf.Valid() && x1 + 8 < U32 && y < yEnd
    modifies surf.data
    ensures Apply(surf.data[..], BlockStores(VectorColour(v), surf.width, surf.height, x0, x1, 8, y + 1, yEnd))
         == Apply(old(surf.data[..]), BlockStores(VectorColour(v), surf.width, surf.height, x0, x1, 8, y, yEnd))
  {
    LineFirst(surf.data[..], VectorColour(v), surf.width, surf.height, x0, x1, 8, y, yEnd);
    Avx2Line(v, surf, fused, x0, x1, y);
  }

  /** mdb_kernel_process_block of the two AVX2 kernels. */
  method Avx2ProcessBlock(v: View, surf: Canvas, fused: bool, x0: nat, x1: nat, y0: nat, y1: nat)
    requires surf.Valid() && x1 + 8 < U32 && y1 + 1 < U32
    modifies surf.data
    ensures surf.data[..] == Apply(old(surf.data[..]),
              BlockStores(VectorColour(v), surf.width, surf.height, x0, x1, 8, y0, y1 + 1))
  {
    ghost var colour := VectorColour(v);
    ghost var goal := Apply(surf.data[..], BlockStores(colour, surf.width, surf.height, x0, x1, 8, y0, y1 + 1));
    var y := y0;
    while y <= y1
      invariant y == y0 || y <= y1 + 1
      invariant Apply(surf.data[..], BlockStores(colour, surf.width, surf.height, x0, x1, 8, y, y1 + 1)) == goal
      decreases y1 + 1 - y
    {
      Avx2Row(v, surf, fused, x0, x1, y, y1 + 1);
      y := Advance(y, 1);
    }
    BlockOver(surf.data[..], colour, surf.width, surf.height, x0, x1, 8, y, y1 + 1);
  }
}

/** mdb_native.c: eight points at a time in arrays that are updated in place. */
module NativeKernel {
  import opened Geometry
  import opened Machine
  import opened Surface
  import opened Orbit
  import opened Kernels
  import opened Lanes

  // ------------------------------------------------------ vec8 operations

  predicate Is8<T>(a: array<T>) { a.Length == 8 }

  /** vec8f_set1_s */
  method Set1(a: array<real>, s: real)
    requires Is8(a)
    modifies a
    ensures a[..] == Splat(s)
  {
    forall j | 0 <= j < 8 { a[j] := s; }
  }

  /** vec8f_cpy_v */
  method Copy(a: array<real>, b: array<real>)
    requires Is8(a) && Is8(b)
    modifies a
    ensures a[..] == old(b[..])
  {
    forall j | 0 <= j < 8 { a[j] := b[j]; }
  }

  /** vec8f_mul3_v; the destination may be an operand, as in vec8f_mul2_v. */
  method Mul3(res: array<real>, a: array<real>, b: array<real>)
    requires Is8(res) && Is8(a) && Is8(b)
    modifies res
    ensures res[..] == Mul(old(a[..]), old(b[..]))
  {
    ghost var product := Mul(a[..], b[..]);
    assert forall j :: 0 <= j < 8 ==> product[j] == a[j] * b[j];
    forall j | 0 <= j < 8 { res[j] := a[j] * b[j]; }
    assert forall j :: 0 <= j < 8 ==> res[..][j] == product[j];
  }

  /** vec8f_add3_v and vec8f_add2_v */
  method Add3(res: array<real>, a: array<real>, b: array<real>)
    requires Is8(res) && Is8(a) && Is8(b)
    modifies res
    ensures res[..] == Add(old(a[..]), old(b[..]))
  {
    forall j | 0 <= j < 8 { res[j] := a[j] + b[j]; }
  }

  /** vec8f_sub3_v */
  method Sub3(res: array<real>, a: array<real>, b: array<real>)
    requires Is8(res) && Is8(a) && Is8(b)
    modifies res
    ensures res[..] == Sub(old(a[..]), old(b[..]))
  {
    forall j | 0 <= j < 8 { res[j] := a[j] - b[j]; }
  }

  /** vec8f_lt3_mask_s: -1 in the lanes below the bound, else 0. */
  method LessMask(m: array<int>, a: array<real>, b: real)
    requires Is8(m) && Is8(a)
    modifies m
    ensures forall j :: 0 <= j < 8 ==> m[j] == if Below(a[..], b)[j] then -1 else 0
  {
    forall j | 0 <= j < 8 { m[j] := if a[j] < b then -1 else 0; }
  }

  /** vec8i_test_zf */
  method AllZero(m: array<int>) returns (z: bool)
    requires Is8(m)
    ensures z <==> forall j :: 0 <= j < 8 ==> m[j] == 0
  {
    z := m[0] == 0 && m[1] == 0 && m[2] == 0 && m[3] == 0 && m[4] == 0 && m[5] == 0 && m[6] == 0 && m[7] == 0;
  }

  /** vec8i_add2_mask_s */
  method AddMasked(a: array<int>, mask: array<int>, i: int)
    requires Is8(a) && Is8(mask) && a != mask
    modifies a
    ensures forall j :: 0 <= j < 8 ==> a[j] == old(a[j]) + if mask[j] != 0 then i else 0
  {
    var j := 0;
    while j < 8
      invariant 0 <= j <= 8
      invariant forall k :: 0 <= k < 8 ==>
                  a[k] == if k < j then old(a[k]) + (if mask[k] != 0 then i else 0) else old(a[k])
    {
      a[j] := a[j] + if mask[j] != 0 then i else 0;
      j := j + 1;
    }
  }

  /** vec8i_ne3_mask_s, then vec8i_and2_v: lanes that reached the bailout become 0. */
  method ClearAtBailout(vi: array<int>, bailout: nat)
    requires Is8(vi)
    modifies vi
    ensures forall j :: 0 <= j < 8 ==> vi[j] == if old(vi[j]) == bailout then 0 else old(vi[j])
  {
    var mask := new int[8];
    forall j | 0 <= j < 8 { mask[j] := if vi[j] != bailout then -1 else 0; }
    forall j | 0 <= j < 8 { vi[j] := if mask[j] == -1 then vi[j] else 0; }
  }

  /** vec8i_cvt2_vec8f and vec8f_div2_s */
  method ToPixels(vi: array<int>, bailout: Pos) returns (pixels: seq<real>)
    requires Is8(vi)
    ensures |pixels| == 8 && forall j :: 0 <= j < 8 ==> pixels[j] == vi[j] as real / bailout as real
  {
    var vf := new real[8];
    forall j | 0 <= j < 8 { vf[j] := vi[j] as real; }
    forall j | 0 <= j < 8 { vf[j] := vf[j] / bailout as real; }
    pixels := vf[..];
  }

  // ------------------------------------------------------------ iteration

  /** One in-place step of all eight orbits. */
  method StepAll(zx: array<real>, zy: array<real>, cx: array<real>, cy: array<real>)
    requires Is8(zx) && Is8(zy) && Is8(cx) && Is8(cy)
    requires zx != zy && cx != zx && cx != zy && cy != zx && cy != zy
    modifies zx, zy
    ensures zx[..] == StepX(old(zx[..]), old(zy[..]), cx[..])
    ensures zy[..] == StepY(old(zx[..]), old(zy[..]), cy[..])
  {
    var zx2, zy2, zxzy := new real[8], new real[8], new real[8];
    Mul3(zx2, zx, zx);
    Mul3(zy2, zy, zy);
    Mul3(zxzy, zx, zy);
    Sub3(zx, zx2, zy2);
    Add3(zx, zx, cx);
    Add3(zy, zxzy, zxzy);
    Add3(zy, zy, cy);
  }

  /** The masked test of one turn: counts the lanes still inside, or reports that all are
      out. */
  method CountInside(zx: array<real>, zy: array<real>, vi: array<int>) returns (out: bool)
    requires Is8(zx) && Is8(zy) && Is8(vi)
    modifies vi
    ensures out ==> vi[..] == old(vi[..]) && forall j :: 0 <= j < 8 ==> !Below(Mags(zx[..], zy[..]), 4.0)[j]
    ensures !out ==> vi[..] == Bump(old(vi[..]), Below(Mags(zx[..], zy[..]), 4.0))
  {
    var zx2, zy2, mag2, mask := new real[8], new real[8], new real[8], new int[8];
    Mul3(zx2, zx, zx);
    Mul3(zy2, zy, zy);
    Add3(mag2, zx2, zy2);
    ghost var inside := Below(Mags(zx[..], zy[..]), 4.0);
    LessMask(mask, mag2, 4.0);
    out := AllZero(mask);
    if !out {
      AddMasked(vi, mask, 1);
      assert forall j :: 0 <= j < 8 ==> vi[j] == Bump(old(vi[..]), inside)[j];
    } else {
      assert forall j :: 0 <= j < 8 ==> inside[j] == (mask[j] != 0);
    }
  }

  /** One turn of the iteration loop, which is either left for good or goes on. */
  method Turn(zx: array<real>, zy: array<real>, cx: array<real>, cy: array<real>, vi: array<int>,
              ghost i: nat, ghost bailout: nat) returns (out: bool)
    requires Is8(zx) && Is8(zy) && Is8(cx) && Is8(cy) && Is8(vi) && i < bailout
    requires zx != zy && cx != zx && cx != zy && cy != zx && cy != zy
    requires Track(cx[..], cy[..], zx[..], zy[..], i) && vi[..] == Counts(cx[..], cy[..], i)
    modifies zx, zy, vi
    ensures out ==> vi[..] == Counts(cx[..], cy[..], bailout)
    ensures !out ==> Track(cx[..], cy[..], zx[..], zy[..], i + 1) && vi[..] == Counts(cx[..], cy[..], i + 1)
  {
    ghost var sx, sy := cx[..], cy[..];
    TrackStep(sx, sy, zx[..], zy[..], i);
    StepAll(zx, zy, cx, cy);
    out := CountInside(zx, zy, vi);
    if out {
      AllOutIsFinal(sx, sy, zx[..], zy[..], i, bailout);
    } else {
      TurnCounts(sx, sy, zx[..], zy[..], i);
    }
  }

  /** The iteration loop: each lane ends with the masked count of its own point, whatever
      the other seven do and whenever the loop is left. */
  method ProbeAll(cx: array<real>, cy: array<real>, vi: array<int>, bailout: nat)
    requires Is8(cx) && Is8(cy) && Is8(vi)
    modifies vi
    ensures vi[..] == Counts(cx[..], cy[..], bailout)
  {
    forall j | 0 <= j < 8 { vi[j] := 0; }
    var zx, zy := new real[8], new real[8];
    Copy(zx, cx);
    Copy(zy, cy);
    var i := 0;
    while i < bailout
      invariant i <= bailout && fresh(zx) && fresh(zy) && zx != zy && Is8(zx) && Is8(zy)
      invariant Track(cx[..], cy[..], zx[..], zy[..], i)
      invariant vi[..] == Counts(cx[..], cy[..], i)
    {
      var out := Turn(zx, zy, cx, cy, vi, i, bailout);
      if out {
        return;
      }
      i := i + 1;
    }
  }

  // --------------------------------------------------------------- blocks

  method MapX(v: View, x: nat, cx: array<real>)
    requires Is8(cx)
    modifies cx
    ensures cx[..] == XLanes(v, x)
  {
    var k := new real[8];
    forall j | 0 <= j < 8 { cx[j] := (x + j) as real; }
    assert cx[..] == Ramp(x);
    Set1(k, v.widthR);
    Mul3(cx, cx, k);
    Set1(k, v.aspect);
    Mul3(cx, cx, k);
    Set1(k, CENTER);
    Add3(cx, cx, k);
    Set1(k, v.scale);
    Mul3(cx, cx, k);
    Set1(k, v.shiftX);
    Add3(cx, cx, k);
  }

  method MapY(v: View, y: nat, cy: array<real>)
    requires Is8(cy)
    modifies cy
    ensures cy[..] == YLanes(v, y)
  {
    var k := new real[8];
    Set1(cy, y as real);
    Set1(k, v.heightR);
    Mul3(cy, cy, k);
    Set1(k, CENTER);
    Add3(cy, cy, k);
    Set1(k, v.scale);
    Mul3(cy, cy, k);
    Set1(k, v.shiftY);
    Add3(cy, cy, k);
  }

  /** Lanes at the bailout are drawn as 0, the others as their fraction of it. */
  method ShadeCounts(vi: array<int>, bailout: Pos) returns (pixels: seq<real>)
    requires Is8(vi)
    modifies vi
    ensures |pixels| == 8
    ensures forall j :: 0 <= j < 8 ==>
              pixels[j] == (if old(vi[j]) == bailout then 0 else old(vi[j])) as real / bailout as real
  {
    ClearAtBailout(vi, bailout);
    pixels := ToPixels(vi, bailout);
  }

  lemma ShadedCounts(v: View, x: nat, y: nat, counts: seq<int>, pixels: seq<real>)
    requires counts == Counts(XLanes(v, x), YLanes(v, y), v.bailout) && |pixels| == 8
    requires forall j :: 0 <= j < 8 ==>
               pixels[j] == (if counts[j] == v.bailout then 0 else counts[j]) as real / v.bailout as real
    ensures pixels == GroupColours(v, x, y)
  {
    forall j | 0 <= j < 8 ensures pixels[j] == GroupColours(v, x, y)[j] {
      CountsShade(v, x, y, j);
    }
  }

  /** The colours of eight neighbouring pixels. */
  method ShadeGroup(v: View, x: nat, cy: array<real>, ghost y: nat) returns (pixels: seq<real>)
    requires Is8(cy) && OnRow(v, y, cy[..])
    ensures pixels == GroupColours(v, x, y)
  {
    OnRowIs(v, y, cy[..]);
    var cx, vi := new real[8], new int[8];
    MapX(v, x, cx);
    ProbeAll(cx, cy, vi, v.bailout);
    ghost var counts := vi[..];
    pixels := ShadeCounts(vi, v.bailout);
    ShadedCounts(v, x, y, counts, pixels);
  }

  method NativeGroup(v: View, surf: Canvas, x: nat, ghost xEnd: nat, cy: array<real>, y: nat)
    requires surf.Valid() && x < xEnd && x < U32 && Is8(cy) && OnRow(v, y, cy[..])
    modifies surf.data
    ensures Apply(surf.data[..], LineStores(VectorColour(v), surf.width, surf.height, x + 8, xEnd, 8, y))
         == Apply(old(surf.data[..]), LineStores(VectorColour(v), surf.width, surf.height, x, xEnd, 8, y))
  {
    var pixels := ShadeGroup(v, x, cy, y);
    SetGroup(surf, VectorColour(v), x, xEnd, 8, y, pixels);
  }

  /** The column loop, once the row's coordinate is known. */
  method NativeColumns(v: View, surf: Canvas, x0: nat, x1: nat, cy: array<real>, y: nat)
    requires surf.Valid() && x1 + 8 < U32 && Is8(cy) && OnRow(v, y, cy[..]) && cy != surf.data
    modifies surf.data
    ensures surf.data[..] == Apply(old(surf.data[..]),
              LineStores(VectorColour(v), surf.width, surf.height, x0, x1 + 1, 8, y))
  {
    ghost var colour := VectorColour(v);
    ghost var goal := Apply(surf.data[..], LineStores(colour, surf.width, surf.height, x0, x1 + 1, 8, y));
    var x := x0;
    while x <= x1
      invariant x == x0 || x <= x1 + 8
      invariant Apply(surf.data[..], LineStores(colour, surf.width, surf.height, x, x1 + 1, 8, y)) == goal
      decreases x1 + 8 - x
    {
      NativeGroup(v, surf, x, x1 + 1, cy, y);
      x := Advance(x, 8);
    }
    LineOver(surf.data[..], colour, surf.width, surf.height, x, x1 + 1, 8, y);
  }

  /** One row of the tile. */
  method NativeLine(v: View, surf: Canvas, x0: nat, x1: nat, y: nat)
    requires surf.Valid() && x1 + 8 < U32
    modifies surf.data
    ensures surf.data[..] == Apply(old(surf.data[..]),
              LineStores(VectorColour(v), surf.width, surf.height, x0, x1 + 1, 8, y))
  {
    var cy := new real[8];
    MapY(v, y, cy);
    OnRowIs(v, y, cy[..]);
    NativeColumns(v, surf, x0, x1, cy, y);
  }

  /** One turn of the row loop. */
  method NativeRow(v: View, surf: Canvas, x0: nat, x1: nat, y: nat, ghost yEnd: nat)
    requires surf.Valid() && x1 + 8 < U32 && y < yEnd
    modifies surf.data
    ensures Apply(surf.data[..], BlockStores(VectorColour(v), surf.width, surf.height, x0, x1 + 1, 8, y + 1, yEnd))
         == Apply(old(surf.data[..]), BlockStores(VectorColour(v), surf.width, surf.height, x0, x1 + 1, 8, y, yEnd))
  {
    LineFirst(surf.data[..], VectorColour(v), surf.width, surf.height, x0, x1 + 1, 8, y, yEnd);
    NativeLine(v, surf, x0, x1, y);
  }

  /** mdb_native.c: both ends of the tile included, so the last group of a line may reach
      up to seven columns past it. */
  method NativeProcessBlock(v: View, surf: Canvas, x0: nat, x1: nat, y0: nat, y1: nat)
    requires surf.Valid() && x1 + 8 < U32 && y1 + 1 < U32
    modifies surf.data
    ensures surf.data[..] == Apply(old(surf.data[..]),
              BlockStores(VectorColour(v), surf.width, surf.height, x0, x1 + 1, 8, y0, y1 + 1))
  {
    ghost var colour := VectorColour(v);
    ghost var goal := Apply(surf.data[..], BlockStores(colour, surf.width, surf.height, x0, x1 + 1, 8, y0, y1 + 1));
    var y := y0;
    while y <= y1
      invariant y == y0 || y <= y1 + 1
      invariant Apply(surf.data[..], BlockStores(colour, surf.width, surf.height, x0, x1 + 1, 8, y, y1 + 1)) == goal
      decreases y1 + 1 - y
    {
      NativeRow(v, surf, x0, x1, y, y1 + 1);
      y := Advance(y, 1);
    }
    BlockOver(surf.data[..], colour, surf.width, surf.height, x0, x1 + 1, 8, y, y1 + 1);
  }
}

/** Eight points at a time: lane arithmetic, the orbit step in lanes, and the counts the
    lanes accumulate. */
module Lanes {
  import opened Orbit
  import opened Kernels

  type Lanes8 = s: seq<real> | |s| == 8 witness seq(8, _ => 0.0)

  function Splat(s: real): Lanes8 { seq(8, _ => s) }

  /** x, x + 1, ..., x + 7 */
  function Ramp(x: nat): Lanes8 { seq(8, j requires 0 <= j => (x + j) as real) }

  function Mul(a: Lanes8, b: Lanes8): Lanes8 { seq(8, j requires 0 <= j < 8 => a[j] * b[j]) }

  function Add(a: Lanes8, b: Lanes8): Lanes8 { seq(8, j requires 0 <= j < 8 => a[j] + b[j]) }

  function Sub(a: Lanes8, b: Lanes8): Lanes8 { seq(8, j requires 0 <= j < 8 => a[j] - b[j]) }

  /** The mask of the lanes below a bound. */
  function Below(a: Lanes8, b: real): (m: seq<bool>)
    ensures |m| == 8
  {
    seq(8, j requires 0 <= j < 8 => a[j] < b)
  }

  function At(cx: Lanes8, cy: Lanes8, j: nat): Point
    requires j < 8
  {
    Point(cx[j], cy[j])
  }

  // ------------------------------------------------------------- mapping

  /** The x coordinates of the columns x .. x + 7, computed as the kernels do. */
  function XLanes(v: View, x: nat): Lanes8 {
    Add(Mul(Add(Mul(Mul(Ramp(x), Splat(v.widthR)), Splat(v.aspect)), Splat(CENTER)), Splat(v.scale)), Splat(v.shiftX))
  }

  function YLanes(v: View, y: nat): Lanes8 {
    Add(Mul(Add(Mul(Splat(y as real), Splat(v.heightR)), Splat(CENTER)), Splat(v.scale)), Splat(v.shiftY))
  }

  lemma LanesMapPixels(v: View, x: nat, y: nat, j: nat)
    requires j < 8
    ensures At(XLanes(v, x), YLanes(v, y), j) == PlanePoint(v, x + j, y)
  {
  }

  /** The lanes hold the y coordinate of row `y`. */
  ghost predicate OnRow(v: View, y: nat, row: seq<real>) {
    |row| == 8 && forall j :: 0 <= j < 8 ==> row[j] == PlaneY(v, y)
  }

  lemma OnRowIs(v: View, y: nat, row: seq<real>)
    ensures OnRow(v, y, row) <==> row == YLanes(v, y)
  {
    assert forall j :: 0 <= j < 8 ==> YLanes(v, y)[j] == PlaneY(v, y);
  }

  // ----------------------------------------------------------- iteration

  function StepX(zx: Lanes8, zy: Lanes8, cx: Lanes8): Lanes8 {
    Add(Sub(Mul(zx, zx), Mul(zy, zy)), cx)
  }

  function StepY(zx: Lanes8, zy: Lanes8, cy: Lanes8): Lanes8 {
    Add(Add(Mul(zx, zy), Mul(zx, zy)), cy)
  }

  function Mags(zx: Lanes8, zy: Lanes8): Lanes8 { Add(Mul(zx, zx), Mul(zy, zy)) }

  lemma StepIsNext(zx: Lanes8, zy: Lanes8, cx: Lanes8, cy: Lanes8, j: nat)
    requires j < 8
    ensures At(StepX(zx, zy, cx), StepY(zx, zy, cy), j) == Next(At(zx, zy, j), At(cx, cy, j))
    ensures Mags(zx, zy)[j] == Mag2(At(zx, zy, j))
  {
  }

  /** Each lane is at iterate `i` of its own point. */
  ghost predicate Track(cx: Lanes8, cy: Lanes8, zx: Lanes8, zy: Lanes8, i: nat) {
    forall j :: 0 <= j < 8 ==> At(zx, zy, j) == Iterate(At(cx, cy, j), i)
  }

  lemma TrackStep(cx: Lanes8, cy: Lanes8, zx: Lanes8, zy: Lanes8, i: nat)
    requires Track(cx, cy, zx, zy, i)
    ensures Track(cx, cy, StepX(zx, zy, cx), StepY(zx, zy, cy), i + 1)
  {
    forall j | 0 <= j < 8
      ensures At(StepX(zx, zy, cx), StepY(zx, zy, cy), j) == Iterate(At(cx, cy, j), i + 1)
    {
      StepIsNext(zx, zy, cx, cy, j);
    }
  }

  /** The masked count of each lane's own point after `n` turns. */
  function Counts(cx: Lanes8, cy: Lanes8, n: nat): (counts: seq<nat>)
    ensures |counts| == 8
  {
    seq(8, j requires 0 <= j < 8 => MaskedCount(At(cx, cy, j), n))
  }

  /** The counts after one more turn that found the lanes of `inside` inside. */
  function Bump(counts: seq<int>, inside: seq<bool>): (r: seq<int>)
    requires |counts| == |inside| == 8
    ensures |r| == 8
  {
    seq(8, j requires 0 <= j < 8 => counts[j] + if inside[j] then 1 else 0)
  }

  lemma TurnInside(cx: Lanes8, cy: Lanes8, zx: Lanes8, zy: Lanes8, i: nat, j: nat)
    requires Track(cx, cy, zx, zy, i) && j < 8
    ensures Below(Mags(zx, zy), 4.0)[j] <==> Inside(At(cx, cy, j), i)
  {
    StepIsNext(zx, zy, cx, cy, j);
    assert At(zx, zy, j) == Iterate(At(cx, cy, j), i);
  }

  /** A turn of the loop that goes on bumps the counts as it should. */
  lemma TurnCounts(cx: Lanes8, cy: Lanes8, zx: Lanes8, zy: Lanes8, i: nat)
    requires Track(cx, cy, zx, zy, i + 1)
    ensures Bump(Counts(cx, cy, i), Below(Mags(zx, zy), 4.0)) == Counts(cx, cy, i + 1)
  {
    forall j | 0 <= j < 8
      ensures Bump(Counts(cx, cy, i), Below(Mags(zx, zy), 4.0))[j] == Counts(cx, cy, i + 1)[j]
    {
      TurnInside(cx, cy, zx, zy, i + 1, j);
    }
  }

  /** Once every lane is out the counts are final. */
  lemma AllOutIsFinal(cx: Lanes8, cy: Lanes8, zx: Lanes8, zy: Lanes8, i: nat, bailout: nat)
    requires Track(cx, cy, zx, zy, i + 1) && i < bailout
    requires forall j :: 0 <= j < 8 ==> !Below(Mags(zx, zy), 4.0)[j]
    ensures Counts(cx, cy, bailout) == Counts(cx, cy, i)
  {
    forall j | 0 <= j < 8 ensures Counts(cx, cy, bailout)[j] == Counts(cx, cy, i)[j] {
      TurnInside(cx, cy, zx, zy, i + 1, j);
      EarlyBreakIsHarmless(At(cx, cy, j), i, bailout);
    }
  }

  // --------------------------------------------------------------- shades

  /** The colours of the pixels (x, y) .. (x + 7, y). */
  function GroupColours(v: View, x: nat, y: nat): (pixels: seq<real>)
    ensures |pixels| == 8
  {
    seq(8, j requires 0 <= j => VectorColour(v)(x + j, y))
  }

  lemma CountsShade(v: View, x: nat, y: nat, j: nat)
    requires j < 8
    ensures GroupColours(v, x, y)[j] == Shade(Counts(XLanes(v, x), YLanes(v, y), v.bailout)[j], v.bailout)
  {
    LanesMapPixels(v, x, y, j);
    assert GroupColours(v, x, y)[j] == VectorColour(v)(x + j, y);
    assert Counts(XLanes(v, x), YLanes(v, y), v.bailout)[j] == MaskedCount(PlanePoint(v, x + j, y), v.bailout);
  }
}

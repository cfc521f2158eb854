/** Frames as they really occur: they can be set up and run, on which surfaces the scheduler
    reads behind its queue, and which kernels draw the same picture. */
module FrameRuns {
  import opened Geometry
  import opened Machine
  import opened Tiling
  import opened TaskQueue
  import opened Surface
  import opened Orbit
  import opened Kernels
  import opened Protocol
  import opened Invariant
  import opened Theorems
  import opened Progress
  import opened Returning
  import opened Openings
  import opened PastEnd
  import opened Frame
  import opened Wrappers

  // ---------------------------------------------------------- inside the queue

  /** At every point of a frame each index a thread works on has a slot. */
  lemma FrameStaysInside(n: nat, s: State, evs: seq<Event>, k: Kernel, v: View,
                         width: nat, height: nat, gx: nat, gy: nat, t: nat, i: nat)
    requires width > 0 && height > 0 && gx > 0 && gy > 0
    requires Reachable(n, s) && s.host.Idle? && FrameReady(s, k, v, width, height, gx, gy)
    requires Legal(s, [Yield] + evs) && Internal(evs) && Holds(Run(s, [Yield] + evs), t, i)
    ensures i < |Run(s, [Yield] + evs).slots|
  {
    ReachableInv(n, s);
    YieldStarts(s, evs);
    DuringRun(s, Do(s, Yield), evs);
    ReachableRun(n, s, [Yield] + evs);
    StaysInside(n, Run(s, [Yield] + evs), t, i);
  }

  lemma YieldStarts(s: State, evs: seq<Event>)
    requires Inv(s) && s.host.Idle? && s.context.Some? && Legal(s, [Yield] + evs)
    ensures During(s, Do(s, Yield)) && Legal(Do(s, Yield), evs)
    ensures Run(s, [Yield] + evs) == Run(Do(s, Yield), evs)
  {
    InvDo(s, Yield);
    assert ([Yield] + evs)[1..] == evs;
  }

  /** The set-up of a frame over the queue that CreateTasks makes. */
  ghost function FrameSetup(k: Kernel, v: View, width: nat, height: nat, gx: nat, gy: nat, image: seq<real>): (u: Setup)
    requires width > 0 && height > 0 && gx > 0 && gy > 0 && Mul32(gx, gy) > 0
    requires ReservationFits(width, height, gx, gy)
    ensures Fits(u)
  {
    SpareIff(width, height, gx, gy);
    Setup(PainterOf(k, v, width, height), CreatedSlots(width, height, gx, gy),
          |SurfaceTiles(width, height, gx, gy)|, image)
  }

  /** A frame of a surface can make the scheduler read behind its queue exactly when there
      is a worker, there are at least 2 x 2 pixels, and the number of tiles is one of the
      capacities the queue goes through. */
  lemma FrameTouchesOutsideIff(n: nat, k: Kernel, v: View, width: nat, height: nat, gx: nat, gy: nat, image: seq<real>)
    requires width > 0 && height > 0 && gx > 0 && gy > 0 && Mul32(gx, gy) > 0
    requires ReservationFits(width, height, gx, gy)
    ensures CanTouchOutside(n, FrameSetup(k, v, width, height, gx, gy, image))
       <==> n >= 1 && width >= 2 && height >= 2 && !HasSpare(width, height, gx, gy)
  {
    SpareIff(width, height, gx, gy);
    SurfaceTileCount(width, height, gx, gy);
    SomeTile(width, height, gx, gy);
    TouchesOutsideIff(n, FrameSetup(k, v, width, height, gx, gy, image));
  }

  lemma SomeTile(width: nat, height: nat, gx: nat, gy: nat)
    requires width > 0 && height > 0 && gx > 0 && gy > 0
    ensures TilesOf(width, height, gx, gy) > 0 <==> width >= 2 && height >= 2
  {
    CeilIsZeroIff(width - 1, gx);
    CeilIsZeroIff(height - 1, gy);
    ProductIsZeroIff(CeilDiv(width - 1, gx), CeilDiv(height - 1, gy));
  }

  lemma CeilIsZeroIff(a: nat, b: nat)
    requires b > 0
    ensures CeilDiv(a, b) > 0 <==> a > 0
  {
    if a % b == 0 && a > 0 {
      assert a == a / b * b;
    }
  }

  lemma ProductIsZeroIff(a: nat, b: nat)
    ensures a * b > 0 <==> a > 0 && b > 0
  {
    if a > 0 && b > 0 {
      MulAtLeast(a, b);
    }
  }

  // --------------------------------------------------------------- frames happen

  /** For every number of workers, kernel, view, surface and grain, and every queue with room
      for what the workers may claim, there is a frame from start to return. */
  lemma FrameCanHappen(n: nat, k: Kernel, v: View, width: nat, height: nat, gx: nat, gy: nat,
                       slots: seq<Tile>, image: seq<real>) returns (s: State, evs: seq<Event>)
    requires width > 0 && height > 0 && gx > 0 && gy > 0 && |image| == width * height < U32
    requires var length := |SurfaceTiles(width, height, gx, gy)|;
      Queued(slots, length, width, height, gx, gy) && (n >= 1 && length >= 1 ==> length < |slots|)
    ensures Reachable(n, s) && FrameReady(s, k, v, width, height, gx, gy) && Round(s, evs)
    ensures s.image == image && s.slots == slots
  {
    var u := Setup(PainterOf(k, v, width, height), slots, |SurfaceTiles(width, height, gx, gy)|, image);
    CanBeReady(n, u);
    s := Ready(n, u);
    StrongIsReachable(n, s);
    StrongReachableDo(n, s, Yield, Do(s, Yield));
    evs := RoundCanReturn(n, Do(s, Yield));
    RunFirst(s, Yield, evs);
  }

  /** The slots that CreateTasks leaves are such a queue whenever there is one to spare. */
  lemma CreatedFits(width: nat, height: nat, gx: nat, gy: nat)
    requires width > 0 && height > 0 && gx > 0 && gy > 0 && Mul32(gx, gy) > 0
    requires ReservationFits(width, height, gx, gy)
    ensures var tiles, slots := SurfaceTiles(width, height, gx, gy), CreatedSlots(width, height, gx, gy);
      Queued(slots, |tiles|, width, height, gx, gy) && (HasSpare(width, height, gx, gy) <==> |tiles| < |slots|)
  {
    SpareIff(width, height, gx, gy);
  }

  // ------------------------------------------------------- a column never drawn

  /** Where an AVX2 kernel does not reach the last column there is a frame, for any number of
      workers, and it leaves that column as it was. */
  lemma LastColumnIsMissed(n: nat, fused: bool, v: View, width: nat, height: nat, gx: nat, gy: nat, image: seq<real>)
    returns (s: State, evs: seq<Event>)
    requires width >= 2 && height >= 2 && gx > 0 && gy > 0 && |image| == width * height < U32 && Mul32(gx, gy) > 0
    requires ReservationFits(width, height, gx, gy) && HasSpare(width, height, gx, gy)
    requires !ReachesLastColumn(Avx2(fused), width, gx)
    ensures Reachable(n, s) && FrameReady(s, Avx2(fused), v, width, height, gx, gy) && Round(s, evs)
    ensures s.image == image && |Run(s, [Yield] + evs).image| == |image|
    ensures forall x: nat, y: nat, p: nat :: x == width - 1 && IsPixel(width, height, x, y, p) ==>
              Run(s, [Yield] + evs).image[p] == image[p]
  {
    CreatedFits(width, height, gx, gy);
    s, evs := FrameCanHappen(n, Avx2(fused), v, width, height, gx, gy, CreatedSlots(width, height, gx, gy), image);
    forall x: nat, y: nat, p: nat | x == width - 1 && IsPixel(width, height, x, y, p)
      ensures p < |image| && |Run(s, [Yield] + evs).image| == |image| && Run(s, [Yield] + evs).image[p] == image[p]
    {
      PixelMissed(s, fused, v, width, height, gx, gy, y, p);
      RoundLeaves(n, s, evs, p);
    }
    var p := IndexOf(width, height, width - 1, 0);
  }

  /** 1025 x 1025 pixels in 32 x 32 blocks are such a surface. */
  lemma Surface1025()
    ensures Mul32(32, 32) > 0 && ReservationFits(1025, 1025, 32, 32) && HasSpare(1025, 1025, 32, 32)
    ensures !ReachesLastColumn(Avx2(false), 1025, 32) && !ReachesLastColumn(Avx2(true), 1025, 32)
  {
    assert ReservedLength(1025, 1025, 32, 32) == 1027 && TilesOf(1025, 1025, 32, 32) == 1024;
  }

  // -------------------------------------------------------------- equal pictures

  /** Scalar and vector kernels draw the same picture exactly when each pixel's orbit is
      drawn alike. */
  lemma PicturesAgreeIff(v: View, width: nat, height: nat)
    ensures Picture(ScalarColour(v), width, height) == Picture(VectorColour(v), width, height)
       <==> forall x: nat, y: nat :: x < width && y < height ==> DrawnAlike(PlanePoint(v, x, y), v.bailout)
  {
    var a, b := Picture(ScalarColour(v), width, height), Picture(VectorColour(v), width, height);
    if forall x: nat, y: nat :: x < width && y < height ==> DrawnAlike(PlanePoint(v, x, y), v.bailout) {
      forall p: nat | p < |a| ensures a[p] == b[p] {
        var x, y := PixelOf(p, width, height);
        PixelAgrees(v, width, height, x, y, p);
      }
    } else {
      var x: nat, y: nat :| x < width && y < height && !DrawnAlike(PlanePoint(v, x, y), v.bailout);
      var p := IndexOf(width, height, x, y);
      PixelAgrees(v, width, height, x, y, p);
    }
  }

  lemma PixelAgrees(v: View, width: nat, height: nat, x: nat, y: nat, p: nat)
    requires IsPixel(width, height, x, y, p)
    ensures Picture(ScalarColour(v), width, height)[p] == Picture(VectorColour(v), width, height)[p]
       <==> DrawnAlike(PlanePoint(v, x, y), v.bailout)
  {
    PictureAt(ScalarColour(v), width, height, x, y);
    PictureAt(VectorColour(v), width, height, x, y);
    ShadesAgreeIff(PlanePoint(v, x, y), v.bailout);
  }

  /** End to end: a frame of the scalar kernel and one of a vector kernel, each in any
      interleaving with any number of workers, leave the same pixels exactly then. */
  lemma FramesAgreeIff(n1: nat, s1: State, evs1: seq<Event>, n2: nat, s2: State, evs2: seq<Event>,
                       k: Kernel, v: View, width: nat, height: nat, gx: nat, gy: nat)
    requires width >= 2 && height >= 2 && gx > 0 && gy > 0 && !k.Generic? && ReachesLastColumn(k, width, gx)
    requires Reachable(n1, s1) && FrameReady(s1, Generic, v, width, height, gx, gy) && Round(s1, evs1)
    requires Reachable(n2, s2) && FrameReady(s2, k, v, width, height, gx, gy) && Round(s2, evs2)
    ensures Run(s1, [Yield] + evs1).image == Run(s2, [Yield] + evs2).image
       <==> forall x: nat, y: nat :: x < width && y < height ==> DrawnAlike(PlanePoint(v, x, y), v.bailout)
  {
    FrameIsPicture(n1, s1, evs1, Generic, v, width, height, gx, gy);
    FrameIsPicture(n2, s2, evs2, k, v, width, height, gx, gy);
    PicturesAgreeIff(v, width, height);
  }
}

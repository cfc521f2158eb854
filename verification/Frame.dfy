/** The whole pipeline: tiles cut by the splitter, handed out by the scheduler and painted
    by a kernel give the picture, whatever the interleaving. */
module Frame {
  import opened Geometry
  import opened Machine
  import opened Tiling
  import opened TaskQueue
  import opened Surface
  import opened Orbit
  import opened Kernels
  import opened NativeKernel
  import opened Avx2Kernels
  import opened Protocol
  import opened Invariant
  import opened Theorems
  import opened Wrappers

  datatype Kernel = Generic | Native | Avx2(fused: bool)

  function ColourOf(k: Kernel, v: View): (nat, nat) -> real {
    if k.Generic? then ScalarColour(v) else VectorColour(v)
  }

  /** How many columns the kernel takes at a time, and which of a tile's columns start it. */
  function StepWidth(k: Kernel): Pos { if k.Generic? then 1 else 8 }

  function EndColumn(k: Kernel, t: Tile): nat { if k.Avx2? then t.x1 else t.x1 + 1 }

  /** The float stores the kernel makes for a tile. */
  function TileStores(k: Kernel, v: View, width: nat, height: nat, t: Tile): seq<Store> {
    BlockStores(ColourOf(k, v), width, height, t.x0, EndColumn(k, t), StepWidth(k), t.y0, t.y1 + 1)
  }

  function PainterOf(k: Kernel, v: View, width: nat, height: nat): Painter {
    t => TileStores(k, v, width, height, t)
  }

  /** The call through the loaded kernel's function pointer: run alone, it makes exactly the
      stores the scheduler's steps interleave. */
  method ProcessBlock(k: Kernel, v: View, surf: Canvas, x0: nat, x1: nat, y0: nat, y1: nat)
    requires surf.Valid() && x1 + 8 < U32 && y1 + 1 < U32
    modifies surf.data
    ensures surf.data[..] == Apply(old(surf.data[..]),
              TileStores(k, v, surf.width, surf.height, Tile(x0, x1, y0, y1)))
  {
    ghost var stores := TileStores(k, v, surf.width, surf.height, Tile(x0, x1, y0, y1));
    match k
    case Generic =>
      assert stores == BlockStores(ScalarColour(v), surf.width, surf.height, x0, x1 + 1, 1, y0, y1 + 1);
      GenericProcessBlock(v, surf, x0, x1, y0, y1);
    case Native =>
      assert stores == BlockStores(VectorColour(v), surf.width, surf.height, x0, x1 + 1, 8, y0, y1 + 1);
      NativeProcessBlock(v, surf, x0, x1, y0, y1);
    case Avx2(fused) =>
      assert stores == BlockStores(VectorColour(v), surf.width, surf.height, x0, x1, 8, y0, y1 + 1);
      Avx2ProcessBlock(v, surf, fused, x0, x1, y0, y1);
  }

  /** The queue holds the surface's tiles, and a slot right behind them is zero. */
  ghost predicate Queued(slots: seq<Tile>, length: nat, width: nat, height: nat, gx: nat, gy: nat)
    requires width > 0 && height > 0 && gx > 0 && gy > 0
  {
    && length <= |slots|
    && slots[..length] == SurfaceTiles(width, height, gx, gy)
    && (length < |slots| ==> slots[length] == ZERO_TILE)
  }

  /** What CreateTasks leaves behind. */
  lemma CreatedIsQueued(q: Queue, width: nat, height: nat, gx: nat, gy: nat)
    requires width > 0 && height > 0 && gx > 0 && gy > 0
    requires q.Valid() && q.Contents() == SurfaceTiles(width, height, gx, gy) && q.SpareZero()
    ensures Queued(q.tasks[..], q.length, width, height, gx, gy)
  {
    assert q.tasks[..][..q.length] == q.Contents();
  }

  /** A scheduler about to yield for a frame of the kernel. */
  ghost predicate FrameSet(s: State, k: Kernel, v: View, width: nat, height: nat, gx: nat, gy: nat)
    requires width > 0 && height > 0 && gx > 0 && gy > 0
  {
    && s.counter == 0 && |s.image| == width * height < U32
    && s.context == Some(PainterOf(k, v, width, height))
    && Queued(s.slots, s.length, width, height, gx, gy)
  }

  /** With workers a pop may claim the index behind the last task, so there has to be a slot
      for it. */
  ghost predicate FrameReady(s: State, k: Kernel, v: View, width: nat, height: nat, gx: nat, gy: nat)
    requires width > 0 && height > 0 && gx > 0 && gy > 0
  {
    FrameSet(s, k, v, width, height, gx, gy) && (|s.workers| >= 1 && s.length >= 1 ==> s.length < |s.slots|)
  }

  // ------------------------------------------------------------- agreement

  lemma StoreAgrees(st: Store, colour: (nat, nat) -> real, width: nat, height: nat)
    requires PaintsSome(st, colour, width, height)
    ensures st.at < width * height && st.value == Picture(colour, width, height)[st.at]
  {
    var x: nat, y: nat :| Paints(st, colour, width, height, x, y);
    PictureAt(colour, width, height, x, y);
  }

  lemma FrameAgrees(s: State, k: Kernel, v: View, width: nat, height: nat, gx: nat, gy: nat)
    requires width > 0 && height > 0 && gx > 0 && gy > 0
    requires FrameSet(s, k, v, width, height, gx, gy)
    ensures AgreesWith(s, Picture(ColourOf(k, v), width, height))
  {
    var colour, goal := ColourOf(k, v), Picture(ColourOf(k, v), width, height);
    forall i: nat, j: nat | i <= s.length && i < |s.slots| && j < |s.context.value(s.slots[i])|
      ensures var st := s.context.value(s.slots[i])[j]; st.at < |goal| && st.value == goal[st.at]
    {
      var t := s.slots[i];
      var stores := TileStores(k, v, width, height, t);
      assert s.context.value(t) == stores;
      BlockPaints(colour, width, height, t.x0, EndColumn(k, t), StepWidth(k), t.y0, t.y1 + 1);
      assert stores[j] in stores;
      StoreAgrees(stores[j], colour, width, height);
    }
  }

  // -------------------------------------------------------------- coverage

  /** The width of the tiles in the last column. */
  function LastTileWidth(width: nat, gx: nat): nat
    requires width >= 2 && gx > 0
  {
    (width - 2) % gx + 1
  }

  /** The kernel reaches the surface's last column. The AVX2 kernels leave a tile's right
      end out, so for them it takes lanes that stick out of the last tile. */
  predicate ReachesLastColumn(k: Kernel, width: nat, gx: nat)
    requires width >= 2 && gx > 0
  {
    k.Avx2? ==> LastTileWidth(width, gx) % 8 != 0
  }

  lemma {:induction false} RowTileShape(x: nat, x1: nat, y: nat, yEnd: nat, gx: nat)
    requires gx > 0 && x % gx == 0
    ensures forall t :: t in RowTiles(x, x1, y, yEnd, gx) ==> t.x0 % gx == 0 && t.x1 == Min(t.x0 + gx, x1)
    decreases x1 - x
  {
    if x < x1 && x + gx < x1 {
      NextMultiple(x, gx);
      RowTileShape(x + gx, x1, y, yEnd, gx);
    }
  }

  /** Every tile starts at a multiple of the grain and is as wide as it can be. */
  lemma {:induction false} TileShape(x1: nat, y: nat, y1: nat, gx: nat, gy: nat)
    requires gx > 0 && gy > 0
    ensures forall t :: t in SplitTiles(0, x1, y, y1, gx, gy) ==> t.x0 % gx == 0 && t.x1 == Min(t.x0 + gx, x1)
    decreases y1 - y
  {
    if y < y1 {
      DivMod(0, 0, 0, gx);
      RowTileShape(0, x1, y, Min(y + gy, y1), gx);
      TileShape(x1, Min(y + gy, y1), y1, gx, gy);
    }
  }

  /** A multiple of the grain before the last column ends at least a last tile's width
      before it. */
  lemma MultipleBefore(m: nat, d: nat, g: nat)
    requires g > 0 && m % g == 0 && m <= d
    ensures m + d % g <= d
  {
    var q, r := d / g, d % g;
    assert d == q * g + r && m == (m / g) * g;
    if m / g > q {
      assert (m / g - q) * g == (m / g) * g - q * g;
      MulAtLeast(m / g - q, g);
    } else {
      assert (q - m / g) * g >= 0;
    }
  }

  lemma NextMultiple(m: nat, g: nat)
    requires g > 0 && m % g == 0
    ensures (m + g) % g == 0
  {
    assert m == (m / g) * g && (m / g + 1) * g == (m / g) * g + g;
    DivMod(m + g, m / g + 1, 0, g);
  }

  lemma LastTileIsLast(t: Tile, width: nat, gx: nat)
    requires width >= 2 && gx > 0 && t.x0 < t.x1 && t.x0 % gx == 0 && t.x1 == Min(t.x0 + gx, width - 1)
    ensures t.x1 == width - 1 ==> t.x1 - t.x0 == LastTileWidth(width, gx)
    ensures t.x1 < width - 1 ==> t.x1 + LastTileWidth(width, gx) <= width - 1
  {
    if t.x1 == width - 1 {
      assert t.x0 == (t.x0 / gx) * gx;
      DivMod(width - 2, t.x0 / gx, width - 2 - t.x0, gx);
    } else {
      NextMultiple(t.x0, gx);
      MultipleBefore(t.x1, width - 2, gx);
    }
  }

  lemma {:induction false} LineReachBelow(x: nat, xEnd: nat, n: nat)
    requires n > 0 && x < xEnd
    ensures LineReach(x, xEnd, n) < xEnd + n
    decreases xEnd - x
  {
    if x + n < xEnd {
      LineReachBelow(x + n, xEnd, n);
    }
  }

  /** Every tile of the queue, with its place and shape. */
  lemma QueuedTile(slots: seq<Tile>, length: nat, width: nat, height: nat, gx: nat, gy: nat, i: nat)
    requires width >= 2 && height >= 2 && gx > 0 && gy > 0
    requires Queued(slots, length, width, height, gx, gy) && i < length
    ensures Within(slots[i], 0, width - 1, 0, height - 1)
    ensures slots[i].x0 % gx == 0 && slots[i].x1 == Min(slots[i].x0 + gx, width - 1)
  {
    TilesWithin(0, width - 1, 0, height - 1, gx, gy);
    TileShape(width - 1, 0, height - 1, gx, gy);
    assert slots[..length][i] in SurfaceTiles(width, height, gx, gy);
  }

  /** A tile that holds the pixel's column is enough, unless the kernel leaves it out. */
  lemma PixelReached(k: Kernel, v: View, t: Tile, width: nat, height: nat, gx: nat, x: nat, y: nat, p: nat)
    requires width >= 2 && gx > 0 && IsPixel(width, height, x, y, p)
    requires Within(t, 0, width - 1, 0, height - 1)
    requires t.x0 % gx == 0 && t.x1 == Min(t.x0 + gx, width - 1)
    requires t.y0 <= y <= t.y1 && t.x0 <= x <= t.x1 && (x == t.x1 ==> x == width - 1)
    requires ReachesLastColumn(k, width, gx)
    ensures Reaches(TileStores(k, v, width, height, t), p)
  {
    BlockReaches(ColourOf(k, v), width, height, t.x0, EndColumn(k, t), StepWidth(k), t.y0, t.y1 + 1, x, y, p);
    if k.Avx2? && x == t.x1 {
      LastTileIsLast(t, width, gx);
      LineReachIsTight(t.x0, t.x1, 8);
    }
  }

  /** The queue's tile for a pixel: one that holds its column in its half-open part, or in
      its right end on the surface's edge. */
  lemma TileForPixel(s: State, width: nat, height: nat, gx: nat, gy: nat, x: nat, y: nat) returns (i: nat)
    requires width >= 2 && height >= 2 && gx > 0 && gy > 0
    requires Queued(s.slots, s.length, width, height, gx, gy) && x < width && y < height
    ensures i < s.length
    ensures var t := s.slots[i]; t.y0 <= y <= t.y1 && t.x0 <= x <= t.x1 && (x == t.x1 ==> x == width - 1)
  {
    var px, py := Min(x, width - 2), Min(y, height - 2);
    var tiles := SurfaceTiles(width, height, gx, gy);
    TilesPartition(0, width - 1, 0, height - 1, gx, gy, px, py);
    i := CountedMeansFound(tiles, px, py);
    QueuedTile(s.slots, s.length, width, height, gx, gy, i);
    assert s.slots[i] == tiles[i];
  }

  lemma PixelCovered(s: State, k: Kernel, v: View, width: nat, height: nat, gx: nat, gy: nat, x: nat, y: nat, p: nat)
    requires width >= 2 && height >= 2 && gx > 0 && gy > 0 && IsPixel(width, height, x, y, p)
    requires FrameSet(s, k, v, width, height, gx, gy) && ReachesLastColumn(k, width, gx)
    ensures Covered(s, p)
  {
    var i := TileForPixel(s, width, height, gx, gy, x, y);
    QueuedTile(s.slots, s.length, width, height, gx, gy, i);
    PixelReached(k, v, s.slots[i], width, height, gx, x, y, p);
    assert s.context.value(s.slots[i]) == TileStores(k, v, width, height, s.slots[i]);
  }

  lemma FrameCovers(s: State, k: Kernel, v: View, width: nat, height: nat, gx: nat, gy: nat)
    requires width >= 2 && height >= 2 && gx > 0 && gy > 0
    requires FrameSet(s, k, v, width, height, gx, gy) && ReachesLastColumn(k, width, gx)
    ensures Covers(s, Picture(ColourOf(k, v), width, height))
  {
    forall p: nat | p < width * height ensures Covered(s, p) {
      var x, y := PixelOf(p, width, height);
      PixelCovered(s, k, v, width, height, gx, gy, x, y, p);
    }
  }

  lemma PixelOf(p: nat, width: nat, height: nat) returns (x: nat, y: nat)
    requires p < width * height
    ensures IsPixel(width, height, x, y, p)
  {
    x, y := p % width, p / width;
    QuotientAndRest(p, width);
    TimesIs(y, width);
    if height <= y {
      RowsBelow(height, y, width);
    }
  }

  lemma IndexOf(width: nat, height: nat, x: nat, y: nat) returns (p: nat)
    requires x < width && y < height
    ensures p == y * width + x && IsPixel(width, height, x, y, p)
  {
    p := Times(y, width) + x;
    TimesIs(y, width);
    RowInside(y, width, height);
  }

  /** End to end: for every interleaving of any number of workers and every surface of at
      least 2 x 2 pixels, when rsched_host_yield returns it has succeeded and every pixel
      holds the kernel's colour of its own coordinates, however tiles and lanes overlap. */
  lemma FrameIsPicture(n: nat, s: State, evs: seq<Event>,
                       k: Kernel, v: View, width: nat, height: nat, gx: nat, gy: nat)
    requires width >= 2 && height >= 2 && gx > 0 && gy > 0
    requires Reachable(n, s) && FrameReady(s, k, v, width, height, gx, gy) && Round(s, evs)
    requires ReachesLastColumn(k, width, gx)
    ensures Run(s, [Yield] + evs).host == Idle(true)
    ensures Run(s, [Yield] + evs).image == Picture(ColourOf(k, v), width, height)
  {
    ExactlyOnce(n, s, evs);
    FrameIsPaintedInside(n, s, evs, k, v, width, height, gx, gy);
  }

  lemma ColourDrawn(k: Kernel, v: View, x: nat, y: nat) returns (count: nat)
    ensures DrawnWith(PlanePoint(v, x, y), v.bailout, k.Generic?, count, ColourOf(k, v)(x, y))
  {
    if k.Generic? {
      count := ScalarDrawn(PlanePoint(v, x, y), v.bailout);
    } else {
      count := MaskedDrawn(PlanePoint(v, x, y), v.bailout);
    }
  }

  lemma PlanePointIs(v: View, x: nat, y: nat)
    ensures PlanePoint(v, x, y) == Point((x as real * v.widthR * v.aspect - 0.5) * v.scale + v.shiftX,
                                         (y as real * v.heightR - 0.5) * v.scale + v.shiftY)
  {
  }

  lemma PixelOfPicture(k: Kernel, v: View, image: seq<real>, width: nat, height: nat, x: nat, y: nat)
    returns (count: nat)
    requires x < width && y < height && image == Picture(ColourOf(k, v), width, height)
    ensures y * width + x < |image|
    ensures DrawnWith(PlanePoint(v, x, y), v.bailout, k.Generic?, count, image[y * width + x])
  {
    PictureAt(ColourOf(k, v), width, height, x, y);
    TimesIs(y, width);
    count := ColourDrawn(k, v, x, y);
  }

  /** The same for one pixel, with its place in the buffer and in the plane written out. */
  lemma PixelInFrame(n: nat, s: State, evs: seq<Event>,
                     k: Kernel, v: View, width: nat, height: nat, gx: nat, gy: nat, x: nat, y: nat)
    returns (count: nat)
    requires width >= 2 && height >= 2 && gx > 0 && gy > 0 && x < width && y < height
    requires Reachable(n, s) && FrameReady(s, k, v, width, height, gx, gy) && Round(s, evs)
    requires ReachesLastColumn(k, width, gx)
    ensures var c := Point((x as real * v.widthR * v.aspect - 0.5) * v.scale + v.shiftX,
                           (y as real * v.heightR - 0.5) * v.scale + v.shiftY);
      && y * width + x < |Run(s, [Yield] + evs).image|
      && DrawnWith(c, v.bailout, k.Generic?, count, Run(s, [Yield] + evs).image[y * width + x])
  {
    FrameIsPicture(n, s, evs, k, v, width, height, gx, gy);
    PlanePointIs(v, x, y);
    count := PixelOfPicture(k, v, Run(s, [Yield] + evs).image, width, height, x, y);
  }

  /** Without a slot to spare the same holds of every round in which no thread happens to
      claim an index behind the slots. */
  lemma PictureUnlessOutside(n: nat, s: State, evs: seq<Event>,
                             k: Kernel, v: View, width: nat, height: nat, gx: nat, gy: nat)
    requires width >= 2 && height >= 2 && gx > 0 && gy > 0
    requires Reachable(n, s) && FrameSet(s, k, v, width, height, gx, gy) && Round(s, evs)
    requires ReachesLastColumn(k, width, gx) && Run(s, [Yield] + evs).counter <= |s.slots|
    ensures Run(s, [Yield] + evs).host == Idle(true)
    ensures Run(s, [Yield] + evs).image == Picture(ColourOf(k, v), width, height)
  {
    ExactlyOnce(n, s, evs);
    FrameIsPaintedInside(n, s, evs, k, v, width, height, gx, gy);
  }

  lemma FrameIsPaintedInside(n: nat, s: State, evs: seq<Event>,
                             k: Kernel, v: View, width: nat, height: nat, gx: nat, gy: nat)
    requires width >= 2 && height >= 2 && gx > 0 && gy > 0
    requires Reachable(n, s) && FrameSet(s, k, v, width, height, gx, gy) && Round(s, evs)
    requires ReachesLastColumn(k, width, gx)
    ensures Run(s, [Yield] + evs).image == Picture(ColourOf(k, v), width, height)
  {
    FrameAgrees(s, k, v, width, height, gx, gy);
    FrameCovers(s, k, v, width, height, gx, gy);
    RoundPaints(n, s, Picture(ColourOf(k, v), width, height), evs);
  }

  /** The groups of a tile end before the last column if the last tiles are a multiple of
      eight wide. */
  lemma ReachMissesColumn(t: Tile, width: nat, gx: nat)
    requires width >= 2 && gx > 0 && LastTileWidth(width, gx) % 8 == 0
    requires t.x0 < t.x1 && t.x0 % gx == 0 && t.x1 == Min(t.x0 + gx, width - 1)
    ensures LineReach(t.x0, t.x1, 8) <= width - 1
  {
    LastTileIsLast(t, width, gx);
    if t.x1 == width - 1 {
      LineReachIsTight(t.x0, t.x1, 8);
    } else {
      LineReachBelow(t.x0, t.x1, 8);
    }
  }

  /** A slot of a queue whose last tiles are a multiple of eight wide keeps clear of the
      last column under an AVX2 kernel. */
  lemma LastColumnUnreached(fused: bool, v: View, slots: seq<Tile>, length: nat,
                            width: nat, height: nat, gx: nat, gy: nat, i: nat, y: nat, p: nat)
    requires width >= 2 && height >= 2 && gx > 0 && gy > 0 && IsPixel(width, height, width - 1, y, p)
    requires Queued(slots, length, width, height, gx, gy) && i <= length && i < |slots|
    requires LastTileWidth(width, gx) % 8 == 0
    ensures !Reaches(TileStores(Avx2(fused), v, width, height, slots[i]), p)
  {
    var t := slots[i];
    if i < length {
      QueuedTile(slots, length, width, height, gx, gy, i);
      ReachMissesColumn(t, width, gx);
    }
    TileMisses(fused, v, t, width, height, y, p);
  }

  lemma TileMisses(fused: bool, v: View, t: Tile, width: nat, height: nat, y: nat, p: nat)
    requires width >= 2 && IsPixel(width, height, width - 1, y, p)
    requires t == ZERO_TILE || LineReach(t.x0, t.x1, 8) <= width - 1
    ensures !Reaches(TileStores(Avx2(fused), v, width, height, t), p)
  {
    BlockReaches(VectorColour(v), width, height, t.x0, t.x1, 8, t.y0, t.y1 + 1, width - 1, y, p);
  }

  lemma PixelMissed(s: State, fused: bool, v: View, width: nat, height: nat, gx: nat, gy: nat, y: nat, p: nat)
    requires width >= 2 && height >= 2 && gx > 0 && gy > 0 && IsPixel(width, height, width - 1, y, p)
    requires FrameReady(s, Avx2(fused), v, width, height, gx, gy) && !ReachesLastColumn(Avx2(fused), width, gx)
    ensures Unreached(s, p) && p < |s.image|
  {
    forall i: nat | i <= s.length && i < |s.slots| ensures !Reaches(s.context.value(s.slots[i]), p) {
      LastColumnUnreached(fused, v, s.slots, s.length, width, height, gx, gy, i, y, p);
      assert s.context.value(s.slots[i]) == TileStores(Avx2(fused), v, width, height, s.slots[i]);
    }
  }

  /** The condition of FrameIsPicture is exact: where it fails, no run of an AVX2 kernel
      writes any pixel of the surface's last column. */
  lemma LastColumnStays(n: nat, s: State, evs: seq<Event>,
                        fused: bool, v: View, width: nat, height: nat, gx: nat, gy: nat, y: nat)
    requires width >= 2 && height >= 2 && gx > 0 && gy > 0 && y < height
    requires Reachable(n, s) && FrameReady(s, Avx2(fused), v, width, height, gx, gy) && Round(s, evs)
    requires !ReachesLastColumn(Avx2(fused), width, gx)
    ensures var p := y * width + (width - 1);
            p < |s.image| == |Run(s, [Yield] + evs).image| && Run(s, [Yield] + evs).image[p] == s.image[p]
  {
    var p := IndexOf(width, height, width - 1, y);
    PixelMissed(s, fused, v, width, height, gx, gy, y, p);
    RoundLeaves(n, s, evs, p);
  }

  /** For grains and widths that are multiples of eight the condition always holds. */
  lemma MultiplesOfEight(k: Kernel, width: nat, gx: nat)
    requires width >= 2 && gx > 0 && width % 8 == 0 && gx % 8 == 0
    ensures ReachesLastColumn(k, width, gx)
  {
    RestInEights(width - 2, gx);
    SevenLeft(width - 2, (width - 2) % gx);
  }

  lemma SevenLeft(d: nat, r: nat)
    requires (d + 2) % 8 == 0 && r % 8 == d % 8
    ensures (r + 1) % 8 != 0
  {
  }

  lemma RestInEights(d: nat, gx: nat)
    requires gx > 0 && gx % 8 == 0
    ensures (d % gx) % 8 == d % 8
  {
    var q, r := QuotientTimes(d, gx);
    RestIs(d, gx, q, r);
  }

  lemma RestIs(d: nat, gx: nat, q: nat, r: nat)
    requires gx % 8 == 0 && d == Times(q, gx) + r
    ensures r % 8 == d % 8
  {
    TimesEight(q, gx / 8, gx);
    SameRest(d, Times(q, gx / 8), r);
  }

  lemma {:induction false} TimesEight(k: nat, g: nat, n: nat)
    requires n == 8 * g
    ensures Times(k, n) == 8 * Times(k, g)
  {
    if k > 0 { TimesEight(k - 1, g, n); }
  }

  lemma SameRest(d: nat, m: nat, r: nat)
    requires d == 8 * m + r
    ensures r % 8 == d % 8
  {
    DivMod(d, m + r / 8, r % 8, 8);
  }

  /** How many groups of eight, over the tiles of one band, contain column `x`. */
  function ColumnHits(tiles: seq<Tile>, x: nat): nat {
    if tiles == [] then 0
    else (if tiles[0].x0 <= x < LineReach(tiles[0].x0, tiles[0].x1, 8) then 1 else 0) + ColumnHits(tiles[1..], x)
  }

  /** For such grains and widths the loops that leave the right ends out still take every
      column of the surface, and each exactly once. */
  lemma {:induction false} EveryColumnOnce(x0: nat, width: nat, y: nat, yEnd: nat, gx: nat, x: nat)
    requires width >= 8 && width % 8 == 0 && gx > 0 && gx % 8 == 0 && x0 % 8 == 0 && x < width
    ensures ColumnHits(RowTiles(x0, width - 1, y, yEnd, gx), x) == if x0 <= x then 1 else 0
    decreases width - x0
  {
    if x0 < width - 1 {
      var x1 := Min(x0 + gx, width - 1);
      var tiles := RowTiles(x0, width - 1, y, yEnd, gx);
      assert tiles[0].x0 == x0 && tiles[0].x1 == x1 && tiles[1..] == RowTiles(x1, width - 1, y, yEnd, gx);
      WholeGroups(x0, x1, width, gx);
      if x1 < width - 1 {
        EveryColumnOnce(x1, width, y, yEnd, gx, x);
      }
    }
  }

  lemma WholeGroups(x0: nat, x1: nat, width: nat, gx: nat)
    requires width % 8 == 0 && gx > 0 && gx % 8 == 0 && x0 % 8 == 0 && x0 < width - 1
    requires x1 == Min(x0 + gx, width - 1)
    ensures LineReach(x0, x1, 8) == if x1 == width - 1 then width else x1
    ensures x1 < width - 1 ==> x1 % 8 == 0
  {
    ReachInEights(x0, x1);
    var d := LineReach(x0, x1, 8) - x0;
    if x1 == width - 1 {
      NextInEights(d, width - x0);
    } else {
      NextInEights(d, gx);
      assert x1 == 8 * (x0 / 8 + gx / 8);
    }
  }

  /** A multiple of eight right at or before the end of another one's last step is that. */
  lemma NextInEights(d: nat, m: nat)
    requires d % 8 == 0 && m % 8 == 0 && m - 8 < d < m + 8
    ensures d == m
  {
  }

  lemma {:induction false} ReachInEights(x: nat, xEnd: nat)
    requires x <= xEnd
    ensures (LineReach(x, xEnd, 8) - x) % 8 == 0 && LineReach(x, xEnd, 8) < xEnd + 8
    decreases xEnd - x
  {
    if x + 8 <= xEnd {
      ReachInEights(x + 8, xEnd);
    }
  }
}

/** How rsched_split_task cuts a rectangle, and why the pieces fit together. */
module Tiling {
  import opened Geometry
  import opened Machine

  /** The tiles of one band of rows [y, yEnd], from column `x` on. */
  function RowTiles(x: nat, x1: nat, y: nat, yEnd: nat, gx: nat): seq<Tile>
    requires gx > 0
    decreases x1 - x
  {
    if x >= x1 then []
    else [Tile(x, Min(x + gx, x1), y, yEnd)] + RowTiles(Min(x + gx, x1), x1, y, yEnd, gx)
  }

  /** All tiles from row `y` on. */
  function SplitTiles(x0: nat, x1: nat, y: nat, y1: nat, gx: nat, gy: nat): seq<Tile>
    requires gx > 0 && gy > 0
    decreases y1 - y
  {
    if y >= y1 then []
    else RowTiles(x0, x1, y, Min(y + gy, y1), gx) + SplitTiles(x0, x1, Min(y + gy, y1), y1, gx, gy)
  }

  /** The tiles rsched_create_tasks queues for a surface. */
  function SurfaceTiles(width: nat, height: nat, gx: nat, gy: nat): seq<Tile>
    requires width > 0 && height > 0 && gx > 0 && gy > 0
  {
    SplitTiles(0, width - 1, 0, height - 1, gx, gy)
  }

  // ------------------------------------------------------------- partition

  /** The tile without its right and bottom edge. */
  predicate HalfOpen(t: Tile, x: nat, y: nat) {
    t.x0 <= x < t.x1 && t.y0 <= y < t.y1
  }

  predicate Closed(t: Tile, x: nat, y: nat) {
    t.x0 <= x <= t.x1 && t.y0 <= y <= t.y1
  }

  /** How many tiles hold the point in their half-open part. */
  function CountIn(tiles: seq<Tile>, x: nat, y: nat): nat {
    if tiles == [] then 0 else (if HalfOpen(tiles[0], x, y) then 1 else 0) + CountIn(tiles[1..], x, y)
  }

  lemma {:induction false} CountInAppend(a: seq<Tile>, b: seq<Tile>, x: nat, y: nat)
    ensures CountIn(a + b, x, y) == CountIn(a, x, y) + CountIn(b, x, y)
  {
    if a == [] {
      assert a + b == b;
    } else {
      assert (a + b)[0] == a[0] && (a + b)[1..] == a[1..] + b;
      CountInAppend(a[1..], b, x, y);
    }
  }

  lemma {:induction false} RowPartition(x0: nat, x1: nat, y0: nat, yEnd: nat, gx: nat, x: nat, y: nat)
    requires gx > 0
    ensures CountIn(RowTiles(x0, x1, y0, yEnd, gx), x, y) == if x0 <= x < x1 && y0 <= y < yEnd then 1 else 0
    decreases x1 - x0
  {
    if x0 < x1 {
      RowPartition(Min(x0 + gx, x1), x1, y0, yEnd, gx, x, y);
    }
  }

  /** The half-open tiles partition the half-open rectangle: every point in it lies in
      exactly one of them, every point outside in none. */
  lemma {:induction false} TilesPartition(x0: nat, x1: nat, y0: nat, y1: nat, gx: nat, gy: nat, x: nat, y: nat)
    requires gx > 0 && gy > 0
    ensures CountIn(SplitTiles(x0, x1, y0, y1, gx, gy), x, y) == if x0 <= x < x1 && y0 <= y < y1 then 1 else 0
    decreases y1 - y0
  {
    if y0 < y1 {
      var yEnd := Min(y0 + gy, y1);
      RowPartition(x0, x1, y0, yEnd, gx, x, y);
      TilesPartition(x0, x1, yEnd, y1, gx, gy, x, y);
      CountInAppend(RowTiles(x0, x1, y0, yEnd, gx), SplitTiles(x0, x1, yEnd, y1, gx, gy), x, y);
    }
  }

  // -------------------------------------------------------------- coverage

  ghost predicate Within(t: Tile, x0: nat, x1: nat, y0: nat, y1: nat) {
    x0 <= t.x0 < t.x1 <= x1 && y0 <= t.y0 < t.y1 <= y1
  }

  lemma {:induction false} RowWithin(x0: nat, x1: nat, y0: nat, yEnd: nat, gx: nat)
    requires gx > 0 && y0 < yEnd
    ensures forall t :: t in RowTiles(x0, x1, y0, yEnd, gx) ==> Within(t, x0, x1, y0, yEnd)
    decreases x1 - x0
  {
    if x0 < x1 {
      RowWithin(Min(x0 + gx, x1), x1, y0, yEnd, gx);
    }
  }

  lemma {:induction false} TilesWithin(x0: nat, x1: nat, y0: nat, y1: nat, gx: nat, gy: nat)
    requires gx > 0 && gy > 0
    ensures forall t :: t in SplitTiles(x0, x1, y0, y1, gx, gy) ==> Within(t, x0, x1, y0, y1)
    decreases y1 - y0
  {
    if y0 < y1 {
      RowWithin(x0, x1, y0, Min(y0 + gy, y1), gx);
      TilesWithin(x0, x1, Min(y0 + gy, y1), y1, gx, gy);
    }
  }

  lemma {:induction false} CountedMeansFound(tiles: seq<Tile>, x: nat, y: nat) returns (i: nat)
    requires CountIn(tiles, x, y) > 0
    ensures i < |tiles| && HalfOpen(tiles[i], x, y)
  {
    if HalfOpen(tiles[0], x, y) {
      i := 0;
    } else {
      i := CountedMeansFound(tiles[1..], x, y);
      i := i + 1;
    }
  }

  /** The closed tiles cover the closed rectangle: with two or more columns and rows each
      pixel of the surface lies in some tile. */
  lemma ClosedTilesCover(x0: nat, x1: nat, y0: nat, y1: nat, gx: nat, gy: nat, x: nat, y: nat) returns (i: nat)
    requires gx > 0 && gy > 0 && x0 < x1 && y0 < y1
    requires x0 <= x <= x1 && y0 <= y <= y1
    ensures i < |SplitTiles(x0, x1, y0, y1, gx, gy)| && Closed(SplitTiles(x0, x1, y0, y1, gx, gy)[i], x, y)
  {
    var px, py := Min(x, x1 - 1), Min(y, y1 - 1);
    TilesPartition(x0, x1, y0, y1, gx, gy, px, py);
    i := CountedMeansFound(SplitTiles(x0, x1, y0, y1, gx, gy), px, py);
  }

  // ----------------------------------------------------------------- count

  lemma {:induction false} RowCount(x0: nat, x1: nat, y0: nat, yEnd: nat, gx: nat)
    requires gx > 0 && x0 <= x1
    ensures |RowTiles(x0, x1, y0, yEnd, gx)| == CeilDiv(x1 - x0, gx)
    decreases x1 - x0
  {
    if x0 < x1 {
      CeilStep(x1 - x0, gx);
      RowCount(Min(x0 + gx, x1), x1, y0, yEnd, gx);
    }
  }

  lemma OneMoreRow(c: nat, r: nat)
    ensures c + c * r == c * (1 + r)
  {
  }

  lemma {:induction false} TileCount(x0: nat, x1: nat, y0: nat, y1: nat, gx: nat, gy: nat)
    requires gx > 0 && gy > 0 && x0 <= x1 && y0 <= y1
    ensures |SplitTiles(x0, x1, y0, y1, gx, gy)| == CeilDiv(x1 - x0, gx) * CeilDiv(y1 - y0, gy)
    decreases y1 - y0
  {
    if y0 < y1 {
      var yEnd := Min(y0 + gy, y1);
      CeilStep(y1 - y0, gy);
      RowCount(x0, x1, y0, yEnd, gx);
      TileCount(x0, x1, yEnd, y1, gx, gy);
      OneMoreRow(CeilDiv(x1 - x0, gx), CeilDiv(y1 - yEnd, gy));
    }
  }

  // ----------------------------------------------------------- closed form

  lemma {:induction false} RowTileAt(x: nat, x1: nat, y: nat, yEnd: nat, gx: nat, i: nat)
    requires gx > 0 && i < |RowTiles(x, x1, y, yEnd, gx)|
    ensures x + Times(i, gx) < x1
    ensures RowTiles(x, x1, y, yEnd, gx)[i]
         == Tile(x + Times(i, gx), if x + Times(i + 1, gx) < x1 then x + Times(i + 1, gx) else x1, y, yEnd)
    decreases x1 - x
  {
    if i > 0 {
      RowTileAt(Min(x + gx, x1), x1, y, yEnd, gx, i - 1);
    }
  }

  lemma {:induction false} FirstBand(x0: nat, x1: nat, y: nat, y1: nat, gx: nat, gy: nat, i: nat)
    requires gx > 0 && gy > 0 && y < y1 && i < |RowTiles(x0, x1, y, Min(y + gy, y1), gx)|
    ensures i < |SplitTiles(x0, x1, y, y1, gx, gy)|
    ensures SplitTiles(x0, x1, y, y1, gx, gy)[i] == RowTiles(x0, x1, y, Min(y + gy, y1), gx)[i]
  {
  }

  lemma {:induction false} DropBand(x0: nat, x1: nat, y: nat, y1: nat, gx: nat, gy: nat, c: nat)
    requires gx > 0 && gy > 0 && x0 <= x1 && c == CeilDiv(x1 - x0, gx) && y + gy < y1
    ensures c <= |SplitTiles(x0, x1, y, y1, gx, gy)|
    ensures SplitTiles(x0, x1, y, y1, gx, gy)[c..] == SplitTiles(x0, x1, y + gy, y1, gx, gy)
  {
    RowCount(x0, x1, y, y + gy, gx);
  }

  lemma DropMore(tiles: seq<Tile>, c: nat, k: nat)
    requires c <= |tiles| && k <= |tiles[c..]|
    ensures tiles[c..][k..] == tiles[c + k..]
  {
  }

  /** Behind the tiles of `j` bands come those of the rectangle that is left. */
  lemma {:induction false} DropBands(x0: nat, x1: nat, y: nat, y1: nat, gx: nat, gy: nat, c: nat, j: nat)
    requires gx > 0 && gy > 0 && x0 <= x1 && c == CeilDiv(x1 - x0, gx) && y + Times(j, gy) < y1
    ensures Times(j, c) <= |SplitTiles(x0, x1, y, y1, gx, gy)|
    ensures SplitTiles(x0, x1, y, y1, gx, gy)[Times(j, c)..] == SplitTiles(x0, x1, y + Times(j, gy), y1, gx, gy)
    decreases j
  {
    if j > 0 {
      DropBand(x0, x1, y, y1, gx, gy, c);
      DropBands(x0, x1, y + gy, y1, gx, gy, c, j - 1);
      DropMore(SplitTiles(x0, x1, y, y1, gx, gy), c, Times(j - 1, c));
    }
  }

  lemma {:induction false} BandTileAt(x0: nat, x1: nat, y0: nat, y1: nat, gx: nat, gy: nat, c: nat, i: nat, j: nat)
    requires gx > 0 && gy > 0 && x0 <= x1 && c == CeilDiv(x1 - x0, gx) && i < c && y0 + Times(j, gy) < y1
    ensures Times(j, c) + i < |SplitTiles(x0, x1, y0, y1, gx, gy)|
    ensures SplitTiles(x0, x1, y0, y1, gx, gy)[Times(j, c) + i]
         == Tile(x0 + Times(i, gx), if x0 + Times(i + 1, gx) < x1 then x0 + Times(i + 1, gx) else x1,
                 y0 + Times(j, gy), if y0 + Times(j + 1, gy) < y1 then y0 + Times(j + 1, gy) else y1)
  {
    var y := y0 + Times(j, gy);
    DropBands(x0, x1, y0, y1, gx, gy, c, j);
    RowCount(x0, x1, y, Min(y + gy, y1), gx);
    FirstBand(x0, x1, y, y1, gx, gy, i);
    RowTileAt(x0, x1, y, Min(y + gy, y1), gx, i);
  }

  /** `t` is the tile from (left, top) to (right, bottom), or up to the edge. */
  predicate IsTile(t: Tile, left: nat, right: nat, x1: nat, top: nat, bottom: nat, y1: nat) {
    && t.x0 == left && t.x1 == (if right < x1 then right else x1)
    && t.y0 == top && t.y1 == (if bottom < y1 then bottom else y1)
  }

  lemma {:induction false} TileWith(x0: nat, x1: nat, y0: nat, y1: nat, gx: nat, gy: nat, i: nat, j: nat, c: nat,
                 left: nat, right: nat, top: nat, bottom: nat, at: nat)
    requires gx > 0 && gy > 0 && left == i * gx && right == (i + 1) * gx && top == j * gy && bottom == (j + 1) * gy
    requires x0 <= x1 && c == CeilDiv(x1 - x0, gx) && i < c && at == j * c && y0 + top < y1
    ensures at + i < |SplitTiles(x0, x1, y0, y1, gx, gy)|
    ensures IsTile(SplitTiles(x0, x1, y0, y1, gx, gy)[at + i],
                   x0 + left, x0 + right, x1, y0 + top, y0 + bottom, y1)
  {
    TimesIs(i, gx);
    TimesIs(i + 1, gx);
    TimesIs(j, gy);
    TimesIs(j + 1, gy);
    TimesIs(j, c);
    BandTileAt(x0, x1, y0, y1, gx, gy, c, i, j);
  }

  lemma AtLeast(x0: nat, i: nat, gx: nat)
    ensures x0 <= x0 + i * gx
  {
  }

  /** Which tile stands where in the queue, row by row: the i-th of the j-th band begins i
      and j whole grains from the corner and is a grain wide and high, or up to the edge. */
  lemma {:induction false} TileAt(x0: nat, x1: nat, y0: nat, y1: nat, gx: nat, gy: nat, i: nat, j: nat)
    requires gx > 0 && gy > 0 && x0 + i * gx < x1 && y0 + j * gy < y1
    ensures var c := CeilDiv(x1 - x0, gx);
      && i < c && j * c + i < |SplitTiles(x0, x1, y0, y1, gx, gy)|
      && SplitTiles(x0, x1, y0, y1, gx, gy)[j * c + i]
      == Tile(x0 + i * gx, if x0 + (i + 1) * gx < x1 then x0 + (i + 1) * gx else x1,
              y0 + j * gy, if y0 + (j + 1) * gy < y1 then y0 + (j + 1) * gy else y1)
  {
    var c := CeilDiv(x1 - x0, gx);
    AtLeast(x0, i, gx);
    BelowCeil(x1 - x0, gx, i);
    TileWith(x0, x1, y0, y1, gx, gy, i, j, c, i * gx, (i + 1) * gx, j * gy, (j + 1) * gy, j * c);
  }

  /** The capacity rsched_create_tasks reserves, in the source's 32-bit arithmetic. */
  function ReservedLength(width: nat, height: nat, gx: nat, gy: nat): nat
    requires Mul32(gx, gy) > 0
  {
    CeilDiv(Mul32(width, height), Mul32(gx, gy))
  }

  /** In terms of the source's 32-bit products: as many slots as pieces of the grain's size
      cover the surface. */
  lemma ReservedLengthIs(width: nat, height: nat, gx: nat, gy: nat)
    requires (gx * gy) % 0x1_0000_0000 > 0
    ensures var q, area, grain := ReservedLength(width, height, gx, gy),
                                  (width * height) % 0x1_0000_0000, (gx * gy) % 0x1_0000_0000;
            (q - 1) * grain < area <= q * grain
  {
    CeilDivIs(Mul32(width, height), Mul32(gx, gy));
  }

  lemma OneLess(a: nat, g: nat)
    requires a > 0 && g >= 2
    ensures a * g >= 2 && CeilDiv(a * g - 1, g) == a
  {
    assert a * g - 1 == (a - 1) * g + (g - 1);
    DivMod(a * g - 1, a - 1, g - 1, g);
  }

  /** With grains of at least 2 that divide the sides the reservation is exact, so not one
      slot is left behind the queue. */
  lemma ReservationIsExact(a: nat, b: nat, gx: nat, gy: nat)
    requires a > 0 && b > 0 && gx >= 2 && gy >= 2
    requires (a * gx) * (b * gy) < U32
    ensures 0 < Mul32(gx, gy) && a * gx > 0 && b * gy > 0
    ensures |SurfaceTiles(a * gx, b * gy, gx, gy)| == ReservedLength(a * gx, b * gy, gx, gy) == a * b
  {
    OneLess(a, gx);
    OneLess(b, gy);
    TileCount(0, a * gx - 1, 0, b * gy - 1, gx, gy);
    ExactProduct(a, b, gx, gy);
  }

  lemma ExactProduct(a: nat, b: nat, gx: nat, gy: nat)
    requires a > 0 && b > 0 && gx > 0 && gy > 0 && (a * gx) * (b * gy) < U32
    ensures 0 < Mul32(gx, gy) && ReservedLength(a * gx, b * gy, gx, gy) == a * b
  {
    var g, n := gx * gy, a * b;
    MulSwap(a, gx, b, gy);
    MulAtLeast(a, b);
    MulAtLeast(gx, gy);
    MulAtLeast(n, g);
    Small32(g);
    Small32(n * g);
    DivMod(n * g, n, 0, g);
  }
}

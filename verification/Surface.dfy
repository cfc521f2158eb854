/** The pixel buffer and its clipped row write. */
module Surface {
  import opened Geometry
  import opened Machine

  /** The stores of a row write to the row that begins at index `base`, up to the right
      edge. */
  function StoresFrom(base: nat, width: nat, x: nat, pixels: seq<real>): seq<Store>
    decreases |pixels|
  {
    if pixels == [] || x >= width then []
    else [Store(base + x, pixels[0])] + StoresFrom(base, width, x + 1, pixels[1..])
  }

  /** The stores of one row write: none below the bottom of the surface. */
  function RowStores(width: nat, height: nat, x: nat, y: nat, pixels: seq<real>): seq<Store> {
    if y >= height then [] else StoresFrom(Times(y, width), width, x, pixels)
  }

  class Canvas {
    const width: nat
    const height: nat
    var data: array<real>

    /** The buffer holds one float per pixel, and its size fits the source's 32 bits. */
    ghost predicate Valid()
      reads this
    {
      width < U32 && data.Length == Times(height, width) < U32
    }

    constructor (width: nat, height: nat)
      requires width < U32 && width * height < U32
      ensures Valid() && fresh(data) && this.width == width && this.height == height
      ensures data.Length == width * height
      ensures forall k :: 0 <= k < data.Length ==> data[k] == 0.0
    {
      this.width := width;
      this.height := height;
      TimesIs(height, width);
      data := new real[width * height](_ => 0.0);
    }

    lemma RowFits(y: nat)
      requires Valid() && y < height
      ensures Times(y, width) + width <= data.Length && Mul32(y, width) == Times(y, width)
    {
      TimesIs(y, width);
      TimesIs(height, width);
      RowInside(y, width, height);
      if width > 0 {
        Small32(Times(y, width));
      }
    }

    /** surface_set_pixels: pixels beyond the right edge and rows beyond the bottom are
        discarded. */
    method SetPixels(x: nat, y: nat, n: nat, pixels: seq<real>)
      requires Valid() && x < U32 && n <= |pixels|
      modifies data
      ensures data[..] == Apply(old(data[..]), RowStores(width, height, x, y, pixels[..n]))
    {
      if y >= height {
        return;
      }
      var idxY := Mul32(y, width);
      RowFits(y);
      ghost var was := data[..];
      SetRow(idxY, x, n, pixels);
      RowWriteIsApply(was, data[..], idxY, width, x, pixels[..n]);
    }

    /** The loop of surface_set_pixels. */
    method SetRow(idxY: nat, x: nat, n: nat, pixels: seq<real>)
      requires width < U32 && idxY + width <= data.Length && x < U32 && n <= |pixels|
      modifies data
      ensures RowWritten(old(data[..]), data[..], idxY, width, x, pixels[..n])
    {
      var k := 0;
      while k < n
        invariant 0 <= k <= n && (k == 0 || x + k <= width)
        invariant forall p :: 0 <= p < data.Length ==>
                    data[p] == if idxY + x <= p < idxY + x + k then pixels[p - idxY - x] else old(data[p])
      {
        var xi := Add32(x, k);
        if xi < width {
          data[idxY + xi] := pixels[k];
        } else {
          break;
        }
        k := k + 1;
      }
    }
  }

  /** The pixels from `x` on, up to the right edge, hold their new values, all other
      indices their old ones. */
  ghost predicate RowWritten(old': seq<real>, new': seq<real>, base: nat, width: nat, x: nat, pixels: seq<real>) {
    && |new'| == |old'|
    && forall p :: 0 <= p < |new'| ==>
         new'[p] == if base + x <= p < base + Min(x + |pixels|, width) then pixels[p - base - x] else old'[p]
  }

  lemma {:induction false} RowWriteIsApply(old': seq<real>, new': seq<real>, base: nat, width: nat,
                                           x: nat, pixels: seq<real>)
    requires RowWritten(old', new', base, width, x, pixels) && base + width <= |old'|
    ensures new' == Apply(old', StoresFrom(base, width, x, pixels))
    decreases |pixels|
  {
    if pixels == [] || x >= width {
      assert new' == old';
    } else {
      var mid := old'[base + x := pixels[0]];
      RowWriteIsApply(mid, new', base, width, x + 1, pixels[1..]);
      var stores := StoresFrom(base, width, x, pixels);
      assert stores[0] == Store(base + x, pixels[0]);
      assert stores == [stores[0]] + StoresFrom(base, width, x + 1, pixels[1..]);
      ApplyAppend(old', [stores[0]], StoresFrom(base, width, x + 1, pixels[1..]));
      ApplyOne(old', stores[0]);
    }
  }

  /** A row write touches exactly the pixels of its row inside the surface, each with its
      own value. */
  lemma {:induction false} StoresFromAre(base: nat, width: nat, x: nat, pixels: seq<real>)
    ensures var stores := StoresFrom(base, width, x, pixels);
            && |stores| == (if x < width then Min(|pixels|, width - x) else 0)
            && forall k :: 0 <= k < |stores| ==> stores[k] == Store(base + x + k, pixels[k])
    decreases |pixels|
  {
    if pixels != [] && x < width {
      StoresFromAre(base, width, x + 1, pixels[1..]);
    }
  }

  // --------------------------------------------------------------- blocks

  /** The stores of one row of a block: `n` pixels at a time, from `x` until `xEnd` is
      reached. */
  function LineStores(colour: (nat, nat) -> real, width: nat, height: nat,
                      x: nat, xEnd: nat, n: nat, y: nat): seq<Store>
    requires n > 0
    decreases xEnd - x
  {
    if x >= xEnd then []
    else RowStores(width, height, x, y, seq(n, k requires 0 <= k => colour(x + k, y)))
         + LineStores(colour, width, height, x + n, xEnd, n, y)
  }

  /** The stores of the rows from `y` until `yEnd`. */
  function BlockStores(colour: (nat, nat) -> real, width: nat, height: nat,
                       x0: nat, xEnd: nat, n: nat, y: nat, yEnd: nat): seq<Store>
    requires n > 0
    decreases yEnd - y
  {
    if y >= yEnd then []
    else LineStores(colour, width, height, x0, xEnd, n, y)
         + BlockStores(colour, width, height, x0, xEnd, n, y + 1, yEnd)
  }

  /** The image in which every pixel has the colour of its own coordinates. */
  function Picture(colour: (nat, nat) -> real, width: nat, height: nat): (image: seq<real>)
    ensures |image| == width * height
  {
    seq(width * height, p requires 0 <= p < width * height =>
      assert width > 0; colour(p % width, p / width))
  }

  lemma PictureAt(colour: (nat, nat) -> real, width: nat, height: nat, x: nat, y: nat)
    requires x < width && y < height
    ensures Times(y, width) + x < width * height
    ensures Picture(colour, width, height)[Times(y, width) + x] == colour(x, y)
  {
    TimesIs(y, width);
    RowInside(y, width, height);
    DivMod(Times(y, width) + x, y, x, width);
  }

  /** The store puts pixel (x, y) of the surface to its own colour. */
  ghost predicate Paints(st: Store, colour: (nat, nat) -> real, width: nat, height: nat, x: nat, y: nat) {
    x < width && y < height && st == Store(Times(y, width) + x, colour(x, y))
  }

  ghost predicate PaintsSome(st: Store, colour: (nat, nat) -> real, width: nat, height: nat) {
    exists x: nat, y: nat :: Paints(st, colour, width, height, x, y)
  }

  /** Where a line that takes `n` columns at a time from `x` until `xEnd` ends up. */
  function LineReach(x: nat, xEnd: nat, n: nat): (r: nat)
    requires n > 0
    ensures r >= x && r >= xEnd
    decreases xEnd - x
  {
    if x >= xEnd then x else LineReach(x + n, xEnd, n)
  }

  lemma OneStepLess(d: nat, n: nat)
    requires 0 < n <= d
    ensures d % n == (d - n) % n
  {
    var q, r := (d - n) / n, (d - n) % n;
    QuotientAndRest(d - n, n);
    DivMod(d, q + 1, r, n) by {
      assert (q + 1) * n == q * n + n;
    }
  }

  /** It ends exactly at `xEnd` if and only if whole steps fit. */
  lemma {:induction false} LineReachIsTight(x: nat, xEnd: nat, n: nat)
    requires n > 0 && x <= xEnd
    ensures LineReach(x, xEnd, n) == xEnd <==> (xEnd - x) % n == 0
    decreases xEnd - x
  {
    var d := xEnd - x;
    if d >= n {
      LineReachIsTight(x + n, xEnd, n);
      OneStepLess(d, n);
    } else {
      DivMod(d, 0, d, n);
    }
  }

  // ------------------------------------------------- what the stores paint

  lemma RowPaints(colour: (nat, nat) -> real, width: nat, height: nat, x: nat, n: nat, y: nat)
    ensures var stores := RowStores(width, height, x, y, seq(n, k requires 0 <= k => colour(x + k, y)));
            forall st :: st in stores ==> PaintsSome(st, colour, width, height)
  {
    var pixels := seq(n, k requires 0 <= k => colour(x + k, y));
    var stores := RowStores(width, height, x, y, pixels);
    StoresFromAre(Times(y, width), width, x, pixels);
    forall st | st in stores ensures PaintsSome(st, colour, width, height) {
      var k :| 0 <= k < |stores| && stores[k] == st;
      assert Paints(st, colour, width, height, x + k, y);
    }
  }

  lemma {:induction false} LinePaints(colour: (nat, nat) -> real, width: nat, height: nat,
                                      x: nat, xEnd: nat, n: nat, y: nat)
    requires n > 0
    ensures forall st :: st in LineStores(colour, width, height, x, xEnd, n, y) ==>
                           PaintsSome(st, colour, width, height)
    decreases xEnd - x
  {
    if x < xEnd {
      RowPaints(colour, width, height, x, n, y);
      LinePaints(colour, width, height, x + n, xEnd, n, y);
    }
  }

  /** Whatever the block, each of its stores gives some pixel the colour of that pixel's
      own coordinates. */
  lemma {:induction false} BlockPaints(colour: (nat, nat) -> real, width: nat, height: nat,
                                       x0: nat, xEnd: nat, n: nat, y: nat, yEnd: nat)
    requires n > 0
    ensures forall st :: st in BlockStores(colour, width, height, x0, xEnd, n, y, yEnd) ==>
                           PaintsSome(st, colour, width, height)
    decreases yEnd - y
  {
    if y < yEnd {
      LinePaints(colour, width, height, x0, xEnd, n, y);
      BlockPaints(colour, width, height, x0, xEnd, n, y + 1, yEnd);
    }
  }

  lemma SamePixel(width: nat, x: nat, y: nat, x': nat, y': nat)
    requires x < width && x' < width
    ensures Times(y, width) + x == Times(y', width) + x' <==> x == x' && y == y'
  {
    TimesIs(y, width);
    TimesIs(y', width);
    if y * width + x == y' * width + x' {
      Unique(y, x, y', x', width);
    }
  }

  /** Index `p` of the buffer is pixel (x, y). */
  ghost predicate IsPixel(width: nat, height: nat, x: nat, y: nat, p: nat) {
    x < width && y < height && p == Times(y, width) + x < width * height
  }

  lemma RowReachesOnly(width: nat, height: nat, x0: nat, y0: nat, pixels: seq<real>, x: nat, y: nat, p: nat)
    requires IsPixel(width, height, x, y, p) && Reaches(RowStores(width, height, x0, y0, pixels), p)
    ensures y == y0 && x0 <= x < x0 + |pixels|
  {
    var stores := RowStores(width, height, x0, y0, pixels);
    StoresFromAre(Times(y0, width), width, x0, pixels);
    var j :| 0 <= j < |stores| && stores[j].at == p;
    SamePixel(width, x, y, x0 + j, y0);
  }

  lemma RowReaches(width: nat, height: nat, x0: nat, y0: nat, pixels: seq<real>, x: nat, y: nat, p: nat)
    requires IsPixel(width, height, x, y, p)
    ensures Reaches(RowStores(width, height, x0, y0, pixels), p) <==> y == y0 && x0 <= x < x0 + |pixels|
  {
    var stores := RowStores(width, height, x0, y0, pixels);
    if Reaches(stores, p) {
      RowReachesOnly(width, height, x0, y0, pixels, x, y, p);
    }
    if y == y0 && x0 <= x < x0 + |pixels| {
      StoresFromAre(Times(y0, width), width, x0, pixels);
      assert stores[x - x0] == Store(Times(y, width) + x0 + (x - x0), pixels[x - x0]);
    }
  }

  lemma {:induction false} LineReaches(colour: (nat, nat) -> real, width: nat, height: nat,
                                       x0: nat, xEnd: nat, n: nat, y0: nat, x: nat, y: nat, p: nat)
    requires n > 0 && IsPixel(width, height, x, y, p)
    ensures Reaches(LineStores(colour, width, height, x0, xEnd, n, y0), p)
       <==> y == y0 && x0 <= x < LineReach(x0, xEnd, n)
    decreases xEnd - x0
  {
    if x0 < xEnd {
      var pixels := seq(n, k requires 0 <= k => colour(x0 + k, y0));
      RowReaches(width, height, x0, y0, pixels, x, y, p);
      LineReaches(colour, width, height, x0 + n, xEnd, n, y0, x, y, p);
      ReachesAppend(RowStores(width, height, x0, y0, pixels),
                    LineStores(colour, width, height, x0 + n, xEnd, n, y0), p);
    }
  }

  /** Rows of stores, one after the other. */
  function Stack(lines: nat -> seq<Store>, y: nat, yEnd: nat): seq<Store>
    decreases yEnd - y
  {
    if y >= yEnd then [] else lines(y) + Stack(lines, y + 1, yEnd)
  }

  lemma {:induction false} StackReaches(lines: nat -> seq<Store>, y0: nat, yEnd: nat, y: nat, p: nat, inside: bool)
    requires forall k: nat :: Reaches(lines(k), p) <==> k == y && inside
    ensures Reaches(Stack(lines, y0, yEnd), p) <==> y0 <= y < yEnd && inside
    decreases yEnd - y0
  {
    if y0 < yEnd {
      StackReaches(lines, y0 + 1, yEnd, y, p, inside);
      ReachesAppend(lines(y0), Stack(lines, y0 + 1, yEnd), p);
    }
  }

  /** The rows of a block. */
  function LinesOf(colour: (nat, nat) -> real, width: nat, height: nat, x0: nat, xEnd: nat, n: nat): nat -> seq<Store>
    requires n > 0
  {
    (y: nat) => LineStores(colour, width, height, x0, xEnd, n, y)
  }

  lemma {:induction false} BlockIsStack(colour: (nat, nat) -> real, width: nat, height: nat,
                                        x0: nat, xEnd: nat, n: nat, y0: nat, yEnd: nat)
    requires n > 0
    ensures BlockStores(colour, width, height, x0, xEnd, n, y0, yEnd)
         == Stack(LinesOf(colour, width, height, x0, xEnd, n), y0, yEnd)
    decreases yEnd - y0
  {
    if y0 < yEnd {
      BlockIsStack(colour, width, height, x0, xEnd, n, y0 + 1, yEnd);
    }
  }

  /** A block reaches exactly the pixels of its rows whose column lies within the whole
      steps of `n` from its first column. */
  lemma BlockReaches(colour: (nat, nat) -> real, width: nat, height: nat,
                     x0: nat, xEnd: nat, n: nat, y0: nat, yEnd: nat, x: nat, y: nat, p: nat)
    requires n > 0 && IsPixel(width, height, x, y, p)
    ensures Reaches(BlockStores(colour, width, height, x0, xEnd, n, y0, yEnd), p)
       <==> y0 <= y < yEnd && x0 <= x < LineReach(x0, xEnd, n)
  {
    var lines := LinesOf(colour, width, height, x0, xEnd, n);
    forall k: nat ensures Reaches(lines(k), p) <==> k == y && x0 <= x < LineReach(x0, xEnd, n) {
      LineReaches(colour, width, height, x0, xEnd, n, k, x, y, p);
    }
    StackReaches(lines, y0, yEnd, y, p, x0 <= x < LineReach(x0, xEnd, n));
    BlockIsStack(colour, width, height, x0, xEnd, n, y0, yEnd);
  }
}

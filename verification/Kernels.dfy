/** The Mandelbrot kernels in exact real arithmetic: the scalar reference, and the eight
    lane kernels in plain and fused form. */
module Kernels {
  import opened Geometry
  import opened Machine
  import opened Surface
  import opened Orbit

  type Pos = n: nat | n > 0 witness 1

  /** struct mdb_t. The keyboard handler never takes the bailout below 1. */
  datatype View = View(bailout: Pos, scale: real, shiftX: real, shiftY: real,
                       widthR: real, heightR: real, aspect: real)

  const CENTER := -0.5

  function PlaneX(v: View, x: nat): real {
    (x as real * v.widthR * v.aspect + CENTER) * v.scale + v.shiftX
  }

  function PlaneY(v: View, y: nat): real {
    (y as real * v.heightR + CENTER) * v.scale + v.shiftY
  }

  function PlanePoint(v: View, x: nat, y: nat): Point {
    Point(PlaneX(v, x), PlaneY(v, y))
  }

  /** The colour the scalar kernel gives a pixel. */
  function ScalarColour(v: View): (nat, nat) -> real {
    (x: nat, y: nat) => Shade(ScalarCount(PlanePoint(v, x, y), 0, v.bailout), v.bailout)
  }

  /** The colour the vector kernels give a pixel: the shade of its leading iterations. */
  function VectorColour(v: View): (nat, nat) -> real {
    (x: nat, y: nat) => Shade(MaskedCount(PlanePoint(v, x, y), v.bailout), v.bailout)
  }

  // -------------------------------------------------------- where pixels lie

  /** The reciprocals of the sides and the aspect ratio are those of the surface. */
  ghost predicate ViewFits(v: View, width: nat, height: nat) {
    && v.widthR * width as real == 1.0 && v.heightR * height as real == 1.0
    && v.aspect * height as real == width as real
  }

  /** Two places that are a whole side apart when added up, in steps of `r * a`. */
  lemma MirrorSum(s: real, t: real, r: real, a: real, scale: real, shift: real)
    requires (s + t) * r == 1.0
    ensures ((s * r * a - 0.5) * scale + shift) + ((t * r * a - 0.5) * scale + shift)
         == 2.0 * shift + (a - 1.0) * scale
  {
    var p, q := s * r * a, t * r * a;
    assert p + q == a by {
      assert s * r + t * r == 1.0;
      assert p + q == (s * r + t * r) * a;
    }
    assert (p - 0.5) * scale + (q - 0.5) * scale == (p + q - 1.0) * scale;
  }

  /** The rows lie symmetrically about the vertical shift, so the middle row lies on it. */
  lemma RowsMirror(v: View, width: nat, height: nat, y: nat)
    requires ViewFits(v, width, height) && y <= height
    ensures PlaneY(v, y) + PlaneY(v, height - y) == 2.0 * v.shiftY
  {
    assert y as real + (height - y) as real == height as real;
    MirrorSum(y as real, (height - y) as real, v.heightR, 1.0, v.scale, v.shiftY);
  }

  /** The columns lie symmetrically too, but about the horizontal shift only on a square
      surface: the source subtracts the half before it knows of the aspect ratio. */
  lemma ColumnsMirror(v: View, width: nat, height: nat, x: nat)
    requires ViewFits(v, width, height) && x <= width
    ensures PlaneX(v, x) + PlaneX(v, width - x) == 2.0 * v.shiftX + (v.aspect - 1.0) * v.scale
  {
    assert x as real + (width - x) as real == width as real;
    MirrorSum(x as real, (width - x) as real, v.widthR, v.aspect, v.scale, v.shiftX);
  }

  lemma StepIs(k: nat, r: real, a: real, scale: real, shift: real)
    ensures (((k + 1) as real * r * a - 0.5) * scale + shift) - ((k as real * r * a - 0.5) * scale + shift)
         == (r * a) * scale
  {
    var p := k as real * r * a;
    assert (k + 1) as real * r * a == p + r * a by {
      assert (k + 1) as real * r == k as real * r + r;
    }
    assert (p + r * a - 0.5) * scale == (p - 0.5) * scale + (r * a) * scale;
  }

  lemma OneQuotient(r: real, s: real, a: real, w: real, h: real)
    requires r * w == 1.0 && s * h == 1.0 && a * h == w
    ensures r * a == s
  {
    calc {
      s;
      s * (r * w);
      s * (r * (a * h));
      (s * h) * (r * a);
      r * a;
    }
  }

  /** Pixels are square, whatever the aspect ratio: neighbouring columns are as far apart as
      neighbouring rows, `scale` by the height. */
  lemma PixelsAreSquare(v: View, width: nat, height: nat, x: nat, y: nat)
    requires ViewFits(v, width, height)
    ensures PlaneX(v, x + 1) - PlaneX(v, x) == PlaneY(v, y + 1) - PlaneY(v, y) == v.scale / height as real
  {
    StepIs(x, v.widthR, v.aspect, v.scale, v.shiftX);
    StepIs(y, v.heightR, 1.0, v.scale, v.shiftY);
    var h := height as real;
    assert v.widthR * v.aspect == v.heightR by {
      OneQuotient(v.widthR, v.heightR, v.aspect, width as real, h);
    }
    assert v.heightR * v.scale == v.scale / h by {
      assert (v.heightR * v.scale) * h == (v.heightR * h) * v.scale;
    }
  }

  // ------------------------------------------------------------ row writes

  /** One row write of a line: `n` pixels of their own colours, of which the line's
      remaining stores are the rest. */
  method SetGroup(surf: Canvas, ghost colour: (nat, nat) -> real, x: nat, ghost xEnd: nat,
                  n: nat, y: nat, pixels: seq<real>)
    requires surf.Valid() && x < xEnd && x < U32 && n > 0 && |pixels| == n
    requires forall k :: 0 <= k < n ==> pixels[k] == colour(x + k, y)
    modifies surf.data
    ensures Apply(surf.data[..], LineStores(colour, surf.width, surf.height, x + n, xEnd, n, y))
         == Apply(old(surf.data[..]), LineStores(colour, surf.width, surf.height, x, xEnd, n, y))
  {
    surf.SetPixels(x, y, n, pixels);
    assert pixels[..n] == pixels == seq(n, k requires 0 <= k => colour(x + k, y));
    ApplyAppend(old(surf.data[..]), RowStores(surf.width, surf.height, x, y, pixels),
                LineStores(colour, surf.width, surf.height, x + n, xEnd, n, y));
  }

  lemma LineOver(image: seq<real>, colour: (nat, nat) -> real, width: nat, height: nat,
                 x: nat, xEnd: nat, n: nat, y: nat)
    requires n > 0 && x >= xEnd
    ensures Apply(image, LineStores(colour, width, height, x, xEnd, n, y)) == image
  {
  }

  lemma BlockOver(image: seq<real>, colour: (nat, nat) -> real, width: nat, height: nat,
                  x0: nat, xEnd: nat, n: nat, y: nat, yEnd: nat)
    requires n > 0 && y >= yEnd
    ensures Apply(image, BlockStores(colour, width, height, x0, xEnd, n, y, yEnd)) == image
  {
  }

  /** A block is its first line, then the rest. */
  lemma LineFirst(image: seq<real>, colour: (nat, nat) -> real, width: nat, height: nat,
                  x0: nat, xEnd: nat, n: nat, y: nat, yEnd: nat)
    requires n > 0 && y < yEnd
    ensures Apply(image, BlockStores(colour, width, height, x0, xEnd, n, y, yEnd))
         == Apply(Apply(image, LineStores(colour, width, height, x0, xEnd, n, y)),
                  BlockStores(colour, width, height, x0, xEnd, n, y + 1, yEnd))
  {
    ApplyAppend(image, LineStores(colour, width, height, x0, xEnd, n, y),
                BlockStores(colour, width, height, x0, xEnd, n, y + 1, yEnd));
  }

  // -------------------------------------------------------- scalar kernel

  /** The body of the scalar iteration loop, up to the test. */
  method ScalarStep(zx: real, zy: real, cx: real, cy: real) returns (zx': real, zy': real, mag2: real)
    ensures Point(zx', zy') == Next(Point(zx, zy), Point(cx, cy))
    ensures mag2 == Mag2(Point(zx', zy'))
  {
    var zx2, zy2, zxzy := zx * zx, zy * zy, zx * zy;
    zx' := zx2 - zy2;
    zx' := zx' + cx;
    zy' := zxzy + zxzy;
    zy' := zy' + cy;
    zx2, zy2 := zx' * zx', zy' * zy';
    mag2 := zx2 + zy2;
  }

  /** The iteration loop of the scalar kernel for one pixel. */
  method ScalarProbe(cx: real, cy: real, bailout: nat) returns (i: nat)
    ensures i == ScalarCount(Point(cx, cy), 0, bailout)
  {
    ghost var c := Point(cx, cy);
    var zx, zy, mag2 := cx, cy, 0.0;
    i := 0;
    while i < bailout
      invariant i <= bailout && Point(zx, zy) == Iterate(c, i)
      invariant ScalarCount(c, 0, bailout) == ScalarCount(c, i, bailout)
    {
      zx, zy, mag2 := ScalarStep(zx, zy, cx, cy);
      assert Point(zx, zy) == Iterate(c, i + 1);
      if mag2 > 4.0 {
        break;
      }
      i := i + 1;
    }
  }

  /** A count times the reciprocal of the bailout; a point that never left counts as 0. */
  function Scaled(i: nat, bailout: Pos, di: real): real {
    (if i == bailout then 0 else i) as real * di
  }

  lemma ScaledShade(i: nat, bailout: Pos, di: real)
    requires i <= bailout && di == 1.0 / bailout as real
    ensures Scaled(i, bailout, di) == Shade(i, bailout)
  {
    var d := bailout as real;
    assert i as real * (1.0 / d) == i as real / d;
  }

  method ScalarMapX(v: View, x: nat) returns (cx: real)
    ensures cx == PlaneX(v, x)
  {
    cx := x as real * v.widthR * v.aspect;
    cx := cx + CENTER;
    cx := cx * v.scale;
    cx := cx + v.shiftX;
  }

  method ScalarMapY(v: View, y: nat) returns (cy: real)
    ensures cy == PlaneY(v, y)
  {
    cy := y as real * v.heightR;
    cy := cy + CENTER;
    cy := cy * v.scale;
    cy := cy + v.shiftY;
  }

  /** What the scalar kernel stores for column `x` of a row, from the row's coordinate and
      the reciprocal of the bailout. */
  function Drawn(v: View, x: nat, cy: real, di: real): real {
    DrawnAt(Point(PlaneX(v, x), cy), v.bailout, di)
  }

  function DrawnAt(c: Point, bailout: Pos, di: real): real {
    Scaled(ScalarCount(c, 0, bailout), bailout, di)
  }

  /** The two values are those of row `y`. */
  ghost predicate RowIs(v: View, y: nat, cy: real, di: real) {
    forall x: nat {:trigger Drawn(v, x, cy, di)} :: Drawn(v, x, cy, di) == ScalarColour(v)(x, y)
  }

  lemma DrawnIsShade(c: Point, bailout: Pos, di: real)
    requires di == 1.0 / bailout as real
    ensures DrawnAt(c, bailout, di) == Shade(ScalarCount(c, 0, bailout), bailout)
  {
    ScalarCountIsFirst(c, 0, bailout);
    ScaledShade(ScalarCount(c, 0, bailout), bailout, di);
  }

  lemma RowConstants(v: View, y: nat, cy: real, di: real)
    requires cy == PlaneY(v, y) && di == 1.0 / v.bailout as real
    ensures RowIs(v, y, cy, di)
  {
    forall x: nat ensures Drawn(v, x, cy, di) == ScalarColour(v)(x, y) {
      DrawnIsShade(PlanePoint(v, x, y), v.bailout, di);
    }
  }

  /** A point that never left is drawn like count 0. */
  method DrawPixel(v: View, x: nat, cy: real, di: real) returns (normColor: real)
    ensures normColor == Drawn(v, x, cy, di)
  {
    var cx := ScalarMapX(v, x);
    var i := ScalarProbe(cx, cy, v.bailout);
    if i == v.bailout {
      i := 0;
    }
    normColor := i as real * di;
  }

  /** The body of the scalar kernel's column loop, up to the row write. */
  method ScalarPixel(v: View, x: nat, cy: real, di: real, ghost y: nat) returns (normColor: real)
    requires RowIs(v, y, cy, di)
    ensures normColor == ScalarColour(v)(x, y)
  {
    normColor := DrawPixel(v, x, cy, di);
  }

  method GenericPixel(v: View, surf: Canvas, x: nat, ghost xEnd: nat, cy: real, di: real, y: nat)
    requires surf.Valid() && x < xEnd && x < U32 && RowIs(v, y, cy, di)
    modifies surf.data
    ensures Apply(surf.data[..], LineStores(ScalarColour(v), surf.width, surf.height, x + 1, xEnd, 1, y))
         == Apply(old(surf.data[..]), LineStores(ScalarColour(v), surf.width, surf.height, x, xEnd, 1, y))
  {
    var normColor := ScalarPixel(v, x, cy, di, y);
    SetGroup(surf, ScalarColour(v), x, xEnd, 1, y, [normColor]);
  }

  /** The column loop, once the row's coordinate is known. */
  method GenericColumns(v: View, surf: Canvas, x0: nat, x1: nat, cy: real, di: real, y: nat)
    requires surf.Valid() && x1 + 1 < U32 && RowIs(v, y, cy, di)
    modifies surf.data
    ensures surf.data[..] == Apply(old(surf.data[..]),
              LineStores(ScalarColour(v), surf.width, surf.height, x0, x1 + 1, 1, y))
  {
    ghost var colour := ScalarColour(v);
    ghost var goal := Apply(surf.data[..], LineStores(colour, surf.width, surf.height, x0, x1 + 1, 1, y));
    var x := x0;
    while x <= x1
      invariant x == x0 || x <= x1 + 1
      invariant Apply(surf.data[..], LineStores(colour, surf.width, surf.height, x, x1 + 1, 1, y)) == goal
      decreases x1 + 1 - x
    {
      GenericPixel(v, surf, x, x1 + 1, cy, di, y);
      x := Advance(x, 1);
    }
    LineOver(surf.data[..], colour, surf.width, surf.height, x, x1 + 1, 1, y);
  }

  /** mdb_generic.c: one pixel at a time, both ends of the tile included. */
  method GenericLine(v: View, surf: Canvas, x0: nat, x1: nat, y: nat)
    requires surf.Valid() && x1 + 1 < U32
    modifies surf.data
    ensures surf.data[..] == Apply(old(surf.data[..]),
              LineStores(ScalarColour(v), surf.width, surf.height, x0, x1 + 1, 1, y))
  {
    var di := 1.0 / v.bailout as real;
    var cy := ScalarMapY(v, y);
    RowConstants(v, y, cy, di);
    GenericColumns(v, surf, x0, x1, cy, di, y);
  }

  /** One turn of the row loop. */
  method GenericRow(v: View, surf: Canvas, x0: nat, x1: nat, y: nat, ghost yEnd: nat)
    requires surf.Valid() && x1 + 1 < U32 && y < yEnd
    modifies surf.data
    ensures Apply(surf.data[..], BlockStores(ScalarColour(v), surf.width, surf.height, x0, x1 + 1, 1, y + 1, yEnd))
         == Apply(old(surf.data[..]), BlockStores(ScalarColour(v), surf.width, surf.height, x0, x1 + 1, 1, y, yEnd))
  {
    LineFirst(surf.data[..], ScalarColour(v), surf.width, surf.height, x0, x1 + 1, 1, y, yEnd);
    GenericLine(v, surf, x0, x1, y);
  }

  method GenericProcessBlock(v: View, surf: Canvas, x0: nat, x1: nat, y0: nat, y1: nat)
    requires surf.Valid() && x1 + 1 < U32 && y1 + 1 < U32
    modifies surf.data
    ensures surf.data[..] == Apply(old(surf.data[..]),
              BlockStores(ScalarColour(v), surf.width, surf.height, x0, x1 + 1, 1, y0, y1 + 1))
  {
    ghost var colour := ScalarColour(v);
    ghost var goal := Apply(surf.data[..], BlockStores(colour, surf.width, surf.height, x0, x1 + 1, 1, y0, y1 + 1));
    var y := y0;
    while y <= y1
      invariant y == y0 || y <= y1 + 1
      invariant Apply(surf.data[..], BlockStores(colour, surf.width, surf.height, x0, x1 + 1, 1, y, y1 + 1)) == goal
      decreases y1 + 1 - y
    {
      GenericRow(v, surf, x0, x1, y, y1 + 1);
      y := Advance(y, 1);
    }
    BlockOver(surf.data[..], colour, surf.width, surf.height, x0, x1 + 1, 1, y, y1 + 1);
  }
}

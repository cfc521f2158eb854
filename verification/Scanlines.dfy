/** Whole scanlines and images of the Radiance HDR writer, against the reader. */
module Scanlines {
  import opened Machine
  import opened Radiance
  import opened Sequences
  import opened Wrappers

  /** Widths the run-length form is used for. */
  predicate RunLengthWidth(width: nat) { 8 <= width < 32768 }

  // ---------------------------------------------------------------- writer

  function Component(p: Rgbe, c: nat): Byte
    requires c < 4
  {
    if c == 0 then p.r else if c == 1 then p.g else if c == 2 then p.b else p.e
  }

  /** One of the four planes of a scanline. */
  function PlaneOf(pixels: seq<Rgbe>, c: nat): (plane: seq<Byte>)
    requires c < 4
    ensures |plane| == |pixels|
  {
    seq(|pixels|, i requires 0 <= i < |pixels| => Component(pixels[i], c))
  }

  function FlatBytes(pixels: seq<Rgbe>): (bytes: seq<Byte>)
    ensures |bytes| == 4 * |pixels|
  {
    if pixels == [] then []
    else [pixels[0].r, pixels[0].g, pixels[0].b, pixels[0].e] + FlatBytes(pixels[1..])
  }

  function Header(width: nat): seq<Byte> { [2, 2, (width / 256) % 256, width % 256] }

  function EncodedPlane(pixels: seq<Rgbe>, c: nat): seq<Byte>
    requires c < 4
  {
    EncodePlane(PlaneOf(pixels, c))
  }

  /** The four encoded planes, one after the other. */
  function Planes(pixels: seq<Rgbe>): seq<Byte> {
    EncodedPlane(pixels, 0) + (EncodedPlane(pixels, 1) + (EncodedPlane(pixels, 2) + EncodedPlane(pixels, 3)))
  }

  function EncodeScanline(pixels: seq<Rgbe>): seq<Byte> {
    if RunLengthWidth(|pixels|) then Header(|pixels|) + Planes(pixels) else FlatBytes(pixels)
  }

  function EncodeImage(rows: seq<seq<Rgbe>>): seq<Byte> {
    if rows == [] then [] else EncodeScanline(rows[0]) + EncodeImage(rows[1..])
  }

  // ------------------------------------------------------ the two forms, written out

  /** The reds of the pixels, and so on. */
  ghost predicate ArePlanes(pixels: seq<Rgbe>, r: seq<Byte>, g: seq<Byte>, b: seq<Byte>, e: seq<Byte>) {
    && |r| == |g| == |b| == |e| == |pixels|
    && forall i :: 0 <= i < |pixels| ==> pixels[i] == Rgbe(r[i], g[i], b[i], e[i])
  }

  lemma PlanesAre(pixels: seq<Rgbe>, r: seq<Byte>, g: seq<Byte>, b: seq<Byte>, e: seq<Byte>)
    requires ArePlanes(pixels, r, g, b, e)
    ensures Planes(pixels) == EncodePlane(r) + (EncodePlane(g) + (EncodePlane(b) + EncodePlane(e)))
  {
    assert PlaneOf(pixels, 0) == r;
    assert PlaneOf(pixels, 1) == g;
    assert PlaneOf(pixels, 2) == b;
    assert PlaneOf(pixels, 3) == e;
  }

  lemma HeaderIs(width: nat)
    requires width < 32768
    ensures Header(width) == [2, 2, width / 256, width % 256]
  {
  }

  lemma TaggedForm(pixels: seq<Rgbe>, planes: seq<Byte>)
    requires 8 <= |pixels| < 32768 && Planes(pixels) == planes
    ensures EncodeScanline(pixels) == [2, 2, |pixels| / 256, |pixels| % 256] + planes
  {
    HeaderIs(|pixels|);
  }

  /** Widths of 8 to 32767 are written as two twos, the width, and the encoded planes of
      reds, greens, blues and exponents. */
  lemma RunLengthForm(pixels: seq<Rgbe>, r: seq<Byte>, g: seq<Byte>, b: seq<Byte>, e: seq<Byte>)
    requires 8 <= |pixels| < 32768 && ArePlanes(pixels, r, g, b, e)
    ensures EncodeScanline(pixels) == [2, 2, |pixels| / 256, |pixels| % 256]
                                      + (EncodePlane(r) + (EncodePlane(g) + (EncodePlane(b) + EncodePlane(e))))
  {
    PlanesAre(pixels, r, g, b, e);
    TaggedForm(pixels, EncodePlane(r) + (EncodePlane(g) + (EncodePlane(b) + EncodePlane(e))));
  }

  lemma {:induction false} FlatBytesAre(pixels: seq<Rgbe>, i: nat)
    requires i < |pixels|
    ensures FlatBytes(pixels)[4 * i..4 * i + 4] == [pixels[i].r, pixels[i].g, pixels[i].b, pixels[i].e]
    decreases |pixels|
  {
    var head, tail := [pixels[0].r, pixels[0].g, pixels[0].b, pixels[0].e], FlatBytes(pixels[1..]);
    if i == 0 {
      assert (head + tail)[0..4] == head;
    } else {
      FlatBytesAre(pixels[1..], i - 1);
      assert (head + tail)[4 * i..4 * i + 4] == tail[4 * (i - 1)..4 * (i - 1) + 4];
    }
  }

  /** Any other width is written with exactly four bytes per pixel. */
  lemma FlatForm(pixels: seq<Rgbe>, i: nat)
    requires (|pixels| < 8 || 32768 <= |pixels|) && i < |pixels|
    ensures |EncodeScanline(pixels)| == 4 * |pixels|
    ensures EncodeScanline(pixels)[4 * i..4 * i + 4] == [pixels[i].r, pixels[i].g, pixels[i].b, pixels[i].e]
  {
    FlatBytesAre(pixels, i);
  }

  // ---------------------------------------------------------------- reader

  /** The unnormalised pixel that marks a repeat in the old form. */
  predicate Marker(p: Rgbe) { p.r == 1 && p.g == 1 && p.b == 1 }

  function Power256(k: nat): nat { if k == 0 then 1 else 256 * Power256(k - 1) }

  /** The old form: pixels one by one, where markers repeat the pixel before them and
      consecutive markers hold higher digits of the count. */
  function ReadOld(width: nat, before: seq<Rgbe>, digit: nat, bytes: seq<Byte>): Option<(seq<Rgbe>, seq<Byte>)>
    requires |before| <= width
    decreases |bytes|
  {
    if |before| == width then Some((before, bytes))
    else if |bytes| < 4 then None
    else
      var p := Rgbe(bytes[0], bytes[1], bytes[2], bytes[3]);
      if !Marker(p) then ReadOld(width, before + [p], 0, bytes[4..])
      else if before == [] then None
      else
        var n := Min(p.e * Power256(digit), width - |before|);
        ReadOld(width, before + Copies(n, before[|before| - 1]), digit + 1, bytes[4..])
  }

  /** Four planes of `width` bytes each, put together again. */
  function ReadPlanes(width: nat, bytes: seq<Byte>): Option<(seq<Rgbe>, seq<Byte>)> {
    match ReadPlane(width, bytes)
    case None => None
    case Some((r, rest)) =>
      match ReadPlane(width, rest)
      case None => None
      case Some((g, rest)) =>
        match ReadPlane(width, rest)
        case None => None
        case Some((b, rest)) =>
          match ReadPlane(width, rest)
          case None => None
          case Some((e, rest)) =>
            if |r| == |g| == |b| == |e| == width then Some((Interleave(r, g, b, e), rest)) else None
  }

  function Interleave(r: seq<Byte>, g: seq<Byte>, b: seq<Byte>, e: seq<Byte>): seq<Rgbe>
    requires |r| == |g| == |b| == |e|
  {
    seq(|r|, i requires 0 <= i < |r| => Rgbe(r[i], g[i], b[i], e[i]))
  }

  function ReadScanline(width: nat, bytes: seq<Byte>): Option<(seq<Rgbe>, seq<Byte>)> {
    if !RunLengthWidth(width) then ReadOld(width, [], 0, bytes)
    else if |bytes| < 4 then None
    else if bytes[0] == 2 && bytes[1] == 2 && bytes[2] < 128 then
      if bytes[2] as nat * 256 + bytes[3] != width then None else
      ReadPlanes(width, bytes[4..])
    else ReadOld(width, [], 0, bytes)
  }

  function ReadImage(width: nat, height: nat, bytes: seq<Byte>): Option<(seq<seq<Rgbe>>, seq<Byte>)>
    decreases height
  {
    if height == 0 then Some(([], bytes)) else
    match ReadScanline(width, bytes)
    case None => None
    case Some((row, rest)) =>
      match ReadImage(width, height - 1, rest)
      case None => None
      case Some((rows, rest')) => Some(([row] + rows, rest'))
  }

  // ------------------------------------------------------- run-length form

  lemma PlaneReads(pixels: seq<Rgbe>, c: nat, after: seq<Byte>, rest: seq<Byte>)
    requires c < 4
    ensures ReadPlane(|pixels|, (EncodedPlane(pixels, c) + after) + rest) == Some((PlaneOf(pixels, c), after + rest))
  {
    Assoc(EncodedPlane(pixels, c), after, rest);
    PlaneRoundTrip(PlaneOf(pixels, c), after + rest);
  }

  lemma PlanesRead(pixels: seq<Rgbe>, rest: seq<Byte>)
    ensures ReadPlanes(|pixels|, Planes(pixels) + rest) == Some((pixels, rest))
  {
    var p3 := EncodedPlane(pixels, 3);
    var p23 := EncodedPlane(pixels, 2) + p3;
    var p123 := EncodedPlane(pixels, 1) + p23;
    PlaneReads(pixels, 0, p123, rest);
    PlaneReads(pixels, 1, p23, rest);
    PlaneReads(pixels, 2, p3, rest);
    PlaneRoundTrip(PlaneOf(pixels, 3), rest);
    assert Interleave(PlaneOf(pixels, 0), PlaneOf(pixels, 1), PlaneOf(pixels, 2), PlaneOf(pixels, 3)) == pixels;
  }

  lemma ReadTagged(width: nat, tail: seq<Byte>, pixels: seq<Rgbe>, rest: seq<Byte>, all: seq<Byte>)
    requires RunLengthWidth(width) && ReadPlanes(width, tail) == Some((pixels, rest))
    requires all == Header(width) + tail
    ensures ReadScanline(width, all) == Some((pixels, rest))
  {
    assert all[4..] == tail;
    assert all[0] == 2 && all[1] == 2 && all[2] == (width / 256) % 256 && all[3] == width % 256;
  }

  /** In the run-length form every scanline reads back exactly, and what follows it is left
      untouched. */
  lemma RunLengthRoundTrip(pixels: seq<Rgbe>, rest: seq<Byte>)
    requires 8 <= |pixels| < 32768
    ensures ReadScanline(|pixels|, EncodeScanline(pixels) + rest) == Some((pixels, rest))
  {
    PlanesRead(pixels, rest);
    Assoc(Header(|pixels|), Planes(pixels), rest);
    ReadTagged(|pixels|, Planes(pixels) + rest, pixels, rest, EncodeScanline(pixels) + rest);
  }

  lemma PlanesSize(pixels: seq<Rgbe>, most: nat)
    requires forall c: nat :: c < 4 ==> |EncodedPlane(pixels, c)| <= most
    ensures |Planes(pixels)| <= 4 * most
  {
  }

  /** A run-length scanline takes at most 4 + 4 (width + ceil(width / 128)) bytes. */
  lemma ScanlineSize(pixels: seq<Rgbe>)
    requires 8 <= |pixels| < 32768
    ensures |EncodeScanline(pixels)| <= 4 + 4 * (|pixels| + (|pixels| + 127) / 128)
  {
    var most := |pixels| + (|pixels| + 127) / 128;
    forall c: nat | c < 4 ensures |EncodedPlane(pixels, c)| <= most {
      PlaneSize(PlaneOf(pixels, c));
    }
    TaggedForm(pixels, Planes(pixels));
    PlanesSize(pixels, most);
  }

  // -------------------------------------------------------------- flat form

  ghost predicate NoMarker(pixels: seq<Rgbe>) { forall i :: 0 <= i < |pixels| ==> !Marker(pixels[i]) }

  lemma ReadOldPixel(width: nat, before: seq<Rgbe>, digit: nat, p: Rgbe, tail: seq<Byte>)
    requires |before| < width && !Marker(p)
    ensures ReadOld(width, before, digit, [p.r, p.g, p.b, p.e] + tail) == ReadOld(width, before + [p], 0, tail)
  {
    var bytes := [p.r, p.g, p.b, p.e] + tail;
    assert bytes[4..] == tail;
    assert p == Rgbe(bytes[0], bytes[1], bytes[2], bytes[3]);
  }

  lemma {:induction false} FlatReads(width: nat, before: seq<Rgbe>, pixels: seq<Rgbe>, rest: seq<Byte>, digit: nat)
    requires NoMarker(pixels) && width == |before| + |pixels|
    ensures ReadOld(width, before, digit, FlatBytes(pixels) + rest) == Some((before + pixels, rest))
    decreases |pixels|
  {
    if pixels == [] {
      assert before + pixels == before && FlatBytes(pixels) + rest == rest;
    } else {
      var p := pixels[0];
      Assoc([p.r, p.g, p.b, p.e], FlatBytes(pixels[1..]), rest);
      ReadOldPixel(width, before, digit, p, FlatBytes(pixels[1..]) + rest);
      assert before + pixels == (before + [p]) + pixels[1..];
      FlatReads(width, before + [p], pixels[1..], rest, 0);
    }
  }

  /** The reader never hands out a marker. */
  lemma {:induction false} ReadOldHasNoMarker(width: nat, before: seq<Rgbe>, digit: nat, bytes: seq<Byte>)
    requires |before| <= width && NoMarker(before)
    ensures var r := ReadOld(width, before, digit, bytes); r.Some? ==> NoMarker(r.value.0)
    decreases |bytes|
  {
    if |before| < width && |bytes| >= 4 {
      var p := Rgbe(bytes[0], bytes[1], bytes[2], bytes[3]);
      if !Marker(p) {
        ReadOldHasNoMarker(width, before + [p], 0, bytes[4..]);
      } else if before != [] {
        var n := Min(p.e * Power256(digit), width - |before|);
        ReadOldHasNoMarker(width, before + Copies(n, before[|before| - 1]), digit + 1, bytes[4..]);
      }
    }
  }

  /** A flat scanline reads back exactly if and only if none of its pixels looks like a
      repeat marker. */
  lemma FlatRoundTripIff(pixels: seq<Rgbe>, rest: seq<Byte>)
    requires |pixels| < 8 || 32768 <= |pixels|
    ensures ReadScanline(|pixels|, EncodeScanline(pixels) + rest) == Some((pixels, rest))
       <==> forall p :: p in pixels ==> !(p.r == 1 && p.g == 1 && p.b == 1)
  {
    assert NoMarker(pixels) <==> forall p :: p in pixels ==> !Marker(p);
    var bytes := FlatBytes(pixels) + rest;
    if NoMarker(pixels) {
      FlatReads(|pixels|, [], pixels, rest, 0);
      assert [] + pixels == pixels;
    } else {
      ReadOldHasNoMarker(|pixels|, [], 0, bytes);
    }
  }

  /** Every scanline reads back if it is of a width for runs, or has no marker. */
  lemma ScanlineReads(pixels: seq<Rgbe>, rest: seq<Byte>)
    requires 8 <= |pixels| < 32768 || NoMarker(pixels)
    ensures ReadScanline(|pixels|, EncodeScanline(pixels) + rest) == Some((pixels, rest))
  {
    if 8 <= |pixels| < 32768 {
      RunLengthRoundTrip(pixels, rest);
    } else {
      FlatRoundTripIff(pixels, rest);
    }
  }

  // ----------------------------------------------------------------- images

  lemma ReadRow(width: nat, height: nat, bytes: seq<Byte>, row: seq<Rgbe>, tail: seq<Byte>,
                rows: seq<seq<Rgbe>>, rest: seq<Byte>)
    requires ReadScanline(width, bytes) == Some((row, tail))
    requires ReadImage(width, height, tail) == Some((rows, rest))
    ensures ReadImage(width, height + 1, bytes) == Some(([row] + rows, rest))
  {
  }

  ghost predicate NoMarkers(rows: seq<seq<Rgbe>>) { forall y :: 0 <= y < |rows| ==> NoMarker(rows[y]) }

  lemma {:induction false} ImageReads(rows: seq<seq<Rgbe>>, width: nat, rest: seq<Byte>)
    requires forall y :: 0 <= y < |rows| ==> |rows[y]| == width
    requires 8 <= width < 32768 || NoMarkers(rows)
    ensures ReadImage(width, |rows|, EncodeImage(rows) + rest) == Some((rows, rest))
  {
    if rows == [] {
      assert EncodeImage(rows) + rest == rest;
    } else {
      var tail := EncodeImage(rows[1..]) + rest;
      Assoc(EncodeScanline(rows[0]), EncodeImage(rows[1..]), rest);
      ScanlineReads(rows[0], tail);
      ImageReads(rows[1..], width, rest);
      ReadRow(width, |rows| - 1, EncodeScanline(rows[0]) + tail, rows[0], tail, rows[1..], rest);
      assert [rows[0]] + rows[1..] == rows;
    }
  }

  lemma FlatRowHasNoMarker(width: nat, bytes: seq<Byte>)
    requires width < 8 || 32768 <= width
    ensures var r := ReadScanline(width, bytes); r.Some? ==> NoMarker(r.value.0)
  {
    ReadOldHasNoMarker(width, [], 0, bytes);
  }

  lemma {:induction false} FlatImageHasNoMarker(width: nat, height: nat, bytes: seq<Byte>)
    requires width < 8 || 32768 <= width
    ensures var r := ReadImage(width, height, bytes); r.Some? ==> NoMarkers(r.value.0)
    decreases height
  {
    if height > 0 && ReadScanline(width, bytes).Some? {
      FlatRowHasNoMarker(width, bytes);
      FlatImageHasNoMarker(width, height - 1, ReadScanline(width, bytes).value.1);
    }
  }

  lemma MarkersAre(rows: seq<seq<Rgbe>>)
    ensures NoMarkers(rows) <==> forall y, x :: 0 <= y < |rows| && 0 <= x < |rows[y]| ==>
              !(rows[y][x].r == 1 && rows[y][x].g == 1 && rows[y][x].b == 1)
  {
    if forall y, x :: 0 <= y < |rows| && 0 <= x < |rows[y]| ==>
         !(rows[y][x].r == 1 && rows[y][x].g == 1 && rows[y][x].b == 1) {
      forall y | 0 <= y < |rows| ensures NoMarker(rows[y]) {
      }
    } else {
      var y, x :| 0 <= y < |rows| && 0 <= x < |rows[y]|
                  && rows[y][x].r == 1 && rows[y][x].g == 1 && rows[y][x].b == 1;
      assert Marker(rows[y][x]) && !NoMarker(rows[y]);
    }
  }

  /** Any number of concatenated scanlines reads back exactly, whatever follows them, if and
      only if their width is one for runs or no pixel has the mantissas 1, 1, 1. */
  lemma ImageRoundTripIff(rows: seq<seq<Rgbe>>, width: nat, rest: seq<Byte>)
    requires forall y :: 0 <= y < |rows| ==> |rows[y]| == width
    ensures ReadImage(width, |rows|, EncodeImage(rows) + rest) == Some((rows, rest))
       <==> (8 <= width < 32768 || forall y, x :: 0 <= y < |rows| && 0 <= x < |rows[y]| ==>
              !(rows[y][x].r == 1 && rows[y][x].g == 1 && rows[y][x].b == 1))
  {
    if 8 <= width < 32768 || NoMarkers(rows) {
      ImageReads(rows, width, rest);
    } else {
      FlatImageHasNoMarker(width, |rows|, EncodeImage(rows) + rest);
    }
    MarkersAre(rows);
  }

  /** What stbiw__linear_to_rgbe produces: black, or a largest mantissa of at least 128. */
  predicate Normalised(p: Rgbe) {
    p == Rgbe(0, 0, 0, 0) || p.r >= 128 || p.g >= 128 || p.b >= 128
  }

  /** So every image of normalised pixels reads back, in either form. */
  lemma ImageRoundTrip(rows: seq<seq<Rgbe>>, width: nat, rest: seq<Byte>)
    requires forall y :: 0 <= y < |rows| ==> |rows[y]| == width
    requires forall y, x :: 0 <= y < |rows| && 0 <= x < |rows[y]| ==> Normalised(rows[y][x])
    ensures ReadImage(width, |rows|, EncodeImage(rows) + rest) == Some((rows, rest))
  {
    forall y | 0 <= y < |rows| ensures NoMarker(rows[y]) {
      forall x | 0 <= x < |rows[y]| ensures !Marker(rows[y][x]) {
        assert Normalised(rows[y][x]);
      }
    }
    ImageReads(rows, width, rest);
  }
}

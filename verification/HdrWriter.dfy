/** The writing loops of image_hdr.c, over a byte sink. Pixels come in as RGBE. */
module HdrWriter {
  import opened Radiance
  import opened Scanlines
  import opened Sequences

  /** The stbi_write_func callback and its context. */
  class Sink {
    var bytes: seq<Byte>

    constructor ()
      ensures bytes == []
    {
      bytes := [];
    }

    method Write(data: seq<Byte>)
      modifies this
      ensures bytes == old(bytes) + data
    {
      bytes := bytes + data;
    }
  }

  method WriteRunData(s: Sink, length: nat, databyte: Byte)
    requires 1 <= length <= 127
    modifies s
    ensures s.bytes == old(s.bytes) + [length + 128, databyte]
  {
    var lengthbyte := (length + 128) % 256;
    s.Write([lengthbyte]);
    s.Write([databyte]);
  }

  method WriteDumpData(s: Sink, length: nat, data: seq<Byte>)
    requires 1 <= length <= 128 && length <= |data|
    modifies s
    ensures s.bytes == old(s.bytes) + ([length] + data[..length])
  {
    var lengthbyte := length % 256;
    s.Write([lengthbyte]);
    s.Write(data[..length]);
  }

  /** Looks for three equal bytes in a row. */
  method FirstRun(comp: seq<Byte>, x: nat) returns (r: nat)
    requires x <= |comp|
    ensures r == FindRun(comp, x)
  {
    r := x;
    while r + 2 < |comp|
      invariant x <= r <= |comp| && FindRun(comp, r) == FindRun(comp, x)
      decreases |comp| - r
    {
      if comp[r] == comp[r + 1] && comp[r] == comp[r + 2] {
        break;
      }
      r := r + 1;
    }
    if r + 2 >= |comp| {
      r := |comp|;
    }
  }

  /** Writes what lies before a run, in chunks of at most 128. */
  method WriteDump(s: Sink, comp: seq<Byte>, x0: nat, r: nat)
    requires x0 <= r <= |comp|
    modifies s
    ensures s.bytes == old(s.bytes) + DumpBytes(comp, x0, r)
  {
    var x := x0;
    ghost var goal := s.bytes + DumpBytes(comp, x0, r);
    while x < r
      invariant x0 <= x <= r && s.bytes + DumpBytes(comp, x, r) == goal
    {
      var len := r - x;
      if len > 128 {
        len := 128;
      }
      assert comp[x..][..len] == comp[x..x + len];
      Assoc(s.bytes, LiteralBytes(comp[x..x + len]), DumpBytes(comp, x + len, r));
      WriteDumpData(s, len, comp[x..]);
      x := x + len;
    }
    assert DumpBytes(comp, x, r) == [];
  }

  /** Writes a run, in chunks of at most 127. */
  method WriteRuns(s: Sink, n: nat, b: Byte)
    modifies s
    ensures s.bytes == old(s.bytes) + RunBytes(n, b)
  {
    var left: nat := n;
    ghost var goal := s.bytes + RunBytes(n, b);
    while left > 0
      invariant s.bytes + RunBytes(left, b) == goal
    {
      var len := left;
      if len > 127 {
        len := 127;
      }
      Assoc(s.bytes, [len + 128, b], RunBytes(left - len, b));
      WriteRunData(s, len, b);
      left := left - len;
    }
    assert RunBytes(left, b) == [];
  }

  /** Looks for the end of a run. */
  method AfterRun(comp: seq<Byte>, x: nat) returns (r: nat)
    requires x < |comp|
    ensures r == RunEnd(comp, x, comp[x])
  {
    r := x;
    while r < |comp| && comp[r] == comp[x]
      invariant x <= r <= |comp| && RunEnd(comp, r, comp[x]) == RunEnd(comp, x, comp[x])
    {
      r := r + 1;
    }
  }

  /** A turn that writes `dump` and then `run` leaves `rest` to be written. */
  lemma Regroup(was: seq<Byte>, dump: seq<Byte>, run: seq<Byte>, rest: seq<Byte>)
    ensures ((was + dump) + run) + rest == was + (dump + (run + rest))
  {
  }

  /** The last turn writes literals only. */
  lemma LastTurn(comp: seq<Byte>, x: nat)
    requires x < |comp| && FindRun(comp, x) == |comp|
    ensures PlaneBytes(comp, x) == DumpBytes(comp, x, |comp|) && PlaneBytes(comp, |comp|) == []
  {
  }

  lemma NothingAfter(a: seq<Byte>, b: seq<Byte>)
    requires b == []
    ensures a + b == a
  {
  }

  lemma TurnDone(was: seq<Byte>, now: seq<Byte>, comp: seq<Byte>, x: nat, r: nat, e: nat, rest: seq<Byte>)
    requires x <= r < e <= |comp| && now == (was + DumpBytes(comp, x, r)) + RunBytes(e - r, comp[r])
    ensures now + rest == was + TurnBytes(comp, x, r, e, rest)
  {
    Regroup(was, DumpBytes(comp, x, r), RunBytes(e - r, comp[r]), rest);
  }

  /** The run of a turn, after its literals. */
  method WriteRun(s: Sink, comp: seq<Byte>, r: nat) returns (e: nat)
    requires r < |comp|
    modifies s
    ensures r < e == RunEnd(comp, r, comp[r]) && s.bytes == old(s.bytes) + RunBytes(e - r, comp[r])
  {
    e := AfterRun(comp, r);
    WriteRuns(s, e - r, comp[r]);
  }

  /** One turn of the plane loop, from byte `x` to byte `e`. */
  method WriteTurn(s: Sink, comp: seq<Byte>, x: nat) returns (e: nat)
    requires x < |comp|
    modifies s
    ensures x < e <= |comp| && s.bytes + PlaneBytes(comp, e) == old(s.bytes) + PlaneBytes(comp, x)
  {
    ghost var was := s.bytes;
    var r := FirstRun(comp, x);
    WriteDump(s, comp, x, r);
    if r + 2 < |comp| {
      e := WriteRun(s, comp, r);
      FirstTurn(comp, x, r, e);
      TurnDone(was, s.bytes, comp, x, r, e, PlaneBytes(comp, e));
    } else {
      e := r;
      LastTurn(comp, x);
      NothingAfter(s.bytes, PlaneBytes(comp, e));
    }
  }

  /** The body of the component loop: one plane. */
  method WritePlane(s: Sink, comp: seq<Byte>)
    modifies s
    ensures s.bytes == old(s.bytes) + EncodePlane(comp)
  {
    var x := 0;
    ghost var goal := s.bytes + EncodePlane(comp);
    while x < |comp|
      invariant x <= |comp| && s.bytes + PlaneBytes(comp, x) == goal
      decreases |comp| - x
    {
      x := WriteTurn(s, comp, x);
    }
    assert PlaneBytes(comp, x) == [];
  }

  /** The first `x` bytes of plane `c` are in place from `base` on. */
  ghost predicate Filled(a: seq<Byte>, base: nat, pixels: seq<Rgbe>, c: nat, x: nat)
    requires c < 4
  {
    && base + |pixels| <= |a| && x <= |pixels|
    && forall j :: base <= j < base + x ==> a[j] == Component(pixels[j - base], c)
  }

  lemma FilledPlane(a: seq<Byte>, base: nat, pixels: seq<Rgbe>, c: nat)
    requires c < 4 && Filled(a, base, pixels, c, |pixels|)
    ensures a[base..base + |pixels|] == PlaneOf(pixels, c)
  {
  }

  ghost predicate AllFilled(a: seq<Byte>, pixels: seq<Rgbe>, x: nat) {
    && Filled(a, 0, pixels, 0, x) && Filled(a, |pixels|, pixels, 1, x)
    && Filled(a, 2 * |pixels|, pixels, 2, x) && Filled(a, 3 * |pixels|, pixels, 3, x)
  }

  /** Stores the four components of pixel `x`, one in each plane. */
  method FillPixel(scratch: array<Byte>, pixels: seq<Rgbe>, x: nat)
    requires scratch.Length == 4 * |pixels| && x < |pixels| && AllFilled(scratch[..], pixels, x)
    modifies scratch
    ensures AllFilled(scratch[..], pixels, x + 1)
  {
    var width := |pixels|;
    scratch[x] := pixels[x].r;
    scratch[x + width] := pixels[x].g;
    scratch[x + width * 2] := pixels[x].b;
    scratch[x + width * 3] := pixels[x].e;
  }

  ghost predicate PlanesInScratch(a: seq<Byte>, pixels: seq<Rgbe>) {
    && |a| == 4 * |pixels|
    && a[0..0 + |pixels|] == PlaneOf(pixels, 0)
    && a[|pixels|..|pixels| + |pixels|] == PlaneOf(pixels, 1)
    && a[2 * |pixels|..2 * |pixels| + |pixels|] == PlaneOf(pixels, 2)
    && a[3 * |pixels|..3 * |pixels| + |pixels|] == PlaneOf(pixels, 3)
  }

  /** Fills the scratch buffer with the four planes, one after the other. */
  method FillScratch(scratch: array<Byte>, pixels: seq<Rgbe>)
    requires scratch.Length == 4 * |pixels|
    modifies scratch
    ensures PlanesInScratch(scratch[..], pixels)
  {
    var x := 0;
    while x < |pixels|
      invariant x <= |pixels| && AllFilled(scratch[..], pixels, x)
    {
      FillPixel(scratch, pixels, x);
      x := x + 1;
    }
    FilledPlane(scratch[..], 0, pixels, 0);
    FilledPlane(scratch[..], |pixels|, pixels, 1);
    FilledPlane(scratch[..], 2 * |pixels|, pixels, 2);
    FilledPlane(scratch[..], 3 * |pixels|, pixels, 3);
  }

  lemma PlaneInScratch(a: seq<Byte>, pixels: seq<Rgbe>, c: nat, base: nat)
    requires c < 4 && base == |pixels| * c && PlanesInScratch(a, pixels)
    ensures base + |pixels| <= |a| && a[base..base + |pixels|] == PlaneOf(pixels, c)
  {
    assert base == if c == 0 then 0 else if c == 1 then |pixels| else if c == 2 then 2 * |pixels| else 3 * |pixels|;
  }

  /** One component, out of the scratch buffer. */
  method WriteComponent(s: Sink, scratch: array<Byte>, pixels: seq<Rgbe>, c: nat)
    requires c < 4 && PlanesInScratch(scratch[..], pixels)
    modifies s
    ensures s.bytes == old(s.bytes) + EncodedPlane(pixels, c)
  {
    var base := |pixels| * c;
    PlaneInScratch(scratch[..], pixels, c, base);
    assert scratch[base..base + |pixels|] == scratch[..][base..base + |pixels|];
    WritePlane(s, scratch[base..base + |pixels|]);
  }

  /** The encodings of the first `c` planes. */
  ghost function FirstPlanes(pixels: seq<Rgbe>, c: nat): seq<Byte>
    requires c <= 4
  {
    if c == 0 then [] else FirstPlanes(pixels, c - 1) + EncodedPlane(pixels, c - 1)
  }

  lemma FirstFour(pixels: seq<Rgbe>)
    ensures FirstPlanes(pixels, 4) == Planes(pixels)
  {
    var a, b := EncodedPlane(pixels, 0), EncodedPlane(pixels, 1);
    var c, d := EncodedPlane(pixels, 2), EncodedPlane(pixels, 3);
    assert FirstPlanes(pixels, 1) == [] + a == a;
    assert FirstPlanes(pixels, 2) == a + b;
    assert FirstPlanes(pixels, 3) == (a + b) + c;
    Regroup(a, b, c, d);
  }

  /** The component loop of the scanline writer. */
  method WritePlanes(s: Sink, scratch: array<Byte>, pixels: seq<Rgbe>)
    requires PlanesInScratch(scratch[..], pixels)
    modifies s
    ensures s.bytes == old(s.bytes) + Planes(pixels)
  {
    ghost var was := s.bytes;
    var c := 0;
    while c < 4
      invariant 0 <= c <= 4 && s.bytes == was + FirstPlanes(pixels, c)
    {
      WriteComponent(s, scratch, pixels, c);
      Assoc(was, FirstPlanes(pixels, c), EncodedPlane(pixels, c));
      c := c + 1;
    }
    FirstFour(pixels);
  }

  method WriteHeader(s: Sink, width: nat)
    requires RunLengthWidth(width)
    modifies s
    ensures s.bytes == old(s.bytes) + Header(width)
  {
    s.Write([2, 2, (width / 256) % 256, width % 256]);
  }

  method WriteFlat(s: Sink, pixels: seq<Rgbe>)
    modifies s
    ensures s.bytes == old(s.bytes) + FlatBytes(pixels)
  {
    var x := 0;
    ghost var goal := s.bytes + FlatBytes(pixels);
    while x < |pixels|
      invariant x <= |pixels| && s.bytes + FlatBytes(pixels[x..]) == goal
    {
      var p := pixels[x];
      assert pixels[x..][0] == p && pixels[x..][1..] == pixels[x + 1..];
      Assoc(s.bytes, [p.r, p.g, p.b, p.e], FlatBytes(pixels[x + 1..]));
      s.Write([p.r, p.g, p.b, p.e]);
      x := x + 1;
    }
    assert FlatBytes(pixels[x..]) == [];
  }

  /** stbiw__write_hdr_scanline, with the pixels already converted. */
  method WriteScanline(s: Sink, pixels: seq<Rgbe>, scratch: array<Byte>)
    requires scratch.Length == 4 * |pixels|
    modifies s, scratch
    ensures s.bytes == old(s.bytes) + EncodeScanline(pixels)
  {
    var width := |pixels|;
    if width < 8 || width >= 32768 {
      WriteFlat(s, pixels);
    } else {
      FillScratch(scratch, pixels);
      WriteHeader(s, width);
      WritePlanes(s, scratch, pixels);
      Assoc(old(s.bytes), Header(width), Planes(pixels));
    }
  }

  /** The scanline loop of stbi_write_hdr_core. */
  method WriteImage(s: Sink, rows: seq<seq<Rgbe>>, width: nat)
    requires forall y :: 0 <= y < |rows| ==> |rows[y]| == width
    modifies s
    ensures s.bytes == old(s.bytes) + EncodeImage(rows)
  {
    var scratch := new Byte[4 * width];
    var i := 0;
    ghost var goal := s.bytes + EncodeImage(rows);
    while i < |rows|
      invariant i <= |rows| && s.bytes + EncodeImage(rows[i..]) == goal
    {
      assert rows[i..][0] == rows[i] && rows[i..][1..] == rows[i + 1..];
      Assoc(s.bytes, EncodeScanline(rows[i]), EncodeImage(rows[i + 1..]));
      WriteScanline(s, rows[i], scratch);
      i := i + 1;
    }
    assert EncodeImage(rows[i..]) == [];
  }
}

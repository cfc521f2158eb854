/** The scanline encoder of the Radiance HDR writer, and the reader that Greg Ward's
    Radiance file format description (section "Picture File Format") gives for it. */
module Radiance {
  import opened Machine
  import opened Sequences
  import opened Wrappers

  type Byte = b: int | 0 <= b < 256

  /** One pixel: three mantissas and the shared exponent. */
  datatype Rgbe = Rgbe(r: Byte, g: Byte, b: Byte, e: Byte)

  // ------------------------------------------------------------- run lengths

  predicate Triple(s: seq<Byte>, r: nat) {
    r + 2 < |s| && s[r] == s[r + 1] == s[r + 2]
  }

  /** The first place from `r` on where three equal bytes begin, or the end. */
  function FindRun(s: seq<Byte>, r: nat): (i: nat)
    requires r <= |s|
    ensures r <= i <= |s| && (i < |s| ==> Triple(s, i))
    ensures forall k :: r <= k < i ==> !Triple(s, k)
    decreases |s| - r
  {
    if r + 2 >= |s| then |s|
    else if s[r] == s[r + 1] && s[r] == s[r + 2] then r
    else FindRun(s, r + 1)
  }

  /** The end of the stretch of bytes equal to `b` that starts at `r`. */
  function RunEnd(s: seq<Byte>, r: nat, b: Byte): (i: nat)
    requires r <= |s|
    ensures r <= i <= |s| && (i < |s| ==> s[i] != b)
    ensures forall k :: r <= k < i ==> s[k] == b
    ensures r < |s| && s[r] == b ==> r < i
    decreases |s| - r
  {
    if r < |s| && s[r] == b then RunEnd(s, r + 1, b) else r
  }

  /** Where the run that FindRun stopped at ends: at least three bytes on. */
  lemma RunIsLong(s: seq<Byte>, r: nat)
    requires Triple(s, r)
    ensures RunEnd(s, r, s[r]) >= r + 3
    ensures s[r..RunEnd(s, r, s[r])] == Copies(RunEnd(s, r, s[r]) - r, s[r])
  {
    var e := RunEnd(s, r, s[r]);
    assert RunEnd(s, r, s[r]) == RunEnd(s, r + 1, s[r]) == RunEnd(s, r + 2, s[r]) == RunEnd(s, r + 3, s[r]);
  }

  // ----------------------------------------------------------------- packets

  /** A packet of an encoded plane. */
  datatype Packet = Literal(bytes: seq<Byte>) | Repeat(count: nat, value: Byte)

  predicate Legal(p: Packet) {
    match p
    case Literal(bytes) => 1 <= |bytes| <= 128
    case Repeat(count, _) => 1 <= count <= 127
  }

  /** A count and that many bytes. */
  function LiteralBytes(bytes: seq<Byte>): seq<Byte>
    requires |bytes| <= 128
  {
    [|bytes|] + bytes
  }

  function Encode1(p: Packet): seq<Byte>
    requires Legal(p)
  {
    match p
    case Literal(bytes) => LiteralBytes(bytes)
    case Repeat(count, value) => [count + 128, value]
  }

  ghost predicate AllLegal(ps: seq<Packet>) { forall i :: 0 <= i < |ps| ==> Legal(ps[i]) }

  function EncodeAll(ps: seq<Packet>): seq<Byte>
    requires AllLegal(ps)
  {
    if ps == [] then [] else Encode1(ps[0]) + EncodeAll(ps[1..])
  }

  /** The bytes a packet stands for. */
  function Meaning(p: Packet): seq<Byte> {
    match p
    case Literal(bytes) => bytes
    case Repeat(count, value) => Copies(count, value)
  }

  function MeaningAll(ps: seq<Packet>): seq<Byte> {
    if ps == [] then [] else Meaning(ps[0]) + MeaningAll(ps[1..])
  }

  lemma {:induction false} MeaningAppend(a: seq<Packet>, b: seq<Packet>)
    ensures MeaningAll(a + b) == MeaningAll(a) + MeaningAll(b)
  {
    FirstAndRest(a, b);
    if a != [] {
      MeaningAppend(a[1..], b);
      Assoc(Meaning(a[0]), MeaningAll(a[1..]), MeaningAll(b));
    }
  }

  lemma {:induction false} EncodeAppend(a: seq<Packet>, b: seq<Packet>)
    requires AllLegal(a) && AllLegal(b)
    ensures AllLegal(a + b) && EncodeAll(a + b) == EncodeAll(a) + EncodeAll(b)
  {
    FirstAndRest(a, b);
    if a != [] {
      EncodeAppend(a[1..], b);
      Assoc(Encode1(a[0]), EncodeAll(a[1..]), EncodeAll(b));
    }
  }

  lemma LegalAppend(a: seq<Packet>, b: seq<Packet>)
    requires AllLegal(a) && AllLegal(b)
    ensures AllLegal(a + b)
  {
  }

  lemma ThreeParts(a: seq<Packet>, b: seq<Packet>, c: seq<Packet>)
    requires AllLegal(a) && AllLegal(b) && AllLegal(c)
    ensures AllLegal(a + (b + c))
    ensures MeaningAll(a + (b + c)) == MeaningAll(a) + (MeaningAll(b) + MeaningAll(c))
  {
    LegalAppend(b, c);
    LegalAppend(a, b + c);
    MeaningAppend(b, c);
    MeaningAppend(a, b + c);
  }

  lemma ThreeEncoded(a: seq<Packet>, b: seq<Packet>, c: seq<Packet>)
    requires AllLegal(a) && AllLegal(b) && AllLegal(c)
    ensures AllLegal(a + (b + c))
    ensures EncodeAll(a + (b + c)) == EncodeAll(a) + (EncodeAll(b) + EncodeAll(c))
  {
    EncodeAppend(b, c);
    EncodeAppend(a, b + c);
  }

  lemma Reassemble(s: seq<Byte>, x: nat, r: nat, e: nat)
    requires x <= r <= e <= |s|
    ensures s[x..r] + (s[r..e] + s[e..]) == s[x..]
  {
  }

  lemma JoinParts(a: seq<Packet>, b: seq<Packet>, c: seq<Packet>, s: seq<Byte>, x: nat, r: nat, e: nat)
    requires x <= r <= e <= |s| && AllLegal(a) && AllLegal(b) && AllLegal(c)
    requires MeaningAll(a) == s[x..r] && MeaningAll(b) == s[r..e] && MeaningAll(c) == s[e..]
    ensures AllLegal(a + (b + c)) && MeaningAll(a + (b + c)) == s[x..]
  {
    ThreeParts(a, b, c);
    Reassemble(s, x, r, e);
  }

  // ------------------------------------------------------------------- bytes

  /** The bytes the writer emits for the literals from `x` up to `r`. */
  function DumpBytes(s: seq<Byte>, x: nat, r: nat): seq<Byte>
    requires x <= r <= |s|
    decreases r - x
  {
    if x == r then []
    else if r - x <= 128 then LiteralBytes(s[x..r])
    else LiteralBytes(s[x..x + 128]) + DumpBytes(s, x + 128, r)
  }

  /** The bytes the writer emits for a run. */
  function RunBytes(n: nat, b: Byte): seq<Byte> {
    if n == 0 then [] else [Min(n, 127) + 128, b] + RunBytes(n - Min(n, 127), b)
  }

  /** The bytes the writer emits up to the end of the next run, and then `rest`. */
  function TurnBytes(s: seq<Byte>, x: nat, r: nat, e: nat, rest: seq<Byte>): seq<Byte>
    requires x <= r < e <= |s|
  {
    DumpBytes(s, x, r) + (RunBytes(e - r, s[r]) + rest)
  }

  /** The bytes the writer emits for a plane from byte `x` on. */
  function PlaneBytes(s: seq<Byte>, x: nat): seq<Byte>
    requires x <= |s|
    decreases |s| - x
  {
    if x == |s| then [] else
    var r := FindRun(s, x);
    if r == |s| then DumpBytes(s, x, r) else
    var e := RunEnd(s, r, s[r]);
    TurnBytes(s, x, r, e, PlaneBytes(s, e))
  }

  lemma {:induction false} FirstTurn(s: seq<Byte>, x: nat, r: nat, e: nat)
    requires x < |s| && r == FindRun(s, x) < |s| && e == RunEnd(s, r, s[r])
    ensures PlaneBytes(s, x) == TurnBytes(s, x, r, e, PlaneBytes(s, e))
  {
  }

  function EncodePlane(s: seq<Byte>): seq<Byte> { PlaneBytes(s, 0) }

  // ------------------------------------------------------------------- sizes

  /** How many chunks of at most `size` bytes `n` bytes take. */
  function Chunks(n: nat, size: nat): nat
    requires size > 0
  {
    (n + size - 1) / size
  }

  /** Literals, a run of at least three, and the rest. */
  lemma SizeArithmetic(l: nat, r: nat, m: nat)
    requires r >= 3
    ensures l + Chunks(l, 128) + 2 * Chunks(r, 127) + m + Chunks(m, 128)
         <= (l + r + m) + Chunks(l + r + m, 128)
  {
  }

  lemma JoinSize(a: seq<Packet>, b: seq<Packet>, c: seq<Packet>, l: nat, r: nat, m: nat)
    requires AllLegal(a) && AllLegal(b) && AllLegal(c) && r >= 3
    requires |EncodeAll(a)| == l + Chunks(l, 128) && |EncodeAll(b)| == 2 * Chunks(r, 127)
    requires |EncodeAll(c)| <= m + Chunks(m, 128)
    ensures AllLegal(a + (b + c)) && |EncodeAll(a + (b + c))| <= (l + r + m) + Chunks(l + r + m, 128)
  {
    ThreeEncoded(a, b, c);
    SizeArithmetic(l, r, m);
  }

  // ------------------------------------------------- which bytes are in runs

  /** For each byte, whether it is written as part of a run. */
  function Kinds(ps: seq<Packet>): seq<bool> {
    if ps == [] then []
    else Copies(|Meaning(ps[0])|, ps[0].Repeat?) + Kinds(ps[1..])
  }

  lemma {:induction false} KindsAppend(a: seq<Packet>, b: seq<Packet>)
    ensures Kinds(a + b) == Kinds(a) + Kinds(b)
  {
    FirstAndRest(a, b);
    if a != [] {
      KindsAppend(a[1..], b);
      var head := Copies(|Meaning(a[0])|, a[0].Repeat?);
      Assoc(head, Kinds(a[1..]), Kinds(b));
    }
  }

  lemma ThreeKinds(a: seq<Packet>, b: seq<Packet>, c: seq<Packet>)
    ensures Kinds(a + (b + c)) == Kinds(a) + (Kinds(b) + Kinds(c))
  {
    KindsAppend(b, c);
    KindsAppend(a, b + c);
  }

  /** Byte i lies in a block of at least three equal bytes. */
  ghost predicate InBlock(s: seq<Byte>, i: nat) {
    exists j: nat :: j <= i <= j + 2 && Triple(s, j)
  }

  ghost predicate KindsFrom(s: seq<Byte>, x: nat, kinds: seq<bool>)
    requires x <= |s|
  {
    |kinds| == |s| - x && forall k :: 0 <= k < |kinds| ==> (kinds[k] <==> InBlock(s, x + k))
  }

  /** No block crosses into `x` from before. */
  ghost predicate Boundary(s: seq<Byte>, x: nat) {
    0 < x < |s| ==> s[x - 1] != s[x]
  }

  lemma NoBlockBefore(s: seq<Byte>, x: nat, r: nat, i: nat)
    requires x <= i < r <= |s| && Boundary(s, x)
    requires forall k :: x <= k < r ==> !Triple(s, k)
    ensures !InBlock(s, i)
  {
    forall j: nat | j <= i <= j + 2 ensures !Triple(s, j) {
      if j < x {
        assert j <= x - 1 && x <= j + 2;
      }
    }
  }

  lemma BlockInRun(s: seq<Byte>, r: nat, i: nat)
    requires Triple(s, r) && r <= i < RunEnd(s, r, s[r])
    ensures InBlock(s, i)
  {
    RunIsLong(s, r);
    var j := Min(i, RunEnd(s, r, s[r]) - 3);
    assert Triple(s, j);
  }

  lemma JoinKinds(s: seq<Byte>, x: nat, r: nat, e: nat, tail: seq<bool>)
    requires x <= r < e <= |s| && Boundary(s, x) && Triple(s, r) && e == RunEnd(s, r, s[r])
    requires forall k :: x <= k < r ==> !Triple(s, k)
    requires KindsFrom(s, e, tail)
    ensures KindsFrom(s, x, Copies(r - x, false) + (Copies(e - r, true) + tail))
  {
    var kinds := Copies(r - x, false) + (Copies(e - r, true) + tail);
    forall k | 0 <= k < |kinds| ensures kinds[k] <==> InBlock(s, x + k) {
      if x + k < r {
        NoBlockBefore(s, x, r, x + k);
      } else if x + k < e {
        BlockInRun(s, r, x + k);
      } else {
        assert kinds[k] == tail[x + k - e];
      }
    }
  }

  lemma NoRunKinds(s: seq<Byte>, x: nat)
    requires x <= |s| && forall k :: x <= k < |s| ==> !Triple(s, k)
    ensures Boundary(s, x) ==> KindsFrom(s, x, Copies(|s| - x, false))
  {
    if Boundary(s, x) {
      forall i: nat | x <= i < |s| ensures !InBlock(s, i) {
        NoBlockBefore(s, x, |s|, i);
      }
    }
  }

  lemma WithRunKinds(s: seq<Byte>, x: nat, r: nat, e: nat, a: seq<Packet>, b: seq<Packet>, c: seq<Packet>)
    requires x <= r < e <= |s| && Triple(s, r) && e == RunEnd(s, r, s[r])
    requires forall k :: x <= k < r ==> !Triple(s, k)
    requires Kinds(a) == Copies(r - x, false) && Kinds(b) == Copies(e - r, true) && KindsFrom(s, e, Kinds(c))
    ensures Boundary(s, x) ==> KindsFrom(s, x, Kinds(a + (b + c)))
  {
    if Boundary(s, x) {
      JoinKinds(s, x, r, e, Kinds(c));
      ThreeKinds(a, b, c);
    }
  }

  // ------------------------------------------------------------ full packets

  /** `q` may follow `p`: a packet is cut short only where its literals or its run end. */
  predicate Joint(p: Packet, q: Packet) {
    && (p.Literal? && q.Literal? ==> |p.bytes| == 128)
    && (p.Repeat? && q.Repeat? && p.value == q.value ==> p.count == 127)
  }

  ghost predicate Full(ps: seq<Packet>) {
    forall i, j :: 0 <= i < |ps| && j == i + 1 < |ps| ==> Joint(ps[i], ps[j])
  }

  ghost predicate Literals(ps: seq<Packet>) { forall i :: 0 <= i < |ps| ==> ps[i].Literal? }

  ghost predicate Repeats(ps: seq<Packet>, b: Byte) {
    forall i :: 0 <= i < |ps| ==> ps[i].Repeat? && ps[i].value == b
  }

  lemma FullAppend(a: seq<Packet>, b: seq<Packet>)
    requires Full(a) && Full(b) && (a != [] && b != [] ==> Joint(a[|a| - 1], b[0]))
    ensures Full(a + b)
  {
    forall i, j | 0 <= i < |a + b| && j == i + 1 < |a + b| ensures Joint((a + b)[i], (a + b)[j]) {
      if i < |a| && j < |a| {
        assert Joint(a[i], a[j]);
      } else if i >= |a| {
        assert Joint(b[i - |a|], b[j - |a|]);
      }
    }
  }

  lemma PrependLiteral(p: Packet, ps: seq<Packet>)
    requires p.Literal? && Literals(ps) && Full(ps) && (ps != [] ==> |p.bytes| == 128)
    ensures Literals([p] + ps) && Full([p] + ps)
  {
    FullAppend([p], ps);
  }

  lemma PrependRepeat(p: Packet, ps: seq<Packet>, b: Byte)
    requires p.Repeat? && p.value == b && Repeats(ps, b) && Full(ps) && (ps != [] ==> p.count == 127)
    ensures Repeats([p] + ps, b) && Full([p] + ps)
  {
    FullAppend([p], ps);
  }

  /** The first packet begins with the first byte. */
  lemma FirstByte(ps: seq<Packet>, t: seq<Byte>)
    requires AllLegal(ps) && MeaningAll(ps) == t && ps != []
    ensures t != [] && Meaning(ps[0]) != [] && Meaning(ps[0])[0] == t[0]
  {
    assert Legal(ps[0]);
  }

  lemma RunMeetsRest(b: seq<Packet>, c: seq<Packet>, value: Byte, t: seq<Byte>)
    requires Repeats(b, value) && AllLegal(c) && MeaningAll(c) == t && (t != [] ==> t[0] != value)
    ensures b != [] && c != [] ==> Joint(b[|b| - 1], c[0])
  {
    if c != [] {
      FirstByte(c, t);
    }
  }

  lemma JoinFull(a: seq<Packet>, b: seq<Packet>, c: seq<Packet>, value: Byte, t: seq<Byte>)
    requires Full(a) && Full(b) && Full(c) && b != [] && Literals(a) && Repeats(b, value)
    requires AllLegal(c) && MeaningAll(c) == t && (t != [] ==> t[0] != value)
    ensures Full(a + (b + c))
  {
    RunMeetsRest(b, c, value, t);
    FullAppend(b, c);
    assert (b + c)[0] == b[0];
    FullAppend(a, b + c);
  }

  // -------------------------------------------------- the packets of a plane

  /** What one packet in front of others adds. */
  lemma Prepend(p: Packet, ps: seq<Packet>)
    requires Legal(p) && AllLegal(ps)
    ensures AllLegal([p] + ps) && EncodeAll([p] + ps) == Encode1(p) + EncodeAll(ps)
    ensures MeaningAll([p] + ps) == Meaning(p) + MeaningAll(ps)
    ensures Kinds([p] + ps) == Copies(|Meaning(p)|, p.Repeat?) + Kinds(ps)
  {
    assert ([p] + ps)[0] == p && ([p] + ps)[1..] == ps;
  }

  /** Legal literals, full but for the last, that stand for the bytes from `x` up to `r`. */
  ghost predicate IsDump(s: seq<Byte>, x: nat, r: nat, ps: seq<Packet>)
    requires x <= r <= |s|
  {
    && AllLegal(ps) && MeaningAll(ps) == s[x..r]
    && EncodeAll(ps) == DumpBytes(s, x, r) && |EncodeAll(ps)| == (r - x) + Chunks(r - x, 128)
    && Kinds(ps) == Copies(r - x, false) && Literals(ps) && Full(ps)
  }

  /** Legal runs, full but for the last, that stand for `n` times the byte `b`. */
  ghost predicate IsRuns(n: nat, b: Byte, ps: seq<Packet>) {
    && AllLegal(ps) && MeaningAll(ps) == Copies(n, b)
    && EncodeAll(ps) == RunBytes(n, b) && |EncodeAll(ps)| == 2 * Chunks(n, 127)
    && Kinds(ps) == Copies(n, true) && Repeats(ps, b) && Full(ps) && (n > 0 ==> ps != [])
  }

  lemma LastIsEmpty(ps: seq<Packet>, t: seq<Byte>)
    requires AllLegal(ps) && MeaningAll(ps) == t
    ensures t == [] ==> ps == []
  {
    if ps != [] {
      FirstByte(ps, t);
    }
  }

  lemma NextDump(s: seq<Byte>, x: nat, r: nat, len: nat)
    requires x < r <= |s| && len == Min(r - x, 128)
    ensures DumpBytes(s, x, r) == LiteralBytes(s[x..x + len]) + DumpBytes(s, x + len, r)
    ensures s[x..x + len] + s[x + len..r] == s[x..r]
    ensures len + 1 + (r - (x + len)) + Chunks(r - (x + len), 128) == (r - x) + Chunks(r - x, 128)
    ensures len < 128 ==> x + len == r
  {
  }

  lemma OneMoreDump(s: seq<Byte>, x: nat, r: nat, head: Packet, tail: seq<Packet>)
    requires x < r <= |s| && head == Literal(s[x..x + Min(r - x, 128)])
    requires IsDump(s, x + Min(r - x, 128), r, tail)
    ensures IsDump(s, x, r, [head] + tail)
  {
    var len := Min(r - x, 128);
    NextDump(s, x, r, len);
    Prepend(head, tail);
    LastIsEmpty(tail, s[x + len..r]);
    PrependLiteral(head, tail);
  }

  lemma NextRuns(n: nat, b: Byte, m: nat)
    requires n > 0 && m == Min(n, 127)
    ensures Copies(m, b) + Copies(n - m, b) == Copies(n, b) && Copies(m, true) + Copies(n - m, true) == Copies(n, true)
    ensures RunBytes(n, b) == [m + 128, b] + RunBytes(n - m, b)
    ensures 2 + 2 * Chunks(n - m, 127) == 2 * Chunks(n, 127)
    ensures m < 127 ==> m == n
  {
  }

  lemma OneMoreRun(n: nat, b: Byte, head: Packet, tail: seq<Packet>)
    requires n > 0 && head == Repeat(Min(n, 127), b) && IsRuns(n - Min(n, 127), b, tail)
    ensures IsRuns(n, b, [head] + tail)
  {
    NextRuns(n, b, Min(n, 127));
    Prepend(head, tail);
    LastIsEmpty(tail, Copies(n - Min(n, 127), b));
    PrependRepeat(head, tail, b);
  }

  /** The literals up to a run, at most 128 bytes each. */
  function Dump(s: seq<Byte>, x: nat, r: nat): (ps: seq<Packet>)
    requires x <= r <= |s|
    ensures IsDump(s, x, r, ps)
    decreases r - x
  {
    if x == r then [] else
    var len := Min(r - x, 128);
    var head, tail := Literal(s[x..x + len]), Dump(s, x + len, r);
    OneMoreDump(s, x, r, head, tail);
    [head] + tail
  }

  /** A run in packets of at most 127 bytes. */
  function Runs(n: nat, b: Byte): (ps: seq<Packet>)
    ensures IsRuns(n, b, ps)
  {
    if n == 0 then [] else
    var head, tail := Repeat(Min(n, 127), b), Runs(n - Min(n, 127), b);
    OneMoreRun(n, b, head, tail);
    [head] + tail
  }

  /** The packets are legal, stand for the bytes from `x` on, are cut short only where they
      must be, take at most one byte more per started 128, and have their runs exactly where
      three or more equal bytes are. */
  ghost predicate Faithful(s: seq<Byte>, x: nat, ps: seq<Packet>, bytes: seq<Byte>)
    requires x <= |s|
  {
    && AllLegal(ps) && MeaningAll(ps) == s[x..] && EncodeAll(ps) == bytes && Full(ps)
    && |bytes| <= (|s| - x) + Chunks(|s| - x, 128)
    && (Boundary(s, x) ==> KindsFrom(s, x, Kinds(ps)))
  }

  lemma JoinAll(a: seq<Packet>, b: seq<Packet>, c: seq<Packet>, s: seq<Byte>, x: nat, r: nat, e: nat,
                bytes: seq<Byte>, whole: seq<Byte>)
    requires x <= r && Triple(s, r) && e == RunEnd(s, r, s[r])
    requires r <= e <= |s| && forall k :: x <= k < r ==> !Triple(s, k)
    requires AllLegal(a) && MeaningAll(a) == s[x..r] && Kinds(a) == Copies(r - x, false) && Literals(a) && Full(a)
    requires EncodeAll(a) == DumpBytes(s, x, r) && |EncodeAll(a)| == (r - x) + Chunks(r - x, 128)
    requires AllLegal(b) && MeaningAll(b) == Copies(e - r, s[r]) && Kinds(b) == Copies(e - r, true)
    requires b != [] && Repeats(b, s[r]) && Full(b)
    requires EncodeAll(b) == RunBytes(e - r, s[r]) && |EncodeAll(b)| == 2 * Chunks(e - r, 127)
    requires Faithful(s, e, c, bytes) && whole == TurnBytes(s, x, r, e, bytes)
    ensures Faithful(s, x, a + (b + c), whole)
  {
    RunIsLong(s, r);
    JoinParts(a, b, c, s, x, r, e);
    ThreeEncoded(a, b, c);
    JoinSize(a, b, c, r - x, e - r, |s| - e);
    WithRunKinds(s, x, r, e, a, b, c);
    JoinFull(a, b, c, s[r], s[e..]);
  }

  lemma JoinTurn(a: seq<Packet>, b: seq<Packet>, c: seq<Packet>, s: seq<Byte>, x: nat, r: nat, e: nat,
                 bytes: seq<Byte>, whole: seq<Byte>)
    requires x <= r < e <= |s| && Triple(s, r) && e == RunEnd(s, r, s[r])
    requires forall k :: x <= k < r ==> !Triple(s, k)
    requires IsDump(s, x, r, a) && IsRuns(e - r, s[r], b)
    requires Faithful(s, e, c, bytes) && whole == TurnBytes(s, x, r, e, bytes)
    ensures Faithful(s, x, a + (b + c), whole)
  {
    JoinAll(a, b, c, s, x, r, e, bytes, whole);
  }

  lemma LastDump(a: seq<Packet>, s: seq<Byte>, x: nat)
    requires x <= |s| && forall k :: x <= k < |s| ==> !Triple(s, k)
    requires IsDump(s, x, |s|, a)
    ensures Faithful(s, x, a, EncodeAll(a))
  {
    assert s[x..|s|] == s[x..];
    NoRunKinds(s, x);
  }

  /** The packets of a plane from byte `x` on. They stand for its bytes; every count byte is
      in range, 1..128 for literals and 129..255 for runs; together they take at most one
      byte more per started 128; and the runs are exactly the blocks of equal bytes. */
  function Packets(s: seq<Byte>, x: nat): (ps: seq<Packet>)
    requires x <= |s|
    ensures Faithful(s, x, ps, PlaneBytes(s, x))
    decreases |s| - x
  {
    if x == |s| then [] else
    var r := FindRun(s, x);
    if r == |s| then
      var a := Dump(s, x, |s|);
      LastDump(a, s, x);
      a
    else
    var e := RunEnd(s, r, s[r]);
    var a, b, c := Dump(s, x, r), Runs(e - r, s[r]), Packets(s, e);
    FirstTurn(s, x, r, e);
    JoinTurn(a, b, c, s, x, r, e, PlaneBytes(s, e), PlaneBytes(s, x));
    a + (b + c)
  }

  /** Each encoded plane takes at most width + ceil(width / 128) bytes. */
  lemma PlaneSize(s: seq<Byte>)
    ensures |EncodePlane(s)| <= |s| + (|s| + 127) / 128
  {
    assert Faithful(s, 0, Packets(s, 0), EncodePlane(s));
  }

  lemma InBlockIs(s: seq<Byte>, i: nat)
    ensures InBlock(s, i) <==>
      exists j: nat :: j <= i <= j + 2 && j + 2 < |s| && s[j] == s[j + 1] == s[j + 2]
  {
    if InBlock(s, i) {
      var j: nat :| j <= i <= j + 2 && Triple(s, j);
      assert s[j] == s[j + 1] == s[j + 2];
    }
    if j: nat :| j <= i <= j + 2 && j + 2 < |s| && s[j] == s[j + 1] == s[j + 2] {
      assert Triple(s, j);
    }
  }

  /** Run packets cover exactly the blocks of three or more equal bytes; every other byte
      is a literal. */
  lemma RunsAreTheBlocks(s: seq<Byte>)
    ensures |Kinds(Packets(s, 0))| == |s|
    ensures forall i: nat :: i < |s| ==> (Kinds(Packets(s, 0))[i] <==>
              exists j: nat :: j <= i <= j + 2 && j + 2 < |s| && s[j] == s[j + 1] == s[j + 2])
  {
    assert Boundary(s, 0) && KindsFrom(s, 0, Kinds(Packets(s, 0)));
    forall i: nat | i < |s|
      ensures Kinds(Packets(s, 0))[i] <==>
        exists j: nat :: j <= i <= j + 2 && j + 2 < |s| && s[j] == s[j + 1] == s[j + 2]
    {
      assert Kinds(Packets(s, 0))[i] <==> InBlock(s, 0 + i);
      InBlockIs(s, i);
    }
  }

  lemma {:induction false} KindsOfAll(ps: seq<Packet>)
    ensures |Kinds(ps)| == |MeaningAll(ps)|
  {
    if ps != [] {
      KindsOfAll(ps[1..]);
    }
  }

  /** What the first packet says about the bytes and their kinds, and the second if there
      are more bytes. */
  lemma {:induction false} Heads(ps: seq<Packet>)
    requires AllLegal(ps) && ps != []
    ensures var n := |Meaning(ps[0])|;
      && 1 <= n <= |MeaningAll(ps)| == |Kinds(ps)|
      && (forall k :: 0 <= k < n ==> MeaningAll(ps)[k] == Meaning(ps[0])[k] && Kinds(ps)[k] == ps[0].Repeat?)
      && (n < |Kinds(ps)| ==> |ps| > 1 && Kinds(ps)[n] == ps[1].Repeat?)
      && (n < |Kinds(ps)| ==> Meaning(ps[1]) != [] && MeaningAll(ps)[n] == Meaning(ps[1])[0])
      && MeaningAll(ps)[n..] == MeaningAll(ps[1..]) && Kinds(ps)[n..] == Kinds(ps[1..])
  {
    KindsOfAll(ps);
    KindsOfAll(ps[1..]);
    if ps[1..] != [] {
      assert ps[1..][0] == ps[1] && Legal(ps[1]);
    }
  }

  /** Of two full cuts of the same bytes and kinds neither begins with the shorter packet. */
  lemma {:induction false} NotShorter(ps: seq<Packet>, qs: seq<Packet>)
    requires AllLegal(ps) && AllLegal(qs) && ps != [] && qs != [] && Full(ps)
    requires MeaningAll(ps) == MeaningAll(qs) && Kinds(ps) == Kinds(qs)
    ensures ps[0].Repeat? == qs[0].Repeat? && |Meaning(ps[0])| >= |Meaning(qs[0])|
  {
    Heads(ps);
    Heads(qs);
    assert Kinds(ps)[0] == Kinds(qs)[0] && Legal(qs[0]);
    assert |ps| > 1 ==> Joint(ps[0], ps[1]);
  }

  lemma SameHead(p: Packet, q: Packet, t: seq<Byte>)
    requires Legal(p) && Legal(q) && p.Repeat? == q.Repeat? && |Meaning(p)| == |Meaning(q)| <= |t|
    requires forall k :: 0 <= k < |Meaning(p)| ==> t[k] == Meaning(p)[k] == Meaning(q)[k]
    ensures p == q
  {
    assert Meaning(p)[0] == Meaning(q)[0];
    assert Meaning(p) == Meaning(q);
  }

  lemma {:induction false} OneFullCut(ps: seq<Packet>, qs: seq<Packet>)
    requires AllLegal(ps) && AllLegal(qs) && Full(ps) && Full(qs)
    requires MeaningAll(ps) == MeaningAll(qs) && Kinds(ps) == Kinds(qs)
    ensures ps == qs
  {
    if ps != [] { Heads(ps); }
    if qs != [] { Heads(qs); }
    if ps != [] && qs != [] {
      NotShorter(ps, qs);
      NotShorter(qs, ps);
      SameHead(ps[0], qs[0], MeaningAll(ps));
      OneFullCut(ps[1..], qs[1..]);
      assert ps == [ps[0]] + ps[1..] && qs == [qs[0]] + qs[1..];
    }
  }

  /** The writer's cut of a plane is the only one into legal packets whose runs are exactly
      the blocks of three or more equal bytes, and in which of two literals in a row, or two
      runs of the same byte, the first is as long as it can be. */
  lemma {:induction false} PacketsAreCanonical(s: seq<Byte>, ps: seq<Packet>)
    requires AllLegal(ps) && MeaningAll(ps) == s && |Kinds(ps)| == |s|
    requires forall i: nat :: i < |s| ==> (Kinds(ps)[i] <==>
               exists j: nat :: j <= i <= j + 2 && j + 2 < |s| && s[j] == s[j + 1] == s[j + 2])
    requires forall i, j :: 0 <= i < |ps| && j == i + 1 < |ps| ==>
               && (ps[i].Literal? && ps[j].Literal? ==> |ps[i].bytes| == 128)
               && (ps[i].Repeat? && ps[j].Repeat? && ps[i].value == ps[j].value ==> ps[i].count == 127)
    ensures EncodePlane(s) == EncodeAll(ps)
  {
    var own := Packets(s, 0);
    assert Faithful(s, 0, own, EncodePlane(s)) && s[0..] == s;
    RunsAreTheBlocks(s);
    assert Kinds(ps) == Kinds(own);
    assert Full(ps);
    OneFullCut(ps, own);
  }

  /** Such a cut there is: of two literals in a row the first is full, and of two runs of
      the same byte. */
  lemma PacketsAreFull(s: seq<Byte>, i: nat)
    requires i + 1 < |Packets(s, 0)|
    ensures EncodeAll(Packets(s, 0)) == EncodePlane(s) && MeaningAll(Packets(s, 0)) == s
    ensures var p, q := Packets(s, 0)[i], Packets(s, 0)[i + 1];
      && (p.Literal? && q.Literal? ==> |p.bytes| == 128)
      && (p.Repeat? && q.Repeat? && p.value == q.value ==> p.count == 127)
  {
    assert Faithful(s, 0, Packets(s, 0), EncodePlane(s)) && s[0..] == s;
    assert Joint(Packets(s, 0)[i], Packets(s, 0)[i + 1]);
  }

  // ------------------------------------------------------------------ reader

  /** Reads one plane of `width` bytes: a count over 128 repeats the next byte, any other
      copies that many. */
  function ReadPlane(width: nat, bytes: seq<Byte>): Option<(seq<Byte>, seq<Byte>)>
    decreases |bytes|
  {
    if width == 0 then Some(([], bytes))
    else if bytes == [] then None
    else if bytes[0] > 128 then
      var n := bytes[0] - 128;
      if n > width || |bytes| < 2 then None else
      match ReadPlane(width - n, bytes[2..])
      case None => None
      case Some((plane, rest)) => Some((Copies(n, bytes[1]) + plane, rest))
    else
      var n := bytes[0];
      if n > width || |bytes| < 1 + n then None else
      match ReadPlane(width - n, bytes[1 + n..])
      case None => None
      case Some((plane, rest)) => Some((bytes[1..1 + n] + plane, rest))
  }

  lemma ReadLiteral(lit: seq<Byte>, width: nat, plane: seq<Byte>, tail: seq<Byte>, rest: seq<Byte>)
    requires 1 <= |lit| <= 128 && ReadPlane(width, tail) == Some((plane, rest))
    ensures Encode1(Literal(lit)) == [|lit|] + lit
    ensures ReadPlane(|lit| + width, Encode1(Literal(lit)) + tail) == Some((lit + plane, rest))
  {
    var n := |lit|;
    var all := [n] + lit + tail;
    assert all[0] == n && all[1..1 + n] == lit && all[1 + n..] == tail;
  }

  lemma {:induction false} ReadRun(n: nat, value: Byte, width: nat, plane: seq<Byte>, tail: seq<Byte>,
                                   rest: seq<Byte>, all: seq<Byte>)
    requires 1 <= n <= 127 && ReadPlane(width, tail) == Some((plane, rest))
    requires |all| >= 2 && all[0] == n + 128 && all[1] == value && all[2..] == tail
    ensures ReadPlane(n + width, all) == Some((Copies(n, value) + plane, rest))
  {
  }

  lemma ReadRepeat(n: nat, value: Byte, width: nat, plane: seq<Byte>, tail: seq<Byte>, rest: seq<Byte>)
    requires 1 <= n <= 127 && ReadPlane(width, tail) == Some((plane, rest))
    ensures Encode1(Repeat(n, value)) == [n + 128, value]
    ensures ReadPlane(n + width, Encode1(Repeat(n, value)) + tail) == Some((Copies(n, value) + plane, rest))
  {
    var all := [n + 128, value] + tail;
    assert all[2..] == tail;
    ReadRun(n, value, width, plane, tail, rest, all);
  }

  lemma ReadPacket(p: Packet, plane: seq<Byte>, tail: seq<Byte>, rest: seq<Byte>,
                   all: seq<Byte>, whole: seq<Byte>)
    requires Legal(p) && ReadPlane(|plane|, tail) == Some((plane, rest))
    requires all == Encode1(p) + tail && whole == Meaning(p) + plane
    ensures ReadPlane(|whole|, all) == Some((whole, rest))
  {
    match p
    case Literal(bytes) => ReadLiteral(bytes, |plane|, plane, tail, rest);
    case Repeat(count, value) => ReadRepeat(count, value, |plane|, plane, tail, rest);
  }

  lemma {:induction false} ReadPackets(ps: seq<Packet>, rest: seq<Byte>, all: seq<Byte>, whole: seq<Byte>)
    requires AllLegal(ps) && all == EncodeAll(ps) + rest && whole == MeaningAll(ps)
    ensures ReadPlane(|whole|, all) == Some((whole, rest))
    decreases |ps|
  {
    if ps == [] {
      assert all == rest;
    } else {
      var tail := EncodeAll(ps[1..]) + rest;
      ReadPackets(ps[1..], rest, tail, MeaningAll(ps[1..]));
      Assoc(Encode1(ps[0]), EncodeAll(ps[1..]), rest);
      ReadPacket(ps[0], MeaningAll(ps[1..]), tail, rest, all, whole);
    }
  }

  /** Reading an encoded plane gives its bytes back and leaves what follows. */
  lemma PlaneRoundTrip(s: seq<Byte>, rest: seq<Byte>)
    ensures ReadPlane(|s|, EncodePlane(s) + rest) == Some((s, rest))
  {
    assert s[0..] == s;
    assert Faithful(s, 0, Packets(s, 0), EncodePlane(s));
    ReadPackets(Packets(s, 0), rest, EncodePlane(s) + rest, s);
  }
}

/** struct rsched_queue: a growable array of tiles with a shared counter, and how
    rsched_create_tasks fills it. */
module TaskQueue {
  import opened Geometry
  import opened Machine
  import opened Sequences
  import opened Tiling

  const QUE_DISCARD := 1
  const QUE_EXTEND := 2
  const QUE_ZERO := 4

  predicate Has(flags: nat, bit: nat)
    requires bit > 0
  {
    (flags / bit) % 2 == 1
  }

  // ------------------------------------------------------------- capacity

  /** The capacity after a push. */
  function Grown(capacity: nat, length: nat): nat {
    if length >= capacity then capacity + capacity / 4 else capacity
  }

  /** All of `k` pushes find room. */
  predicate PushesFit(capacity: nat, length: nat, k: nat)
    decreases k
  {
    k == 0 || (length < Grown(capacity, length) && PushesFit(Grown(capacity, length), length + 1, k - 1))
  }

  /** Growing by a quarter makes room exactly when that quarter is at least one slot. */
  lemma {:induction false} PushesFitIff(capacity: nat, length: nat, k: nat)
    requires length <= capacity
    ensures PushesFit(capacity, length, k) <==> capacity >= 4 || length + k <= capacity
    decreases k
  {
    if k > 0 && length < Grown(capacity, length) {
      PushesFitIff(Grown(capacity, length), length + 1, k - 1);
    }
  }

  /** The capacity after `k` pushes that all find room. */
  function CapacityAfter(capacity: nat, length: nat, k: nat): nat
    decreases k
  {
    if k == 0 then capacity else CapacityAfter(Grown(capacity, length), length + 1, k - 1)
  }

  lemma {:induction false} PushesSplit(capacity: nat, length: nat, j: nat, k: nat)
    ensures PushesFit(capacity, length, j + k)
       <==> PushesFit(capacity, length, j) && PushesFit(CapacityAfter(capacity, length, j), length + j, k)
    ensures CapacityAfter(capacity, length, j + k) == CapacityAfter(CapacityAfter(capacity, length, j), length + j, k)
    decreases j
  {
    if j > 0 {
      PushesSplit(Grown(capacity, length), length + 1, j - 1, k);
    }
  }

  /** The first of c, c + c/4, ... that is at least `need`. */
  function FirstRoom(c: nat, need: nat): (r: nat)
    requires c >= 4 || need <= c
    ensures r >= need && r >= c
    decreases need - c
  {
    if need <= c then c else FirstRoom(c + c / 4, need)
  }

  /** However many pushes there are, the capacity ends at the first one with room for all. */
  lemma {:induction false} CapacityIsFirstRoom(c: nat, l: nat, k: nat)
    requires l <= c && (c >= 4 || l + k <= c)
    ensures CapacityAfter(c, l, k) == FirstRoom(c, l + k)
    decreases k
  {
    if k > 0 {
      CapacityIsFirstRoom(Grown(c, l), l + 1, k - 1);
    }
  }

  /** `need` is one of c, c + c/4, ... */
  predicate OnChain(c: nat, need: nat)
    decreases need - c
  {
    c == need || (4 <= c < need && OnChain(c + c / 4, need))
  }

  lemma {:induction false} FirstRoomIsTight(c: nat, need: nat)
    requires c >= 4 || need <= c
    ensures FirstRoom(c, need) == need <==> OnChain(c, need)
    decreases need - c
  {
    if c < need {
      FirstRoomIsTight(c + c / 4, need);
    }
  }

  // -------------------------------------------------------------- spare slots

  /** How many tiles a surface has. */
  function TilesOf(width: nat, height: nat, gx: nat, gy: nat): nat
    requires width > 0 && height > 0 && gx > 0 && gy > 0
  {
    CeilDiv(width - 1, gx) * CeilDiv(height - 1, gy)
  }

  /** The reservation for a surface can take its tiles. */
  predicate ReservationFits(width: nat, height: nat, gx: nat, gy: nat)
    requires width > 0 && height > 0 && gx > 0 && gy > 0 && Mul32(gx, gy) > 0
  {
    || ReservedLength(width, height, gx, gy) >= 4
    || TilesOf(width, height, gx, gy) <= ReservedLength(width, height, gx, gy)
  }

  /** A slot is left behind the tiles: their number is none of the capacities the queue goes
      through. */
  predicate HasSpare(width: nat, height: nat, gx: nat, gy: nat)
    requires width > 0 && height > 0 && gx > 0 && gy > 0 && Mul32(gx, gy) > 0
  {
    !OnChain(ReservedLength(width, height, gx, gy), TilesOf(width, height, gx, gy))
  }

  /** The array rsched_create_tasks leaves behind. */
  function CreatedSlots(width: nat, height: nat, gx: nat, gy: nat): seq<Tile>
    requires width > 0 && height > 0 && gx > 0 && gy > 0 && Mul32(gx, gy) > 0
    requires ReservationFits(width, height, gx, gy)
  {
    var tiles := SurfaceTiles(width, height, gx, gy);
    SurfaceTileCount(width, height, gx, gy);
    tiles + Copies(FirstRoom(ReservedLength(width, height, gx, gy), |tiles|) - |tiles|, ZERO_TILE)
  }

  lemma SurfaceTileCount(width: nat, height: nat, gx: nat, gy: nat)
    requires width > 0 && height > 0 && gx > 0 && gy > 0
    ensures |SurfaceTiles(width, height, gx, gy)| == TilesOf(width, height, gx, gy)
  {
    TileCount(0, width - 1, 0, height - 1, gx, gy);
  }

  /** A spare slot depends on sides and grains alone. */
  lemma SpareIff(width: nat, height: nat, gx: nat, gy: nat)
    requires width > 0 && height > 0 && gx > 0 && gy > 0 && Mul32(gx, gy) > 0
    requires ReservationFits(width, height, gx, gy)
    ensures |CreatedSlots(width, height, gx, gy)| > |SurfaceTiles(width, height, gx, gy)|
       <==> HasSpare(width, height, gx, gy)
  {
    SurfaceTileCount(width, height, gx, gy);
    FirstRoomIsTight(ReservedLength(width, height, gx, gy), TilesOf(width, height, gx, gy));
  }

  lemma TilesFirst(width: nat, height: nat, gx: nat, gy: nat, k: nat)
    requires width > 0 && height > 0 && gx > 0 && gy > 0 && Mul32(gx, gy) > 0
    requires ReservationFits(width, height, gx, gy) && k < |SurfaceTiles(width, height, gx, gy)|
    ensures k < |CreatedSlots(width, height, gx, gy)|
    ensures CreatedSlots(width, height, gx, gy)[k] == SurfaceTiles(width, height, gx, gy)[k]
  {
  }

  /** What stands in the array, tile by tile, with sides and grains written out. */
  lemma CreatedTile(width: nat, height: nat, gx: nat, gy: nat, i: nat, j: nat)
    requires width > 0 && height > 0 && gx > 0 && gy > 0 && Mul32(gx, gy) > 0
    requires ReservationFits(width, height, gx, gy) && i * gx < width - 1 && j * gy < height - 1
    ensures var c := CeilDiv(width - 1, gx);
      && j * c + i < |CreatedSlots(width, height, gx, gy)|
      && CreatedSlots(width, height, gx, gy)[j * c + i]
      == Tile(i * gx, if (i + 1) * gx < width - 1 then (i + 1) * gx else width - 1,
              j * gy, if (j + 1) * gy < height - 1 then (j + 1) * gy else height - 1)
  {
    TileAt(0, width - 1, 0, height - 1, gx, gy, i, j);
    TilesFirst(width, height, gx, gy, j * CeilDiv(width - 1, gx) + i);
  }

  /** Whatever stands behind the tiles is zero. */
  lemma CreatedRest(width: nat, height: nat, gx: nat, gy: nat, k: nat)
    requires width > 0 && height > 0 && gx > 0 && gy > 0 && Mul32(gx, gy) > 0
    requires ReservationFits(width, height, gx, gy)
    requires CeilDiv(width - 1, gx) * CeilDiv(height - 1, gy) <= k < |CreatedSlots(width, height, gx, gy)|
    ensures CreatedSlots(width, height, gx, gy)[k] == Tile(0, 0, 0, 0)
  {
    SurfaceTileCount(width, height, gx, gy);
  }

  /** Grains of at least 2 that divide the sides leave no slot. */
  lemma DividingGrainsLeaveNone(a: nat, b: nat, gx: nat, gy: nat)
    requires a > 0 && b > 0 && gx >= 2 && gy >= 2 && (a * gx) * (b * gy) < U32
    ensures 0 < Mul32(gx, gy) && a * gx > 0 && b * gy > 0
    ensures ReservationFits(a * gx, b * gy, gx, gy) && !HasSpare(a * gx, b * gy, gx, gy)
  {
    ReservationIsExact(a, b, gx, gy);
    SurfaceTileCount(a * gx, b * gy, gx, gy);
  }

  /** The program's default, 1024 x 1024 in 32 x 32 blocks, is such a case; 1280 x 720 needs
      920 slots, reserves 900 and grows to 1125. */
  lemma SpareExamples()
    ensures ReservationFits(1024, 1024, 32, 32) && !HasSpare(1024, 1024, 32, 32)
    ensures ReservationFits(1280, 720, 32, 32) && HasSpare(1280, 720, 32, 32)
  {
    DividingGrainsLeaveNone(32, 32, 32, 32);
    assert ReservedLength(1280, 720, 32, 32) == 900 && TilesOf(1280, 720, 32, 32) == 920;
    assert !OnChain(1125, 920);
  }

  /** A reservation that is too small and cannot grow: 10 x 10 pixels in 8 x 8 tiles. */
  lemma ReservationCanFail()
    ensures ReservedLength(10, 10, 8, 8) == 2 && |SurfaceTiles(10, 10, 8, 8)| == 4
    ensures !PushesFit(2, 0, 4) && !ReservationFits(10, 10, 8, 8)
  {
    TileCount(0, 9, 0, 9, 8, 8);
    PushesFitIff(2, 0, 4);
  }

  // ---------------------------------------------------------------- queue

  lemma NothingBefore(a: seq<Tile>, b: seq<Tile>)
    requires a == []
    ensures a + b == b
  {
  }

  lemma RoomForAll(c: nat, k: nat)
    ensures PushesFit(c, 0, k) <==> c >= 4 || k <= c
    ensures c >= 4 || k <= c ==> CapacityAfter(c, 0, k) == FirstRoom(c, k)
  {
    PushesFitIff(c, 0, k);
    if c >= 4 || k <= c {
      CapacityIsFirstRoom(c, 0, k);
    }
  }

  lemma AllSlots(slots: seq<Tile>, tiles: seq<Tile>, spare: nat)
    requires |slots| == |tiles| + spare && slots[..|tiles|] == tiles
    requires forall k :: |tiles| <= k < |slots| ==> slots[k] == ZERO_TILE
    ensures slots == tiles + Copies(spare, ZERO_TILE)
  {
  }

  /** The slots to reserve, as the source computes them. */
  method Reservation(width: nat, height: nat, gx: nat, gy: nat) returns (qlen: nat)
    requires Mul32(gx, gy) > 0
    ensures qlen == ReservedLength(width, height, gx, gy)
  {
    var wxh := Mul32(width, height);
    var grain2 := Mul32(gx, gy);
    qlen := wxh / grain2 + (if wxh % grain2 != 0 then 1 else 0);
  }

  class Queue {
    var tasks: array<Tile>
    var capacity: nat
    var length: nat
    var current: nat        // cur_task_idx
    ghost var moved: nat    // elements copied by extensions so far

    ghost predicate Valid()
      reads this
    {
      capacity == tasks.Length && length <= capacity
    }

    ghost function Contents(): seq<Tile>
      reads this, tasks
      requires Valid()
    {
      tasks[..length]
    }

    /** The slots behind the queued tasks are zero. */
    ghost predicate SpareZero()
      reads this, tasks
      requires Valid()
    {
      forall k :: length <= k < capacity ==> tasks[k] == ZERO_TILE
    }

    constructor ()
      ensures Valid() && Contents() == [] && capacity == 0 && current == 0 && SpareZero()
      ensures fresh(tasks)
    {
      tasks := new Tile[0];
      capacity, length, current := 0, 0, 0;
      moved := 0;
    }

    method Resize(n: nat, flags: nat)
      requires Valid()
      modifies this
      ensures Valid()
      ensures tasks == old(tasks) || fresh(tasks)
      ensures Has(flags, QUE_DISCARD) && !Has(flags, QUE_EXTEND) ==>
                Contents() == [] && capacity == n && current == 0 && SpareZero() && moved == old(moved)
                && fresh(tasks)
      ensures !Has(flags, QUE_DISCARD) && Has(flags, QUE_EXTEND) ==>
                && Contents() == old(Contents()) && capacity == old(capacity) + n
                && current == old(current) && moved == old(moved) + old(capacity)
                && (Has(flags, QUE_ZERO) && old(SpareZero()) ==> SpareZero())
                && fresh(tasks)
      ensures Has(flags, QUE_DISCARD) == Has(flags, QUE_EXTEND) ==>
                tasks == old(tasks) && Contents() == old(Contents()) && capacity == old(capacity)
                && current == old(current) && moved == old(moved)
    {
      if Has(flags, QUE_DISCARD) && !Has(flags, QUE_EXTEND) {
        tasks := new Tile[n](_ => ZERO_TILE);
        capacity := n;
        length := 0;
        current := 0;
      } else if Has(flags, QUE_EXTEND) && !Has(flags, QUE_DISCARD) {
        var bigger := new Tile[capacity + n];
        forall k | 0 <= k < capacity {
          bigger[k] := tasks[k];
        }
        if Has(flags, QUE_ZERO) {
          forall k | capacity <= k < capacity + n {
            bigger[k] := ZERO_TILE;
          }
        }
        moved := moved + capacity;
        tasks := bigger;
        capacity := capacity + n;
      }
    }

    /** Appends a task. The result is false where the extension makes no room and the source
        writes behind the array; the model then leaves the tasks alone. */
    method Push(x0: nat, x1: nat, y0: nat, y1: nat) returns (inside: bool)
      requires Valid()
      modifies this, tasks
      ensures Valid() && (tasks == old(tasks) || fresh(tasks))
      ensures inside <==> old(length) < old(capacity) || old(capacity) >= 4
      ensures capacity == if old(length) < old(capacity) then old(capacity) else 5 * old(capacity) / 4
      ensures inside <==> old(length) < Grown(old(capacity), old(length))
      ensures Contents() == old(Contents()) + if inside then [Tile(x0, x1, y0, y1)] else []
      ensures capacity == Grown(old(capacity), old(length)) && current == old(current)
      ensures old(SpareZero()) ==> SpareZero()
      ensures inside ==> moved - old(moved) <= 7 * (capacity - old(capacity))
    {
      if length >= capacity {
        Resize(capacity / 4, QUE_EXTEND + QUE_ZERO);
      }
      inside := length < capacity;
      if inside {
        tasks[length] := Tile(x0, x1, y0, y1);
        length := length + 1;
      }
    }

    /** One turn of the inner loop: `rest` is still to come. */
    method PushTile(x: nat, x11: nat, y: nat, y11: nat, ghost rest: seq<Tile>) returns (inside: bool)
      requires Valid()
      modifies this, tasks
      ensures Valid() && (tasks == old(tasks) || fresh(tasks))
      ensures var k := |[Tile(x, x11, y, y11)] + rest|;
        && (!inside ==> !PushesFit(old(capacity), old(length), k))
        && (inside ==> (PushesFit(capacity, length, |rest|) <==> PushesFit(old(capacity), old(length), k)))
        && (inside ==> CapacityAfter(capacity, length, |rest|) == CapacityAfter(old(capacity), old(length), k))
      ensures inside ==> Contents() + rest == old(Contents()) + ([Tile(x, x11, y, y11)] + rest)
      ensures inside ==> moved - old(moved) <= 7 * (capacity - old(capacity))
      ensures current == old(current) && (old(SpareZero()) ==> SpareZero())
    {
      Assoc(Contents(), [Tile(x, x11, y, y11)], rest);
      inside := Push(x, x11, y, y11);
    }

    /** The inner loop of rsched_split_task: one band of rows. */
    method SplitRow(x0: nat, x1: nat, y: nat, y11: nat, gx: nat) returns (inside: bool)
      requires Valid() && gx > 0 && x1 < I31 && x0 + gx < U32
      modifies this, tasks
      ensures Valid() && (tasks == old(tasks) || fresh(tasks))
      ensures var k := |RowTiles(x0, x1, y, y11, gx)|;
        && (inside <==> PushesFit(old(capacity), old(length), k))
        && (inside ==> capacity == CapacityAfter(old(capacity), old(length), k))
      ensures inside ==> Contents() == old(Contents()) + RowTiles(x0, x1, y, y11, gx)
      ensures inside ==> moved - old(moved) <= 7 * (capacity - old(capacity))
      ensures current == old(current) && (old(SpareZero()) ==> SpareZero())
    {
      ghost var row := RowTiles(x0, x1, y, y11, gx);
      ghost var all := old(Contents()) + row;
      var x := x0;
      while x < x1
        invariant Valid() && (tasks == old(tasks) || fresh(tasks))
        invariant Contents() + RowTiles(x, x1, y, y11, gx) == all
        invariant PushesFit(capacity, length, |RowTiles(x, x1, y, y11, gx)|)
             <==> PushesFit(old(capacity), old(length), |row|)
        invariant CapacityAfter(capacity, length, |RowTiles(x, x1, y, y11, gx)|)
               == CapacityAfter(old(capacity), old(length), |row|)
        invariant x < x1 ==> x + gx < U32
        invariant current == old(current) && (old(SpareZero()) ==> SpareZero())
        invariant moved - old(moved) <= 7 * (capacity - old(capacity))
        decreases x1 - x
      {
        var next := Advance(x, gx);
        var x11 := Min(next, x1);
        inside := PushTile(x, x11, y, y11, RowTiles(x11, x1, y, y11, gx));
        if !inside {
          return;
        }
        x := x11;
      }
      assert RowTiles(x, x1, y, y11, gx) == [];
      inside := true;
    }

    /** One turn of the outer loop: `rest` is still to come. */
    method SplitBand(x0: nat, x1: nat, y: nat, y11: nat, gx: nat, ghost rest: seq<Tile>) returns (inside: bool)
      requires Valid() && gx > 0 && x1 < I31 && x0 + gx < U32
      modifies this, tasks
      ensures Valid() && (tasks == old(tasks) || fresh(tasks))
      ensures var k := |RowTiles(x0, x1, y, y11, gx) + rest|;
        && (!inside ==> !PushesFit(old(capacity), old(length), k))
        && (inside ==> (PushesFit(capacity, length, |rest|) <==> PushesFit(old(capacity), old(length), k)))
        && (inside ==> CapacityAfter(capacity, length, |rest|) == CapacityAfter(old(capacity), old(length), k))
      ensures inside ==> Contents() + rest == old(Contents()) + (RowTiles(x0, x1, y, y11, gx) + rest)
      ensures inside ==> moved - old(moved) <= 7 * (capacity - old(capacity))
      ensures current == old(current) && (old(SpareZero()) ==> SpareZero())
    {
      ghost var row := RowTiles(x0, x1, y, y11, gx);
      Assoc(Contents(), row, rest);
      PushesSplit(capacity, length, |row|, |rest|);
      inside := SplitRow(x0, x1, y, y11, gx);
    }

    /** Cuts the rectangle into tiles of at most `gx` x `gy` and queues them row by row.
        The bounds keep the 32-bit sums from wrapping. */
    method SplitTask(x0: nat, x1: nat, y0: nat, y1: nat, gx: nat, gy: nat) returns (inside: bool)
      requires Valid() && gx > 0 && gy > 0
      requires x1 < I31 && y1 < I31 && x0 + gx < U32 && y0 + gy < U32
      modifies this, tasks
      ensures Valid() && (tasks == old(tasks) || fresh(tasks))
      ensures var k := |SplitTiles(x0, x1, y0, y1, gx, gy)|;
        && (inside <==> PushesFit(old(capacity), old(length), k))
        && (inside ==> capacity == CapacityAfter(old(capacity), old(length), k))
      ensures inside ==> Contents() == old(Contents()) + SplitTiles(x0, x1, y0, y1, gx, gy)
      ensures inside ==> moved - old(moved) <= 7 * (capacity - old(capacity))
      ensures current == old(current) && (old(SpareZero()) ==> SpareZero())
    {
      ghost var tiles := SplitTiles(x0, x1, y0, y1, gx, gy);
      ghost var all := old(Contents()) + tiles;
      var y := y0;
      while y < y1
        invariant Valid() && (tasks == old(tasks) || fresh(tasks))
        invariant Contents() + SplitTiles(x0, x1, y, y1, gx, gy) == all
        invariant PushesFit(capacity, length, |SplitTiles(x0, x1, y, y1, gx, gy)|)
             <==> PushesFit(old(capacity), old(length), |tiles|)
        invariant CapacityAfter(capacity, length, |SplitTiles(x0, x1, y, y1, gx, gy)|)
               == CapacityAfter(old(capacity), old(length), |tiles|)
        invariant y < y1 ==> y + gy < U32
        invariant current == old(current) && (old(SpareZero()) ==> SpareZero())
        invariant moved - old(moved) <= 7 * (capacity - old(capacity))
        decreases y1 - y
      {
        var next := Advance(y, gy);
        var y11 := Min(next, y1);
        inside := SplitBand(x0, x1, y, y11, gx, SplitTiles(x0, x1, y11, y1, gx, gy));
        if !inside {
          return;
        }
        y := y11;
      }
      assert SplitTiles(x0, x1, y, y1, gx, gy) == [];
      inside := true;
    }

    /** Queues the tiles of a surface. The result says whether the reservation could take
        them; if so the array is exactly CreatedSlots. */
    method CreateTasks(width: nat, height: nat, gx: nat, gy: nat) returns (inside: bool)
      requires Valid()
      requires 0 < width < I31 && 0 < height < I31 && 0 < gx < U32 && 0 < gy < U32 && Mul32(gx, gy) > 0
      modifies this, tasks
      ensures Valid() && fresh(tasks) && current == 0 && SpareZero()
      ensures inside <==> ReservationFits(width, height, gx, gy)
      ensures inside ==> Contents() == SurfaceTiles(width, height, gx, gy)
      ensures inside ==> tasks[..] == CreatedSlots(width, height, gx, gy)
    {
      var qlen := Reservation(width, height, gx, gy);
      Resize(qlen, QUE_DISCARD + QUE_ZERO);
      ghost var tiles := SurfaceTiles(width, height, gx, gy);
      NothingBefore(Contents(), tiles);
      SurfaceTileCount(width, height, gx, gy);
      RoomForAll(qlen, |tiles|);
      inside := SplitTask(0, width - 1, 0, height - 1, gx, gy);
      if inside {
        AllSlots(tasks[..], tiles, capacity - |tiles|);
      }
    }

    method Requeue()
      requires Valid()
      modifies this`current
      ensures Valid() && current == 0
    {
      current := 0;
    }
  }
}

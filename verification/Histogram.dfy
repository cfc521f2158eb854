/** The histogram of hist.c, linear scale. */
module Histogram {
  import opened Machine
  import opened Wrappers

  datatype Bin = Bin(data: U64, min: U64, max: U64)

  datatype Range = Range(min: U64, max: U64)

  function Ranges(bins: seq<Bin>): seq<Range> {
    seq(|bins|, i requires 0 <= i < |bins| => Range(bins[i].min, bins[i].max))
  }

  predicate Holds(r: Range, val: U64) { r.min <= val < r.max }

  /** Bins that follow one another; any of them may be empty. */
  ghost predicate Contiguous(bins: seq<Range>) {
    && (forall i :: 0 <= i < |bins| ==> bins[i].min <= bins[i].max)
    && (forall i, j :: 0 <= i < |bins| && j == i + 1 < |bins| ==> bins[j].min == bins[i].max)
  }

  lemma {:induction false} Ordered(bins: seq<Range>, i: nat, j: nat)
    requires Contiguous(bins) && i < j < |bins|
    ensures bins[i].max <= bins[j].min
    decreases j - i
  {
    if i + 1 < j { Ordered(bins, i + 1, j); }
  }

  /** A linear scan: the first bin from `k` on that holds `val`. */
  function Scan(bins: seq<Range>, val: U64, k: nat): (i: nat)
    requires k <= |bins|
    ensures k <= i <= |bins| && (i < |bins| ==> Holds(bins[i], val))
    ensures forall j :: k <= j < i ==> !Holds(bins[j], val)
    decreases |bins| - k
  {
    if k == |bins| || Holds(bins[k], val) then k else Scan(bins, val, k + 1)
  }

  /** The slot of a value: its bin, or the one for values below or for values above. */
  function Slot(bins: seq<Range>, val: U64): (slot: nat)
    requires |bins| > 0
    ensures slot <= |bins| + 1
  {
    var i := Scan(bins, val, 0);
    if i < |bins| then i else if val < bins[0].min then |bins| else |bins| + 1
  }

  /** No value has two bins, and a value without one lies below the first bound or at or
      above the last. */
  lemma SlotIsUnique(bins: seq<Range>, val: U64)
    requires Contiguous(bins) && |bins| > 0
    ensures Slot(bins, val) <= |bins| + 1
    ensures forall i :: 0 <= i < |bins| ==> (Slot(bins, val) == i <==> bins[i].min <= val < bins[i].max)
    ensures Slot(bins, val) == |bins| <==> val < bins[0].min
    ensures Slot(bins, val) == |bins| + 1 <==> val >= bins[|bins| - 1].max
  {
    forall i, j | 0 <= i < j < |bins| ensures !(Holds(bins[i], val) && Holds(bins[j], val)) {
      Ordered(bins, i, j);
    }
    forall i | 0 <= i < |bins| && Holds(bins[i], val) ensures bins[0].min <= val < bins[|bins| - 1].max {
      if i > 0 { Ordered(bins, 0, i); }
      if i < |bins| - 1 { Ordered(bins, i, |bins| - 1); }
    }
    if bins[0].min <= val < bins[|bins| - 1].max {
      SomeBin(bins, val, |bins| - 1);
    }
    if |bins| > 1 { Ordered(bins, 0, |bins| - 1); }
  }

  lemma {:induction false} SomeBin(bins: seq<Range>, val: U64, k: nat)
    requires Contiguous(bins) && k < |bins| && bins[0].min <= val < bins[k].max
    ensures exists i :: 0 <= i <= k && Holds(bins[i], val)
  {
    if bins[k].min <= val {
      assert Holds(bins[k], val);
    } else {
      SomeBin(bins, val, k - 1);
    }
  }

  // ------------------------------------------------------- specification of adding

  /** One value counted. */
  function Bump(counts: seq<U64>, k: nat): (r: seq<U64>)
    requires k < |counts|
    ensures |r| == |counts|
  {
    counts[k := (counts[k] + 1) % CELL]
  }

  /** All values counted, in order. */
  function Tally(bins: seq<Range>, counts: seq<U64>, vals: seq<U64>): seq<U64>
    requires |bins| > 0 && |counts| == |bins| + 2
    decreases |vals|
  {
    if vals == [] then counts else Tally(bins, Bump(counts, Slot(bins, vals[0])), vals[1..])
  }

  /** How many of the values go to slot `k`. */
  function Hits(bins: seq<Range>, vals: seq<U64>, k: nat): nat
    requires |bins| > 0
  {
    if vals == [] then 0 else (if Slot(bins, vals[0]) == k then 1 else 0) + Hits(bins, vals[1..], k)
  }

  function Total(counts: seq<U64>): nat {
    if counts == [] then 0 else counts[0] + Total(counts[1..])
  }

  lemma OneMore(a: nat, b: nat)
    ensures ((a + 1) % CELL + b) % CELL == (a + (1 + b)) % CELL
  {
  }

  /** Each slot counts exactly the values that belong to it. */
  lemma {:induction false} TallyCountsHits(bins: seq<Range>, counts: seq<U64>, vals: seq<U64>, k: nat)
    requires |bins| > 0 && |counts| == |bins| + 2 && k < |counts|
    ensures |Tally(bins, counts, vals)| == |counts|
    ensures Tally(bins, counts, vals)[k] == (counts[k] + Hits(bins, vals, k)) % 0x1_0000_0000_0000_0000
    decreases |vals|
  {
    if vals != [] {
      var next := Bump(counts, Slot(bins, vals[0]));
      TallyCountsHits(bins, next, vals[1..], k);
      OneMore(counts[k], Hits(bins, vals[1..], k));
    }
  }

  lemma {:induction false} TotalUpdate(counts: seq<U64>, k: nat, value: U64)
    requires k < |counts|
    ensures Total(counts[k := value]) == Total(counts) - counts[k] + value
  {
    if k == 0 {
      assert counts[k := value][1..] == counts[1..];
    } else {
      assert counts[k := value][1..] == counts[1..][k - 1 := value];
      TotalUpdate(counts[1..], k - 1, value);
    }
  }

  lemma Wraps(total: nat, was: U64, now: U64, after: nat)
    requires was <= total && now == (was + 1) % CELL && after == total - was + now
    ensures after % CELL == (total + 1) % CELL
  {
    if was == CELL - 1 {
      assert total + 1 == after + CELL;
    }
  }

  lemma {:induction false} PartOfTotal(counts: seq<U64>, k: nat)
    requires k < |counts|
    ensures counts[k] <= Total(counts)
  {
    if k > 0 { PartOfTotal(counts[1..], k - 1); }
  }

  lemma {:induction false} BumpUpdates(counts: seq<U64>, k: nat, now: U64)
    requires k < |counts| && now == Bump(counts, k)[k]
    ensures now == (counts[k] + 1) % CELL && counts[k] <= Total(counts)
    ensures Total(Bump(counts, k)) == Total(counts) - counts[k] + now
  {
    TotalUpdate(counts, k, now);
    PartOfTotal(counts, k);
  }

  lemma {:induction false} BumpTotal(counts: seq<U64>, k: nat)
    requires k < |counts|
    ensures Total(Bump(counts, k)) % CELL == (Total(counts) + 1) % CELL
  {
    var now := Bump(counts, k)[k];
    BumpUpdates(counts, k, now);
    Wraps(Total(counts), counts[k], now, Total(Bump(counts, k)));
  }

  lemma WrapAdd(a: nat, n: nat)
    ensures (a % CELL + n) % CELL == (a + n) % CELL
  {
  }

  lemma SumOnce(a: nat, b: nat, n: nat)
    requires a % CELL == b % CELL
    ensures (a + n) % CELL == (b + n) % CELL
  {
    WrapAdd(a, n);
    WrapAdd(b, n);
  }

  /** No value is lost or counted twice: the counts of all slots, those for values out of
      range among them, grow by the number of values. */
  lemma {:induction false} TallyKeepsTotal(bins: seq<Range>, counts: seq<U64>, vals: seq<U64>)
    requires |bins| > 0 && |counts| == |bins| + 2
    ensures Total(Tally(bins, counts, vals)) % 0x1_0000_0000_0000_0000
         == (Total(counts) + |vals|) % 0x1_0000_0000_0000_0000
    decreases |vals|
  {
    if vals != [] {
      var next := Bump(counts, Slot(bins, vals[0]));
      TallyKeepsTotal(bins, next, vals[1..]);
      BumpTotal(counts, Slot(bins, vals[0]));
      SumOnce(Total(next), Total(counts) + 1, |vals| - 1);
    }
  }

  // ---------------------------------------------------------------- the bins of init

  /** The width of a bin. */
  function BinWidth(size: nat, min: U64, max: U64): nat
    requires size > 0
  {
    (max - min) % CELL / size
  }

  /** The upper bound of bin `i`, for bins of width `w`. */
  function Bound(min: U64, w: nat, i: nat): U64 {
    (min + Times(i + 1, w)) % CELL
  }

  /** The upper bounds of the linear bins. */
  function UpperBounds(size: nat, min: U64, max: U64): nat -> U64
    requires size > 0
  {
    i => Bound(min, BinWidth(size, min, max), i)
  }

  /** The lower bound of bin `i`: where the one before ends. */
  function LowerBound(min: U64, upper: nat -> U64, i: nat): U64 {
    if i == 0 then min else upper(i - 1)
  }

  lemma NoWrap(min: U64, max: U64, offset: nat)
    requires offset <= max - min
    ensures (min + offset) % CELL == min + offset
  {
  }

  /** Bounds that stay below `max` do not wrap round. */
  lemma BoundIs(min: U64, max: U64, size: nat, w: nat, i: nat)
    requires i < size && min + Times(size, w) <= max
    ensures Bound(min, w, i) == min + Times(i + 1, w) <= max
  {
    TimesGrows(i + 1, size, w);
    NoWrap(min, max, Times(i + 1, w));
  }

  lemma BinsFit(size: nat, min: U64, max: U64)
    requires min <= max && size > 0
    ensures Times(size, BinWidth(size, min, max)) == max - min - (max - min) % size
    ensures 0 <= (max - min) % size <= max - min
  {
    TimesIs(size, BinWidth(size, min, max));
    NoWrap(0, max - min, max - min);
    DivParts(max - min, size);
  }

  lemma DivParts(width: nat, size: nat)
    requires size > 0
    ensures size * (width / size) == width - width % size
  {
  }

  /** With min <= max no bound of the bins wraps round or passes `max`. */
  lemma BoundFits(size: nat, min: U64, max: U64, i: nat)
    requires i < size && min <= max
    ensures Bound(min, BinWidth(size, min, max), i) == min + BinWidth(size, min, max) * (i + 1) <= max
  {
    BinsFit(size, min, max);
    BoundIs(min, max, size, BinWidth(size, min, max), i);
    TimesIs(i + 1, BinWidth(size, min, max));
  }

  lemma BoundsGrow(size: nat, min: U64, max: U64, i: nat)
    requires i < size && min <= max
    ensures LowerBound(min, UpperBounds(size, min, max), i) <= UpperBounds(size, min, max)(i)
  {
    var w := BinWidth(size, min, max);
    BinsFit(size, min, max);
    BoundIs(min, max, size, w, i);
    if i > 0 {
      BoundIs(min, max, size, w, i - 1);
      TimesGrows(i, i + 1, w);
    }
  }

  /** The first |bins| bins with these upper bounds. */
  ghost predicate FirstRanges(bins: seq<Range>, min: U64, upper: nat -> U64) {
    forall i {:trigger bins[i]} :: 0 <= i < |bins| ==> bins[i] == Range(LowerBound(min, upper, i), upper(i))
  }

  ghost predicate InitialRanges(bins: seq<Range>, size: nat, min: U64, max: U64) {
    |bins| == size && (size > 0 ==> FirstRanges(bins, min, UpperBounds(size, min, max)))
  }

  lemma OneMoreRange(was: seq<Bin>, bins: seq<Bin>, min: U64, upper: nat -> U64)
    requires FirstRanges(Ranges(was), min, upper) && |bins| == |was| + 1 && bins[..|was|] == was
    requires bins[|was|].min == LowerBound(min, upper, |was|) && bins[|was|].max == upper(|was|)
    ensures FirstRanges(Ranges(bins), min, upper)
  {
    forall i | 0 <= i < |bins| ensures Ranges(bins)[i] == Range(LowerBound(min, upper, i), upper(i)) {
      if i < |was| { assert Ranges(was)[i] == Ranges(bins)[i]; }
    }
  }

  lemma RangesAreContiguous(bins: seq<Range>, min: U64, upper: nat -> U64)
    requires FirstRanges(bins, min, upper)
    requires forall i :: 0 <= i < |bins| ==> LowerBound(min, upper, i) <= upper(i)
    ensures Contiguous(bins)
  {
    forall i, j | 0 <= i < |bins| && j == i + 1 < |bins| ensures bins[j].min == bins[i].max {
      assert LowerBound(min, upper, j) == upper(i);
    }
  }

  lemma InitialAreContiguous(bins: seq<Range>, size: nat, min: U64, max: U64)
    requires InitialRanges(bins, size, min, max) && min <= max
    ensures Contiguous(bins)
  {
    if size > 0 {
      var upper := UpperBounds(size, min, max);
      forall i | 0 <= i < |bins| ensures LowerBound(min, upper, i) <= upper(i) {
        BoundsGrow(size, min, max, i);
      }
      RangesAreContiguous(bins, min, upper);
    }
  }

  lemma RangeIs(bins: seq<Range>, size: nat, min: U64, max: U64, w: nat, i: nat)
    requires InitialRanges(bins, size, min, max) && i < size && w == BinWidth(size, min, max)
    ensures bins[i] == Range(if i == 0 then min else Bound(min, w, i - 1), Bound(min, w, i))
  {
  }

  lemma Product(w: nat, k: nat)
    ensures w * k == Times(k, w)
  {
    TimesIs(k, w);
  }

  lemma BoundWith(min: U64, w: nat, i: nat, offset: nat)
    requires offset == Times(i + 1, w)
    ensures Bound(min, w, i) == (min + offset) % 0x1_0000_0000_0000_0000
  {
  }

  lemma BoundIsProduct(min: U64, w: nat, i: nat)
    ensures Bound(min, w, i) == (min + w * (i + 1)) % 0x1_0000_0000_0000_0000
  {
    Product(w, i + 1);
    BoundWith(min, w, i, w * (i + 1));
  }

  /** The bins of init in the source's 64-bit arithmetic, for any `min` and `max`. */
  lemma BinBoundsAre(bins: seq<Range>, size: nat, min: U64, max: U64, i: nat)
    requires InitialRanges(bins, size, min, max) && i < size
    ensures bins[i].max
         == (min + (max - min) % 0x1_0000_0000_0000_0000 / size * (i + 1)) % 0x1_0000_0000_0000_0000
    ensures bins[i].min == if i == 0 then min else bins[i - 1].max
  {
    var width := (max - min) % 0x1_0000_0000_0000_0000;
    var w := width / size;
    RangeIs(bins, size, min, max, w, i);
    BoundIsProduct(min, w, i);
    if i > 0 {
      RangeIs(bins, size, min, max, w, i - 1);
    }
  }

  lemma WidthIs(size: nat, min: U64, max: U64)
    requires size > 0 && min <= max
    ensures BinWidth(size, min, max) == (max - min) / size
  {
    NoWrap(0, max - min, max - min);
  }

  /** Where bin `i` begins and ends. */
  lemma BinIs(bins: seq<Range>, size: nat, min: U64, max: U64, w: nat, i: nat)
    requires InitialRanges(bins, size, min, max) && min <= max && i < size && w == BinWidth(size, min, max)
    ensures bins[i].min == min + i * w && bins[i].max == min + (i + 1) * w
  {
    BoundFits(size, min, max, i);
    if i > 0 {
      BoundFits(size, min, max, i - 1);
    }
  }

  lemma SlotWith(bins: seq<Range>, val: U64, i: nat, low: nat, high: nat, first: nat, last: nat)
    requires Contiguous(bins) && i < |bins| && bins[i].min == low && bins[i].max == high
    requires bins[0].min == first && bins[|bins| - 1].max == last
    ensures (Slot(bins, val) == i <==> low <= val < high)
    ensures (Slot(bins, val) == |bins| <==> val < first) && (Slot(bins, val) == |bins| + 1 <==> val >= last)
  {
    SlotIsUnique(bins, val);
  }

  /** The slot of a value from the arguments of perf_hist_init alone: bin `i` holds the i-th
      stretch of (max - min) / size values from `min` on, the slot behind the bins what lies
      below `min`, the last one what lies at or above the end of the stretches. */
  lemma SlotIs(bins: seq<Range>, size: nat, min: U64, max: U64, val: U64, i: nat)
    requires InitialRanges(bins, size, min, max) && min <= max && i < size
    ensures var w := (max - min) / size;
      && (Slot(bins, val) == i <==> min + i * w <= val < min + (i + 1) * w)
      && (Slot(bins, val) == size <==> val < min)
      && (Slot(bins, val) == size + 1 <==> val >= min + size * w)
  {
    var w := BinWidth(size, min, max);
    WidthIs(size, min, max);
    InitialAreContiguous(bins, size, min, max);
    BinIs(bins, size, min, max, w, i);
    BinIs(bins, size, min, max, w, 0);
    BinIs(bins, size, min, max, w, size - 1);
    SlotWith(bins, val, i, min + i * w, min + (i + 1) * w, min, min + size * w);
  }

  /** The bins reach up to `max` only if their number divides the width; otherwise values just
      under `max` go to the slot for values above. */
  lemma ReachesMaxIff(bins: seq<Range>, size: nat, min: U64, max: U64)
    requires InitialRanges(bins, size, min, max) && min <= max && size > 0
    ensures (forall val: U64 :: val < max ==> Slot(bins, val) != size + 1) <==> (max - min) % size == 0
  {
    InitialAreContiguous(bins, size, min, max);
    LastBoundIs(size, min, max);
    LastBound(bins, max, bins[size - 1].max, (max - min) % size == 0);
  }

  lemma LastBoundIs(size: nat, min: U64, max: U64)
    requires size > 0 && min <= max
    ensures UpperBounds(size, min, max)(size - 1) == max - (max - min) % size
    ensures 0 <= (max - min) % size <= max - min
  {
    BinsFit(size, min, max);
    BoundIs(min, max, size, BinWidth(size, min, max), size - 1);
  }

  lemma LastBound(bins: seq<Range>, max: U64, top: U64, reaches: bool)
    requires Contiguous(bins) && |bins| > 0 && top == bins[|bins| - 1].max <= max && (reaches <==> top == max)
    ensures (forall val: U64 :: val < max ==> Slot(bins, val) != |bins| + 1) <==> reaches
  {
    forall val: U64 ensures Slot(bins, val) == |bins| + 1 <==> val >= top {
      SlotIsUnique(bins, val);
    }
    if top < max {
      assert Slot(bins, top) == |bins| + 1;
    }
  }

  // --------------------------------------------------------------------- the class

  /** The upper bound of bin `i` as the source computes it. */
  method BinMax(min: U64, max: U64, width: U64, size: nat, i: nat) returns (binMax: U64)
    requires size > 0 && width == (max - min) % CELL
    ensures binMax == UpperBounds(size, min, max)(i)
  {
    var w := width / size;
    var offset := w * (i + 1);
    Product(w, i + 1);
    binMax := (min + offset) % CELL;
    assert binMax == Bound(min, w, i);
  }

  class Hist {
    var size: nat
    var bin: array<Bin>

    ghost predicate Valid()
      reads this, bin
    {
      bin.Length == size + 2 && Contiguous(Bounds())
    }

    ghost function Bounds(): seq<Range>
      reads this, bin
      requires bin.Length == size + 2
    {
      Ranges(bin[..size])
    }

    ghost function Counts(): (counts: seq<U64>)
      reads bin, this
      requires bin.Length == size + 2
      ensures |counts| == size + 2
    {
      seq(bin.Length, i requires 0 <= i < bin.Length reads this, bin => bin[i].data)
    }

    /** perf_hist_init, linear scale. */
    constructor (size: nat, min: U64, max: U64)
      requires size + 2 < 0x1_0000_0000
      ensures fresh(bin) && this.size == size && bin.Length == size + 2
      ensures InitialRanges(Bounds(), size, min, max)
      ensures bin[size] == Bin(0, min, min) && bin[size + 1] == Bin(0, max, max)
      ensures min <= max ==> Valid()
      ensures forall i :: 0 <= i < size + 2 ==> Counts()[i] == 0
    {
      var width := (max - min) % CELL;
      var binMin := min;
      this.size := size;
      bin := new Bin[size + 2](_ => Bin(0, 0, 0));
      new;
      bin[size] := Bin(0, min, min);
      bin[size + 1] := Bin(0, max, max);
      ghost var upper: nat -> U64 := if size > 0 then UpperBounds(size, min, max) else _ => min;
      var i := 0;
      while i < size
        invariant i <= size && this.size == size && bin.Length == size + 2 && fresh(bin)
        invariant binMin == LowerBound(min, upper, i) && FirstRanges(Ranges(bin[..i]), min, upper)
        invariant forall k :: 0 <= k < size + 2 ==> bin[k].data == 0
        invariant bin[size] == Bin(0, min, min) && bin[size + 1] == Bin(0, max, max)
      {
        ghost var was := bin[..i];
        var binMax := BinMax(min, max, width, size, i);
        bin[i] := Bin(0, binMin, binMax);
        assert bin[..i] == was && bin[..i + 1][..i] == was;
        OneMoreRange(was, bin[..i + 1], min, upper);
        binMin := binMax;
        i := i + 1;
      }
      if min <= max {
        InitialAreContiguous(Bounds(), size, min, max);
      }
    }

    /** perf_hist_check_range */
    static function CheckRange(b: Bin, val: U64): int {
      if val < b.min then -1 else if val >= b.max then 1 else 0
    }

    /** perf_hist_bsearch finds the slot that the linear scan finds. Without bins the source
        searches up to a wrapped right end, and a slot from 2^31 on does not fit the int it
        returns: in both cases there is no result. */
    method BSearch(val: U64) returns (slot: Option<nat>)
      requires Valid()
      ensures slot == if size > 0 && Slot(Bounds(), val) < 0x8000_0000 then Some(Slot(Bounds(), val)) else None
    {
      if size == 0 {
        return None;
      }
      var idx := Search(val);
      slot := if idx < I31 then Some(idx) else None;
    }

    /** The loop of the search. */
    method Search(val: U64) returns (idx: nat)
      requires Valid() && size > 0
      ensures idx == Slot(Bounds(), val)
    {
      ghost var bins := Bounds();
      SlotIsUnique(bins, val);
      var l, r := 0, size - 1;
      while l <= r
        invariant 0 <= l <= r + 1 <= size
        invariant l > 0 ==> val >= bins[l - 1].max
        invariant r + 1 < size ==> val < bins[r + 1].min
      {
        var m := l + (r - l) / 2;
        var cmp := CheckRange(bin[m], val);
        assert bins[m] == Range(bin[m].min, bin[m].max);
        if cmp == 0 {
          return m;
        } else if cmp == 1 {
          l := m + 1;
        } else {
          r := m - 1;
        }
      }
      idx := if l == 0 then size else size + 1;
    }

    /** One more in slot `idx`. */
    method Increment(idx: nat)
      requires bin.Length == size + 2 && idx < size + 2
      modifies bin
      ensures Bounds() == old(Bounds()) && Counts() == Bump(old(Counts()), idx)
    {
      bin[idx] := bin[idx].(data := (bin[idx].data + 1) % CELL);
    }

    /** perf_hist_add counts the value in its slot, if the search has a result, and changes
        nothing else. */
    method Add(val: U64) returns (counted: bool)
      requires Valid()
      modifies bin
      ensures Valid() && Bounds() == old(Bounds())
      ensures counted <==> size > 0 && Slot(Bounds(), val) < 0x8000_0000
      ensures Counts() == if counted then Bump(old(Counts()), Slot(Bounds(), val)) else old(Counts())
    {
      var slot := BSearch(val);
      counted := slot.Some?;
      if counted {
        Increment(slot.value);
      }
    }
  }
}

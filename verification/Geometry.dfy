/** Tiles, pixel indices and float stores: the vocabulary the scheduler, the tiler
    and the kernels share. */
module Geometry {
  import opened Sequences

  /** struct rsched_task: both bounds of each axis belong to the tile. */
  datatype Tile = Tile(x0: nat, x1: nat, y0: nat, y1: nat)

  const ZERO_TILE := Tile(0, 0, 0, 0)

  /** One float written to one index of a pixel buffer. */
  datatype Store = Store(at: nat, value: real)

  function ApplyStore(image: seq<real>, st: Store): (r: seq<real>)
    ensures |r| == |image|
  {
    if st.at < |image| then image[st.at := st.value] else image
  }

  /** The stores from the `i`-th on, made in order. */
  function ApplyFrom(image: seq<real>, stores: seq<Store>, i: nat): (r: seq<real>)
    requires i <= |stores|
    ensures |r| == |image|
    decreases |stores| - i
  {
    if i == |stores| then image else ApplyFrom(ApplyStore(image, stores[i]), stores, i + 1)
  }

  /** All stores made in order. */
  function Apply(image: seq<real>, stores: seq<Store>): (r: seq<real>)
    ensures |r| == |image|
  {
    ApplyFrom(image, stores, 0)
  }

  lemma {:induction false} ApplyShift(image: seq<real>, a: seq<Store>, b: seq<Store>, k: nat)
    requires k <= |b|
    ensures ApplyFrom(image, a + b, |a| + k) == ApplyFrom(image, b, k)
    decreases |b| - k
  {
    if k < |b| {
      assert (a + b)[|a| + k] == b[k];
      ApplyShift(ApplyStore(image, b[k]), a, b, k + 1);
    }
  }

  lemma {:induction false} ApplyJoin(image: seq<real>, a: seq<Store>, b: seq<Store>, i: nat)
    requires i <= |a|
    ensures ApplyFrom(image, a + b, i) == Apply(ApplyFrom(image, a, i), b)
    decreases |a| - i
  {
    if i == |a| {
      ApplyShift(image, a, b, 0);
    } else {
      assert (a + b)[i] == a[i];
      ApplyJoin(ApplyStore(image, a[i]), a, b, i + 1);
    }
  }

  lemma ApplyAppend(image: seq<real>, a: seq<Store>, b: seq<Store>)
    ensures Apply(image, a + b) == Apply(Apply(image, a), b)
  {
    ApplyJoin(image, a, b, 0);
  }

  lemma ApplyOne(image: seq<real>, st: Store)
    ensures Apply(image, [st]) == ApplyStore(image, st)
  {
    assert ApplyFrom(image, [st], 0) == ApplyFrom(ApplyStore(image, [st][0]), [st], 1);
  }

  /** Some store goes to index `p`. */
  ghost predicate Reaches(stores: seq<Store>, p: nat) {
    exists j :: 0 <= j < |stores| && stores[j].at == p
  }

  lemma ReachesAppend(a: seq<Store>, b: seq<Store>, p: nat)
    ensures Reaches(a + b, p) <==> Reaches(a, p) || Reaches(b, p)
  {
    if Reaches(a, p) {
      var j :| 0 <= j < |a| && a[j].at == p;
      assert (a + b)[j].at == p;
    }
    if Reaches(b, p) {
      var j :| 0 <= j < |b| && b[j].at == p;
      assert (a + b)[|a| + j].at == p;
    }
  }
}

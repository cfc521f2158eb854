/** Sequences of any type. */
module Sequences {
  function Copies<T>(n: nat, value: T): (r: seq<T>)
    ensures |r| == n && forall k :: 0 <= k < n ==> r[k] == value
  {
    seq(n, _ => value)
  }

  lemma FirstAndRest<T>(a: seq<T>, b: seq<T>)
    ensures if a == [] then a + b == b
            else a + b == [a[0]] + (a[1..] + b) && (a + b)[0] == a[0] && (a + b)[1..] == a[1..] + b
  {
  }

  lemma Assoc<T>(a: seq<T>, b: seq<T>, c: seq<T>)
    ensures (a + b) + c == a + (b + c)
  {
  }
}

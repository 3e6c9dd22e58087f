/** Small shared vocabulary of the model. */
module Prelude {

  datatype Option<+T> = None | Some(value: T)

  /** Lookup with the default the stores use: a missing counter or offset is zero. */
  function At<K>(m: map<K, nat>, k: K): nat {
    if k in m then m[k] else 0
  }

  /** Lookup of a score or a hash field: zero when it is missing. */
  function Get(m: map<string, real>, k: string): real {
    if k in m then m[k] else 0.0
  }

  function Max(a: int, b: int): int {
    if a < b then b else a
  }

  /** Python's `int()` of a float: truncation toward zero. */
  function Truncate(x: real): int {
    if x >= 0.0 then x.Floor else -((-x).Floor)
  }

  /** An element of a non-empty set. */
  lemma Witness<T>(xs: set<T>) returns (x: T)
    requires xs != {}
    ensures x in xs
  {
    x :| x in xs;
  }

  /** Counting positions one element further. */
  lemma OneMorePosition(s: set<nat>, t: set<nat>, n: nat)
    requires forall i :: i in s ==> i <= n
    requires forall i :: i in t <==> i in s && i < n
    ensures |s| == |t| + if n in s then 1 else 0
  {
    if n in s {
      assert s == t + {n};
    } else {
      assert s == t;
    }
  }

  /** A sequence without repetitions is no longer than a set that holds its elements. */
  lemma {:induction false} DistinctCard<T>(xs: seq<T>, s: set<T>)
    requires forall i :: 0 <= i < |xs| ==> xs[i] in s
    requires forall i, j :: 0 <= i < j < |xs| ==> xs[i] != xs[j]
    ensures |xs| <= |s|
  {
    if |xs| != 0 {
      var n := |xs| - 1;
      DistinctCard(xs[..n], s - {xs[n]});
    }
  }
}

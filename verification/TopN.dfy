/**
 Sorted sets: the per-minute "top" lists that the flush stores, and the endpoint
 that sums those truncated lists over a range of minutes.
 */
module TopN {
  import opened Prelude

  /** Order of the members of a sorted set that have equal scores. */
  predicate StrLess(a: string, b: string) {
    |b| > 0 && (|a| == 0 || a[0] < b[0] || (a[0] == b[0] && StrLess(a[1..], b[1..])))
  }

  lemma {:induction false} StrTrichotomy(a: string, b: string)
    ensures a == b || StrLess(a, b) || StrLess(b, a)
    ensures !(StrLess(a, b) && StrLess(b, a)) && !StrLess(a, a)
    decreases |a|
  {
    if |a| > 0 {
      StrTrichotomy(a[1..], a[1..]);
      if |b| > 0 {
        StrTrichotomy(a[1..], b[1..]);
        assert a[0] == b[0] && a[1..] == b[1..] ==> a == [a[0]] + a[1..] == b;
      }
    }
  }

  lemma {:induction false} StrTransitive(a: string, b: string, c: string)
    requires StrLess(a, b) && StrLess(b, c)
    ensures StrLess(a, c)
    decreases |a|
  {
    if |a| > 0 && a[0] == b[0] == c[0] {
      StrTransitive(a[1..], b[1..], c[1..]);
    }
  }

  /** `ZREVRANGE` order: higher score first, then the lexicographically larger member. */
  predicate Better(scores: map<string, real>, a: string, b: string)
    requires a in scores && b in scores
  {
    scores[a] > scores[b] || (scores[a] == scores[b] && StrLess(b, a))
  }

  predicate IsBest(scores: map<string, real>, keys: set<string>, k: string)
    requires keys <= scores.Keys
  {
    k in keys && forall j :: j in keys && j != k ==> Better(scores, k, j)
  }

  lemma BestUnique(scores: map<string, real>, keys: set<string>, a: string, b: string)
    requires keys <= scores.Keys && IsBest(scores, keys, a) && IsBest(scores, keys, b)
    ensures a == b
  {
    StrTrichotomy(a, b);
  }

  lemma {:induction false} BestExists(scores: map<string, real>, keys: set<string>)
    requires keys <= scores.Keys && keys != {}
    ensures exists k :: IsBest(scores, keys, k)
    decreases |keys|
  {
    var x :| x in keys;
    var rest := keys - {x};
    assert forall j :: j in keys && j != x ==> j in rest;
    if rest == {} {
      assert IsBest(scores, keys, x);
    } else {
      BestExists(scores, rest);
      var y :| IsBest(scores, rest, y);
      StrTrichotomy(x, y);
      if Better(scores, x, y) {
        forall j | j in keys && j != x ensures Better(scores, x, j) {
          if j != y && scores[x] == scores[y] == scores[j] {
            StrTransitive(j, y, x);
          }
        }
        assert IsBest(scores, keys, x);
      } else {
        assert IsBest(scores, keys, y);
      }
    }
  }

  /** The best member of a non-empty set. */
  function Best(scores: map<string, real>, keys: set<string>): (k: string)
    requires keys <= scores.Keys && keys != {}
    ensures IsBest(scores, keys, k)
  {
    BestExists(scores, keys);
    assert forall a, b | IsBest(scores, keys, a) && IsBest(scores, keys, b) :: a == b by {
      forall a, b | IsBest(scores, keys, a) && IsBest(scores, keys, b) ensures a == b {
        BestUnique(scores, keys, a, b);
      }
    }
    var k :| k in keys && IsBest(scores, keys, k);
    k
  }

  /** The first `n` members in `ZREVRANGE` order. */
  function TopKeys(scores: map<string, real>, keys: set<string>, n: nat): seq<string>
    requires keys <= scores.Keys
    decreases n
  {
    if n == 0 || keys == {} then []
    else
      var k := Best(scores, keys);
      [k] + TopKeys(scores, keys - {k}, n - 1)
  }

  /** `RedisStateStore.topn`. */
  function Top(scores: map<string, real>, n: nat): seq<string> {
    TopKeys(scores, scores.Keys, n)
  }

  // ------------------------------------------------------ what a list contains

  /** The list has the right length, no repetition, is in order, and beats everything it omits. */
  lemma {:induction false} TopKeysCorrect(scores: map<string, real>, keys: set<string>, n: nat)
    requires keys <= scores.Keys
    ensures
      var top := TopKeys(scores, keys, n);
      && |top| == (if n <= |keys| then n else |keys|)
      && (forall i :: 0 <= i < |top| ==> top[i] in keys)
      && (forall i, j :: 0 <= i < j < |top| ==> top[i] != top[j] && Better(scores, top[i], top[j]))
      && (forall i, k :: 0 <= i < |top| && k in keys && k !in top ==> Better(scores, top[i], k))
    decreases n
  {
    if n > 0 && keys != {} {
      var k := Best(scores, keys);
      TopKeysCorrect(scores, keys - {k}, n - 1);
      assert |keys - {k}| == |keys| - 1;
      var rest := TopKeys(scores, keys - {k}, n - 1);
      var top := TopKeys(scores, keys, n);
      assert top == [k] + rest;
      assert forall x :: x in top <==> x == k || x in rest;
    } else if n > 0 {
      assert |keys| == 0;
    }
  }

  /** In numbers: scores never rise along the list, and no omitted key has a higher score than a listed one. */
  lemma TopScoresFall(scores: map<string, real>, n: nat)
    ensures
      var top := Top(scores, n);
      && (forall i, j :: 0 <= i < j < |top| ==> Get(scores, top[i]) >= Get(scores, top[j]))
      && (forall i, k :: 0 <= i < |top| && k in scores && k !in top ==> Get(scores, top[i]) >= scores[k])
  {
    TopKeysCorrect(scores, scores.Keys, n);
  }

  // ------------------------------------------------------- summing the lists

  const LIST_SIZE: nat := 15

  /** The score a minute's stored list gives a key: the score if the key is listed, else nothing. */
  function Listed(scores: map<string, real>, k: string): real {
    if k in Top(scores, LIST_SIZE) then Get(scores, k) else 0.0
  }

  function Total(minutes: seq<map<string, real>>, k: string): real {
    if minutes == [] then 0.0
    else Total(minutes[..|minutes| - 1], k) + Get(minutes[|minutes| - 1], k)
  }

  function ListedTotal(minutes: seq<map<string, real>>, k: string): real {
    if minutes == [] then 0.0
    else ListedTotal(minutes[..|minutes| - 1], k) + Listed(minutes[|minutes| - 1], k)
  }

  ghost predicate NonNegative(minutes: seq<map<string, real>>) {
    forall i, k :: 0 <= i < |minutes| && k in minutes[i] ==> minutes[i][k] >= 0.0
  }

  /** The smallest score of a full list that omits the key; nothing otherwise. */
  function Gap(scores: map<string, real>, k: string): real {
    var top := Top(scores, LIST_SIZE);
    if |top| == LIST_SIZE && k !in top then Get(scores, top[LIST_SIZE - 1]) else 0.0
  }

  /** Of a list of fifteen that omits the key, the gap is a listed key's score and no listed key has a smaller one. */
  lemma GapIsSmallest(scores: map<string, real>, k: string)
    ensures
      var top := Top(scores, LIST_SIZE);
      if |top| == 15 && k !in top
      then && (exists j :: j in top && Get(scores, j) == Gap(scores, k))
           && (forall j :: j in top ==> Get(scores, j) >= Gap(scores, k))
      else Gap(scores, k) == 0.0
  {
    var top := Top(scores, LIST_SIZE);
    TopKeysCorrect(scores, scores.Keys, LIST_SIZE);
    if |top| == LIST_SIZE {
      assert top[LIST_SIZE - 1] in top;
      forall j | j in top ensures Get(scores, j) >= Get(scores, top[LIST_SIZE - 1]) {
        var i :| 0 <= i < |top| && top[i] == j;
        assert i == LIST_SIZE - 1 || Better(scores, top[i], top[LIST_SIZE - 1]);
      }
    }
  }

  function GapTotal(minutes: seq<map<string, real>>, k: string): real {
    if minutes == [] then 0.0
    else GapTotal(minutes[..|minutes| - 1], k) + Gap(minutes[|minutes| - 1], k)
  }

  /** One minute: a key loses nothing if it is listed, and otherwise at most the list's smallest score. */
  lemma MinuteBound(scores: map<string, real>, k: string)
    requires forall j :: j in scores ==> scores[j] >= 0.0
    ensures 0.0 <= Get(scores, k) - Listed(scores, k) <= Gap(scores, k)
    ensures |scores| <= LIST_SIZE ==> Listed(scores, k) == Get(scores, k)
  {
    var top := Top(scores, LIST_SIZE);
    TopKeysCorrect(scores, scores.Keys, LIST_SIZE);
    if k in scores && k !in top {
      OmittedMeansFull(scores, k);
      assert Better(scores, top[LIST_SIZE - 1], k);
    } else if k !in scores && |top| == LIST_SIZE {
      assert top[LIST_SIZE - 1] in scores.Keys;
    }
  }

  /** A key can be missing only from a full list of a larger minute. */
  lemma OmittedMeansFull(scores: map<string, real>, k: string)
    requires k in scores && k !in Top(scores, LIST_SIZE)
    ensures |Top(scores, LIST_SIZE)| == LIST_SIZE < |scores|
  {
    var top := Top(scores, LIST_SIZE);
    TopKeysCorrect(scores, scores.Keys, LIST_SIZE);
    DistinctCard(top, scores.Keys - {k});
  }

  /**
   The truncation error of the endpoint: with non-negative scores, the summed
   lists never overstate a key and fall short by at most the sum, over the
   minutes whose full list omits the key, of that list's smallest score.
   */
  lemma {:induction false} TruncationBound(minutes: seq<map<string, real>>, k: string)
    requires NonNegative(minutes)
    ensures Total(minutes, k) - GapTotal(minutes, k) <= ListedTotal(minutes, k) <= Total(minutes, k)
  {
    if minutes != [] {
      TruncationBound(minutes[..|minutes| - 1], k);
      MinuteBound(minutes[|minutes| - 1], k);
    }
  }

  /** The minute's list leaves out a key that has a score. */
  predicate Loses(scores: map<string, real>, k: string) {
    k !in Top(scores, LIST_SIZE) && Get(scores, k) != 0.0
  }

  predicate LosesSome(minutes: seq<map<string, real>>, k: string) {
    minutes != [] && (Loses(minutes[|minutes| - 1], k) || LosesSome(minutes[..|minutes| - 1], k))
  }

  /** The sum is exact if and only if no minute omits the key while giving it a score. */
  lemma {:induction false} ExactIff(minutes: seq<map<string, real>>, k: string)
    requires NonNegative(minutes)
    ensures ListedTotal(minutes, k) == Total(minutes, k) <==> !LosesSome(minutes, k)
  {
    if minutes != [] {
      var init := minutes[..|minutes| - 1];
      ExactIff(init, k);
      TruncationBound(init, k);
      MinuteBound(minutes[|minutes| - 1], k);
    }
  }

  /** In particular it is exact when no minute has more keys than the list holds. */
  lemma {:induction false} ExactWhenSmall(minutes: seq<map<string, real>>, k: string)
    requires NonNegative(minutes) && forall i :: 0 <= i < |minutes| ==> |minutes[i]| <= 15
    ensures ListedTotal(minutes, k) == Total(minutes, k)
  {
    if minutes != [] {
      ExactWhenSmall(minutes[..|minutes| - 1], k);
      MinuteBound(minutes[|minutes| - 1], k);
    }
  }
}

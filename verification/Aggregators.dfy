/**
 The six stream aggregators over exact numbers: updating one state, merging two, and
 the proof that workers may split a stream in any way without changing the result.
 */
module Aggregators {
  import opened Prelude
  import TopN

  datatype Kind = Count | Sum | Avg | Rate | DistinctCount | Top

  /** What the configured fields of an event resolve to. */
  datatype Event = Event(number: Option<real>, matched: bool, member: Option<string>, weight: real)

  datatype State =
    | Counted(count: nat)
    | Summed(sum: real, numbers: nat)
    | Rated(hits: nat, total: nat)
    | Members(members: set<string>)
    | Scores(scores: map<string, real>)

  predicate Fits(kind: Kind, s: State) {
    match kind
    case Count => s.Counted?
    case Sum => s.Summed?
    case Avg => s.Summed?
    case Rate => s.Rated?
    case DistinctCount => s.Members?
    case Top => s.Scores?
  }

  function Init(kind: Kind): (s: State)
    ensures Fits(kind, s)
  {
    match kind
    case Count => Counted(0)
    case Sum => Summed(0.0, 0)
    case Avg => Summed(0.0, 0)
    case Rate => Rated(0, 0)
    case DistinctCount => Members({})
    case Top => Scores(map[])
  }

  function Update(s: State, e: Event): State {
    match s
    case Counted(n) => Counted(n + 1)
    case Summed(sum, n) => if e.number.Some? then Summed(sum + e.number.value, n + 1) else s
    case Rated(hits, total) => Rated(if e.matched then hits + 1 else hits, total + 1)
    case Members(ms) => if e.member.Some? then Members(ms + {e.member.value}) else s
    case Scores(m) => if e.member.Some? then Scores(m[e.member.value := Get(m, e.member.value) + e.weight]) else s
  }

  function MergeScores(a: map<string, real>, b: map<string, real>): map<string, real> {
    map k | k in a.Keys + b.Keys :: Get(a, k) + Get(b, k)
  }

  /** States of one kind; a pair that does not match is left alone. */
  function Merge(a: State, b: State): State {
    match (a, b)
    case (Counted(m), Counted(n)) => Counted(m + n)
    case (Summed(s, m), Summed(t, n)) => Summed(s + t, m + n)
    case (Rated(h, m), Rated(i, n)) => Rated(h + i, m + n)
    case (Members(x), Members(y)) => Members(x + y)
    case (Scores(x), Scores(y)) => Scores(MergeScores(x, y))
    case (_, _) => a
  }

  function Fold(kind: Kind, es: seq<Event>): (s: State)
    ensures Fits(kind, s)
  {
    if es == [] then Init(kind) else Update(Fold(kind, es[..|es| - 1]), es[|es| - 1])
  }

  // ------------------------------------------------------------- monoid laws

  lemma MergeAssociative(kind: Kind, a: State, b: State, c: State)
    requires Fits(kind, a) && Fits(kind, b) && Fits(kind, c)
    ensures Merge(Merge(a, b), c) == Merge(a, Merge(b, c))
  {
    if kind == Top {
      assert MergeScores(MergeScores(a.scores, b.scores), c.scores) ==
             MergeScores(a.scores, MergeScores(b.scores, c.scores));
    }
  }

  lemma MergeCommutative(kind: Kind, a: State, b: State)
    requires Fits(kind, a) && Fits(kind, b)
    ensures Merge(a, b) == Merge(b, a)
  {
    if kind == Top {
      assert MergeScores(a.scores, b.scores) == MergeScores(b.scores, a.scores);
    }
  }

  lemma MergeInit(kind: Kind, a: State)
    requires Fits(kind, a)
    ensures Merge(a, Init(kind)) == a
  {
    if kind == Top {
      assert MergeScores(a.scores, map[]) == a.scores;
    }
  }

  /** An update is a merge with the state of one event. */
  lemma UpdateIsMerge(kind: Kind, a: State, e: Event)
    requires Fits(kind, a)
    ensures Fits(kind, Update(Init(kind), e)) && Update(a, e) == Merge(a, Update(Init(kind), e))
  {
    if kind == Top {
      if e.member.Some? {
        var k := e.member.value;
        assert MergeScores(a.scores, map[k := e.weight]) == a.scores[k := Get(a.scores, k) + e.weight];
      } else {
        MergeInit(kind, a);
      }
    }
  }

  /** Updates commute. */
  lemma UpdatesCommute(kind: Kind, a: State, d: Event, e: Event)
    requires Fits(kind, a)
    ensures Update(Update(a, d), e) == Update(Update(a, e), d)
  {
    var x, y := Update(Init(kind), d), Update(Init(kind), e);
    UpdateIsMerge(kind, a, d);
    UpdateIsMerge(kind, a, e);
    UpdateIsMerge(kind, Merge(a, x), e);
    UpdateIsMerge(kind, Merge(a, y), d);
    MergeAssociative(kind, a, x, y);
    MergeAssociative(kind, a, y, x);
    MergeCommutative(kind, x, y);
  }

  // ------------------------------------------------------------ homomorphism

  /** One pass over a concatenation is the merge of the two passes. */
  lemma {:induction false} FoldAppend(kind: Kind, xs: seq<Event>, ys: seq<Event>)
    ensures Fold(kind, xs + ys) == Merge(Fold(kind, xs), Fold(kind, ys))
    decreases |ys|
  {
    if ys == [] {
      assert xs + ys == xs;
      MergeInit(kind, Fold(kind, xs));
    } else {
      var front, e := ys[..|ys| - 1], ys[|ys| - 1];
      FoldAppend(kind, xs, front);
      assert (xs + ys)[..|xs + ys| - 1] == xs + front;
      SnocMerge(kind, Fold(kind, xs), Fold(kind, front), e);
    }
  }

  lemma SnocMerge(kind: Kind, a: State, b: State, e: Event)
    requires Fits(kind, a) && Fits(kind, b)
    ensures Update(Merge(a, b), e) == Merge(a, Update(b, e))
  {
    UpdateIsMerge(kind, Merge(a, b), e);
    UpdateIsMerge(kind, b, e);
    MergeAssociative(kind, a, b, Update(Init(kind), e));
  }

  /** Any event may be folded last. */
  lemma {:induction false} FoldPick(kind: Kind, es: seq<Event>, i: nat)
    requires i < |es|
    ensures Fold(kind, es) == Update(Fold(kind, es[..i] + es[i + 1..]), es[i])
  {
    var n := |es| - 1;
    if i == n {
      assert es[..i] + es[i + 1..] == es[..n];
    } else {
      var front := es[..n];
      FoldPick(kind, front, i);
      var rest := es[..i] + es[i + 1..];
      assert front[..i] + front[i + 1..] == rest[..|rest| - 1];
      UpdatesCommute(kind, Fold(kind, rest[..|rest| - 1]), es[i], es[n]);
    }
  }

  lemma PickOut(es: seq<Event>, i: nat)
    requires i < |es|
    ensures multiset(es[..i] + es[i + 1..]) == multiset(es) - multiset{es[i]}
  {
    assert es == es[..i] + [es[i]] + es[i + 1..];
    assert multiset(es) == multiset(es[..i]) + multiset{es[i]} + multiset(es[i + 1..]);
  }

  /** The order of the events does not matter. */
  lemma {:induction false} FoldPermutes(kind: Kind, xs: seq<Event>, ys: seq<Event>)
    requires multiset(xs) == multiset(ys)
    ensures Fold(kind, xs) == Fold(kind, ys)
    decreases |xs|
  {
    if xs == [] {
      assert |multiset(ys)| == |ys|;
    } else {
      var n := |xs| - 1;
      assert xs == xs[..n] + [xs[n]];
      assert xs[n] in multiset(ys);
      var i :| 0 <= i < |ys| && ys[i] == xs[n];
      var rest := ys[..i] + ys[i + 1..];
      PickOut(ys, i);
      assert multiset(rest) == multiset(xs) - multiset{xs[n]} == multiset(xs[..n]);
      FoldPermutes(kind, xs[..n], rest);
      FoldPick(kind, ys, i);
    }
  }

  /** A plan of merges: workers at the leaves, each with the events it was given in its own order. */
  datatype Plan = Worker(events: seq<Event>) | MergeOf(left: Plan, right: Plan)

  function Run(kind: Kind, p: Plan): State {
    match p
    case Worker(es) => Fold(kind, es)
    case MergeOf(l, r) => Merge(Run(kind, l), Run(kind, r))
  }

  function Events(p: Plan): seq<Event> {
    match p
    case Worker(es) => es
    case MergeOf(l, r) => Events(l) + Events(r)
  }

  lemma {:induction false} RunIsFold(kind: Kind, p: Plan)
    ensures Run(kind, p) == Fold(kind, Events(p))
    decreases p
  {
    if p.MergeOf? {
      RunIsFold(kind, p.left);
      RunIsFold(kind, p.right);
      FoldAppend(kind, Events(p.left), Events(p.right));
    }
  }

  /**
   However a stream is split or interleaved over any number of workers, and in whatever tree their
   states are merged, the final state is that of one pass over the stream.
   */
  lemma AnyPlan(kind: Kind, p: Plan, stream: seq<Event>)
    requires multiset(Events(p)) == multiset(stream)
    ensures Run(kind, p) == Fold(kind, stream)
  {
    RunIsFold(kind, p);
    FoldPermutes(kind, Events(p), stream);
  }

  // ------------------------------------------------------------- finalising

  ghost function SumValues(m: map<string, real>): real
    decreases |m|
  {
    if m == map[] then 0.0
    else
      var k :| k in m;
      m[k] + SumValues(m - {k})
  }

  datatype Final = Final(value: real, count: int)

  ghost function Finalize(kind: Kind, s: State): Final
    requires Fits(kind, s)
  {
    match s
    case Counted(n) => Final(n as real, n)
    case Summed(sum, n) =>
      Final(if kind == Sum then sum else if n == 0 then 0.0 else sum / n as real, n)
    case Rated(hits, total) => Final(if total == 0 then 0.0 else hits as real / total as real, total)
    case Members(ms) => Final(|ms| as real, |ms|)
    case Scores(m) => Final(|m| as real, Truncate(SumValues(m)))
  }

  /** A list that sorting the scores downwards and cutting after `n` may give, whatever the order of ties. */
  ghost predicate IsTop(m: map<string, real>, n: nat, top: seq<string>) {
    && |top| == (if n <= |m| then n else |m|)
    && (forall i :: 0 <= i < |top| ==> top[i] in m)
    && (forall i, j :: 0 <= i < j < |top| ==> top[i] != top[j] && m[top[i]] >= m[top[j]])
    && (forall i, k :: 0 <= i < |top| && k in m && k !in top ==> m[top[i]] >= m[k])
  }

  /** If `a`'s score at `i` beat `b`'s, then `i + 1` keys would have to stand before position `i` of `b`. */
  lemma NotAbove(m: map<string, real>, n: nat, a: seq<string>, b: seq<string>, i: nat)
    requires IsTop(m, n, a) && IsTop(m, n, b) && i < |a|
    ensures m[a[i]] <= m[b[i]]
  {
    if m[a[i]] > m[b[i]] {
      var before := set k | k in b[..i];
      var first := a[..i + 1];
      forall j | 0 <= j < |first| ensures first[j] in before {
        Before(m, n, a, b, i, j);
      }
      DistinctCard(first, before);
      PrefixCard(b[..i]);
    }
  }

  lemma Before(m: map<string, real>, n: nat, a: seq<string>, b: seq<string>, i: nat, j: nat)
    requires IsTop(m, n, a) && IsTop(m, n, b) && j <= i < |a| && m[a[i]] > m[b[i]]
    ensures a[j] in b[..i]
  {
    assert m[a[j]] >= m[a[i]];
    assert a[j] in b;
    var k :| 0 <= k < |b| && b[k] == a[j];
    assert k < i;
  }

  lemma {:induction false} PrefixCard(xs: seq<string>)
    ensures |set k | k in xs| <= |xs|
  {
    if xs != [] {
      var n := |xs| - 1;
      PrefixCard(xs[..n]);
      assert (set k | k in xs) == (set k | k in xs[..n]) + {xs[n]};
    }
  }

  /** Two such lists show the same scores in the same order. */
  lemma TopScoresAgree(m: map<string, real>, n: nat, a: seq<string>, b: seq<string>)
    requires IsTop(m, n, a) && IsTop(m, n, b)
    ensures |a| == |b| && forall i :: 0 <= i < |a| ==> m[a[i]] == m[b[i]]
  {
    forall i | 0 <= i < |a| ensures m[a[i]] == m[b[i]] {
      NotAbove(m, n, a, b, i);
      NotAbove(m, n, b, a, i);
    }
  }

  /** Such a list exists: the sorted set's own order gives one. */
  lemma TopExists(m: map<string, real>, n: nat)
    ensures IsTop(m, n, TopN.Top(m, n))
  {
    TopN.TopKeysCorrect(m, m.Keys, n);
  }

  /** The finalised values of any plan are those of one pass; for top-N also the sequence of scores. */
  lemma PlanFinalizesAlike(kind: Kind, p: Plan, stream: seq<Event>, n: nat, a: seq<string>, b: seq<string>)
    requires multiset(Events(p)) == multiset(stream)
    requires kind == Top ==> Run(kind, p).Scores? && IsTop(Run(kind, p).scores, n, a)
    requires kind == Top ==> IsTop(Fold(kind, stream).scores, n, b)
    ensures Fits(kind, Run(kind, p)) && Finalize(kind, Run(kind, p)) == Finalize(kind, Fold(kind, stream))
    ensures kind == Top ==>
              |a| == |b| && forall i :: 0 <= i < |a| ==> Run(kind, p).scores[a[i]] == Fold(kind, stream).scores[b[i]]
  {
    AnyPlan(kind, p, stream);
    if kind == Top {
      TopScoresAgree(Fold(kind, stream).scores, n, a, b);
    }
  }

  // ---------------------------------------------------------- what a fold holds

  function WeightOf(es: seq<Event>, k: string): real {
    if es == [] then 0.0
    else
      var e := es[|es| - 1];
      WeightOf(es[..|es| - 1], k) + if e.member == Some(k) then e.weight else 0.0
  }

  ghost predicate Mentioned(es: seq<Event>, k: string) {
    exists i :: 0 <= i < |es| && es[i].member == Some(k)
  }

  lemma MentionedSnoc(es: seq<Event>, k: string)
    requires es != []
    ensures Mentioned(es, k) <==> Mentioned(es[..|es| - 1], k) || es[|es| - 1].member == Some(k)
  {
    var front := es[..|es| - 1];
    if Mentioned(es, k) && es[|es| - 1].member != Some(k) {
      var i :| 0 <= i < |es| && es[i].member == Some(k);
      assert front[i].member == Some(k);
    }
    if Mentioned(front, k) {
      var i :| 0 <= i < |front| && front[i].member == Some(k);
      assert es[i].member == Some(k);
    }
  }

  /** One pass of top-N holds the group-by sums: exactly the keys mentioned, each with its total weight. */
  lemma {:induction false} ScoresAreSums(es: seq<Event>, k: string)
    ensures k in Fold(Top, es).scores <==> Mentioned(es, k)
    ensures Get(Fold(Top, es).scores, k) == WeightOf(es, k)
  {
    if es != [] {
      ScoresAreSums(es[..|es| - 1], k);
      MentionedSnoc(es, k);
    }
  }

  /** One pass of distinct-count holds exactly the members mentioned. */
  lemma {:induction false} MembersAreMentioned(es: seq<Event>, k: string)
    ensures k in Fold(DistinctCount, es).members <==> Mentioned(es, k)
  {
    if es != [] {
      MembersAreMentioned(es[..|es| - 1], k);
      MentionedSnoc(es, k);
    }
  }

  function Matched(es: seq<Event>): set<nat> {
    set i: nat | i < |es| && es[i].matched
  }

  /** One pass of rate counts the matching positions among all of them. */
  lemma {:induction false} RateCounts(es: seq<Event>)
    ensures Fold(Rate, es) == Rated(|Matched(es)|, |es|)
    ensures Fold(Count, es) == Counted(|es|)
  {
    if es == [] {
      NonePositions(es);
    } else {
      RateCounts(es[..|es| - 1]);
      MatchedSnoc(es);
    }
  }

  lemma NonePositions(es: seq<Event>)
    requires es == []
    ensures |Matched(es)| == 0
  {
    if |Matched(es)| != 0 {
      var i := Witness(Matched(es));
    }
  }

  lemma MatchedSnoc(es: seq<Event>)
    requires es != []
    ensures |Matched(es)| == |Matched(es[..|es| - 1])| + if es[|es| - 1].matched then 1 else 0
  {
    var n := |es| - 1;
    var front := es[..n];
    assert forall i: nat :: i < n ==> front[i] == es[i];
    if es[n].matched {
      assert Matched(es) == Matched(front) + {n};
    } else {
      assert Matched(es) == Matched(front);
    }
  }

  /** The numbers of a stream, in order. */
  function Numbers(es: seq<Event>): seq<real> {
    if es == [] then []
    else (if es[0].number.Some? then [es[0].number.value] else []) + Numbers(es[1..])
  }

  function Total(xs: seq<real>): real {
    if xs == [] then 0.0 else xs[0] + Total(xs[1..])
  }

  /** One pass of sum or average holds the total and the count of the numbers. */
  lemma {:induction false} SumIsTotal(es: seq<Event>)
    ensures Fold(Sum, es) == Summed(Total(Numbers(es)), |Numbers(es)|)
    ensures Fold(Avg, es) == Fold(Sum, es)
    decreases |es|
  {
    if es != [] {
      var e := es[0];
      SumIsTotal(es[1..]);
      assert es == [e] + es[1..];
      FoldAppend(Sum, [e], es[1..]);
      FoldAppend(Avg, [e], es[1..]);
      assert [e][..0] == [];
      assert Fold(Sum, [e]) == Update(Fold(Sum, []), e) && Fold(Avg, [e]) == Update(Fold(Avg, []), e);
      var ns := Numbers(es[1..]);
      if e.number.Some? {
        assert Numbers(es) == [e.number.value] + ns && ([e.number.value] + ns)[1..] == ns;
      } else {
        assert Numbers(es) == ns;
      }
    }
  }

  // -------------------------------------------------------- final values, spelled out

  lemma {:induction false} SumValuesPick(m: map<string, real>, k: string)
    requires k in m
    ensures SumValues(m) == m[k] + SumValues(m - {k})
    decreases |m|
  {
    var c: string :| c in m && SumValues(m) == m[c] + SumValues(m - {c});
    if c != k {
      SumValuesPick(m - {c}, k);
      SumValuesPick(m - {k}, c);
      assert m - {c} - {k} == m - {k} - {c};
    }
  }

  /** What the events that name a key weigh together. */
  function NamedWeight(es: seq<Event>): real {
    if es == [] then 0.0
    else NamedWeight(es[..|es| - 1]) + if es[|es| - 1].member.Some? then es[|es| - 1].weight else 0.0
  }

  lemma SumValuesPut(m: map<string, real>, k: string, w: real)
    ensures SumValues(m[k := Get(m, k) + w]) == SumValues(m) + w
  {
    var m' := m[k := Get(m, k) + w];
    SumValuesPick(m', k);
    if k in m {
      SumValuesPick(m, k);
      assert m' - {k} == m - {k};
    } else {
      assert m' - {k} == m;
    }
  }

  lemma {:induction false} ScoresSum(es: seq<Event>)
    ensures SumValues(Fold(Top, es).scores) == NamedWeight(es)
  {
    if es != [] {
      var e := es[|es| - 1];
      ScoresSum(es[..|es| - 1]);
      if e.member.Some? {
        SumValuesPut(Fold(Top, es[..|es| - 1]).scores, e.member.value, e.weight);
      }
    }
  }

  /** The value times the count is the amount; nothing over nothing is zero. */
  predicate IsRatio(f: Final, amount: real, n: nat) {
    f.count == n && f.value * n as real == amount && (n == 0 ==> f.value == 0.0)
  }

  ghost predicate AllMentioned(es: seq<Event>, keys: set<string>) {
    forall k :: k in keys <==> Mentioned(es, k)
  }

  /**
   The finalised values in terms of the stream: the number of events; the total and the number of the numbers; an
   average that times their number is the total; a rate that times the number of events is the number of matching
   ones; the number of different members; the number of keys, and their total weight with the fraction dropped.
   Empty streams give zero.
   */
  lemma FinalMeans(es: seq<Event>, keys: set<string>)
    requires AllMentioned(es, keys)
    ensures Finalize(Count, Fold(Count, es)) == Final(|es| as real, |es|)
    ensures Finalize(Sum, Fold(Sum, es)) == Final(Total(Numbers(es)), |Numbers(es)|)
    ensures IsRatio(Finalize(Avg, Fold(Avg, es)), Total(Numbers(es)), |Numbers(es)|)
    ensures IsRatio(Finalize(Rate, Fold(Rate, es)), |Matched(es)| as real, |es|)
    ensures Finalize(DistinctCount, Fold(DistinctCount, es)) == Final(|keys| as real, |keys|)
    ensures Finalize(Top, Fold(Top, es)) == Final(|keys| as real, Truncate(NamedWeight(es)))
  {
    RateCounts(es);
    FinalSums(es);
    FinalRate(es);
    FinalKeys(es, keys);
  }

  lemma FinalSums(es: seq<Event>)
    ensures Finalize(Sum, Fold(Sum, es)) == Final(Total(Numbers(es)), |Numbers(es)|)
    ensures IsRatio(Finalize(Avg, Fold(Avg, es)), Total(Numbers(es)), |Numbers(es)|)
  {
    var ns := Numbers(es);
    SumIsTotal(es);
    assert ns == [] ==> Total(ns) == 0.0;
    AverageMeans(Total(ns), |ns|);
  }

  lemma AverageMeans(total: real, n: nat)
    requires n == 0 ==> total == 0.0
    ensures IsRatio(Finalize(Avg, Summed(total, n)), total, n)
  {
    Quotient(total, n);
  }

  lemma RateMeans(hits: nat, total: nat)
    requires total == 0 ==> hits == 0
    ensures IsRatio(Finalize(Rate, Rated(hits, total)), hits as real, total)
  {
    Quotient(hits as real, total);
  }

  lemma FinalRate(es: seq<Event>)
    ensures IsRatio(Finalize(Rate, Fold(Rate, es)), |Matched(es)| as real, |es|)
  {
    RateCounts(es);
    if es == [] {
      NonePositions(es);
    }
    RateMeans(|Matched(es)|, |es|);
  }

  lemma FinalKeys(es: seq<Event>, keys: set<string>)
    requires AllMentioned(es, keys)
    ensures Finalize(DistinctCount, Fold(DistinctCount, es)) == Final(|keys| as real, |keys|)
    ensures Finalize(Top, Fold(Top, es)) == Final(|keys| as real, Truncate(NamedWeight(es)))
  {
    ScoresSum(es);
    KeysAre(es, keys);
  }

  lemma Quotient(x: real, n: nat)
    ensures n > 0 ==> (x / n as real) * n as real == x
  {
  }

  lemma KeysAre(es: seq<Event>, keys: set<string>)
    requires AllMentioned(es, keys)
    ensures Fold(DistinctCount, es).members == keys && |Fold(Top, es).scores| == |keys|
  {
    forall k ensures k in Fold(DistinctCount, es).members <==> k in keys {
      MembersAreMentioned(es, k);
    }
    forall k ensures k in Fold(Top, es).scores.Keys <==> k in keys {
      ScoresAreSums(es, k);
    }
    assert Fold(Top, es).scores.Keys == keys;
    assert |Fold(Top, es).scores| == |Fold(Top, es).scores.Keys|;
  }

  // ------------------------------------------------------------------- loops

  /** A worker's loop: the state is updated event by event. */
  method Process(kind: Kind, es: seq<Event>) returns (s: State)
    ensures s == Fold(kind, es)
  {
    s := Init(kind);
    for i := 0 to |es|
      invariant s == Fold(kind, es[..i])
    {
      assert es[..i + 1][..i] == es[..i];
      s := Update(s, es[i]);
    }
    assert es[..|es|] == es;
  }

  /** The top-N merge: `b`'s scores added one by one to a copy of `a`'s. */
  method MergeCounts(a: map<string, real>, b: map<string, real>) returns (out: map<string, real>)
    ensures out == MergeScores(a, b)
  {
    out := a;
    var rest := b.Keys;
    while rest != {}
      invariant rest <= b.Keys && out.Keys == a.Keys + (b.Keys - rest)
      invariant forall k :: k in out ==> out[k] == Get(a, k) + if k in rest then 0.0 else Get(b, k)
    {
      var k :| k in rest;
      out := out[k := Get(out, k) + b[k]];
      rest := rest - {k};
    }
  }
}

/** `display_daily_recommendations` of w_ai_share_main_third.py: the symbols of
    a fixed candidate list whose lookup succeeded are scored, sorted by score
    with Python's stable `list.sort`, and the first three are shown. */
module Recommendations {
  import opened StockQuotes
  import opened StockCache
  import opened Text

  /** The fixed candidate list. */
  const CandidateTickers: seq<string> :=
    ["AAPL", "MSFT", "GOOGL", "BHP.AX", "CBA.AX", "AIA.NZ", "FPH.NZ", "TSLA", "WBC.AX", "SPK.NZ"]

  /** How many recommendations are shown. */
  const TopCount: nat := 3

  /** A recommendation mean as the ranking sees it: 'N/A' or a number. */
  datatype Mean = Unknown | Known(m: real)

  /** A candidate that survived the error filter. */
  datatype Candidate = Candidate(ticker: string, mean: Mean)

  /** `-recommendation_mean if recommendation_mean != 'N/A' else 0`. */
  function Score(c: Candidate): real {
    match c.mean
    case Unknown => 0.0
    case Known(m) => -m
  }

  /** The sort keys: the score as written, and the plain mean the corrected
      ranking sorts its known means by. */
  datatype Order = ByScore | ByMean

  function Key(o: Order, c: Candidate): real {
    match o
    case ByScore => Score(c)
    case ByMean => MeanKey(c)
  }

  /** What the method produced: the chosen symbols, or the TypeError that
      `-None` raises out of the method when a mean is present but null. */
  datatype Ranking = Ranked(top: seq<Candidate>) | Aborted

  /** The loop over the lookups: error records are skipped; a null mean makes
      the whole method raise. */
  function Collect(results: seq<(string, Result)>): (r: Ranking)
    ensures r.Aborted? <==> exists i :: 0 <= i < |results| && NullMean(results[i].1)
    ensures r.Ranked? ==> r.top == Successes(results)
    ensures r.Ranked? ==> |r.top| == ValidCount(results)
    ensures r.Ranked? ==> forall k :: 0 <= k < |r.top| ==> IsCandidate(results, r.top[k])
  {
    SuccessesAreCandidates(results);
    if results == [] then Ranked([])
    else
      var (t, res) := results[0];
      var rest := Collect(results[1..]);
      assert forall i :: 1 <= i < |results| ==> results[i] == results[1..][i - 1];
      if NullMean(res) then Aborted
      else if rest.Aborted? then Aborted
      else if res.Error? then Ranked(rest.top)
      else Ranked([AsCandidate(t, res.data)] + rest.top)
  }

  /** The candidate a successful lookup of `ticker` contributes. */
  function AsCandidate(ticker: string, d: StockData): Candidate {
    Candidate(ticker, if d.recommendationMean.Num? then Known(d.recommendationMean.x) else Unknown)
  }

  /** The successful lookups, once each and in order, as candidates. */
  function Successes(results: seq<(string, Result)>): seq<Candidate> {
    if results == [] then []
    else
      var head := if results[0].1.Data? then [AsCandidate(results[0].0, results[0].1.data)] else [];
      head + Successes(results[1..])
  }

  /** There is one success per successful lookup, and each stands for one of
      the lookups. */
  lemma {:induction false} SuccessesAreCandidates(results: seq<(string, Result)>)
    ensures |Successes(results)| == ValidCount(results)
    ensures forall k :: 0 <= k < |Successes(results)| ==> IsCandidate(results, Successes(results)[k])
  {
    if results != [] {
      SuccessesAreCandidates(results[1..]);
      var s := Successes(results);
      var tail := Successes(results[1..]);
      forall k | 0 <= k < |s| ensures IsCandidate(results, s[k]) {
        if results[0].1.Data? && k == 0 {
          assert StandsFor(results, 0, s[0]);
        } else {
          var k' := if results[0].1.Data? then k - 1 else k;
          assert s[k] == tail[k'];
          var i :| 0 <= i < |results[1..]| && StandsFor(results[1..], i, tail[k']);
          assert results[i + 1] == results[1..][i];
          assert StandsFor(results, i + 1, s[k]);
        }
      }
    }
  }

  /** Candidates drawn from the successes each stand for a successful lookup. */
  lemma DrawnAreCandidates(top: seq<Candidate>, results: seq<(string, Result)>)
    requires multiset(top) <= multiset(Successes(results))
    ensures forall k :: 0 <= k < |top| ==> IsCandidate(results, top[k])
  {
    SuccessesAreCandidates(results);
    forall k | 0 <= k < |top| ensures IsCandidate(results, top[k]) {
      assert top[k] in multiset(Successes(results));
      var j :| 0 <= j < |Successes(results)| && Successes(results)[j] == top[k];
    }
  }

  /** A successful lookup whose 'Recommendation Mean' is `None`. */
  predicate NullMean(res: Result) {
    res.Data? && res.data.recommendationMean.Null?
  }

  /** The number of successful lookups. */
  function ValidCount(results: seq<(string, Result)>): nat {
    if results == [] then 0 else (if results[0].1.Data? then 1 else 0) + ValidCount(results[1..])
  }

  /** `c` stands for the successful lookup `results[i]`, with its mean. */
  predicate StandsFor(results: seq<(string, Result)>, i: nat, c: Candidate)
    requires i < |results|
  {
    results[i].0 == c.ticker && results[i].1.Data? &&
    match results[i].1.data.recommendationMean
    case Num(m) => c.mean == Known(m)
    case _ => c.mean == Unknown
  }

  /** `c` stands for a successful lookup of `results`, with its mean. */
  predicate IsCandidate(results: seq<(string, Result)>, c: Candidate) {
    exists i :: 0 <= i < |results| && StandsFor(results, i, c)
  }

  /** Keys never decrease from one element to the next. */
  predicate Sorted(s: seq<Candidate>, key: Order) {
    forall i :: 0 < i < |s| ==> Key(key, s[i - 1]) <= Key(key, s[i])
  }

  /** In a sorted sequence every element's key is at most every later one's. */
  lemma {:induction false} SortedPair(s: seq<Candidate>, key: Order, i: nat, j: nat)
    requires Sorted(s, key) && i <= j < |s|
    ensures Key(key, s[i]) <= Key(key, s[j])
    decreases j - i
  {
    if i < j {
      SortedPair(s, key, i, j - 1);
    }
  }

  /** The candidates whose key is `v`, in order. Stability of a sort means it
      keeps each of these sub-sequences as it was. */
  function WithKey(s: seq<Candidate>, key: Order, v: real): seq<Candidate> {
    if s == [] then [] else (if Key(key, s[0]) == v then [s[0]] else []) + WithKey(s[1..], key, v)
  }

  lemma WithKeyCons(x: Candidate, s: seq<Candidate>, key: Order, v: real)
    ensures WithKey([x] + s, key, v) == (if Key(key, x) == v then [x] else []) + WithKey(s, key, v)
  {
    assert ([x] + s)[1..] == s;
  }

  /** Insert `x` before the first element whose key is not smaller. */
  function Insert(x: Candidate, s: seq<Candidate>, key: Order): (r: seq<Candidate>)
    ensures Sorted(s, key) ==> Sorted(r, key)
    ensures |r| == |s| + 1 && (r[0] == x || (s != [] && r[0] == s[0]))
  {
    if s == [] then [x]
    else if Key(key, x) <= Key(key, s[0]) then [x] + s
    else
      var r' := Insert(x, s[1..], key);
      assert Sorted(s, key) ==> Key(key, s[0]) <= Key(key, r'[0]);
      assert forall i :: 1 < i < |r'| + 1 ==> ([s[0]] + r')[i] == r'[i - 1];
      [s[0]] + r'
  }

  /** A stable sort by `key`, as Python's `list.sort(key=...)`: the result is
      ordered and holds the same candidates. */
  function Sort(s: seq<Candidate>, key: Order): (r: seq<Candidate>)
    ensures Sorted(r, key)
    ensures |r| == |s|
  {
    if s == [] then [] else Insert(s[0], Sort(s[1..], key), key)
  }

  /** Insertion adds exactly one copy of `x`. */
  lemma {:induction false} InsertMultiset(x: Candidate, s: seq<Candidate>, key: Order)
    ensures multiset(Insert(x, s, key)) == multiset(s) + multiset{x}
  {
    if s != [] && Key(key, x) > Key(key, s[0]) {
      InsertMultiset(x, s[1..], key);
      InsertPast(x, s, key);
      assert s == [s[0]] + s[1..];
    }
  }

  /** The sort is a permutation: it holds the same candidates, each as often. */
  lemma {:induction false} SortPermutes(s: seq<Candidate>, key: Order)
    ensures multiset(Sort(s, key)) == multiset(s)
  {
    if s != [] {
      SortPermutes(s[1..], key);
      InsertMultiset(s[0], Sort(s[1..], key), key);
      assert s == [s[0]] + s[1..];
    }
  }

  lemma {:induction false} InsertStable(x: Candidate, s: seq<Candidate>, key: Order, v: real)
    ensures WithKey(Insert(x, s, key), key, v) == (if Key(key, x) == v then [x] else []) + WithKey(s, key, v)
  {
    if s == [] || Key(key, x) <= Key(key, s[0]) {
      assert Insert(x, s, key) == [x] + s;
      WithKeyCons(x, s, key, v);
    } else {
      InsertStable(x, s[1..], key, v);
      InsertStableStep(x, s, key, v);
    }
  }

  lemma InsertPast(x: Candidate, s: seq<Candidate>, key: Order)
    requires s != [] && Key(key, x) > Key(key, s[0])
    ensures Insert(x, s, key) == [s[0]] + Insert(x, s[1..], key)
  {
  }

  /** Putting `h` in front of two sequences keeps them related as before,
      provided `h` and the elements of `xs` do not both have key `v`. */
  lemma WithKeyFront(h: Candidate, a: seq<Candidate>, b: seq<Candidate>, xs: seq<Candidate>, key: Order, v: real)
    requires WithKey(a, key, v) == xs + WithKey(b, key, v)
    requires xs == [] || Key(key, h) != v
    ensures WithKey([h] + a, key, v) == xs + WithKey([h] + b, key, v)
  {
    WithKeyCons(h, a, key, v);
    WithKeyCons(h, b, key, v);
    if Key(key, h) == v {
      assert xs + WithKey(b, key, v) == WithKey(b, key, v);
    }
  }

  /** The step of `InsertStable` where `x` goes past the head of `s`: the
      head's key is smaller than `x`'s, so at most one of them has key `v`. */
  lemma InsertStableStep(x: Candidate, s: seq<Candidate>, key: Order, v: real)
    requires s != [] && Key(key, x) > Key(key, s[0])
    requires WithKey(Insert(x, s[1..], key), key, v) ==
      (if Key(key, x) == v then [x] else []) + WithKey(s[1..], key, v)
    ensures WithKey(Insert(x, s, key), key, v) == (if Key(key, x) == v then [x] else []) + WithKey(s, key, v)
  {
    InsertPast(x, s, key);
    assert [s[0]] + s[1..] == s;
    WithKeyFront(s[0], Insert(x, s[1..], key), s[1..], if Key(key, x) == v then [x] else [], key, v);
  }

  /** The sort is stable: for every key value, the candidates with that key
      appear in the same relative order as in the input. */
  lemma {:induction false} SortStable(s: seq<Candidate>, key: Order, v: real)
    ensures WithKey(Sort(s, key), key, v) == WithKey(s, key, v)
  {
    if s != [] {
      SortStable(s[1..], key, v);
      InsertStable(s[0], Sort(s[1..], key), key, v);
    }
  }

  /** `recommendations[:3]` of the sorted list. */
  function Take(s: seq<Candidate>, n: nat): (r: seq<Candidate>)
    ensures |r| == if |s| < n then |s| else n
    ensures r <= s
  {
    if |s| <= n then s else s[..n]
  }

  /** Keeping the candidates with key `v` maps a prefix to a prefix. */
  lemma {:induction false} WithKeyPrefix(a: seq<Candidate>, b: seq<Candidate>, key: Order, v: real)
    requires a <= b
    ensures WithKey(a, key, v) <= WithKey(b, key, v)
  {
    if a != [] {
      assert a[1..] <= b[1..] by {
        assert a[1..] == b[1..][..|a| - 1];
      }
      WithKeyPrefix(a[1..], b[1..], key, v);
    }
  }

  /** A prefix and the matching suffix hold every element once. */
  lemma SplitMultiset(s: seq<Candidate>, n: nat)
    requires n <= |s|
    ensures multiset(s[..n]) + multiset(s[n..]) == multiset(s)
  {
    assert s == s[..n] + s[n..];
  }

  /** A prefix of a sorted sequence is sorted, and no key in it exceeds a
      key after it. */
  lemma SortedSplit(s: seq<Candidate>, key: Order, n: nat)
    requires Sorted(s, key) && n <= |s|
    ensures Sorted(s[..n], key)
    ensures forall i, j :: 0 <= i < n && 0 <= j < |s| - n ==> Key(key, s[..n][i]) <= Key(key, s[n..][j])
  {
    forall i, j | 0 <= i < n && 0 <= j < |s| - n
      ensures Key(key, s[..n][i]) <= Key(key, s[n..][j])
    {
      SortedPair(s, key, i, n + j);
    }
  }

  /** The ranking as written: sort by `Score`, keep the first three. */
  function RankAsWritten(candidates: seq<Candidate>): seq<Candidate> {
    Take(Sort(candidates, ByScore), TopCount)
  }

  /** The chosen candidates and the rest split the candidates, the chosen ones
      are in ascending score order, and none of the rest scores lower than any
      chosen one. There are `min(3, n)` of them. */
  lemma {:induction false} RankAsWrittenSpec(candidates: seq<Candidate>)
    ensures var top := RankAsWritten(candidates);
      var rest := Sort(candidates, ByScore)[|top|..];
      && |top| == (if |candidates| < TopCount then |candidates| else TopCount)
      && multiset(top) + multiset(rest) == multiset(candidates)
      && Sorted(top, ByScore)
      && (forall i, j :: 0 <= i < |top| && 0 <= j < |rest| ==> Score(top[i]) <= Score(rest[j]))
  {
    var sorted := Sort(candidates, ByScore);
    SortPermutes(candidates, ByScore);
    var n := |RankAsWritten(candidates)|;
    assert RankAsWritten(candidates) == sorted[..n];
    SplitMultiset(sorted, n);
    SortedSplit(sorted, ByScore, n);
  }

  /** What is left of `all` once the chosen `top` are taken out. */
  function LeftOut(top: seq<Candidate>, all: seq<Candidate>): multiset<Candidate> {
    multiset(all) - multiset(top)
  }

  /** No candidate left out scores lower than a chosen one. */
  predicate NoneLeftOutScoresLower(top: seq<Candidate>, all: seq<Candidate>) {
    forall i, c :: 0 <= i < |top| && c in LeftOut(top, all) ==> Score(top[i]) <= Score(c)
  }

  /** A chosen list and the rest that partition `all`: what is left out of
      `all` is exactly the rest. */
  lemma LeftOutIsRest(top: seq<Candidate>, rest: seq<Candidate>, all: seq<Candidate>)
    requires multiset(top) + multiset(rest) == multiset(all)
    ensures multiset(top) <= multiset(all)
    ensures LeftOut(top, all) == multiset(rest)
  {
  }

  /** As written, the shown candidates are drawn from the candidates, in
      ascending score, and no candidate left out scores lower than a shown one. */
  lemma RankAsWrittenChosen(candidates: seq<Candidate>)
    ensures var top := RankAsWritten(candidates);
      && |top| == (if |candidates| < TopCount then |candidates| else TopCount)
      && multiset(top) <= multiset(candidates)
      && Sorted(top, ByScore)
      && NoneLeftOutScoresLower(top, candidates)
  {
    RankAsWrittenSpec(candidates);
    var top := RankAsWritten(candidates);
    var rest := Sort(candidates, ByScore)[|top|..];
    LeftOutIsRest(top, rest, candidates);
    forall i, c | 0 <= i < |top| && c in LeftOut(top, candidates)
      ensures Score(top[i]) <= Score(c)
    {
      assert c in multiset(rest);
      var j :| 0 <= j < |rest| && rest[j] == c;
    }
  }

  /** As written, equal scores keep the candidate order: for every score,
      the shown candidates with that score are the first ones with it. */
  lemma RankAsWrittenStable(candidates: seq<Candidate>)
    ensures forall v :: WithKey(RankAsWritten(candidates), ByScore, v) <= WithKey(candidates, ByScore, v)
  {
    forall v ensures WithKey(RankAsWritten(candidates), ByScore, v) <= WithKey(candidates, ByScore, v) {
      WithKeyPrefix(RankAsWritten(candidates), Sort(candidates, ByScore), ByScore, v);
      SortStable(candidates, ByScore, v);
    }
  }

  /** The quirk of the score: a candidate with a known positive mean always
      ranks ahead of one with an unknown mean, and of two known means the
      larger ranks first. */
  lemma LargerMeansFirst(a: Candidate, b: Candidate)
    ensures a.mean.Known? && a.mean.m > 0.0 && b.mean.Unknown? ==> Score(a) < Score(b)
    ensures a.mean.Known? && b.mean.Known? && a.mean.m > b.mean.m ==> Score(a) < Score(b)
  {
  }

  /** On a candidate list with the means 1.0 (strong buy), 4.0, 4.5 and 5.0
      (strong sell) the method shows the three most sell-leaning symbols and
      leaves out the strong buy. */
  lemma AsWrittenPicksSells()
    ensures var cs := [Candidate("A", Known(1.0)), Candidate("B", Known(4.0)),
                       Candidate("C", Known(4.5)), Candidate("D", Known(5.0))];
      RankAsWritten(cs) == [cs[3], cs[2], cs[1]]
  {
    var a, b, c, d := Candidate("A", Known(1.0)), Candidate("B", Known(4.0)),
                      Candidate("C", Known(4.5)), Candidate("D", Known(5.0));
    SortStep([d], ByScore);
    InsertPast(c, [d], ByScore);
    SortStep([c, d], ByScore);
    InsertPast(b, [c], ByScore);
    InsertPast(b, [d, c], ByScore);
    SortStep([b, c, d], ByScore);
    InsertPast(a, [b], ByScore);
    InsertPast(a, [c, b], ByScore);
    InsertPast(a, [d, c, b], ByScore);
    SortStep([a, b, c, d], ByScore);
  }

  /** One step of the sort: the head is inserted into the sorted tail. */
  lemma SortStep(s: seq<Candidate>, key: Order)
    requires s != []
    ensures Sort(s, key) == Insert(s[0], Sort(s[1..], key), key)
  {
  }

  /** The ordering a recommendation list needs on the provider's
      `recommendationMean` scale, which runs from 1 (strong buy) to 5 (strong
      sell): the lowest known means first, in ascending order. */
  function MeanKey(c: Candidate): real {
    match c.mean
    case Unknown => 0.0
    case Known(m) => m
  }

  /** The candidates with a known mean, in order. */
  function Knowns(s: seq<Candidate>): (r: seq<Candidate>)
    ensures forall k :: 0 <= k < |r| ==> r[k].mean.Known?
  {
    if s == [] then [] else (if s[0].mean.Known? then [s[0]] else []) + Knowns(s[1..])
  }

  /** The candidates with an unknown mean, in order. */
  function Unknowns(s: seq<Candidate>): (r: seq<Candidate>)
    ensures forall k :: 0 <= k < |r| ==> r[k].mean.Unknown?
  {
    if s == [] then [] else (if s[0].mean.Unknown? then [s[0]] else []) + Unknowns(s[1..])
  }

  /** Every candidate is in exactly one of the two groups. */
  lemma {:induction false} KnownsUnknownsPartition(s: seq<Candidate>)
    ensures multiset(Knowns(s)) + multiset(Unknowns(s)) == multiset(s)
  {
    if s != [] {
      KnownsUnknownsPartition(s[1..]);
      assert s == [s[0]] + s[1..];
    }
  }

  /** The filters map a prefix to a prefix. */
  lemma {:induction false} KnownsPrefix(a: seq<Candidate>, b: seq<Candidate>)
    requires a <= b
    ensures Knowns(a) <= Knowns(b) && Unknowns(a) <= Unknowns(b)
  {
    if a != [] {
      assert a[1..] <= b[1..] by {
        assert a[1..] == b[1..][..|a| - 1];
      }
      KnownsPrefix(a[1..], b[1..]);
    }
  }

  /** The filters distribute over concatenation. */
  lemma {:induction false} KnownsConcat(a: seq<Candidate>, b: seq<Candidate>)
    ensures Knowns(a + b) == Knowns(a) + Knowns(b)
    ensures Unknowns(a + b) == Unknowns(a) + Unknowns(b)
  {
    if a == [] {
      assert a + b == b;
    } else {
      assert (a + b)[1..] == a[1..] + b;
      KnownsConcat(a[1..], b);
      var h := if a[0].mean.Known? then [a[0]] else [];
      assert h + (Knowns(a[1..]) + Knowns(b)) == (h + Knowns(a[1..])) + Knowns(b);
      var u := if a[0].mean.Unknown? then [a[0]] else [];
      assert u + (Unknowns(a[1..]) + Unknowns(b)) == (u + Unknowns(a[1..])) + Unknowns(b);
    }
  }

  /** Filtering candidates that all have a known mean keeps all of them. */
  lemma {:induction false} KnownsOfKnown(s: seq<Candidate>)
    requires forall k :: 0 <= k < |s| ==> s[k].mean.Known?
    ensures Knowns(s) == s && Unknowns(s) == []
  {
    if s != [] {
      KnownsOfKnown(s[1..]);
    }
  }

  /** Filtering candidates that all have an unknown mean keeps all of them. */
  lemma {:induction false} UnknownsOfUnknown(s: seq<Candidate>)
    requires forall k :: 0 <= k < |s| ==> s[k].mean.Unknown?
    ensures Unknowns(s) == s && Knowns(s) == []
  {
    if s != [] {
      UnknownsOfUnknown(s[1..]);
    }
  }

  /** The corrected ranking: known means ascending, then the unknown ones in
      candidate order, and the first three of that. */
  function RankIntended(candidates: seq<Candidate>): seq<Candidate> {
    Take(IntendedOrder(candidates), TopCount)
  }

  function IntendedOrder(candidates: seq<Candidate>): seq<Candidate> {
    Sort(Knowns(candidates), ByMean) + Unknowns(candidates)
  }

  /** A known mean is preceded only by known means no larger than it. */
  predicate KnownsFirst(s: seq<Candidate>) {
    forall i, j :: 0 <= i < j < |s| && s[j].mean.Known? ==>
      s[i].mean.Known? && s[i].mean.m <= s[j].mean.m
  }

  /** Splitting such a sequence keeps the order in the prefix, and a known
      mean after the split is preceded by known, no larger, means before it. */
  lemma KnownsFirstSplit(s: seq<Candidate>, n: nat)
    requires KnownsFirst(s) && n <= |s|
    ensures KnownsFirst(s[..n])
    ensures forall i, j :: 0 <= i < n && 0 <= j < |s| - n && s[n..][j].mean.Known? ==>
      s[..n][i].mean.Known? && s[..n][i].mean.m <= s[n..][j].mean.m
  {
    forall i, j | 0 <= i < n && 0 <= j < |s| - n && s[n..][j].mean.Known?
      ensures s[..n][i].mean.Known? && s[..n][i].mean.m <= s[n..][j].mean.m
    {
      assert s[n..][j] == s[n + j];
    }
  }

  /** The corrected order is a permutation of the candidates in which a known
      mean is preceded only by known means no larger than it. */
  lemma IntendedOrderSpec(candidates: seq<Candidate>)
    ensures var order := IntendedOrder(candidates);
      multiset(order) == multiset(candidates) && KnownsFirst(order)
  {
    var known := Sort(Knowns(candidates), ByMean);
    var unknown := Unknowns(candidates);
    var order := known + unknown;
    SortPermutes(Knowns(candidates), ByMean);
    KnownsUnknownsPartition(candidates);
    forall k | 0 <= k < |known| ensures known[k].mean.Known? {
      assert known[k] in multiset(Knowns(candidates));
    }
    forall i, j | 0 <= i < j < |order| && order[j].mean.Known?
      ensures order[i].mean.Known? && order[i].mean.m <= order[j].mean.m
    {
      if j < |known| {
        assert order[i] == known[i] && order[j] == known[j];
        SortedPair(known, ByMean, i, j);
      }
    }
  }

  /** The corrected ranking chooses the lowest known means: every chosen known
      mean is at most every left-out known mean, the chosen ones come in
      ascending order, and an unknown mean is chosen only when every known
      one has been. */
  lemma RankIntendedSpec(candidates: seq<Candidate>)
    ensures var top := RankIntended(candidates);
      var rest := IntendedOrder(candidates)[|top|..];
      && |top| == (if |candidates| < TopCount then |candidates| else TopCount)
      && multiset(top) + multiset(rest) == multiset(candidates)
      && (forall i, j :: 0 <= i < j < |top| && top[j].mean.Known? ==>
            top[i].mean.Known? && top[i].mean.m <= top[j].mean.m)
      && (forall i, j :: 0 <= i < |top| && 0 <= j < |rest| && rest[j].mean.Known? ==>
            top[i].mean.Known? && top[i].mean.m <= rest[j].mean.m)
  {
    var order := IntendedOrder(candidates);
    IntendedOrderSpec(candidates);
    var n := |RankIntended(candidates)|;
    assert |multiset(order)| == |multiset(candidates)|;
    assert RankIntended(candidates) == order[..n];
    SplitMultiset(order, n);
    KnownsFirstSplit(order, n);
  }

  /** No known mean left out is lower than a chosen one, and a chosen one is
      then known itself. */
  predicate NoKnownLeftOutLower(top: seq<Candidate>, all: seq<Candidate>) {
    forall i, c :: 0 <= i < |top| && c in LeftOut(top, all) && c.mean.Known? ==>
      top[i].mean.Known? && top[i].mean.m <= c.mean.m
  }

  /** Every element of a sub-multiset's sequence is an element of the whole. */
  lemma DrawnFrom(top: seq<Candidate>, all: seq<Candidate>)
    requires multiset(top) <= multiset(all)
    ensures forall k :: 0 <= k < |top| ==> top[k] in all
  {
    forall k | 0 <= k < |top| ensures top[k] in all {
      assert top[k] in multiset(all);
    }
  }

  /** When `top` and `rest` split `all` and no known mean of `rest` is below
      one of `top`, no known mean left out of `all` is. */
  lemma KnownLeftOutFromRest(top: seq<Candidate>, rest: seq<Candidate>, all: seq<Candidate>)
    requires multiset(top) + multiset(rest) == multiset(all)
    requires forall i, j :: 0 <= i < |top| && 0 <= j < |rest| && rest[j].mean.Known? ==>
      top[i].mean.Known? && top[i].mean.m <= rest[j].mean.m
    ensures multiset(top) <= multiset(all) && NoKnownLeftOutLower(top, all)
  {
    LeftOutIsRest(top, rest, all);
    forall i, c | 0 <= i < |top| && c in LeftOut(top, all) && c.mean.Known?
      ensures top[i].mean.Known? && top[i].mean.m <= c.mean.m
    {
      assert c in multiset(rest);
      var j :| 0 <= j < |rest| && rest[j] == c;
    }
  }

  /** The corrected ranking leaves out no known mean lower than a chosen one. */
  lemma RankIntendedLowest(candidates: seq<Candidate>)
    ensures var top := RankIntended(candidates);
      multiset(top) <= multiset(candidates) && NoKnownLeftOutLower(top, candidates)
  {
    RankIntendedSpec(candidates);
    var top := RankIntended(candidates);
    KnownLeftOutFromRest(top, IntendedOrder(candidates)[|top|..], candidates);
  }

  /** What a caller of the corrected ranking relies on: the shown candidates
      are drawn from the candidates, the known means come first and in
      ascending order, and no known mean left out is lower than a shown one. */
  lemma RankIntendedChosen(candidates: seq<Candidate>)
    ensures var top := RankIntended(candidates);
      && |top| == (if |candidates| < TopCount then |candidates| else TopCount)
      && multiset(top) <= multiset(candidates)
      && (forall k :: 0 <= k < |top| ==> top[k] in candidates)
      && (forall i, j :: 0 <= i < j < |top| && top[j].mean.Known? ==>
            top[i].mean.Known? && top[i].mean.m <= top[j].mean.m)
      && NoKnownLeftOutLower(top, candidates)
  {
    RankIntendedSpec(candidates);
    RankIntendedLowest(candidates);
    DrawnFrom(RankIntended(candidates), candidates);
  }

  /** The sorted known means are all known. */
  lemma SortedKnownsAreKnown(candidates: seq<Candidate>)
    ensures forall k :: 0 <= k < |Sort(Knowns(candidates), ByMean)| ==>
      Sort(Knowns(candidates), ByMean)[k].mean.Known?
  {
    var known := Sort(Knowns(candidates), ByMean);
    SortPermutes(Knowns(candidates), ByMean);
    forall k | 0 <= k < |known| ensures known[k].mean.Known? {
      assert known[k] in multiset(Knowns(candidates));
    }
  }

  /** The corrected ranking keeps the candidate order among equal known
      means, and shows the candidates without a mean in candidate order. */
  lemma RankIntendedStable(candidates: seq<Candidate>)
    ensures var top := RankIntended(candidates);
      && (forall v :: WithKey(Knowns(top), ByMean, v) <= WithKey(Knowns(candidates), ByMean, v))
      && Unknowns(top) <= Unknowns(candidates)
  {
    var known := Sort(Knowns(candidates), ByMean);
    var unknown := Unknowns(candidates);
    var top := RankIntended(candidates);
    SortedKnownsAreKnown(candidates);
    KnownsOfKnown(known);
    UnknownsOfUnknown(unknown);
    KnownsConcat(known, unknown);
    KnownsPrefix(top, known + unknown);
    forall v ensures WithKey(Knowns(top), ByMean, v) <= WithKey(Knowns(candidates), ByMean, v) {
      WithKeyPrefix(Knowns(top), known, ByMean, v);
      SortStable(Knowns(candidates), ByMean, v);
    }
  }

  /** On the same four candidates the corrected ranking shows the three most
      buy-leaning symbols. */
  lemma IntendedPicksBuys()
    ensures var cs := [Candidate("A", Known(1.0)), Candidate("B", Known(4.0)),
                       Candidate("C", Known(4.5)), Candidate("D", Known(5.0))];
      RankIntended(cs) == [cs[0], cs[1], cs[2]]
  {
    var a, b, c, d := Candidate("A", Known(1.0)), Candidate("B", Known(4.0)),
                      Candidate("C", Known(4.5)), Candidate("D", Known(5.0));
    assert [a, b, c, d][1..] == [b, c, d] && [b, c, d][1..] == [c, d] && [c, d][1..] == [d];
    assert Knowns([d]) == [d];
    assert Knowns([c, d]) == [c, d];
    assert Knowns([b, c, d]) == [b, c, d];
    assert Knowns([a, b, c, d]) == [a, b, c, d];
    assert Unknowns([d]) == [];
    assert Unknowns([c, d]) == [];
    assert Unknowns([b, c, d]) == [];
    assert Unknowns([a, b, c, d]) == [];
    assert Sort([d], ByMean) == [d];
    assert Sort([c, d], ByMean) == [c, d];
    assert Sort([b, c, d], ByMean) == [b, c, d];
    assert Sort([a, b, c, d], ByMean) == [a, b, c, d];
  }

  /** What the method shows as written, out of the successful lookups `all`:
      three of them, or all if fewer; in ascending score; none left out
      scoring lower; and for every score the first ones with that score. */
  ghost predicate ShowsAsWritten(top: seq<Candidate>, all: seq<Candidate>) {
    && |top| == (if |all| < TopCount then |all| else TopCount)
    && multiset(top) <= multiset(all)
    && Sorted(top, ByScore)
    && NoneLeftOutScoresLower(top, all)
    && forall v :: WithKey(top, ByScore, v) <= WithKey(all, ByScore, v)
  }

  /** `display_daily_recommendations` up to the display, as written: collect,
      rank by score, and return the chosen symbols. No successful lookup left
      out scores lower than a chosen one. */
  function DailyRecommendationsAsWritten(results: seq<(string, Result)>): (r: Ranking)
    ensures r.Aborted? <==> exists i :: 0 <= i < |results| && NullMean(results[i].1)
    ensures r.Ranked? ==>
      && |r.top| == (if ValidCount(results) < TopCount then ValidCount(results) else TopCount)
      && multiset(r.top) <= multiset(Successes(results))
      && Sorted(r.top, ByScore)
      && NoneLeftOutScoresLower(r.top, Successes(results))
      && (forall v :: WithKey(r.top, ByScore, v) <= WithKey(Successes(results), ByScore, v))
      && forall k :: 0 <= k < |r.top| ==> IsCandidate(results, r.top[k])
  {
    match Collect(results)
    case Aborted => Aborted
    case Ranked(cs) =>
      RankAsWrittenChosen(cs);
      RankAsWrittenStable(cs);
      DrawnAreCandidates(RankAsWritten(cs), results);
      Ranked(RankAsWritten(cs))
  }

  /** `display_daily_recommendations` with the corrected ranking: the chosen
      symbols are successful lookups, as many as the method shows, the known
      means first and in ascending order, no known mean left out lower than a
      chosen one, and a symbol without a mean only after every symbol with one. */
  function DailyRecommendations(results: seq<(string, Result)>): (r: Ranking)
    ensures r.Aborted? <==> exists i :: 0 <= i < |results| && NullMean(results[i].1)
    ensures r.Ranked? ==>
      && |r.top| == (if ValidCount(results) < TopCount then ValidCount(results) else TopCount)
      && multiset(r.top) <= multiset(Successes(results))
      && (forall k :: 0 <= k < |r.top| ==> IsCandidate(results, r.top[k]))
      && (forall i, j :: 0 <= i < j < |r.top| && r.top[j].mean.Known? ==>
            r.top[i].mean.Known? && r.top[i].mean.m <= r.top[j].mean.m)
      && NoKnownLeftOutLower(r.top, Successes(results))
      && (forall v :: WithKey(Knowns(r.top), ByMean, v) <= WithKey(Knowns(Successes(results)), ByMean, v))
      && Unknowns(r.top) <= Unknowns(Successes(results))
  {
    match Collect(results)
    case Aborted => Aborted
    case Ranked(cs) =>
      RankIntendedChosen(cs);
      RankIntendedStable(cs);
      DrawnAreCandidates(RankIntended(cs), results);
      Ranked(RankIntended(cs))
  }

  /** The lookups of the method's loop and the cache they leave behind. */
  datatype Fetches = Fetches(results: seq<(string, Result)>, cache: Cache)

  /** The lookups of a loop over `tickers` that stops at the first `None`
      mean: one lookup per symbol, in order; every lookup before the last has
      a usable mean; and the loop ends early only on a `None` mean. */
  predicate StopsAtNullMean(results: seq<(string, Result)>, tickers: seq<string>) {
    && |results| <= |tickers|
    && (forall i :: 0 <= i < |results| ==> results[i].0 == tickers[i])
    && (forall i :: 0 <= i < |results| - 1 ==> !NullMean(results[i].1))
    && (|results| < |tickers| ==> results != [] && NullMean(results[|results| - 1].1))
  }

  /** Every successful record names the symbol it was asked for. */
  predicate NamesItsSymbol(results: seq<(string, Result)>) {
    forall i :: 0 <= i < |results| && results[i].1.Data? ==> results[i].1.data.ticker == Upper(results[i].0)
  }

  /** One more lookup with a usable mean in front of a loop's lookups. */
  lemma StopsAtNullMeanCons(t: string, res: Result, rest: seq<(string, Result)>, tickers: seq<string>)
    requires tickers != [] && tickers[0] == t && !NullMean(res)
    requires StopsAtNullMean(rest, tickers[1..])
    ensures StopsAtNullMean([(t, res)] + rest, tickers)
  {
    var results := [(t, res)] + rest;
    assert forall i :: 1 <= i < |results| ==> results[i] == rest[i - 1] && tickers[i] == tickers[1..][i - 1];
  }

  /** A record naming its symbol in front of records that name theirs. */
  lemma NamesItsSymbolCons(t: string, res: Result, rest: seq<(string, Result)>)
    requires res.Data? ==> res.data.ticker == Upper(t)
    requires NamesItsSymbol(rest)
    ensures NamesItsSymbol([(t, res)] + rest)
  {
    var results := [(t, res)] + rest;
    assert forall i :: 1 <= i < |results| ==> results[i] == rest[i - 1];
  }

  /** In such a loop a `None` mean can only be the last lookup, and without
      one every symbol was looked up. */
  lemma NullMeanOnlyLast(results: seq<(string, Result)>, tickers: seq<string>)
    requires StopsAtNullMean(results, tickers)
    ensures (exists i :: 0 <= i < |results| && NullMean(results[i].1)) <==>
      results != [] && NullMean(results[|results| - 1].1)
    ensures !(results != [] && NullMean(results[|results| - 1].1)) ==> |results| == |tickers|
  {
  }

  /** The loop of the method: `self.fetch_stock_data(ticker)` for each symbol
      in turn, each call seeing the cache the previous one left. Scoring a
      `None` mean raises before the next symbol is asked for, so the loop ends
      with that lookup. The clock reads `now` for the whole loop. A valid
      cache stays valid, and then every successful record names its symbol. */
  function FetchAll(cache: Cache, tickers: seq<string>, now: real, provider: string -> Lookup): (r: Fetches)
    ensures StopsAtNullMean(r.results, tickers)
    ensures Valid(cache, now) ==> Valid(r.cache, now) && NamesItsSymbol(r.results)
    decreases |tickers|
  {
    if tickers == [] then Fetches([], cache)
    else
      var f := FetchStockData(cache, tickers[0], now, provider(tickers[0]));
      assert Valid(cache, now) ==>
        Valid(f.cache, now) && (f.result.Data? ==> f.result.data.ticker == Upper(tickers[0])) by {
        if Valid(cache, now) {
          FetchKeepsValid(cache, tickers[0], now, now, provider(tickers[0]));
        }
      }
      if NullMean(f.result) then Fetches([(tickers[0], f.result)], f.cache)
      else
        var rest := FetchAll(f.cache, tickers[1..], now, provider);
        StopsAtNullMeanCons(tickers[0], f.result, rest.results, tickers);
        if Valid(cache, now) then
          NamesItsSymbolCons(tickers[0], f.result, rest.results);
          Fetches([(tickers[0], f.result)] + rest.results, rest.cache)
        else Fetches([(tickers[0], f.result)] + rest.results, rest.cache)
  }

  /** What the method shows, and the cache afterwards. */
  datatype Daily = Daily(ranking: Ranking, cache: Cache)

  /** The method as written for a list of symbols: look each up in turn and
      rank them. It raises exactly when the lookups stopped at a `None` mean,
      leaving the cache as of that lookup; otherwise every symbol was looked
      up, only listed symbols are shown, at most three. The cache stays valid. */
  function DailyFrom(cache: Cache, tickers: seq<string>, now: real, provider: string -> Lookup): (d: Daily)
    ensures var f := FetchAll(cache, tickers, now, provider);
      && d.cache == f.cache
      && (d.ranking.Aborted? <==> f.results != [] && NullMean(f.results[|f.results| - 1].1))
      && (d.ranking.Ranked? ==> |f.results| == |tickers|)
    ensures d.ranking.Ranked? ==>
      && |d.ranking.top| <= TopCount
      && forall k :: 0 <= k < |d.ranking.top| ==> d.ranking.top[k].ticker in tickers
    ensures var f := FetchAll(cache, tickers, now, provider);
      d.ranking.Ranked? ==>
        && ShowsAsWritten(d.ranking.top, Successes(f.results))
        && forall k :: 0 <= k < |d.ranking.top| ==> IsCandidate(f.results, d.ranking.top[k])
    ensures Valid(cache, now) ==> Valid(d.cache, now)
  {
    var f := FetchAll(cache, tickers, now, provider);
    var r := DailyRecommendationsAsWritten(f.results);
    NullMeanOnlyLast(f.results, tickers);
    SuccessesAreCandidates(f.results);
    if r.Ranked? then
      CandidatesNamedIn(f.results, tickers, r.top);
      Daily(r, f.cache)
    else Daily(r, f.cache)
  }

  /** A `None` mean on the first symbol ends the method: it raises, and the
      cache holds that one lookup and none of the later symbols'. */
  lemma NullMeanEndsLookups(cache: Cache, t: string, rest: seq<string>, now: real, provider: string -> Lookup)
    requires FetchStockData(cache, t, now, provider(t)).result.Data?
    requires FetchStockData(cache, t, now, provider(t)).result.data.recommendationMean.Null?
    ensures var d := DailyFrom(cache, [t] + rest, now, provider);
      d.ranking.Aborted? && d.cache == FetchStockData(cache, t, now, provider(t)).cache
  {
    assert ([t] + rest)[0] == t;
  }

  /** `display_daily_recommendations` as written, from the cache and the clock:
      the fixed candidates are looked up in turn and ranked; only candidate
      symbols are shown, at most three, and the cache stays valid. */
  function DisplayDailyRecommendations(cache: Cache, now: real, provider: string -> Lookup): (d: Daily)
    ensures d.ranking.Ranked? ==>
      && |d.ranking.top| <= TopCount
      && forall k :: 0 <= k < |d.ranking.top| ==> d.ranking.top[k].ticker in CandidateTickers
    ensures var f := FetchAll(cache, CandidateTickers, now, provider);
      d.ranking.Ranked? ==>
        && ShowsAsWritten(d.ranking.top, Successes(f.results))
        && forall k :: 0 <= k < |d.ranking.top| ==> IsCandidate(f.results, d.ranking.top[k])
    ensures Valid(cache, now) ==> Valid(d.cache, now)
  {
    DailyFrom(cache, CandidateTickers, now, provider)
  }

  /** Candidates that stand for lookups of `tickers` are named in `tickers`. */
  lemma CandidatesNamedIn(results: seq<(string, Result)>, tickers: seq<string>, top: seq<Candidate>)
    requires |results| <= |tickers| && forall i :: 0 <= i < |results| ==> results[i].0 == tickers[i]
    requires forall k :: 0 <= k < |top| ==> IsCandidate(results, top[k])
    ensures forall k :: 0 <= k < |top| ==> top[k].ticker in tickers
  {
    forall k | 0 <= k < |top| ensures top[k].ticker in tickers {
      var i :| 0 <= i < |results| && StandsFor(results, i, top[k]);
      assert tickers[i] == top[k].ticker;
    }
  }
}

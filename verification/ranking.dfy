/** Ranking the branches (`compare_metrics`, `sorting_branches` and
    `compute_best_rank_from_step_robot` / `_human` in ConcurrentModule.py): leaves are
    compared lexicographically on a list of criteria, each minimised or maximised; they are
    sorted and ranked, equal leaves sharing a rank; and the best rank below each step is
    found by backward induction over the tree. */
module Ranking {
  import opened Wrappers
  import opened Tasks
  import opened Htn
  import opened ActionTree
  import opened AndOr
  import opened Metrics

  datatype Criterion = TimeEndHumanDuty | HumanEffort | TimeTaskCompletion | GlobalEffort | RiskConflict

  /** A criterion and whether it is maximised. */
  type Criteria = seq<(Criterion, bool)>

  function Value(m: Metrics, c: Criterion): int
  {
    match c
    case TimeEndHumanDuty => m.timeEndHumanDuty
    case HumanEffort => m.humanEffort
    case TimeTaskCompletion => m.timeTaskCompletion
    case GlobalEffort => m.globalEffort
    case RiskConflict => m.riskConflict
  }

  /** `compare_metrics`: `m1` is at least as good as `m2`. At the first criterion on which
      they differ the larger value wins when the criterion is maximised and the smaller one
      otherwise; a full tie counts as at least as good. */
  function Better(m1: Metrics, m2: Metrics, cr: Criteria): bool
  {
    if |cr| == 0 then true
    else
      var v1 := Value(m1, cr[0].0);
      var v2 := Value(m2, cr[0].0);
      if v1 < v2 then !cr[0].1
      else if v1 > v2 then cr[0].1
      else Better(m1, m2, cr[1..])
  }

  /** The two metrics agree on every criterion. */
  predicate SameOn(m1: Metrics, m2: Metrics, cr: Criteria)
  {
    forall i :: 0 <= i < |cr| ==> Value(m1, cr[i].0) == Value(m2, cr[i].0)
  }

  /** `m1` wins at criterion `j`, on which both agree before. */
  predicate WinsAt(m1: Metrics, m2: Metrics, cr: Criteria, j: nat)
    requires j < |cr|
  {
    (forall i :: 0 <= i < j ==> Value(m1, cr[i].0) == Value(m2, cr[i].0)) &&
    (if cr[j].1 then Value(m1, cr[j].0) > Value(m2, cr[j].0)
     else Value(m1, cr[j].0) < Value(m2, cr[j].0))
  }

  /** The comparison is the lexicographic order: a tie on every criterion, or a win at the
      first criterion where the metrics differ. */
  lemma {:induction false} BetterIff(m1: Metrics, m2: Metrics, cr: Criteria)
    ensures Better(m1, m2, cr) <==>
              SameOn(m1, m2, cr) || exists j :: 0 <= j < |cr| && WinsAt(m1, m2, cr, j)
  {
    if |cr| > 0 {
      BetterIff(m1, m2, cr[1..]);
      var v1 := Value(m1, cr[0].0);
      var v2 := Value(m2, cr[0].0);
      if v1 == v2 {
        if SameOn(m1, m2, cr[1..]) {
          assert forall i :: 1 <= i < |cr| ==> cr[i] == cr[1..][i - 1];
        }
        if SameOn(m1, m2, cr) {
          assert forall i :: 0 <= i < |cr[1..]| ==> cr[1..][i] == cr[i + 1];
        }
        if exists j :: 0 <= j < |cr[1..]| && WinsAt(m1, m2, cr[1..], j) {
          var j :| 0 <= j < |cr[1..]| && WinsAt(m1, m2, cr[1..], j);
          assert forall i :: 0 <= i < j + 1 ==> cr[i].0 == (if i == 0 then cr[0].0 else cr[1..][i - 1].0);
          assert WinsAt(m1, m2, cr, j + 1);
        }
        if exists j :: 0 <= j < |cr| && WinsAt(m1, m2, cr, j) {
          var j :| 0 <= j < |cr| && WinsAt(m1, m2, cr, j);
          assert j > 0;
          assert forall i :: 0 <= i < j - 1 ==> cr[1..][i] == cr[i + 1];
          assert WinsAt(m1, m2, cr[1..], j - 1);
        }
      } else {
        assert !SameOn(m1, m2, cr) by {
          assert Value(m1, cr[0].0) != Value(m2, cr[0].0);
        }
        if Better(m1, m2, cr) {
          assert WinsAt(m1, m2, cr, 0);
        }
        forall j | 0 < j < |cr|
          ensures !WinsAt(m1, m2, cr, j)
        {
          assert Value(m1, cr[0].0) != Value(m2, cr[0].0);
        }
      }
    }
  }

  /** The comparison is total. */
  lemma {:induction false} BetterTotal(m1: Metrics, m2: Metrics, cr: Criteria)
    ensures Better(m1, m2, cr) || Better(m2, m1, cr)
  {
    if |cr| > 0 {
      BetterTotal(m1, m2, cr[1..]);
    }
  }

  /** The comparison is transitive. */
  lemma {:induction false} BetterTransitive(a: Metrics, b: Metrics, c: Metrics, cr: Criteria)
    requires Better(a, b, cr) && Better(b, c, cr)
    ensures Better(a, c, cr)
  {
    if |cr| > 0 && Value(a, cr[0].0) == Value(b, cr[0].0) == Value(c, cr[0].0) {
      BetterTransitive(a, b, c, cr[1..]);
    }
  }

  /** Two metrics at least as good as each other tie on every criterion. */
  lemma {:induction false} BetterAntisymmetric(m1: Metrics, m2: Metrics, cr: Criteria)
    requires Better(m1, m2, cr) && Better(m2, m1, cr)
    ensures SameOn(m1, m2, cr)
  {
    if |cr| > 0 {
      BetterAntisymmetric(m1, m2, cr[1..]);
      assert forall i :: 1 <= i < |cr| ==> cr[i] == cr[1..][i - 1];
    }
  }

  /** The comparison only looks at the criteria: metrics that tie compare alike. */
  lemma {:induction false} BetterRespectsTies(a: Metrics, a': Metrics, b: Metrics, cr: Criteria)
    requires SameOn(a, a', cr)
    ensures Better(a, b, cr) == Better(a', b, cr) && Better(b, a, cr) == Better(b, a', cr)
  {
    if |cr| > 0 {
      assert Value(a, cr[0].0) == Value(a', cr[0].0);
      assert SameOn(a, a', cr[1..]) by {
        assert forall i :: 0 <= i < |cr[1..]| ==> cr[1..][i] == cr[i + 1];
      }
      BetterRespectsTies(a, a', b, cr[1..]);
    }
  }

  // ---------------------------------------------------------------------------------------
  // Sorting and ranks
  // ---------------------------------------------------------------------------------------

  /** A final leaf: its pair and its metrics. */
  datatype Leaf = Leaf(pair: nat, metrics: Metrics)

  /** Every leaf is at least as good as every later one. */
  predicate Sorted(ls: seq<Leaf>, cr: Criteria)
  {
    forall i, j :: 0 <= i < j < |ls| ==> Better(ls[i].metrics, ls[j].metrics, cr)
  }

  function InsertLeaf(x: Leaf, ls: seq<Leaf>, cr: Criteria): (r: seq<Leaf>)
    ensures multiset(r) == multiset(ls) + multiset{x}
  {
    if |ls| == 0 then [x]
    else if Better(x.metrics, ls[0].metrics, cr) then [x] + ls
    else
      assert ls == [ls[0]] + ls[1..];
      [ls[0]] + InsertLeaf(x, ls[1..], cr)
  }

  lemma {:induction false} InsertLeafSorted(x: Leaf, ls: seq<Leaf>, cr: Criteria)
    requires Sorted(ls, cr)
    ensures Sorted(InsertLeaf(x, ls, cr), cr)
  {
    if |ls| > 0 {
      var r := InsertLeaf(x, ls, cr);
      if Better(x.metrics, ls[0].metrics, cr) {
        forall j | 1 <= j < |r|
          ensures Better(x.metrics, r[j].metrics, cr)
        {
          if j > 1 {
            BetterTransitive(x.metrics, ls[0].metrics, ls[j - 1].metrics, cr);
          }
        }
      } else {
        BetterTotal(x.metrics, ls[0].metrics, cr);
        InsertLeafSorted(x, ls[1..], cr);
        var rest := InsertLeaf(x, ls[1..], cr);
        forall j | 0 <= j < |rest|
          ensures Better(ls[0].metrics, rest[j].metrics, cr)
        {
          assert rest[j] in multiset(rest);
          if rest[j] != x {
            assert rest[j] in multiset(ls[1..]);
            var k :| 0 <= k < |ls[1..]| && ls[1..][k] == rest[j];
            assert ls[k + 1] == rest[j];
          }
        }
      }
    }
  }

  /** The sort the ranking uses: an insertion sort. The source calls numpy's sort, whose order
      among tied leaves is unspecified; the ranks below are the same for every sorted
      permutation. */
  function Sort(ls: seq<Leaf>, cr: Criteria): (r: seq<Leaf>)
    ensures multiset(r) == multiset(ls) && |r| == |ls|
  {
    if |ls| == 0 then []
    else
      assert ls == [ls[0]] + ls[1..];
      InsertLeaf(ls[0], Sort(ls[1..], cr), cr)
  }

  lemma {:induction false} SortSorted(ls: seq<Leaf>, cr: Criteria)
    ensures Sorted(Sort(ls, cr), cr)
  {
    if |ls| > 0 {
      SortSorted(ls[1..], cr);
      InsertLeafSorted(ls[0], Sort(ls[1..], cr), cr);
    }
  }

  /** `m1` is strictly better than `m2`. */
  predicate StrictlyBetter(m1: Metrics, m2: Metrics, cr: Criteria)
  {
    Better(m1, m2, cr) && !SameOn(m1, m2, cr)
  }

  /** How many leaves of `ls` are strictly better than `m`. */
  function CountBetter(ls: seq<Leaf>, m: Metrics, cr: Criteria): (c: nat)
    ensures c <= |ls|
  {
    if |ls| == 0 then 0
    else CountBetter(ls[..|ls| - 1], m, cr) + (if StrictlyBetter(ls[|ls| - 1].metrics, m, cr) then 1 else 0)
  }

  lemma {:induction false} CountBetterAppend(a: seq<Leaf>, b: seq<Leaf>, m: Metrics, cr: Criteria)
    ensures CountBetter(a + b, m, cr) == CountBetter(a, m, cr) + CountBetter(b, m, cr)
  {
    if |b| == 0 {
      assert a + b == a;
    } else {
      assert (a + b)[..|a + b| - 1] == a + b[..|b| - 1];
      CountBetterAppend(a, b[..|b| - 1], m, cr);
    }
  }

  lemma RemoveOne<T>(a: seq<T>, b: seq<T>, i: nat)
    requires |a| > 0 && multiset(a) == multiset(b) && i < |b| && b[i] == a[|a| - 1]
    ensures multiset(b[..i] + b[i + 1..]) == multiset(a[..|a| - 1])
  {
    var x := a[|a| - 1];
    assert a == a[..|a| - 1] + [x];
    assert b == b[..i] + [x] + b[i + 1..];
    assert multiset(b[..i] + b[i + 1..]) == multiset(b) - multiset{x};
    assert multiset(a[..|a| - 1]) == multiset(a) - multiset{x};
  }

  /** The count does not depend on the order of the leaves. */
  lemma {:induction false} CountBetterPermutation(a: seq<Leaf>, b: seq<Leaf>, m: Metrics, cr: Criteria)
    requires multiset(a) == multiset(b)
    ensures CountBetter(a, m, cr) == CountBetter(b, m, cr)
    decreases |a|
  {
    if |a| == 0 {
      assert |b| == |multiset(b)| == 0;
    } else {
      var x := a[|a| - 1];
      var a' := a[..|a| - 1];
      assert a == a' + [x];
      assert x in multiset(b);
      var i :| 0 <= i < |b| && b[i] == x;
      var b' := b[..i] + b[i + 1..];
      RemoveOne(a, b, i);
      assert b == b[..i] + [x] + b[i + 1..];
      CountBetterPermutation(a', b', m, cr);
      CountBetterAppend(b[..i] + [x], b[i + 1..], m, cr);
      CountBetterAppend(b[..i], [x], m, cr);
      CountBetterAppend(b[..i], b[i + 1..], m, cr);
      assert [x][..0] == [];
    }
  }

  lemma {:induction false} CountBetterTies(ls: seq<Leaf>, m: Metrics, m': Metrics, cr: Criteria)
    requires SameOn(m, m', cr)
    ensures CountBetter(ls, m, cr) == CountBetter(ls, m', cr)
  {
    if |ls| > 0 {
      CountBetterTies(ls[..|ls| - 1], m, m', cr);
      BetterRespectsTies(m, m', ls[|ls| - 1].metrics, cr);
    }
  }

  lemma {:induction false} CountBetterAll(ls: seq<Leaf>, m: Metrics, cr: Criteria)
    requires forall j :: 0 <= j < |ls| ==> StrictlyBetter(ls[j].metrics, m, cr)
    ensures CountBetter(ls, m, cr) == |ls|
  {
    if |ls| > 0 {
      CountBetterAll(ls[..|ls| - 1], m, cr);
    }
  }

  /** In a sorted list no leaf at or after position `i` is strictly better than the `i`-th. */
  lemma {:induction false} CountBetterTail(ls: seq<Leaf>, i: nat, n: nat, cr: Criteria)
    requires Sorted(ls, cr) && i < |ls| && i <= n <= |ls|
    ensures CountBetter(ls[..n], ls[i].metrics, cr) == CountBetter(ls[..i], ls[i].metrics, cr)
    decreases n
  {
    if n > i {
      CountBetterTail(ls, i, n - 1, cr);
      assert ls[..n][..n - 1] == ls[..n - 1];
      var m := ls[i].metrics;
      if Better(ls[n - 1].metrics, m, cr) {
        if n - 1 > i {
          BetterAntisymmetric(m, ls[n - 1].metrics, cr);
        }
        assert SameOn(ls[n - 1].metrics, m, cr);
      }
    }
  }

  /** The rank of the `i`-th leaf of the sorted list as `sorting_branches` sets it: the rank
      of the leaf before it when they tie on every criterion, its position plus one
      otherwise. */
  function RankAt(ls: seq<Leaf>, i: nat, cr: Criteria): (r: nat)
    requires i < |ls|
    ensures 1 <= r <= i + 1
  {
    if i == 0 then 1
    else if SameOn(ls[i].metrics, ls[i - 1].metrics, cr) then RankAt(ls, i - 1, cr)
    else i + 1
  }

  /** In a sorted list a leaf's rank is one plus the number of leaves before it that are
      strictly better. */
  lemma {:induction false} RankAtCounts(ls: seq<Leaf>, i: nat, cr: Criteria)
    requires Sorted(ls, cr) && i < |ls|
    ensures RankAt(ls, i, cr) == 1 + CountBetter(ls[..i], ls[i].metrics, cr)
  {
    if i > 0 {
      var m := ls[i].metrics;
      var m' := ls[i - 1].metrics;
      assert ls[..i][..i - 1] == ls[..i - 1];
      if SameOn(m, m', cr) {
        RankAtCounts(ls, i - 1, cr);
        CountBetterTies(ls[..i - 1], m, m', cr);
      } else {
        forall j | 0 <= j < i
          ensures StrictlyBetter(ls[..i][j].metrics, m, cr)
        {
          if SameOn(ls[j].metrics, m, cr) {
            BetterRespectsTies(ls[j].metrics, m, m', cr);
            BetterAntisymmetric(m, m', cr);
          }
        }
        CountBetterAll(ls[..i], m, cr);
      }
    }
  }

  /** The rank of a leaf in a sorted list is one plus the number of leaves of the whole list
      strictly better than it: it does not depend on how tied leaves were ordered. */
  lemma RankIsCount(ls: seq<Leaf>, i: nat, cr: Criteria)
    requires Sorted(ls, cr) && i < |ls|
    ensures RankAt(ls, i, cr) == 1 + CountBetter(ls, ls[i].metrics, cr)
  {
    RankAtCounts(ls, i, cr);
    CountBetterTail(ls, i, |ls|, cr);
    assert ls[..|ls|] == ls;
  }

  /** `sorting_branches`: the leaves sorted, and the rank of each in the sorted order. */
  method SortingBranches(leaves: seq<Leaf>, cr: Criteria) returns (ranked: seq<Leaf>, ranks: seq<nat>)
    ensures multiset(ranked) == multiset(leaves) && Sorted(ranked, cr)
    ensures |ranks| == |ranked|
    ensures forall i :: 0 <= i < |ranked| ==> ranks[i] == 1 + CountBetter(leaves, ranked[i].metrics, cr)
  {
    ranked := Sort(leaves, cr);
    SortSorted(leaves, cr);
    ranks := [];
    var i := 0;
    while i < |ranked|
      invariant 0 <= i <= |ranked| && |ranks| == i
      invariant forall k :: 0 <= k < i ==> ranks[k] == RankAt(ranked, k, cr)
    {
      var same := i > 0;
      if same {
        same := Ties(ranked[i].metrics, ranked[i - 1].metrics, cr);
      }
      if same {
        ranks := ranks + [ranks[i - 1]];
      } else {
        ranks := ranks + [i + 1];
      }
      i := i + 1;
    }
    RanksCount(leaves, ranked, ranks, cr);
  }

  /** The comparison loop of `sorting_branches`: two leaves tie when they agree on every
      criterion. */
  method Ties(m1: Metrics, m2: Metrics, cr: Criteria) returns (same: bool)
    ensures same <==> SameOn(m1, m2, cr)
  {
    var c := 0;
    while c < |cr|
      invariant 0 <= c <= |cr|
      invariant forall k :: 0 <= k < c ==> Value(m1, cr[k].0) == Value(m2, cr[k].0)
    {
      if Value(m1, cr[c].0) != Value(m2, cr[c].0) {
        return false;
      }
      c := c + 1;
    }
    return true;
  }

  /** The ranks set position by position count the strictly better leaves of the input. */
  lemma RanksCount(leaves: seq<Leaf>, ranked: seq<Leaf>, ranks: seq<nat>, cr: Criteria)
    requires multiset(ranked) == multiset(leaves) && Sorted(ranked, cr) && |ranks| == |ranked|
    requires forall k :: 0 <= k < |ranked| ==> ranks[k] == RankAt(ranked, k, cr)
    ensures forall i :: 0 <= i < |ranked| ==> ranks[i] == 1 + CountBetter(leaves, ranked[i].metrics, cr)
  {
    forall i | 0 <= i < |ranked|
      ensures ranks[i] == 1 + CountBetter(leaves, ranked[i].metrics, cr)
    {
      RankIsCount(ranked, i, cr);
      CountBetterPermutation(ranked, leaves, ranked[i].metrics, cr);
    }
  }

  /** The ranks stored on the leaf pairs (`branch_rank_r` or `branch_rank_h`): when a pair
      occurs twice the later write wins, as with the source's attribute. */
  function RankMap(ls: seq<Leaf>, rs: seq<nat>): (m: map<nat, nat>)
    requires |ls| == |rs|
    ensures forall p :: p in m <==> exists i :: 0 <= i < |ls| && ls[i].pair == p
  {
    if |ls| == 0 then map[]
    else
      var m := RankMap(ls[..|ls| - 1], rs[..|rs| - 1]);
      assert forall i :: 0 <= i < |ls| - 1 ==> ls[..|ls| - 1][i] == ls[i];
      m[ls[|ls| - 1].pair := rs[|rs| - 1]]
  }

  lemma {:induction false} RankMapValue(ls: seq<Leaf>, rs: seq<nat>, p: nat)
    requires |ls| == |rs| && p in RankMap(ls, rs)
    ensures exists i :: 0 <= i < |ls| && ls[i].pair == p && RankMap(ls, rs)[p] == rs[i]
  {
    var n := |ls| - 1;
    if ls[n].pair != p {
      RankMapValue(ls[..n], rs[..n], p);
      var i :| 0 <= i < n && ls[..n][i].pair == p && RankMap(ls[..n], rs[..n])[p] == rs[..n][i];
      assert ls[i].pair == p && RankMap(ls, rs)[p] == rs[i];
    } else {
      assert ls[n].pair == p && RankMap(ls, rs)[p] == rs[n];
    }
  }

  /** The final leaves of a tree with their metrics. */
  function LeavesOf(ms: seq<(nat, Metrics)>): (ls: seq<Leaf>)
    ensures |ls| == |ms| && forall k :: 0 <= k < |ms| ==> ls[k] == Leaf(ms[k].0, ms[k].1)
  {
    seq(|ms|, k requires 0 <= k < |ms| => Leaf(ms[k].0, ms[k].1))
  }

  /** No two leaves share a pair. */
  predicate DistinctPairs(ls: seq<Leaf>)
  {
    forall a, b :: 0 <= a < b < |ls| ==> ls[a].pair != ls[b].pair
  }

  lemma FinalLeafPairsDistinct<S>(t: Tree<S>)
    requires Wf(t) && AllMetrics(t, FinalLeaves(t)).Ok?
    ensures DistinctPairs(LeavesOf(AllMetrics(t, FinalLeaves(t)).value))
  {
    var fl := FinalLeaves(t);
    FinalLeavesIncreasing(t, 0);
    var ls := LeavesOf(AllMetrics(t, fl).value);
    forall a, b | 0 <= a < b < |ls|
      ensures ls[a].pair != ls[b].pair
    {
      assert t.pairs[ls[a].pair].step == fl[a];
      assert t.pairs[ls[b].pair].step == fl[b];
    }
  }

  /** The ranks stored from a sorted permutation of leaves with distinct pairs: every leaf's
      pair gets one plus the number of leaves strictly better than it, and no other pair gets
      a rank. */
  lemma RankMapSpec(ls: seq<Leaf>, ranked: seq<Leaf>, ranks: seq<nat>, cr: Criteria)
    requires DistinctPairs(ls) && multiset(ranked) == multiset(ls) && |ranks| == |ranked|
    requires forall i :: 0 <= i < |ranked| ==> ranks[i] == 1 + CountBetter(ls, ranked[i].metrics, cr)
    ensures forall p :: p in RankMap(ranked, ranks) <==> exists k :: 0 <= k < |ls| && ls[k].pair == p
    ensures forall k :: 0 <= k < |ls| ==>
              ls[k].pair in RankMap(ranked, ranks) &&
              RankMap(ranked, ranks)[ls[k].pair] == 1 + CountBetter(ls, ls[k].metrics, cr)
  {
    var m := RankMap(ranked, ranks);
    forall p | true
      ensures p in m <==> exists k :: 0 <= k < |ls| && ls[k].pair == p
    {
      if k :| 0 <= k < |ls| && ls[k].pair == p {
        assert ls[k] in multiset(ranked);
        var i :| 0 <= i < |ranked| && ranked[i] == ls[k];
      }
      if i :| 0 <= i < |ranked| && ranked[i].pair == p {
        assert ranked[i] in multiset(ls);
        var k :| 0 <= k < |ls| && ls[k] == ranked[i];
      }
    }
    forall k | 0 <= k < |ls|
      ensures ls[k].pair in m && m[ls[k].pair] == 1 + CountBetter(ls, ls[k].metrics, cr)
    {
      RankMapValue(ranked, ranks, ls[k].pair);
      var i :| 0 <= i < |ranked| && ranked[i].pair == ls[k].pair && m[ls[k].pair] == ranks[i];
      assert ranked[i] in multiset(ls);
      var k' :| 0 <= k' < |ls| && ls[k'] == ranked[i];
      assert k' == k;
    }
  }

  /** Metrics, sort and ranks over the final leaves of an explored tree: every final leaf's
      pair gets one plus the number of final leaves strictly better than it. */
  method RankBranches<S>(t: Tree<S>, cr: Criteria) returns (r: Result<map<nat, nat>, EngineError>)
    requires Wf(t)
    ensures r.Err? <==> AllMetrics(t, FinalLeaves(t)).Err?
    ensures r.Ok? ==>
              var ls := LeavesOf(AllMetrics(t, FinalLeaves(t)).value);
              forall p :: p in r.value <==> exists k :: 0 <= k < |ls| && ls[k].pair == p
    ensures r.Ok? ==>
              var ls := LeavesOf(AllMetrics(t, FinalLeaves(t)).value);
              forall k :: 0 <= k < |ls| ==>
                ls[k].pair in r.value && r.value[ls[k].pair] == 1 + CountBetter(ls, ls[k].metrics, cr)
  {
    var ms := AllMetrics(t, FinalLeaves(t));
    if ms.Err? {
      return Err(ms.error);
    }
    var ls := LeavesOf(ms.value);
    FinalLeafPairsDistinct(t);
    var ranked, ranks := SortingBranches(ls, cr);
    RankMapSpec(ls, ranked, ranks, cr);
    return Ok(RankMap(ranked, ranks));
  }

  // ---------------------------------------------------------------------------------------
  // Best rank below a step
  // ---------------------------------------------------------------------------------------

  /** A candidate for the best pair: the pair and its best rank, when it has one. */
  type Cand = Option<(nat, nat)>

  /** One comparison of the scan in `compute_best_rank_from_step_*`: the candidate replaces
      the best so far unless it has no rank or a strictly larger one (the source compares with
      `<=`, so a later candidate wins a tie). */
  function Keep(best: Cand, c: Cand): (r: Cand)
    ensures r == best || r == c
    ensures r.Some? <==> best.Some? || c.Some?
    ensures r.Some? && best.Some? ==> r.value.1 <= best.value.1
    ensures r.Some? && c.Some? ==> r.value.1 <= c.value.1
  {
    if c.None? then best
    else if best.None? || c.value.1 <= best.value.1 then c
    else best
  }

  /** The scan over a list of candidates, from the first to the last. */
  function Scan(cs: seq<Cand>): Cand
  {
    if |cs| == 0 then None else Keep(Scan(cs[..|cs| - 1]), cs[|cs| - 1])
  }

  /** Candidate `k` has the least rank, and every later candidate a strictly larger one. */
  predicate LastBest(cs: seq<Cand>, k: nat)
  {
    k < |cs| && cs[k].Some? &&
    (forall j :: 0 <= j < |cs| && cs[j].Some? ==> cs[k].value.1 <= cs[j].value.1) &&
    (forall j :: k < j < |cs| && cs[j].Some? ==> cs[k].value.1 < cs[j].value.1)
  }

  /** At most one candidate is the last of least rank. */
  lemma LastBestUnique(cs: seq<Cand>, k: nat, k': nat)
    requires LastBest(cs, k) && LastBest(cs, k')
    ensures k == k'
  {
  }

  /** The scan finds no candidate exactly when no pair has a rank, and otherwise the last
      candidate of least rank. */
  lemma ScanSpec(cs: seq<Cand>)
    ensures Scan(cs).None? <==> forall j :: 0 <= j < |cs| ==> cs[j].None?
    ensures Scan(cs).Some? ==> exists k: nat :: LastBest(cs, k) && Scan(cs) == cs[k]
  {
    ScanNone(cs);
    ScanBest(cs);
  }

  lemma {:induction false} ScanNone(cs: seq<Cand>)
    ensures Scan(cs).None? <==> forall j :: 0 <= j < |cs| ==> cs[j].None?
  {
    if |cs| > 0 {
      var n := |cs| - 1;
      ScanNone(cs[..n]);
      assert forall j :: 0 <= j < n ==> cs[..n][j] == cs[j];
    }
  }

  lemma {:induction false} ScanBest(cs: seq<Cand>)
    ensures Scan(cs).Some? ==> exists k: nat :: LastBest(cs, k) && Scan(cs) == cs[k]
  {
    if |cs| > 0 {
      var n := |cs| - 1;
      var init := cs[..n];
      ScanBest(init);
      var r' := Scan(init);
      if r'.Some? {
        var k: nat :| LastBest(init, k) && r' == init[k];
        if cs[n].Some? && cs[n].value.1 <= r'.value.1 {
          LastBestAtEnd(cs, k);
        } else {
          LastBestKept(cs, k);
        }
      } else if cs[n].Some? {
        ScanNone(init);
        assert forall j :: 0 <= j < n ==> init[j] == cs[j];
        LastBestAlone(cs);
      }
    }
  }

  /** A last candidate no worse than the best of those before it is the new best. */
  lemma LastBestAtEnd(cs: seq<Cand>, k: nat)
    requires |cs| > 0 && LastBest(cs[..|cs| - 1], k)
    requires cs[|cs| - 1].Some? && cs[|cs| - 1].value.1 <= cs[k].value.1
    ensures LastBest(cs, |cs| - 1)
  {
    assert forall j :: 0 <= j < |cs| - 1 ==> cs[..|cs| - 1][j] == cs[j];
  }

  /** A last candidate without a rank or with a strictly larger one leaves the best. */
  lemma LastBestKept(cs: seq<Cand>, k: nat)
    requires |cs| > 0 && LastBest(cs[..|cs| - 1], k)
    requires cs[|cs| - 1].None? || cs[k].value.1 < cs[|cs| - 1].value.1
    ensures LastBest(cs, k) && cs[..|cs| - 1][k] == cs[k]
  {
    assert forall j :: 0 <= j < |cs| - 1 ==> cs[..|cs| - 1][j] == cs[j];
  }

  /** The only candidate with a rank is the best. */
  lemma LastBestAlone(cs: seq<Cand>)
    requires |cs| > 0 && cs[|cs| - 1].Some?
    requires forall j :: 0 <= j < |cs| - 1 ==> cs[j].None?
    ensures LastBest(cs, |cs| - 1)
  {
  }

  lemma {:induction false} ScanAppend(a: seq<Cand>, b: seq<Cand>)
    ensures Scan(a + b) == Keep(Scan(a), Scan(b))
  {
    if |b| == 0 {
      assert a + b == a;
    } else {
      assert (a + b)[..|a + b| - 1] == a + b[..|b| - 1];
      ScanAppend(a, b[..|b| - 1]);
    }
  }

  /** The best candidate of each human option (`ho.best_robot_pair`). */
  function OptionBests(hos: seq<seq<Cand>>): (r: seq<Cand>)
    ensures |r| == |hos| && forall o :: 0 <= o < |hos| ==> r[o] == Scan(hos[o])
  {
    seq(|hos|, o requires 0 <= o < |hos| => Scan(hos[o]))
  }

  /** Picking the best pair of each human option and then the best of those, as the source
      does, gives the same pair as one scan over all pairs of the step in order. */
  lemma {:induction false} ScanNested(hos: seq<seq<Cand>>)
    ensures Scan(OptionBests(hos)) == Scan(Flatten(hos))
  {
    if |hos| > 0 {
      ScanNested(hos[1..]);
      assert OptionBests(hos) == [Scan(hos[0])] + OptionBests(hos[1..]);
      ScanAppend([Scan(hos[0])], OptionBests(hos[1..]));
      assert [Scan(hos[0])][..0] == [];
      ScanAppend(hos[0], Flatten(hos[1..]));
    }
  }

  function ToCand(p: nat, r: Option<nat>): Cand
  {
    if r.Some? then Some((p, r.value)) else None
  }

  /** The best rank of one pair (`pair.best_rank_r` or `pair.best_rank_h`): none for a pair
      where both agents are passive and neither waits for its turn, or a pair with no
      successor; the stored rank of a final successor; otherwise the best rank below the
      successor's step. A final successor without a stored rank is an error. */
  function PairRank<S>(t: Tree<S>, ranks: map<nat, nat>, p: nat): (r: Result<Option<nat>, EngineError>)
    requires Wf(t) && p < |t.pairs|
    ensures r.Err? ==> r.error.MissingRank?
    decreases |t.steps| - t.pairs[p].step, 0, 0
  {
    var q := t.pairs[p];
    if PairPassive(q) && !IsWaitTurn(q.human) && !IsWaitTurn(q.robot) then Ok(None)
    else if |q.next| == 0 then Ok(None)
    else if IsFinal(t, q.next[0]) then
      if q.next[0] in ranks then Ok(Some(ranks[q.next[0]])) else Err(MissingRank(q.next[0]))
    else
      var b :- BestRank(t, ranks, t.pairs[q.next[0]].step);
      Ok(if b.Some? then Some(b.value.1) else None)
  }

  /** The candidates of one human option, in order; the first error stops the scan. */
  function OptionCands<S>(t: Tree<S>, ranks: map<nat, nat>, s: nat, ps: seq<nat>): (r: Result<seq<Cand>, EngineError>)
    requires Wf(t) && s < |t.steps|
    requires forall k :: 0 <= k < |ps| ==> ps[k] < |t.pairs| && t.pairs[ps[k]].step == s
    ensures r.Err? ==> r.error.MissingRank?
    decreases |t.steps| - s, 1, |ps|
  {
    if |ps| == 0 then Ok([])
    else
      var r :- PairRank(t, ranks, ps[0]);
      var rest :- OptionCands(t, ranks, s, ps[1..]);
      Ok([ToCand(ps[0], r)] + rest)
  }

  /** The candidates of every human option of step `s`. */
  function StepCands<S>(t: Tree<S>, ranks: map<nat, nat>, s: nat, os: seq<seq<nat>>): (r: Result<seq<seq<Cand>>, EngineError>)
    requires Wf(t) && s < |t.steps|
    requires forall o, k :: 0 <= o < |os| && 0 <= k < |os[o]| ==> os[o][k] < |t.pairs| && t.pairs[os[o][k]].step == s
    ensures r.Err? ==> r.error.MissingRank?
    decreases |t.steps| - s, 2, |os|
  {
    if |os| == 0 then Ok([])
    else
      var c :- OptionCands(t, ranks, s, os[0]);
      var rest :- StepCands(t, ranks, s, os[1..]);
      Ok([c] + rest)
  }

  /** `compute_best_rank_from_step_robot` / `_human`: the best pair of the step with its rank
      (`step.best_robot_pair`), or none when no pair of the step has a rank. */
  function BestRank<S>(t: Tree<S>, ranks: map<nat, nat>, s: nat): (r: Result<Cand, EngineError>)
    requires Wf(t) && s < |t.steps|
    ensures r.Err? ==> r.error.MissingRank?
    decreases |t.steps| - s, 3, 0
  {
    var hos :- StepCands(t, ranks, s, t.steps[s].options);
    Ok(Scan(OptionBests(hos)))
  }

  /** `cs` holds, for each pair of `ps` in order, the pair with its best rank if it has one. */
  ghost predicate CandsOf<S>(t: Tree<S>, ranks: map<nat, nat>, ps: seq<nat>, cs: seq<Cand>)
    requires Wf(t) && forall k :: 0 <= k < |ps| ==> ps[k] < |t.pairs|
  {
    |cs| == |ps| &&
    forall k :: 0 <= k < |ps| ==> PairRank(t, ranks, ps[k]).Ok? && cs[k] == ToCand(ps[k], PairRank(t, ranks, ps[k]).value)
  }

  lemma {:induction false} OptionCandsSpec<S>(t: Tree<S>, ranks: map<nat, nat>, s: nat, ps: seq<nat>)
    requires Wf(t) && s < |t.steps|
    requires forall k :: 0 <= k < |ps| ==> ps[k] < |t.pairs| && t.pairs[ps[k]].step == s
    ensures OptionCands(t, ranks, s, ps).Ok? <==> forall k :: 0 <= k < |ps| ==> PairRank(t, ranks, ps[k]).Ok?
    ensures OptionCands(t, ranks, s, ps).Ok? ==> CandsOf(t, ranks, ps, OptionCands(t, ranks, s, ps).value)
  {
    if |ps| > 0 {
      OptionCandsSpec(t, ranks, s, ps[1..]);
      assert forall k :: 1 <= k < |ps| ==> ps[1..][k - 1] == ps[k];
    }
  }

  /** The candidates of a step exist exactly when every pair of its options has a rank. */
  lemma StepCandsOk<S>(t: Tree<S>, ranks: map<nat, nat>, s: nat, os: seq<seq<nat>>)
    requires Wf(t) && s < |t.steps|
    requires forall o, k :: 0 <= o < |os| && 0 <= k < |os[o]| ==> os[o][k] < |t.pairs| && t.pairs[os[o][k]].step == s
    ensures forall k :: 0 <= k < |Flatten<nat>(os)| ==> Flatten<nat>(os)[k] < |t.pairs|
    ensures StepCands(t, ranks, s, os).Ok? <==>
              forall k :: 0 <= k < |Flatten<nat>(os)| ==> PairRank(t, ranks, Flatten<nat>(os)[k]).Ok?
  {
    FlattenInStep(t, os, s);
    if StepCands(t, ranks, s, os).Ok? {
      StepCandsSpec(t, ranks, s, os);
    } else if forall k :: 0 <= k < |Flatten<nat>(os)| ==> PairRank(t, ranks, Flatten<nat>(os)[k]).Ok? {
      StepCandsRanked(t, ranks, s, os);
    }
  }

  /** When every pair of the options has a rank, the candidates exist. */
  lemma {:induction false} StepCandsRanked<S>(t: Tree<S>, ranks: map<nat, nat>, s: nat, os: seq<seq<nat>>)
    requires Wf(t) && s < |t.steps|
    requires forall o, k :: 0 <= o < |os| && 0 <= k < |os[o]| ==> os[o][k] < |t.pairs| && t.pairs[os[o][k]].step == s
    requires forall k :: 0 <= k < |Flatten<nat>(os)| ==>
               Flatten<nat>(os)[k] < |t.pairs| && PairRank(t, ranks, Flatten<nat>(os)[k]).Ok?
    ensures StepCands(t, ranks, s, os).Ok?
  {
    if |os| > 0 {
      FlattenInStep(t, os[1..], s);
      var f, f1 := Flatten<nat>(os), Flatten<nat>(os[1..]);
      assert f == os[0] + f1;
      forall k | 0 <= k < |f1|
        ensures PairRank(t, ranks, f1[k]).Ok?
      {
        assert f1[k] == f[k + |os[0]|];
      }
      StepCandsRanked(t, ranks, s, os[1..]);
      OptionCandsSpec(t, ranks, s, os[0]);
      forall k | 0 <= k < |os[0]|
        ensures PairRank(t, ranks, os[0][k]).Ok?
      {
        assert os[0][k] == f[k];
      }
    }
  }

  lemma {:induction false} StepCandsSpec<S>(t: Tree<S>, ranks: map<nat, nat>, s: nat, os: seq<seq<nat>>)
    requires Wf(t) && s < |t.steps|
    requires forall o, k :: 0 <= o < |os| && 0 <= k < |os[o]| ==> os[o][k] < |t.pairs| && t.pairs[os[o][k]].step == s
    requires StepCands(t, ranks, s, os).Ok?
    ensures forall k :: 0 <= k < |Flatten<nat>(os)| ==> Flatten<nat>(os)[k] < |t.pairs|
    ensures CandsOf(t, ranks, Flatten<nat>(os), Flatten(StepCands(t, ranks, s, os).value))
  {
    FlattenInStep(t, os, s);
    if |os| > 0 {
      StepCandsSpec(t, ranks, s, os[1..]);
      OptionCandsSpec(t, ranks, s, os[0]);
      var f := Flatten<nat>(os);
      assert f == os[0] + Flatten<nat>(os[1..]);
      var c := OptionCands(t, ranks, s, os[0]).value;
      var rest := StepCands(t, ranks, s, os[1..]).value;
      assert StepCands(t, ranks, s, os).value == [c] + rest;
      assert Flatten([c] + rest) == c + Flatten(rest);
      var cs := c + Flatten(rest);
      forall k | 0 <= k < |f|
        ensures PairRank(t, ranks, f[k]).Ok? && cs[k] == ToCand(f[k], PairRank(t, ranks, f[k]).value)
      {
        if k < |os[0]| {
          assert f[k] == os[0][k] && cs[k] == c[k];
        } else {
          assert f[k] == Flatten<nat>(os[1..])[k - |os[0]|] && cs[k] == Flatten(rest)[k - |os[0]|];
        }
      }
    }
  }

  /** Every pair of step `s` with its best rank, in the order of the human options. */
  function Candidates<S>(t: Tree<S>, ranks: map<nat, nat>, s: nat): (cs: seq<Cand>)
    requires Wf(t) && s < |t.steps|
    requires forall k :: 0 <= k < |StepPairs(t, s)| ==> PairRank(t, ranks, StepPairs(t, s)[k]).Ok?
    ensures |cs| == |StepPairs(t, s)|
    ensures forall k :: 0 <= k < |cs| ==>
              (cs[k].Some? <==> PairRank(t, ranks, StepPairs(t, s)[k]).value.Some?) &&
              (cs[k].Some? ==> cs[k].value == (StepPairs(t, s)[k], PairRank(t, ranks, StepPairs(t, s)[k]).value.value))
  {
    var ps := StepPairs(t, s);
    seq(|ps|, k requires 0 <= k < |ps| => ToCand(ps[k], PairRank(t, ranks, ps[k]).value))
  }

  /** The best rank of a step is an error exactly when one of its pairs' ranks is, and
      otherwise the scan over all the step's pairs in order. */
  lemma BestRankScan<S>(t: Tree<S>, ranks: map<nat, nat>, s: nat)
    requires Wf(t) && s < |t.steps|
    ensures BestRank(t, ranks, s).Ok? <==>
              forall k :: 0 <= k < |StepPairs(t, s)| ==> PairRank(t, ranks, StepPairs(t, s)[k]).Ok?
    ensures BestRank(t, ranks, s).Ok? ==> BestRank(t, ranks, s).value == Scan(Candidates(t, ranks, s))
  {
    var os := t.steps[s].options;
    StepCandsOk(t, ranks, s, os);
    assert StepPairs(t, s) == Flatten<nat>(os);
    assert BestRank(t, ranks, s).Ok? <==> StepCands(t, ranks, s, os).Ok?;
    if BestRank(t, ranks, s).Ok? {
      var hos := StepCands(t, ranks, s, os).value;
      StepCandsSpec(t, ranks, s, os);
      ScanNested(hos);
      assert Flatten(hos) == Candidates(t, ranks, s);
    }
  }

  /** A step has no best pair exactly when none of its pairs has a rank. */
  lemma BestRankNone<S>(t: Tree<S>, ranks: map<nat, nat>, s: nat)
    requires Wf(t) && s < |t.steps| && BestRank(t, ranks, s).Ok?
    ensures forall k :: 0 <= k < |StepPairs(t, s)| ==> PairRank(t, ranks, StepPairs(t, s)[k]).Ok?
    ensures BestRank(t, ranks, s).value.None? <==>
              forall k :: 0 <= k < |StepPairs(t, s)| ==> PairRank(t, ranks, StepPairs(t, s)[k]).value.None?
  {
    BestRankScan(t, ranks, s);
    var cs := Candidates(t, ranks, s);
    ScanSpec(cs);
    assert forall k :: 0 <= k < |cs| ==> (cs[k].None? <==> PairRank(t, ranks, StepPairs(t, s)[k]).value.None?);
  }

  /** The best pair of a step is one of its pairs whose rank is the least of the step's
      ranks, and the last such pair in the order of the human options. */
  lemma BestRankLeast<S>(t: Tree<S>, ranks: map<nat, nat>, s: nat)
    requires Wf(t) && s < |t.steps| && BestRank(t, ranks, s).Ok? && BestRank(t, ranks, s).value.Some?
    ensures forall k :: 0 <= k < |StepPairs(t, s)| ==> PairRank(t, ranks, StepPairs(t, s)[k]).Ok?
    ensures exists k: nat :: LastBest(Candidates(t, ranks, s), k) &&
              BestRank(t, ranks, s).value == Some((StepPairs(t, s)[k], Candidates(t, ranks, s)[k].value.1))
    ensures var b := BestRank(t, ranks, s).value.value;
            forall k :: 0 <= k < |StepPairs(t, s)| && PairRank(t, ranks, StepPairs(t, s)[k]).value.Some? ==>
              b.1 <= PairRank(t, ranks, StepPairs(t, s)[k]).value.value
  {
    BestRankScan(t, ranks, s);
    var cs := Candidates(t, ranks, s);
    ScanSpec(cs);
    var k: nat :| LastBest(cs, k) && Scan(cs) == cs[k];
    forall j | 0 <= j < |StepPairs(t, s)| && PairRank(t, ranks, StepPairs(t, s)[j]).value.Some?
      ensures cs[k].value.1 <= PairRank(t, ranks, StepPairs(t, s)[j]).value.value
    {
      assert cs[j].Some?;
    }
  }

  /** `update_robot_choices` / `update_human_choices`: the best rank below the first child of
      the initial step. */
  function UpdateChoices<S>(t: Tree<S>, ranks: map<nat, nat>): (r: Result<Cand, EngineError>)
    requires Wf(t)
    ensures r.Err? && r.error == NoRootChild <==> |Children(t, 0, 0)| == 0
    ensures |Children(t, 0, 0)| > 0 ==> r == BestRank(t, ranks, Children(t, 0, 0)[0])
  {
    var cs := Children(t, 0, 0);
    if |cs| == 0 then Err(NoRootChild) else BestRank(t, ranks, cs[0])
  }
}

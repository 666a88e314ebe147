/** The metrics of a branch (`compute_metrics` in ConcurrentModule.py): the final leaves of
    the step tree, and for each of them the time to complete the task, the time the human is
    last busy, the human's and the joint effort and the number of robot actions that risk a
    conflict, counted walking up from the leaf to the initial pair. Metrics are counters:
    the source's floats hold whole numbers and are modelled as integers. */
module Metrics {
  import opened Wrappers
  import opened Tasks
  import opened Htn
  import opened ActionTree
  import opened AndOr

  datatype Metrics = Metrics(timeEndHumanDuty: int, humanEffort: int, timeTaskCompletion: int,
                             globalEffort: int, riskConflict: int)

  /** The pairs of step `s` (`get_pairs`): its human options' pairs in order. */
  function StepPairs<S>(t: Tree<S>, s: nat): (r: seq<nat>)
    requires Wf(t) && s < |t.steps|
    ensures forall k :: 0 <= k < |r| ==> r[k] < |t.pairs| && t.pairs[r[k]].step == s
  {
    FlattenInStep(t, t.steps[s].options, s);
    Flatten<nat>(t.steps[s].options)
  }

  lemma {:induction false} FlattenInStep<S>(t: Tree<S>, gs: seq<seq<nat>>, s: nat)
    requires forall o, k :: 0 <= o < |gs| && 0 <= k < |gs[o]| ==>
               gs[o][k] < |t.pairs| && t.pairs[gs[o][k]].step == s
    ensures forall k :: 0 <= k < |Flatten<nat>(gs)| ==>
              Flatten<nat>(gs)[k] < |t.pairs| && t.pairs[Flatten<nat>(gs)[k]].step == s
  {
    if |gs| > 0 {
      FlattenInStep(t, gs[1..], s);
      forall k | 0 <= k < |Flatten<nat>(gs)|
        ensures Flatten<nat>(gs)[k] < |t.pairs| && t.pairs[Flatten<nat>(gs)[k]].step == s
      {
        if k < |gs[0]| {
          assert Flatten<nat>(gs)[k] == gs[0][k];
        } else {
          assert Flatten<nat>(gs)[k] == Flatten<nat>(gs[1..])[k - |gs[0]|];
        }
      }
    }
  }

  /** `Step.is_final`: the step holds a single pair and that pair is final. */
  predicate StepFinal<S>(t: Tree<S>, s: nat)
    requires Wf(t) && s < |t.steps|
  {
    |StepPairs(t, s)| == 1 && IsFinal(t, StepPairs(t, s)[0])
  }

  /** A leaf of the step tree (a step without children) that is final. */
  predicate FinalLeaf<S>(t: Tree<S>, s: nat)
    requires Wf(t)
  {
    s < |t.steps| && |Children(t, s, 0)| == 0 && StepFinal(t, s)
  }

  /** `get_final_leaves`, from step `c` on: the steps without children that are final. The
      source lists the leaves in the step tree's pre-order; the model lists them by index,
      which only matters for the order of the sort's input. */
  function FinalLeavesFrom<S>(t: Tree<S>, c: nat): (r: seq<nat>)
    requires Wf(t)
    ensures forall s :: s in r <==> c <= s && FinalLeaf(t, s)
    decreases |t.steps| - c
  {
    if c >= |t.steps| then []
    else
      var rest := FinalLeavesFrom(t, c + 1);
      if FinalLeaf(t, c) then [c] + rest else rest
  }

  function FinalLeaves<S>(t: Tree<S>): (r: seq<nat>)
    requires Wf(t)
    ensures forall s :: s in r <==> FinalLeaf(t, s)
    ensures forall k :: 0 <= k < |r| ==> r[k] < |t.steps| && StepFinal(t, r[k])
  {
    var r := FinalLeavesFrom(t, 0);
    assert forall k :: 0 <= k < |r| ==> r[k] in r;
    r
  }

  lemma {:induction false} FinalLeavesIncreasing<S>(t: Tree<S>, c: nat)
    requires Wf(t)
    ensures forall a, b :: 0 <= a < b < |FinalLeavesFrom(t, c)| ==> FinalLeavesFrom(t, c)[a] < FinalLeavesFrom(t, c)[b]
    decreases |t.steps| - c
  {
    if c < |t.steps| {
      FinalLeavesIncreasing(t, c + 1);
      var rest := FinalLeavesFrom(t, c + 1);
      var r := FinalLeavesFrom(t, c);
      if FinalLeaf(t, c) {
        assert r == [c] + rest;
        forall a, b | 0 <= a < b < |r|
          ensures r[a] < r[b]
        {
          assert r[b] == rest[b - 1] && rest[b - 1] in rest;
          if a > 0 {
            assert r[a] == rest[a - 1];
          }
        }
      } else {
        assert r == rest;
      }
    }
  }

  /** The robot's action of pair `p` is a `SKIP` or similar to a common robot action of its
      step: such an action does not risk a conflict. */
  predicate CraOrSkip<S>(t: Tree<S>, p: nat)
    requires Wf(t) && p < |t.pairs|
  {
    var a := t.pairs[p].robot;
    var cra := t.steps[t.pairs[p].step].cra;
    a.name == "SKIP" || exists k :: 0 <= k < |cra| && AreSimilar(a, cra[k])
  }

  /** The loop of `compute_metrics` from pair `p` up to (and without) the initial pair:
      every human action adds to the human's and the joint effort, every robot action to the
      joint effort, every robot action that is neither a skip nor a common robot action to
      the risk of conflict; until the human has acted, each passive human action takes one
      off the time the human is busy. */
  function Walk<S>(t: Tree<S>, p: nat, m: Metrics, acted: bool): (r: Metrics)
    requires Wf(t) && p < |t.pairs|
    ensures r.timeTaskCompletion == m.timeTaskCompletion
    decreases p
  {
    var q := t.pairs[p];
    if q.previous.None? then m
    else Walk(t, q.previous.value, PairCounts(q, CraOrSkip(t, p), m, acted), acted || !IsPassive(q.human))
  }

  /** What one pair adds to the metrics in the loop of `compute_metrics`; `safe` tells whether
      its robot action is a skip or a common robot action. */
  function PairCounts<S>(q: Pair<S>, safe: bool, m: Metrics, acted: bool): (r: Metrics)
    ensures r.timeEndHumanDuty == m.timeEndHumanDuty - (if acted || !IsPassive(q.human) then 0 else 1)
    ensures r.humanEffort == m.humanEffort + (if IsPassive(q.human) then 0 else 1)
    ensures r.timeTaskCompletion == m.timeTaskCompletion
    ensures r.globalEffort ==
              m.globalEffort + (if IsPassive(q.human) then 0 else 1) + (if IsPassive(q.robot) then 0 else 1)
    ensures r.riskConflict == m.riskConflict + (if safe then 0 else 1)
  {
    var m1 := if IsPassive(q.human) then
                (if acted then m else m.(timeEndHumanDuty := m.timeEndHumanDuty - 1))
              else m.(humanEffort := m.humanEffort + 1, globalEffort := m.globalEffort + 1);
    var m2 := if IsPassive(q.robot) then m1 else m1.(globalEffort := m1.globalEffort + 1);
    if safe then m2 else m2.(riskConflict := m2.riskConflict + 1)
  }

  /** The metrics of final leaf step `s` (`branch_metrics` of its pair): the walk starts at the
      pair before the leaf's pair with both times equal to the step's depth less one. */
  function LeafMetrics<S>(t: Tree<S>, s: nat): (r: Result<Metrics, EngineError>)
    requires Wf(t) && s < |t.steps| && StepFinal(t, s)
    ensures r.Err? <==> t.pairs[StepPairs(t, s)[0]].previous.None?
    ensures r.Err? ==> r.error == LeafWithoutPrevious
    ensures r.Ok? ==> r.value.timeTaskCompletion == t.steps[s].depth - 1
  {
    match t.pairs[StepPairs(t, s)[0]].previous
    case None => Err(LeafWithoutPrevious)
    case Some(p) =>
      var d := t.steps[s].depth - 1;
      Ok(Walk(t, p, Metrics(d, 0, d, 0, 0), false))
  }

  // ---------------------------------------------------------------------------------------
  // The metrics counted over the branch
  // ---------------------------------------------------------------------------------------

  /** The pairs the walk from `p` visits, from the leaf side up, without the initial pair. */
  function Branch<S>(t: Tree<S>, p: nat): (r: seq<nat>)
    requires Wf(t) && p < |t.pairs|
    ensures forall k :: 0 <= k < |r| ==> r[k] < |t.pairs|
    decreases p
  {
    if t.pairs[p].previous.None? then [] else [p] + Branch(t, t.pairs[p].previous.value)
  }

  /** How many pairs of `b` have a human action that is not passive. */
  function HumanActs<S>(t: Tree<S>, b: seq<nat>): nat
    requires forall k :: 0 <= k < |b| ==> b[k] < |t.pairs|
  {
    if |b| == 0 then 0 else (if IsPassive(t.pairs[b[0]].human) then 0 else 1) + HumanActs(t, b[1..])
  }

  /** How many pairs of `b` have a robot action that is not passive. */
  function RobotActs<S>(t: Tree<S>, b: seq<nat>): nat
    requires forall k :: 0 <= k < |b| ==> b[k] < |t.pairs|
  {
    if |b| == 0 then 0 else (if IsPassive(t.pairs[b[0]].robot) then 0 else 1) + RobotActs(t, b[1..])
  }

  /** How many pairs of `b` have a robot action that risks a conflict. */
  function Risky<S>(t: Tree<S>, b: seq<nat>): nat
    requires Wf(t) && forall k :: 0 <= k < |b| ==> b[k] < |t.pairs|
  {
    if |b| == 0 then 0 else (if CraOrSkip(t, b[0]) then 0 else 1) + Risky(t, b[1..])
  }

  /** How many pairs at the head of `b` have a passive human action: the end of the branch
      where the human no longer acts. */
  function IdleTail<S>(t: Tree<S>, b: seq<nat>): nat
    requires forall k :: 0 <= k < |b| ==> b[k] < |t.pairs|
  {
    if |b| == 0 || !IsPassive(t.pairs[b[0]].human) then 0 else 1 + IdleTail(t, b[1..])
  }

  /** The walk adds the counts over the branch it visits. */
  lemma {:induction false} WalkCounts<S>(t: Tree<S>, p: nat, m: Metrics, acted: bool)
    requires Wf(t) && p < |t.pairs|
    ensures var b := Branch(t, p);
            Walk(t, p, m, acted) ==
              Metrics(m.timeEndHumanDuty - (if acted then 0 else IdleTail(t, b)),
                      m.humanEffort + HumanActs(t, b),
                      m.timeTaskCompletion,
                      m.globalEffort + HumanActs(t, b) + RobotActs(t, b),
                      m.riskConflict + Risky(t, b))
    decreases p
  {
    var q := t.pairs[p];
    if q.previous.Some? {
      WalkCounts(t, q.previous.value, PairCounts(q, CraOrSkip(t, p), m, acted), acted || !IsPassive(q.human));
      assert Branch(t, p)[0] == p && Branch(t, p)[1..] == Branch(t, q.previous.value);
    }
  }

  lemma {:induction false} CountsBounded<S>(t: Tree<S>, b: seq<nat>)
    requires Wf(t) && forall k :: 0 <= k < |b| ==> b[k] < |t.pairs|
    ensures HumanActs(t, b) <= |b| && RobotActs(t, b) <= |b| && Risky(t, b) <= |b|
    ensures IdleTail(t, b) + HumanActs(t, b) <= |b|
  {
    if |b| > 0 {
      CountsBounded(t, b[1..]);
    }
  }

  /** The metrics of a final leaf, counted over its branch: both times start from the depth
      less one, the human's duty ends before the passive tail of the branch, the efforts
      count the agents' actions and the risk counts the robot actions that are neither skips
      nor common robot actions. Hence the joint effort is at least the human's, the human is
      done no later than the task, and no count exceeds the length of the branch. */
  lemma LeafMetricsSpec<S>(t: Tree<S>, s: nat)
    requires Wf(t) && s < |t.steps| && StepFinal(t, s) && LeafMetrics(t, s).Ok?
    ensures var m := LeafMetrics(t, s).value;
            var b := Branch(t, t.pairs[StepPairs(t, s)[0]].previous.value);
            m.timeTaskCompletion == t.steps[s].depth - 1 &&
            m.timeEndHumanDuty == m.timeTaskCompletion - IdleTail(t, b) &&
            m.humanEffort == HumanActs(t, b) &&
            m.globalEffort == HumanActs(t, b) + RobotActs(t, b) &&
            m.riskConflict == Risky(t, b)
    ensures var m := LeafMetrics(t, s).value;
            var b := Branch(t, t.pairs[StepPairs(t, s)[0]].previous.value);
            0 <= m.humanEffort <= m.globalEffort <= 2 * |b| &&
            m.timeEndHumanDuty <= m.timeTaskCompletion &&
            0 <= m.riskConflict <= |b|
  {
    var p := t.pairs[StepPairs(t, s)[0]].previous.value;
    var d := t.steps[s].depth - 1;
    WalkCounts(t, p, Metrics(d, 0, d, 0, 0), false);
    CountsBounded(t, Branch(t, p));
  }

  /** `compute_metrics` over a list of final leaf steps: each leaf with its metrics. */
  function AllMetrics<S>(t: Tree<S>, leaves: seq<nat>): (r: Result<seq<(nat, Metrics)>, EngineError>)
    requires Wf(t) && forall k :: 0 <= k < |leaves| ==> leaves[k] < |t.steps| && StepFinal(t, leaves[k])
    ensures r.Ok? ==> |r.value| == |leaves|
    ensures r.Ok? ==>
              forall k :: 0 <= k < |leaves| ==>
                LeafMetrics(t, leaves[k]).Ok? &&
                r.value[k] == (StepPairs(t, leaves[k])[0], LeafMetrics(t, leaves[k]).value)
    ensures r.Err? ==> exists k :: 0 <= k < |leaves| && LeafMetrics(t, leaves[k]).Err?
  {
    if |leaves| == 0 then Ok([])
    else
      var m :- LeafMetrics(t, leaves[0]);
      var rest :- AllMetrics(t, leaves[1..]);
      Ok([(StepPairs(t, leaves[0])[0], m)] + rest)
  }
}

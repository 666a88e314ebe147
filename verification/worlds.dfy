/** The human's possible worlds between two steps (`situationAssessmentPostActionExecution`
    and `are_worlds_logically_different` in ConcurrentModule.py, and the de-duplication loop
    of `exploration_step_tt`): worlds the human can tell apart from the designated one are
    dropped, then worlds that do not differ from the designated world or from a world already
    kept are dropped too. */
module Worlds {
  import opened Tasks
  import opened Htn

  /** Situation assessment: the possible worlds the domain's assessment rule keeps, in their
      order. */
  function Assess<S>(dom: Domain<S>, designated: S, possible: seq<World<S>>): (r: seq<World<S>>)
    ensures |r| <= |possible|
    ensures forall w :: w in r ==> w in possible && dom.assess(designated, w.state)
    ensures forall i :: 0 <= i < |possible| && dom.assess(designated, possible[i].state) ==>
              possible[i] in r
  {
    if |possible| == 0 then []
    else
      (if dom.assess(designated, possible[0].state) then [possible[0]] else []) +
      Assess(dom, designated, possible[1..])
  }

  /** What the agenda comparison looks at in a task: abstractness, name and parameters (the
      owning agent is not compared). */
  function TaskKey(t: Task): (bool, string, seq<string>)
  {
    (t.isAbstract, t.name, t.params)
  }

  function AgendaKeys(ag: seq<Task>): (r: seq<(bool, string, seq<string>)>)
    ensures |r| == |ag|
    ensures forall i :: 0 <= i < |ag| ==> r[i] == TaskKey(ag[i])
  {
    seq(|ag|, i requires 0 <= i < |ag| => TaskKey(ag[i]))
  }

  /** Two parameter lists differ at or after position `j`. */
  predicate ParamsDifferFrom(p: seq<string>, q: seq<string>, j: nat)
    requires |p| == |q| && j <= |p|
    decreases |p| - j
  {
    j < |p| && (p[j] != q[j] || ParamsDifferFrom(p, q, j + 1))
  }

  /** The agenda comparison of `are_worlds_logically_different`, from position `i` on: a
      different length, or at the first position where they differ a different abstractness,
      name, number of parameters or parameter. */
  predicate AgendasDifferFrom(x: seq<Task>, y: seq<Task>, i: nat)
    requires |x| == |y| && i <= |x|
    decreases |x| - i
  {
    i < |x| &&
    (x[i].isAbstract != y[i].isAbstract || x[i].name != y[i].name ||
     |x[i].params| != |y[i].params| || ParamsDifferFrom(x[i].params, y[i].params, 0) ||
     AgendasDifferFrom(x, y, i + 1))
  }

  predicate AgendasDiffer(x: seq<Task>, y: seq<Task>)
  {
    |x| != |y| || AgendasDifferFrom(x, y, 0)
  }

  lemma {:induction false} ParamsDifferFromIff(p: seq<string>, q: seq<string>, j: nat)
    requires |p| == |q| && j <= |p|
    ensures ParamsDifferFrom(p, q, j) <==> p[j..] != q[j..]
    decreases |p| - j
  {
    if j < |p| {
      ParamsDifferFromIff(p, q, j + 1);
      assert p[j..] == [p[j]] + p[j + 1..];
      assert q[j..] == [q[j]] + q[j + 1..];
      if p[j..] == q[j..] {
        assert p[j] == p[j..][0] == q[j..][0] == q[j];
        assert p[j + 1..] == p[j..][1..];
        assert q[j + 1..] == q[j..][1..];
      }
    }
  }

  lemma {:induction false} AgendasDifferFromIff(x: seq<Task>, y: seq<Task>, i: nat)
    requires |x| == |y| && i <= |x|
    ensures AgendasDifferFrom(x, y, i) <==> AgendaKeys(x)[i..] != AgendaKeys(y)[i..]
    decreases |x| - i
  {
    var kx := AgendaKeys(x);
    var ky := AgendaKeys(y);
    if i < |x| {
      AgendasDifferFromIff(x, y, i + 1);
      if |x[i].params| == |y[i].params| {
        ParamsDifferFromIff(x[i].params, y[i].params, 0);
        assert x[i].params[0..] == x[i].params && y[i].params[0..] == y[i].params;
      }
      assert kx[i..] == [kx[i]] + kx[i + 1..];
      assert ky[i..] == [ky[i]] + ky[i + 1..];
      if kx[i..] == ky[i..] {
        assert kx[i] == kx[i..][0] == ky[i..][0] == ky[i];
        assert kx[i + 1..] == kx[i..][1..];
        assert ky[i + 1..] == ky[i..][1..];
      }
    }
  }

  /** Two agendas differ for the comparison exactly when their tasks differ in abstractness,
      name or parameters somewhere (or in number). */
  lemma AgendasDifferIff(x: seq<Task>, y: seq<Task>)
    ensures AgendasDiffer(x, y) <==> AgendaKeys(x) != AgendaKeys(y)
  {
    if |x| == |y| {
      AgendasDifferFromIff(x, y, 0);
      assert AgendaKeys(x)[0..] == AgendaKeys(x) && AgendaKeys(y)[0..] == AgendaKeys(y);
    } else {
      assert |AgendaKeys(x)| != |AgendaKeys(y)|;
    }
  }

  /** `are_worlds_logically_different`: the robot's agendas differ, or the agents are together
      and the human's agendas differ, or the states are not equivalent. */
  predicate WorldsDifferent<S>(dom: Domain<S>, copresent: bool, x: World<S>, obj: World<S>)
  {
    AgendasDiffer(x.agendaR, obj.agendaR) ||
    (copresent && AgendasDiffer(x.agendaH, obj.agendaH)) ||
    !dom.sameState(x.state, obj.state)
  }

  /** Two worlds are different for the planner exactly when the robot's tasks differ in
      abstractness, name or parameters (or in number), or the agents are together and the
      human's tasks differ so, or the states are not equivalent. Task owners never matter. */
  lemma WorldsDifferentIff<S>(dom: Domain<S>, copresent: bool, x: World<S>, obj: World<S>)
    ensures WorldsDifferent(dom, copresent, x, obj) <==>
              AgendaKeys(x.agendaR) != AgendaKeys(obj.agendaR) ||
              (copresent && AgendaKeys(x.agendaH) != AgendaKeys(obj.agendaH)) ||
              !dom.sameState(x.state, obj.state)
  {
    AgendasDifferIff(x.agendaR, obj.agendaR);
    AgendasDifferIff(x.agendaH, obj.agendaH);
  }

  /** A world is kept when it differs from the designated world and from every world kept
      before it (the comparison is made with the new world first). */
  predicate Fresh<S>(dom: Domain<S>, copresent: bool, designated: World<S>, kept: seq<World<S>>,
                     w: World<S>)
  {
    WorldsDifferent(dom, copresent, w, designated) &&
    forall l :: 0 <= l < |kept| ==> WorldsDifferent(dom, copresent, w, kept[l])
  }

  /** The de-duplication loop of `exploration_step_tt`, continuing from the worlds kept so far.
      The source gathers the kept worlds in a set; the model keeps them in the order they were
      first kept. */
  function DedupFrom<S>(dom: Domain<S>, copresent: bool, designated: World<S>,
                        kept: seq<World<S>>, worlds: seq<World<S>>)
    : (r: seq<World<S>>)
    ensures |kept| <= |r| <= |kept| + |worlds| && r[..|kept|] == kept
    decreases |worlds|
  {
    if |worlds| == 0 then kept
    else
      var w := worlds[0];
      var kept' := if Fresh(dom, copresent, designated, kept, w) then kept + [w] else kept;
      var r := DedupFrom(dom, copresent, designated, kept', worlds[1..]);
      assert r[..|kept|] == r[..|kept'|][..|kept|];
      r
  }

  function Dedup<S>(dom: Domain<S>, copresent: bool, designated: World<S>, worlds: seq<World<S>>)
    : (r: seq<World<S>>)
    ensures |r| <= |worlds|
  {
    DedupFrom(dom, copresent, designated, [], worlds)
  }

  /** The invariant of the de-duplication loop: every kept world was seen and differs from
      the designated world, the kept worlds differ from each other, and every seen world that
      differs from the designated world is kept or matches a kept one. */
  ghost predicate DedupInv<S>(dom: Domain<S>, copresent: bool, designated: World<S>,
                        kept: seq<World<S>>, seen: seq<World<S>>)
  {
    (forall k :: 0 <= k < |kept| ==>
       kept[k] in seen && WorldsDifferent(dom, copresent, kept[k], designated)) &&
    (forall k, l :: 0 <= l < k < |kept| ==> WorldsDifferent(dom, copresent, kept[k], kept[l])) &&
    (forall w :: w in seen && WorldsDifferent(dom, copresent, w, designated) ==>
       w in kept || exists l :: 0 <= l < |kept| && !WorldsDifferent(dom, copresent, w, kept[l]))
  }

  ghost predicate KeptSeen<S>(dom: Domain<S>, copresent: bool, designated: World<S>,
                              kept: seq<World<S>>, seen: seq<World<S>>)
  {
    forall k :: 0 <= k < |kept| ==>
      kept[k] in seen && WorldsDifferent(dom, copresent, kept[k], designated)
  }

  ghost predicate KeptDistinct<S>(dom: Domain<S>, copresent: bool, kept: seq<World<S>>)
  {
    forall k, l :: 0 <= l < k < |kept| ==> WorldsDifferent(dom, copresent, kept[k], kept[l])
  }

  ghost predicate SeenCovered<S>(dom: Domain<S>, copresent: bool, designated: World<S>,
                                 kept: seq<World<S>>, seen: seq<World<S>>)
  {
    forall w :: w in seen && WorldsDifferent(dom, copresent, w, designated) ==>
      w in kept || exists l :: 0 <= l < |kept| && !WorldsDifferent(dom, copresent, w, kept[l])
  }

  /** One turn of the de-duplication loop keeps its invariant. */
  lemma DedupTurn<S>(dom: Domain<S>, copresent: bool, designated: World<S>,
                     kept: seq<World<S>>, seen: seq<World<S>>, w: World<S>)
    requires DedupInv(dom, copresent, designated, kept, seen)
    ensures DedupInv(dom, copresent, designated,
                     if Fresh(dom, copresent, designated, kept, w) then kept + [w] else kept,
                     seen + [w])
  {
    KeptSeenTurn(dom, copresent, designated, kept, seen, w);
    KeptDistinctTurn(dom, copresent, designated, kept, w);
    SeenCoveredTurn(dom, copresent, designated, kept, seen, w);
  }

  lemma KeptSeenTurn<S>(dom: Domain<S>, copresent: bool, designated: World<S>,
                        kept: seq<World<S>>, seen: seq<World<S>>, w: World<S>)
    requires KeptSeen(dom, copresent, designated, kept, seen)
    ensures KeptSeen(dom, copresent, designated,
                     if Fresh(dom, copresent, designated, kept, w) then kept + [w] else kept,
                     seen + [w])
  {
    var kept' := if Fresh(dom, copresent, designated, kept, w) then kept + [w] else kept;
    var seen' := seen + [w];
    forall k | 0 <= k < |kept'|
      ensures kept'[k] in seen' && WorldsDifferent(dom, copresent, kept'[k], designated)
    {
      if k < |kept| {
        assert kept'[k] == kept[k] && kept[k] in seen;
      }
    }
  }

  lemma KeptDistinctTurn<S>(dom: Domain<S>, copresent: bool, designated: World<S>,
                            kept: seq<World<S>>, w: World<S>)
    requires KeptDistinct(dom, copresent, kept)
    ensures KeptDistinct(dom, copresent,
                         if Fresh(dom, copresent, designated, kept, w) then kept + [w] else kept)
  {
    var kept' := if Fresh(dom, copresent, designated, kept, w) then kept + [w] else kept;
    assert forall k :: 0 <= k < |kept| ==> kept'[k] == kept[k];
  }

  lemma SeenCoveredTurn<S>(dom: Domain<S>, copresent: bool, designated: World<S>,
                           kept: seq<World<S>>, seen: seq<World<S>>, w: World<S>)
    requires SeenCovered(dom, copresent, designated, kept, seen)
    ensures SeenCovered(dom, copresent, designated,
                        if Fresh(dom, copresent, designated, kept, w) then kept + [w] else kept,
                        seen + [w])
  {
    var kept' := if Fresh(dom, copresent, designated, kept, w) then kept + [w] else kept;
    var seen' := seen + [w];
    forall v | v in seen' && WorldsDifferent(dom, copresent, v, designated)
      ensures v in kept' || exists l :: 0 <= l < |kept'| && !WorldsDifferent(dom, copresent, v, kept'[l])
    {
      if v != w {
        assert v in seen;
        if v !in kept {
          var l :| 0 <= l < |kept| && !WorldsDifferent(dom, copresent, v, kept[l]);
          assert kept'[l] == kept[l];
        } else {
          var l :| 0 <= l < |kept| && kept[l] == v;
          assert kept'[l] == v;
        }
      } else if !Fresh(dom, copresent, designated, kept, w) {
        var l :| 0 <= l < |kept| && !WorldsDifferent(dom, copresent, w, kept[l]);
        assert kept'[l] == kept[l];
      } else {
        assert kept'[|kept|] == w;
      }
    }
  }

  lemma {:induction false} DedupFromSpec<S>(dom: Domain<S>, copresent: bool, designated: World<S>,
                                            kept: seq<World<S>>, seen: seq<World<S>>,
                                            worlds: seq<World<S>>)
    requires DedupInv(dom, copresent, designated, kept, seen)
    ensures DedupInv(dom, copresent, designated,
                     DedupFrom(dom, copresent, designated, kept, worlds), seen + worlds)
    decreases |worlds|
  {
    if |worlds| == 0 {
      assert seen + worlds == seen;
    } else {
      var w := worlds[0];
      var kept' := if Fresh(dom, copresent, designated, kept, w) then kept + [w] else kept;
      DedupTurn(dom, copresent, designated, kept, seen, w);
      assert seen + [w] + worlds[1..] == seen + worlds;
      DedupFromSpec(dom, copresent, designated, kept', seen + [w], worlds[1..]);
    }
  }

  /** The de-duplicated worlds are worlds of the input that differ from the designated world
      and from each other (each from those kept before it), and every input world that
      differs from the designated world is kept or matches a kept one. */
  lemma DedupSpec<S>(dom: Domain<S>, copresent: bool, designated: World<S>, worlds: seq<World<S>>)
    ensures DedupInv(dom, copresent, designated, Dedup(dom, copresent, designated, worlds), worlds)
  {
    DedupFromSpec(dom, copresent, designated, [], [], worlds);
    assert [] + worlds == worlds;
  }

  /** The largest number of distinct possible worlds seen so far
      (`max_number_of_worlds_evaluated`). */
  function MaxWorlds(seen: nat, kept: nat): (m: nat)
    ensures m >= seen && m >= kept && (m == seen || m == kept)
  {
    if kept > seen then kept else seen
  }
}

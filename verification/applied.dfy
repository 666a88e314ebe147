/** Applying a refinement (`get_applied_refinement` in ConcurrentModule.py, `AppliedRefinement`
    and `AppliedDecomposition` in CommonModule.py): every decomposition of the acting agent's
    agenda yields the action the agent performs next and the world after it. A decomposition
    ending on a primitive task applies that task's operator; one without applicable method
    makes the agent wait, one with an exhausted agenda makes it idle. The human's possible
    worlds are threaded through the decompositions in order, since every application updates
    the same list. */
module Applied {
  import opened Wrappers
  import opened Tasks
  import opened Htn
  import opened Refine
  import opened Apply

  /** A decomposition once applied: what it was, the action the agent performs and the world
      after it (`next_action`, `end_agents`). */
  datatype AppliedDec<S> = AppliedDec(subtasks: seq<Task>, agenda: seq<Task>, pt: Option<Task>,
                                      action: Action, end: World<S>)

  /** Python's `s[1:]`: empty on an empty list. */
  function Tail(s: seq<Task>): (t: seq<Task>)
    ensures |s| > 0 ==> [s[0]] + t == s
    ensures |s| == 0 ==> t == []
  {
    if |s| == 0 then [] else s[1..]
  }

  /** The agent's agenda after a decomposition as the source computes it for every status:
      the subtasks after the first, then the new agenda. Everything but the first subtask
      stays on the agenda. */
  function EndAgendaAsWritten(subtasks: seq<Task>, agenda: seq<Task>): (r: seq<Task>)
    ensures |subtasks| > 0 ==>
              multiset(r) + multiset{subtasks[0]} == multiset(subtasks) + multiset(agenda)
    ensures |subtasks| == 0 ==> r == agenda
  {
    assert |subtasks| > 0 ==> subtasks == [subtasks[0]] + Tail(subtasks);
    Tail(subtasks) + agenda
  }

  /** The agent's agenda after a decomposition. The first subtask is dropped because it is
      the primitive task just performed (or, when it could not be performed, it has been put
      back in front of the new agenda). A decomposition without applicable method performed
      nothing: its new agenda starts with the task no method applies to, and the agenda
      becomes that task, then the subtasks that were to follow it, then the rest, so the
      method's order is kept and no task is lost. */
  function EndAgenda(status: Status, subtasks: seq<Task>, agenda: seq<Task>): (r: seq<Task>)
    ensures status != NoApplicableMethod ==> r == EndAgendaAsWritten(subtasks, agenda)
    ensures status == NoApplicableMethod ==>
              multiset(r) == multiset(subtasks) + multiset(agenda)
    ensures status == NoApplicableMethod && |agenda| > 0 ==>
              |r| == |subtasks| + |agenda| && r[0] == agenda[0] &&
              r[1..|subtasks| + 1] == subtasks && r[|subtasks| + 1..] == agenda[1..]
  {
    if status != NoApplicableMethod then Tail(subtasks) + agenda
    else if |agenda| == 0 then subtasks
    else
      assert agenda == [agenda[0]] + agenda[1..];
      [agenda[0]] + subtasks + agenda[1..]
  }

  /** The human's agenda in every possible world set to the given one. */
  function WithHumanAgenda<S>(possible: seq<World<S>>, ag: seq<Task>): (r: seq<World<S>>)
    ensures |r| == |possible|
    ensures forall i :: 0 <= i < |r| ==> r[i] == possible[i].WithAgenda(H, ag)
  {
    seq(|possible|, i requires 0 <= i < |possible| => possible[i].WithAgenda(H, ag))
  }

  /** The action performed took the decomposition's primitive task off the agenda. */
  predicate Performed(d: Decomposition, action: Action)
  {
    d.status == StOk && !IsPassive(action)
  }

  /** The decomposition's primitive task, if any, is one of the agent's own. */
  predicate OwnPrimitive(a: Agent, d: Decomposition)
  {
    d.pt.Some? ==> d.pt.value.agent == a
  }

  /** The end of one decomposition: the action, the designated world with the given state and
      the agent's new agenda, and the possible worlds (for the human, all given that agenda). */
  function Finish<S>(a: Agent, world: World<S>, d: Decomposition, action: Action, state: S,
                     agenda: seq<Task>, possible: seq<World<S>>)
    : (r: (AppliedDec<S>, seq<World<S>>))
    ensures r.0.end == world.WithState(state).WithAgenda(a, EndAgenda(d.status, d.subtasks, agenda))
    ensures r.0.action == action && r.0.subtasks == d.subtasks && r.0.pt == d.pt
    ensures a == R ==> r.1 == possible
    ensures a == H ==> r.1 == WithHumanAgenda(possible, r.0.end.agendaH)
  {
    var end := world.WithState(state).WithAgenda(a, EndAgenda(d.status, d.subtasks, agenda));
    (AppliedDec(d.subtasks, d.agenda, d.pt, action, end),
     if a == H then WithHumanAgenda(possible, end.agendaH) else possible)
  }

  /** Applying the operator of an `OK` decomposition's primitive task: a task reported done
      hits the source's indexing of the `DONE` marker as a tuple; a task that is not
      applicable goes back in front of the agenda and the agent waits; otherwise the agent
      performs it. */
  function ApplyPrimitive<S>(op: Operator<S>, a: Agent, world: World<S>, possible: seq<World<S>>,
                             d: Decomposition, pt: Task)
    : (r: Result<(AppliedDec<S>, seq<World<S>>), EngineError>)
    requires d.status == StOk
    ensures !OpIsDone(op, world.state, pt) ==> r.Err? ==> r.error.MissingGetEffect?
    ensures r.Ok? ==>
              (r.value.0.action == CreatePassive(a, "WAIT") &&
               r.value.0.end == world.WithAgenda(a, Tail(d.subtasks) + [pt] + d.agenda)) ||
              (r.value.0.action == CastToAction(pt, r.value.0.action.cost, r.value.0.action.resource) &&
               r.value.0.end.Agenda(a) == Tail(d.subtasks) + d.agenda)
    ensures r.Ok? ==> r.value.0.end.Agenda(Other(a)) == world.Agenda(Other(a))
    ensures r.Ok? && a == R && pt.agent == R ==> forall w :: w in r.value.1 ==> w in possible
    ensures r.Ok? && a == H ==> forall w :: w in r.value.1 ==> w.agendaH == r.value.0.end.agendaH
  {
    var res :- ApplyOperator(op, world.state, possible, pt);
    match res.outcome
    case OpDone => Err(DoneIndexedAsTuple)
    case OpNotApplicable =>
      Ok(Finish(a, world, d, CreatePassive(a, "WAIT"), world.state, [pt] + d.agenda, res.possible))
    case Applied(cost, resource) =>
      ApplyPossibleWorlds(op, world.state, possible, pt);
      Ok(Finish(a, world, d, CastToAction(pt, cost, resource), res.state, d.agenda, res.possible))
  }

  /** One iteration of the application loop. */
  function ApplyDecomposition<S>(dom: Domain<S>, a: Agent, world: World<S>,
                                 possible: seq<World<S>>, d: Decomposition)
    : (r: Result<(AppliedDec<S>, seq<World<S>>), EngineError>)
    ensures r.Ok? ==> r.value.0.end.Agenda(Other(a)) == world.Agenda(Other(a))
    ensures r.Ok? && a == R && OwnPrimitive(a, d) ==> forall w :: w in r.value.1 ==> w in possible
    ensures r.Ok? && a == H ==> forall w :: w in r.value.1 ==> w.agendaH == r.value.0.end.agendaH
    ensures d.status == NoApplicableMethod ==>
              r.Ok? && r.value.0.action == CreatePassive(a, "WAIT") &&
              r.value.0.end == world.WithAgenda(a, EndAgenda(d.status, d.subtasks, d.agenda))
    ensures d.status == AgendaEmpty ==>
              r.Ok? && r.value.0.action == CreatePassive(a, "IDLE") &&
              r.value.0.end == world.WithAgenda(a, Tail(d.subtasks) + d.agenda)
    ensures d.status == StOk && (d.pt.None? || !dom.HasOperator(a, d.pt.value)) ==>
              r == Err(MissingOperator(d.pt))
    ensures Shaped(dom, a, world.state, d) ==> r.Err? ==> r.error.MissingGetEffect?
  {
    match d.status
    case NoApplicableMethod =>
      Ok(Finish(a, world, d, CreatePassive(a, "WAIT"), world.state, d.agenda, possible))
    case AgendaEmpty =>
      Ok(Finish(a, world, d, CreatePassive(a, "IDLE"), world.state, d.agenda, possible))
    case StOk =>
      if d.pt.None? || !dom.HasOperator(a, d.pt.value) then Err(MissingOperator(d.pt))
      else ApplyPrimitive(dom.Def(a).operators[d.pt.value.name], a, world, possible, d, d.pt.value)
  }

  /** A task leaves the agent's agenda only by being performed: without an `OK` status the
      tasks of a decomposition and its new agenda are exactly those of the agent's agenda
      afterwards; with one, either the same holds (the agent waits) or the agent performs the
      primitive task and only that task is gone. */
  lemma NoTaskLost<S>(dom: Domain<S>, a: Agent, world: World<S>, possible: seq<World<S>>,
                      d: Decomposition)
    requires Shaped(dom, a, world.state, d)
    requires ApplyDecomposition(dom, a, world, possible, d).Ok?
    ensures var ad := ApplyDecomposition(dom, a, world, possible, d).value.0;
            var before := multiset(d.subtasks) + multiset(d.agenda);
            (d.status != StOk ==> before == multiset(ad.end.Agenda(a))) &&
            (d.status == StOk ==>
               before == multiset(ad.end.Agenda(a)) ||
               (ad.action == CastToAction(d.pt.value, ad.action.cost, ad.action.resource) &&
                before == multiset(ad.end.Agenda(a)) + multiset{d.pt.value}))
  {
    var ad := ApplyDecomposition(dom, a, world, possible, d).value.0;
    if d.status == StOk {
      var pt := d.pt.value;
      assert d.subtasks == [pt] + Tail(d.subtasks);
      if ad.end.Agenda(a) == Tail(d.subtasks) + [pt] + d.agenda {
      } else {
        assert ad.end.Agenda(a) == Tail(d.subtasks) + d.agenda;
      }
    }
  }

  /** Outside a decomposition without applicable method the agent's agenda afterwards is the
      one the source writes: the subtasks after the first, then the new agenda, with the
      primitive task put in front of it when the agent could not perform it and waits. */
  lemma AgreesWithSourceOutsideStuck<S>(dom: Domain<S>, a: Agent, world: World<S>,
                                        possible: seq<World<S>>, d: Decomposition)
    requires d.status != NoApplicableMethod
    requires ApplyDecomposition(dom, a, world, possible, d).Ok?
    ensures var ad := ApplyDecomposition(dom, a, world, possible, d).value.0;
            ad.end.Agenda(a) == EndAgendaAsWritten(d.subtasks, d.agenda) ||
            (ad.action == CreatePassive(a, "WAIT") && d.pt.Some? &&
             ad.end.Agenda(a) == EndAgendaAsWritten(d.subtasks, [d.pt.value] + d.agenda))
  {
  }

  /** Where the agenda the source writes differs: for a decomposition without applicable
      method it is the agenda the agent keeps here with the first remaining subtask, which
      was never performed, taken out; when that task occurs only there, the source's agenda
      no longer holds it. */
  lemma AsWrittenDropsFirstSubtask<S>(dom: Domain<S>, a: Agent, world: World<S>,
                                      possible: seq<World<S>>, d: Decomposition)
    requires d.status == NoApplicableMethod && |d.subtasks| > 0
    ensures var ad := ApplyDecomposition(dom, a, world, possible, d).value.0;
            var written := EndAgendaAsWritten(d.subtasks, d.agenda);
            multiset(ad.end.Agenda(a)) == multiset(written) + multiset{d.subtasks[0]} &&
            (d.subtasks[0] !in d.subtasks[1..] + d.agenda ==>
               d.subtasks[0] in ad.end.Agenda(a) && d.subtasks[0] !in written)
  {
    var ad := ApplyDecomposition(dom, a, world, possible, d).value.0;
    var written := EndAgendaAsWritten(d.subtasks, d.agenda);
    assert written == d.subtasks[1..] + d.agenda;
    assert multiset(ad.end.Agenda(a)) == multiset(d.subtasks) + multiset(d.agenda);
    if d.subtasks[0] !in d.subtasks[1..] + d.agenda {
      assert multiset(written)[d.subtasks[0]] == 0;
    }
  }

  /** The application loop over all decompositions, in order, threading the possible worlds. */
  function ApplyAll<S>(dom: Domain<S>, a: Agent, world: World<S>, decs: seq<Decomposition>,
                       possible: seq<World<S>>)
    : (r: Result<(seq<AppliedDec<S>>, seq<World<S>>), EngineError>)
    ensures r.Ok? ==> |r.value.0| == |decs|
    ensures r.Ok? ==> forall k :: 0 <= k < |decs| ==>
              r.value.0[k].end.Agenda(Other(a)) == world.Agenda(Other(a)) &&
              r.value.0[k].subtasks == decs[k].subtasks && r.value.0[k].pt == decs[k].pt
    ensures (forall k :: 0 <= k < |decs| ==> Shaped(dom, a, world.state, decs[k])) ==>
              r.Err? ==> r.error.MissingGetEffect?
    decreases |decs|
  {
    if |decs| == 0 then Ok(([], possible))
    else
      var first :- ApplyDecomposition(dom, a, world, possible, decs[0]);
      assert forall k :: 1 <= k < |decs| ==> decs[1..][k - 1] == decs[k];
      var rest :- ApplyAll(dom, a, world, decs[1..], first.1);
      var all := [first.0] + rest.0;
      assert forall k :: 1 <= k < |all| ==> all[k] == rest.0[k - 1];
      Ok((all, rest.1))
  }

  /** The application loop as one step and the rest. */
  lemma ApplyAllStep<S>(dom: Domain<S>, a: Agent, world: World<S>, decs: seq<Decomposition>,
                        possible: seq<World<S>>)
    requires |decs| > 0 && ApplyAll(dom, a, world, decs, possible).Ok?
    ensures var first := ApplyDecomposition(dom, a, world, possible, decs[0]);
            first.Ok? &&
            var rest := ApplyAll(dom, a, world, decs[1..], first.value.1);
            rest.Ok? && ApplyAll(dom, a, world, decs, possible).value ==
                        ([first.value.0] + rest.value.0, rest.value.1)
  {
  }

  /** A robot performing only its own tasks can only remove possible worlds. */
  lemma {:induction false} ApplyAllRobotWorlds<S>(dom: Domain<S>, world: World<S>,
                                                  decs: seq<Decomposition>, possible: seq<World<S>>)
    requires ApplyAll(dom, R, world, decs, possible).Ok?
    requires forall k :: 0 <= k < |decs| ==> OwnPrimitive(R, decs[k])
    ensures forall w :: w in ApplyAll(dom, R, world, decs, possible).value.1 ==> w in possible
    decreases |decs|
  {
    if |decs| > 0 {
      ApplyAllStep(dom, R, world, decs, possible);
      var first := ApplyDecomposition(dom, R, world, possible, decs[0]).value;
      assert forall k :: 1 <= k < |decs| ==> decs[1..][k - 1] == decs[k];
      ApplyAllRobotWorlds(dom, world, decs[1..], first.1);
    }
  }

  /** After a human action every possible world carries the human agenda of the last applied
      decomposition. */
  lemma {:induction false} ApplyAllHumanWorlds<S>(dom: Domain<S>, world: World<S>,
                                                  decs: seq<Decomposition>, possible: seq<World<S>>)
    requires |decs| > 0 && ApplyAll(dom, H, world, decs, possible).Ok?
    ensures var r := ApplyAll(dom, H, world, decs, possible).value;
            forall w :: w in r.1 ==> w.agendaH == r.0[|decs| - 1].end.agendaH
    decreases |decs|
  {
    ApplyAllStep(dom, H, world, decs, possible);
    var first := ApplyDecomposition(dom, H, world, possible, decs[0]).value;
    if |decs| > 1 {
      ApplyAllHumanWorlds(dom, world, decs[1..], first.1);
      var rest := ApplyAll(dom, H, world, decs[1..], first.1).value;
      assert ([first.0] + rest.0)[|decs| - 1] == rest.0[|decs| - 2];
    } else {
      assert ApplyAll(dom, H, world, decs[1..], first.1) == Ok(([], first.1));
    }
  }

  /** The decomposition's primitive task is a communication. */
  predicate Communicates(d: Decomposition)
  {
    d.pt.Some? && IsCommunication(d.pt.value.name)
  }

  /** The last decomposition whose primitive task is a communication, if any. */
  function LastCommunication(decs: seq<Decomposition>): (r: Option<nat>)
    ensures r.Some? ==> r.value < |decs| && Communicates(decs[r.value]) &&
                        forall j :: r.value < j < |decs| ==> !Communicates(decs[j])
    ensures r.None? ==> forall j :: 0 <= j < |decs| ==> !Communicates(decs[j])
  {
    if |decs| == 0 then None
    else if Communicates(decs[|decs| - 1]) then Some(|decs| - 1)
    else
      var r := LastCommunication(decs[..|decs| - 1]);
      assert forall j :: 0 <= j < |decs| - 1 ==> decs[..|decs| - 1][j] == decs[j];
      r
  }

  /** The extra decomposition offered when the agent communicates: the robot signals and the
      human waits for the signal, with the world as it was before anything was applied. */
  function SignalDecomposition<S>(a: Agent, world: World<S>, d: Decomposition): (s: AppliedDec<S>)
    requires d.pt.Some?
    ensures s.pt == Some(d.pt.value.(name := SignalWaitName))
    ensures s.action == CreatePassiveSignal(H, "WAIT-FOR-SIGNAL")
    ensures s.end == world.WithAgenda(a, EndAgenda(d.status, d.subtasks, d.agenda))
  {
    AppliedDec(d.subtasks, d.agenda, Some(d.pt.value.(name := SignalWaitName)),
               CreatePassiveSignal(H, "WAIT-FOR-SIGNAL"),
               world.WithAgenda(a, EndAgenda(d.status, d.subtasks, d.agenda)))
  }

  /** The signalling decomposition's agenda against the one the source writes, which is the
      subtasks after the first followed by the new agenda: the two agree except after a
      decomposition without applicable method, where the source also loses the first
      subtask, which was never performed. */
  lemma SignalAgendaAgainstSource<S>(a: Agent, world: World<S>, d: Decomposition)
    requires d.pt.Some?
    ensures var s := SignalDecomposition(a, world, d);
            var written := EndAgendaAsWritten(d.subtasks, d.agenda);
            (d.status != NoApplicableMethod ==> s.end.Agenda(a) == written) &&
            (d.status == NoApplicableMethod && |d.subtasks| > 0 ==>
               multiset(s.end.Agenda(a)) == multiset(written) + multiset{d.subtasks[0]} &&
               (d.subtasks[0] !in d.subtasks[1..] + d.agenda ==>
                  d.subtasks[0] in s.end.Agenda(a) && d.subtasks[0] !in written))
  {
    var s := SignalDecomposition(a, world, d);
    var written := EndAgendaAsWritten(d.subtasks, d.agenda);
    if d.status == NoApplicableMethod && |d.subtasks| > 0 {
      assert written == d.subtasks[1..] + d.agenda;
      assert multiset(s.end.Agenda(a)) == multiset(d.subtasks) + multiset(d.agenda);
      if d.subtasks[0] !in d.subtasks[1..] + d.agenda {
        assert multiset(written)[d.subtasks[0]] == 0;
      }
    }
  }

  /** Tasks on an agenda that belong to the agent itself. */
  predicate OwnAgenda<S>(a: Agent, w: World<S>)
  {
    forall k :: 0 <= k < |w.Agenda(a)| ==> w.Agenda(a)[k].agent == a
  }

  /** The tail of `get_applied_refinement` once the agenda is refined: the applied
      decompositions, followed by the signalling decomposition when one of them communicates,
      and the possible worlds after all of them. The other agent's agenda is left alone and,
      on decompositions of the refinement's shape, the only error is a missing effect
      function. */
  function ApplyRefinement<S>(dom: Domain<S>, a: Agent, world: World<S>,
                              possible: seq<World<S>>, decs: seq<Decomposition>)
    : (r: Result<(seq<AppliedDec<S>>, seq<World<S>>), EngineError>)
    requires |decs| > 0 && forall k :: 0 <= k < |decs| ==> Shaped(dom, a, world.state, decs[k])
    ensures r.Ok? ==> |r.value.0| > 0
    ensures r.Ok? ==> forall k :: 0 <= k < |r.value.0| ==>
              r.value.0[k].end.Agenda(Other(a)) == world.Agenda(Other(a))
    ensures r.Err? ==> r.error.MissingGetEffect?
  {
    var res :- ApplyAll(dom, a, world, decs, possible);
    var save := LastCommunication(decs);
    if save.Some? then
      var all := res.0 + [SignalDecomposition(a, world, decs[save.value])];
      assert forall k :: 0 <= k < |res.0| ==> all[k] == res.0[k];
      Ok((all, res.1))
    else Ok(res)
  }

  /** What the applied decompositions hold: one per decomposition, plus the signalling one
      exactly when some decomposition communicates; a robot performing only its own tasks can
      only remove possible worlds; after a human action every possible world carries the
      human agenda of the last decomposition. */
  lemma ApplyRefinementShape<S>(dom: Domain<S>, a: Agent, world: World<S>,
                                possible: seq<World<S>>, decs: seq<Decomposition>)
    requires |decs| > 0 && forall k :: 0 <= k < |decs| ==> Shaped(dom, a, world.state, decs[k])
    requires ApplyRefinement(dom, a, world, possible, decs).Ok?
    ensures var r := ApplyRefinement(dom, a, world, possible, decs).value;
            (|r.0| == |decs| || |r.0| == |decs| + 1) &&
            (|r.0| == |decs| + 1 <==> exists k :: 0 <= k < |decs| && Communicates(decs[k])) &&
            (forall k :: 0 <= k < |decs| ==> r.0[k].subtasks == decs[k].subtasks) &&
            (a == R && (forall k :: 0 <= k < |decs| ==> OwnPrimitive(a, decs[k])) ==>
               forall w :: w in r.1 ==> w in possible) &&
            (a == H ==> forall w :: w in r.1 ==> w.agendaH == r.0[|decs| - 1].end.agendaH)
  {
    var r := ApplyRefinement(dom, a, world, possible, decs).value;
    var res := ApplyAll(dom, a, world, decs, possible).value;
    if a == R && forall k :: 0 <= k < |decs| ==> OwnPrimitive(a, decs[k]) {
      ApplyAllRobotWorlds(dom, world, decs, possible);
    }
    if a == H {
      ApplyAllHumanWorlds(dom, world, decs, possible);
    }
    var save := LastCommunication(decs);
    if save.Some? {
      assert r.0 == res.0 + [SignalDecomposition(a, world, decs[save.value])];
      assert forall k :: 0 <= k < |decs| ==> r.0[k] == res.0[k];
    } else {
      assert r == res;
    }
  }

  /** `get_applied_refinement`: the refinement of the agent's agenda, applied. No
      decomposition is ever reported done (the tuple-indexing of the `DONE` marker is
      unreachable) and no primitive task lacks its operator. */
  function GetAppliedRefinement<S>(dom: Domain<S>, a: Agent, world: World<S>,
                                   possible: seq<World<S>>, fuel: nat)
    : (r: Result<(seq<AppliedDec<S>>, seq<World<S>>), EngineError>)
    ensures r.Ok? ==> |r.value.0| > 0
    ensures r.Ok? ==> forall k :: 0 <= k < |r.value.0| ==>
              r.value.0[k].end.Agenda(Other(a)) == world.Agenda(Other(a))
    ensures r.Err? ==> r.error != DoneIndexedAsTuple && !r.error.MissingOperator?
  {
    var decs :- RefineAgenda(dom, a, world, possible, fuel);
    ApplyRefinement(dom, a, world, possible, decs)
  }

  /** The applied refinement has the shape of `ApplyRefinementShape` for the decompositions
      of the agent's agenda; a robot whose agenda is its own performs only its own tasks. */
  lemma AppliedRefinementShape<S>(dom: Domain<S>, a: Agent, world: World<S>,
                                  possible: seq<World<S>>, fuel: nat)
    requires GetAppliedRefinement(dom, a, world, possible, fuel).Ok?
    ensures var r := GetAppliedRefinement(dom, a, world, possible, fuel).value;
            var decs := RefineAgenda(dom, a, world, possible, fuel).value;
            (|r.0| == |decs| || |r.0| == |decs| + 1) &&
            (|r.0| == |decs| + 1 <==> exists k :: 0 <= k < |decs| && Communicates(decs[k])) &&
            (forall k :: 0 <= k < |decs| ==> r.0[k].subtasks == decs[k].subtasks) &&
            (a == R && OwnAgenda(a, world) ==> forall w :: w in r.1 ==> w in possible) &&
            (a == H ==> forall w :: w in r.1 ==> w.agendaH == r.0[|decs| - 1].end.agendaH)
  {
    var decs := RefineAgenda(dom, a, world, possible, fuel).value;
    ApplyRefinementShape(dom, a, world, possible, decs);
    if a == R && OwnAgenda(a, world) {
      assert forall k :: 0 <= k < |decs| ==> OwnPrimitive(a, decs[k]);
    }
  }
}

/** `Operator.apply` (CommonModule.py): applying a primitive task in the designated world
    while the human may consider other worlds possible. The human's actions must be valid in
    every world the human considers possible, the human's effects are replayed in each of
    them, and a communication operator prunes the worlds whose observed value disagrees with
    the designated one. */
module Apply {
  import opened Wrappers
  import opened Tasks
  import opened Htn

  /** What `apply` reports: the task was already done, it is not applicable, or it was
      applied at the given cost, using the given shared resource. */
  datatype Outcome = OpDone | OpNotApplicable | Applied(cost: int, resource: Option<string>)

  /** The designated state and the possible worlds after `apply`. */
  datatype Applied<S> = AppliedOp(outcome: Outcome, state: S, possible: seq<World<S>>)

  predicate DoneInAll<S>(op: Operator<S>, possible: seq<World<S>>, t: Task)
  {
    forall i :: 0 <= i < |possible| ==> OpIsDone(op, possible[i].state, t)
  }

  predicate ApplicableInAll<S>(op: Operator<S>, possible: seq<World<S>>, t: Task)
  {
    forall i :: 0 <= i < |possible| ==> OpIsApplicable(op, possible[i].state, t)
  }

  /** The done-test of `apply`: a human task must be done in the designated state and in
      every possible world, a robot task in the designated state. */
  predicate ReportsDone<S>(op: Operator<S>, state: S, possible: seq<World<S>>, t: Task)
  {
    if t.agent == H then DoneInAll(op, possible, t) && OpIsDone(op, state, t)
    else OpIsDone(op, state, t)
  }

  /** The applicability test of `apply`, failing: a human task must be applicable in the
      designated state and in every possible world, a robot task in the designated state. */
  predicate Blocked<S>(op: Operator<S>, state: S, possible: seq<World<S>>, t: Task)
  {
    if t.agent == H then !ApplicableInAll(op, possible, t) || !OpIsApplicable(op, state, t)
    else !OpIsApplicable(op, state, t)
  }

  /** Effects of an action replayed in each possible world (only the human's actions are). */
  function ReplayEffects<S>(op: Operator<S>, possible: seq<World<S>>, t: Task)
    : (r: seq<World<S>>)
    ensures |r| == |possible|
    ensures forall i :: 0 <= i < |r| ==>
              r[i] == possible[i].WithState(OpApplyEffects(op, possible[i].state, t.agent, t.params))
  {
    seq(|possible|, i requires 0 <= i < |possible| =>
      possible[i].WithState(OpApplyEffects(op, possible[i].state, t.agent, t.params)))
  }

  /** The worlds in which the communicated value is the one observed in the designated
      state, in their original order. */
  function KeepAgreeing<S>(ge: (S, Agent, seq<string>) -> Fluents.Value,
                           possible: seq<World<S>>, t: Task, observed: Fluents.Value)
    : (r: seq<World<S>>)
    ensures |r| <= |possible|
    ensures forall w :: w in r ==> w in possible
  {
    if |possible| == 0 then []
    else
      (if ge(possible[0].state, t.agent, t.params) == observed then [possible[0]] else [])
      + KeepAgreeing(ge, possible[1..], t, observed)
  }

  /** The pruning of a communication keeps exactly the agreeing worlds. */
  lemma {:induction false} KeepAgreeingSpec<S>(ge: (S, Agent, seq<string>) -> Fluents.Value,
                                                   possible: seq<World<S>>, t: Task,
                                                   observed: Fluents.Value)
    ensures var r := KeepAgreeing(ge, possible, t, observed);
            (forall w :: w in r <==> w in possible && ge(w.state, t.agent, t.params) == observed)
  {
    if |possible| > 0 {
      KeepAgreeingSpec(ge, possible[1..], t, observed);
      assert possible == [possible[0]] + possible[1..];
    }
  }

  /** `Operator.apply`. For a human task the done-test passes only if the task is done in the
      designated state and in every possible world, and the precondition must hold in all of
      them; for a robot task only the designated state is consulted. The cost is taken
      before the effects and the shared resource after them. */
  function ApplyOperator<S>(op: Operator<S>, state: S, possible: seq<World<S>>, t: Task)
    : (r: Result<Applied<S>, EngineError>)
    ensures r.Ok? ==> (r.value.outcome == OpDone <==> ReportsDone(op, state, possible, t))
    ensures r.Ok? ==> (r.value.outcome == OpNotApplicable <==>
                         !ReportsDone(op, state, possible, t) && Blocked(op, state, possible, t))
    ensures r.Err? <==> !ReportsDone(op, state, possible, t) && !Blocked(op, state, possible, t) &&
                        IsCommunication(t.name) && op.getEffect.None? && |possible| > 0
    ensures r.Ok? && !r.value.outcome.Applied? ==>
              r.value.state == state && r.value.possible == possible
    ensures r.Ok? && r.value.outcome.Applied? ==>
              r.value.outcome.cost == OpCost(op, state, t) &&
              r.value.state == OpApplyEffects(op, state, t.agent, t.params) &&
              r.value.outcome.resource == OpSharedResource(op, r.value.state, t)
    ensures r.Ok? ==> |r.value.possible| <= |possible|
    ensures r.Err? ==> r.error == MissingGetEffect(t.name)
  {
    var checkDone := DoneInAll(op, possible, t);
    var checkApp := ApplicableInAll(op, possible, t);
    if t.agent == H && checkDone && OpIsDone(op, state, t) then
      Ok(AppliedOp(OpDone, state, possible))
    else if t.agent == H && (!checkApp || !OpIsApplicable(op, state, t)) then
      Ok(AppliedOp(OpNotApplicable, state, possible))
    else if t.agent == R && OpIsDone(op, state, t) then
      Ok(AppliedOp(OpDone, state, possible))
    else if t.agent == R && !OpIsApplicable(op, state, t) then
      Ok(AppliedOp(OpNotApplicable, state, possible))
    else
      var cost := OpCost(op, state, t);
      var state' := OpApplyEffects(op, state, t.agent, t.params);
      var replayed := if t.agent == H then ReplayEffects(op, possible, t) else possible;
      if IsCommunication(t.name) && |replayed| > 0 && op.getEffect.None? then
        Err(MissingGetEffect(t.name))
      else
        var kept :=
          if IsCommunication(t.name) && |replayed| > 0 then
            KeepAgreeing(op.getEffect.value, replayed, t,
                         op.getEffect.value(state', t.agent, t.params))
          else replayed;
        Ok(AppliedOp(Applied(cost, OpSharedResource(op, state', t)), state', kept))
  }

  /** What an applied action does to the possible worlds: a non-communicating action keeps
      them one for one, with the human's effects replayed and the robot's not; after a
      communication every surviving world shows the designated world's observed value, and
      every replayed world that shows it survives. */
  lemma {:induction false} ApplyPossibleWorlds<S>(op: Operator<S>, state: S,
                                                      possible: seq<World<S>>, t: Task)
    requires ApplyOperator(op, state, possible, t).Ok?
    requires ApplyOperator(op, state, possible, t).value.outcome.Applied?
    ensures var a := ApplyOperator(op, state, possible, t).value;
            var replayed := if t.agent == H then ReplayEffects(op, possible, t) else possible;
            (!IsCommunication(t.name) ==> a.possible == replayed) &&
            (IsCommunication(t.name) ==>
               (|possible| > 0 ==> op.getEffect.Some?) &&
               forall w :: w in a.possible <==>
                 w in replayed && op.getEffect.Some? &&
                 op.getEffect.value(w.state, t.agent, t.params) ==
                 op.getEffect.value(a.state, t.agent, t.params))
    ensures var a := ApplyOperator(op, state, possible, t).value;
            t.agent == R ==> forall w :: w in a.possible ==> w in possible
  {
    var a := ApplyOperator(op, state, possible, t).value;
    var replayed := if t.agent == H then ReplayEffects(op, possible, t) else possible;
    if IsCommunication(t.name) && |possible| > 0 {
      KeepAgreeingSpec(op.getEffect.value, replayed, t,
                       op.getEffect.value(a.state, t.agent, t.params));
      assert a.possible == KeepAgreeing(op.getEffect.value, replayed, t,
                                        op.getEffect.value(a.state, t.agent, t.params));
      if t.agent == R {
        assert replayed == possible;
        forall w | w in a.possible
          ensures w in possible
        {
        }
      }
    }
  }

  /** A task that is not done in the designated state is never reported done, whoever
      performs it. */
  lemma NotDoneNeverReportedDone<S>(op: Operator<S>, state: S, possible: seq<World<S>>, t: Task)
    requires !OpIsDone(op, state, t)
    ensures ApplyOperator(op, state, possible, t).Ok? ==>
              ApplyOperator(op, state, possible, t).value.outcome != OpDone
  {
  }

  /** An operator declared with nothing but its name (`Operator(PT_name)`): never done and
      always applicable, so it applies at the default cost of 1, leaves the state as it is
      without effects and uses no shared resource; only a communication with a possible
      world to prune fails, for want of a value function. */
  lemma BareOperator<S>(op: Operator<S>, state: S, possible: seq<World<S>>, t: Task)
    requires op.doneCond.None? && op.preCond.None? && op.costFn.None?
    requires op.effects.None? && op.sharedResource.None?
    ensures var r := ApplyOperator(op, state, possible, t);
            (r.Ok? <==> !(IsCommunication(t.name) && op.getEffect.None? && |possible| > 0)) &&
            (r.Ok? ==> r.value.outcome == Applied(1, None) && r.value.state == state)
  {
  }
}

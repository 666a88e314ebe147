/** Refinement of an agent's agenda (`refine_agenda`, `refine_method`, `get_subtask_list` in
    ConcurrentModule.py and `Decomposition` in CommonModule.py): the head of the agenda is
    decomposed with the agent's methods until every alternative starts with a primitive task
    that is not yet done, or until no method applies, or until the agenda runs out.

    The source keeps one local copy of the agenda from which further tasks are popped, and
    several decompositions hold that very list object as their new agenda, so a pop made while
    refining a later decomposition shows in the earlier ones too. The model keeps the local
    list explicitly and lets an alternative refer to it (`Shared`) or own a snapshot (`Own`);
    references are resolved against the final local list once refinement is over. */
module Refine {
  import opened Wrappers
  import opened Tasks
  import opened Htn

  /** Where an alternative's new agenda lives: the refinement's local list, a list of its own,
      or nowhere (the `None` agenda of the empty decomposition a done method yields). */
  datatype AgendaRef = Shared | Own(tasks: seq<Task>) | Unset

  function Resolve(ref: AgendaRef, local: seq<Task>): seq<Task>
  {
    match ref
    case Shared => local
    case Own(ts) => ts
    case Unset => []
  }

  /** One decomposition offered by `refine_method`. */
  datatype Alt = Alt(subtasks: seq<Task>, agenda: AgendaRef)

  /** `DecompType`. */
  datatype Status = StOk | NoApplicableMethod | AgendaEmpty

  /** A decomposition while the refinement is in progress. */
  datatype Draft = Draft(subtasks: seq<Task>, agenda: AgendaRef, status: Status, pt: Option<Task>)

  /** A decomposition as the refinement returns it: its remaining subtasks, the agent's new
      agenda, its status and its primitive task (`PT`). */
  datatype Decomposition = Decomposition(subtasks: seq<Task>, agenda: seq<Task>, status: Status,
                                         pt: Option<Task>)

  const CommunicateTaskName: string := "Communicate"

  /** The abstract task a human is given to obtain the information a method needs. */
  function CommunicateTask(t: Task): (c: Task)
    ensures c.isAbstract && c.agent == t.agent && c.params == [] && c.name == CommunicateTaskName
  {
    Task(CommunicateTaskName, [], t.agent, true)
  }

  // ---------------------------------------------------------------------------------------
  // refine_method
  // ---------------------------------------------------------------------------------------

  /** `get_subtask_list`: one alternative per decomposition of the method, each entry made a
      task of the refined task's agent, abstract when that agent has methods for it. */
  function SubtaskList<S>(d: AgentDef<S>, t: Task, decomps: seq<seq<TaskRef>>, ref: AgendaRef)
    : (r: Result<seq<Alt>, EngineError>)
    ensures r.Ok? <==> forall i :: 0 <= i < |decomps| ==> MakeTasks(d, t.agent, decomps[i]).Ok?
    ensures r.Ok? ==> |r.value| == |decomps| &&
                      forall i :: 0 <= i < |decomps| ==>
                        r.value[i].agenda == ref && |r.value[i].subtasks| == |decomps[i]| &&
                        forall j :: 0 <= j < |decomps[i]| ==>
                          var st := r.value[i].subtasks[j];
                          st.name == decomps[i][j].name && st.params == decomps[i][j].params &&
                          st.agent == t.agent && (st.isAbstract <==> st.name in d.methods)
    ensures r.Err? ==> r.error.UnknownTask?
  {
    if |decomps| == 0 then Ok([])
    else
      var first := MakeTasks(d, t.agent, decomps[0]);
      if first.Err? then first.PropagateFailure()
      else
        var rest := SubtaskList(d, t, decomps[1..], ref);
        assert forall i :: 1 <= i < |decomps| ==> decomps[i] == decomps[1..][i - 1];
        if rest.Err? then rest
        else Ok([Alt(first.value, ref)] + rest.value)
  }

  /** The human needs to be told something before method `m` can be used: it applies in the
      designated state but not in some world the human considers possible. */
  predicate NeedsCommunication<S>(m: Method<S>, state: S, possible: seq<World<S>>, t: Task)
  {
    t.agent == H && !MethodIsDone(m, state, t) && MethodIsApplicable(m, state, t) &&
    exists k :: 0 <= k < |possible| && !MethodIsApplicable(m, possible[k].state, t)
  }

  /** What any alternative of `refine_method` looks like: a `None` agenda only on the empty
      decomposition of a done method, an agenda of its own either inherited or headed by the
      refined task, and subtasks all of the refined task's agent. */
  predicate AltShape(alt: Alt, t: Task, ref: AgendaRef)
  {
    (alt.agenda.Unset? ==> alt.subtasks == []) &&
    (alt.agenda.Own? && alt.agenda != ref ==>
       |alt.agenda.tasks| > 0 && alt.agenda.tasks[0] == t) &&
    (forall j :: 0 <= j < |alt.subtasks| ==> alt.subtasks[j].agent == t.agent)
  }

  /** The loop of `refine_method` over the methods of a task, in declaration order. A done
      method yields the empty decomposition; an applicable one yields its decompositions, or,
      for the human when some possible world rules it out, a single `Communicate` task with
      the refined task put back on a fresh agenda, which every later alternative then shares. */
  function RefineMethods<S>(d: AgentDef<S>, t: Task, state: S, possible: seq<World<S>>,
                            ms: seq<Method<S>>, ref: AgendaRef, local: seq<Task>)
    : (r: Result<seq<Alt>, EngineError>)
    requires !ref.Unset?
    ensures r.Ok? ==> forall k :: 0 <= k < |r.value| ==> AltShape(r.value[k], t, ref)
    ensures r.Ok? && t.agent == R ==>
              forall k :: 0 <= k < |r.value| ==> r.value[k].agenda in {ref, Unset}
    ensures r.Err? ==> r.error.UnknownTask?
    decreases |ms|
  {
    if |ms| == 0 then Ok([])
    else
      var m := ms[0];
      if MethodIsDone(m, state, t) then
        var rest :- RefineMethods(d, t, state, possible, ms[1..], ref, local);
        Ok([Alt([], Unset)] + rest)
      else if MethodIsApplicable(m, state, t) then
        if NeedsCommunication(m, state, possible, t) then
          var ref' := Own([t] + Resolve(ref, local));
          var rest :- RefineMethods(d, t, state, possible, ms[1..], ref', local);
          Ok([Alt([CommunicateTask(t)], ref')] + rest)
        else
          var alts :- SubtaskList(d, t, MethodGetDecomp(m, state, t), ref);
          var rest :- RefineMethods(d, t, state, possible, ms[1..], ref, local);
          assert forall k :: 0 <= k < |alts| ==> (alts + rest)[k] == alts[k];
          assert forall k :: 0 <= k < |rest| ==> (alts + rest)[|alts| + k] == rest[k];
          Ok(alts + rest)
      else
        RefineMethods(d, t, state, possible, ms[1..], ref, local)
  }

  /** A task none of whose methods is done or applicable has no alternative. */
  lemma {:induction false} NoMethodApplies<S>(d: AgentDef<S>, t: Task, state: S,
                                               possible: seq<World<S>>, ms: seq<Method<S>>,
                                               ref: AgendaRef, local: seq<Task>)
    requires !ref.Unset?
    requires forall i :: 0 <= i < |ms| ==>
               !MethodIsDone(ms[i], state, t) && !MethodIsApplicable(ms[i], state, t)
    ensures RefineMethods(d, t, state, possible, ms, ref, local) == Ok([])
    decreases |ms|
  {
    if |ms| > 0 {
      assert forall i :: 1 <= i < |ms| ==> ms[i] == ms[1..][i - 1];
      NoMethodApplies(d, t, state, possible, ms[1..], ref, local);
    }
  }

  /** The alternatives of the later methods end the list of alternatives of all of them; the
      later methods see the refined task's own agenda once a communication was inserted. */
  lemma TailOfRefineMethods<S>(d: AgentDef<S>, t: Task, state: S, possible: seq<World<S>>,
                               ms: seq<Method<S>>, ref: AgendaRef, local: seq<Task>)
    returns (ref': AgendaRef)
    requires !ref.Unset? && |ms| > 0
    requires RefineMethods(d, t, state, possible, ms, ref, local).Ok?
    ensures ref' == if NeedsCommunication(ms[0], state, possible, t)
                    then Own([t] + Resolve(ref, local)) else ref
    ensures var r := RefineMethods(d, t, state, possible, ms, ref, local).value;
            var rest := RefineMethods(d, t, state, possible, ms[1..], ref', local);
            rest.Ok? && |rest.value| <= |r| && r[|r| - |rest.value|..] == rest.value
  {
    var m := ms[0];
    ref' := if NeedsCommunication(m, state, possible, t) then Own([t] + Resolve(ref, local)) else ref;
    var r := RefineMethods(d, t, state, possible, ms, ref, local).value;
    var rest := RefineMethods(d, t, state, possible, ms[1..], ref', local);
    if MethodIsDone(m, state, t) {
      assert r == [Alt([], Unset)] + rest.value;
    } else if MethodIsApplicable(m, state, t) {
      if NeedsCommunication(m, state, possible, t) {
        assert r == [Alt([CommunicateTask(t)], ref')] + rest.value;
      } else {
        var alts := SubtaskList(d, t, MethodGetDecomp(m, state, t), ref).value;
        assert r == alts + rest.value;
      }
    }
  }

  /** A done method contributes the empty decomposition, with no agenda. */
  lemma {:induction false} DoneMethodGivesEmpty<S>(d: AgentDef<S>, t: Task, state: S,
                                                    possible: seq<World<S>>, ms: seq<Method<S>>,
                                                    ref: AgendaRef, local: seq<Task>, i: nat)
    requires !ref.Unset?
    requires i < |ms| && MethodIsDone(ms[i], state, t)
    requires RefineMethods(d, t, state, possible, ms, ref, local).Ok?
    ensures var r := RefineMethods(d, t, state, possible, ms, ref, local).value;
            exists k :: 0 <= k < |r| && r[k] == Alt([], Unset)
    decreases |ms|
  {
    var r := RefineMethods(d, t, state, possible, ms, ref, local).value;
    if i == 0 {
      assert r[0] == Alt([], Unset);
    } else {
      var ref' := TailOfRefineMethods(d, t, state, possible, ms, ref, local);
      var rest := RefineMethods(d, t, state, possible, ms[1..], ref', local).value;
      assert ms[1..][i - 1] == ms[i];
      DoneMethodGivesEmpty(d, t, state, possible, ms[1..], ref', local, i - 1);
      var k :| 0 <= k < |rest| && rest[k] == Alt([], Unset);
      assert r[|r| - |rest| + k] == rest[k];
    }
  }

  /** Some alternative of `r` is a `Communicate` task whose agenda starts with the refined task. */
  predicate Communicates(r: seq<Alt>, t: Task)
  {
    exists k :: 0 <= k < |r| && r[k].subtasks == [CommunicateTask(t)] &&
                r[k].agenda.Own? && |r[k].agenda.tasks| > 0 && r[k].agenda.tasks[0] == t
  }

  lemma CommunicatesSuffix(r: seq<Alt>, rest: seq<Alt>, t: Task)
    requires |rest| <= |r| && r[|r| - |rest|..] == rest && Communicates(rest, t)
    ensures Communicates(r, t)
  {
    var k :| 0 <= k < |rest| && rest[k].subtasks == [CommunicateTask(t)] &&
             rest[k].agenda.Own? && |rest[k].agenda.tasks| > 0 && rest[k].agenda.tasks[0] == t;
    assert r[|r| - |rest| + k] == rest[k];
  }

  /** A human method that applies in the designated world but not in some possible world
      yields a `Communicate` task, with the refined task put back at the head of its agenda. */
  lemma {:induction false} CommunicationInserted<S>(d: AgentDef<S>, t: Task, state: S,
                                                     possible: seq<World<S>>, ms: seq<Method<S>>,
                                                     ref: AgendaRef, local: seq<Task>, i: nat)
    requires !ref.Unset?
    requires i < |ms| && NeedsCommunication(ms[i], state, possible, t)
    requires RefineMethods(d, t, state, possible, ms, ref, local).Ok?
    ensures Communicates(RefineMethods(d, t, state, possible, ms, ref, local).value, t)
    decreases |ms|, 1
  {
    if i == 0 {
      CommunicationAtHead(d, t, state, possible, ms, ref, local);
      assert RefineMethods(d, t, state, possible, ms, ref, local).value[0].subtasks == [CommunicateTask(t)];
    } else {
      CommunicationLater(d, t, state, possible, ms, ref, local, i);
    }
  }

  lemma {:induction false} CommunicationLater<S>(d: AgentDef<S>, t: Task, state: S,
                                                  possible: seq<World<S>>, ms: seq<Method<S>>,
                                                  ref: AgendaRef, local: seq<Task>, i: nat)
    requires !ref.Unset?
    requires 0 < i < |ms| && NeedsCommunication(ms[i], state, possible, t)
    requires RefineMethods(d, t, state, possible, ms, ref, local).Ok?
    ensures Communicates(RefineMethods(d, t, state, possible, ms, ref, local).value, t)
    decreases |ms|, 0
  {
    var ref' := TailOfRefineMethods(d, t, state, possible, ms, ref, local);
    assert ms[1..][i - 1] == ms[i];
    CommunicationInserted(d, t, state, possible, ms[1..], ref', local, i - 1);
    CommunicatesSuffix(RefineMethods(d, t, state, possible, ms, ref, local).value,
                       RefineMethods(d, t, state, possible, ms[1..], ref', local).value, t);
  }

  lemma CommunicationAtHead<S>(d: AgentDef<S>, t: Task, state: S, possible: seq<World<S>>,
                               ms: seq<Method<S>>, ref: AgendaRef, local: seq<Task>)
    requires !ref.Unset?
    requires |ms| > 0 && NeedsCommunication(ms[0], state, possible, t)
    requires RefineMethods(d, t, state, possible, ms, ref, local).Ok?
    ensures var r := RefineMethods(d, t, state, possible, ms, ref, local).value;
            |r| > 0 && r[0].subtasks == [CommunicateTask(t)] && r[0].agenda == Own([t] + Resolve(ref, local))
  {
    var ref' := Own([t] + Resolve(ref, local));
    var rest := RefineMethods(d, t, state, possible, ms[1..], ref', local);
    assert RefineMethods(d, t, state, possible, ms, ref, local).value == [Alt([CommunicateTask(t)], ref')] + rest.value;
  }

  /** `refine_method`: the alternatives of every method the refined task's agent declares for
      it, or an error when it declares none. */
  function RefineMethod<S>(dom: Domain<S>, t: Task, state: S, possible: seq<World<S>>,
                           ref: AgendaRef, local: seq<Task>)
    : (r: Result<seq<Alt>, EngineError>)
    requires !ref.Unset?
    ensures !dom.HasMethods(t.agent, t) <==> r == Err(NoMethods(t))
    ensures r.Ok? ==> forall k :: 0 <= k < |r.value| ==> AltShape(r.value[k], t, ref)
    ensures r.Err? && dom.HasMethods(t.agent, t) ==> r.error.UnknownTask?
  {
    if !dom.HasMethods(t.agent, t) then Err(NoMethods(t))
    else RefineMethods(dom.Def(t.agent), t, state, possible, dom.Def(t.agent).methods[t.name],
                       ref, local)
  }

  // ---------------------------------------------------------------------------------------
  // refine_agenda
  // ---------------------------------------------------------------------------------------

  /** The errors refinement can raise. */
  predicate RefinementError(e: EngineError)
  {
    e.UnknownTask? || e.CannotHandle? || e.NoMethods? || e == EmptyDecomposition || e == OutOfFuel
  }

  /** The lead task is primitive and the refining agent has an operator for it
      (`first_task_is_PT_and_has_op`). */
  predicate PrimitiveWithOperator<S>(dom: Domain<S>, a: Agent, t: Task)
  {
    !t.isAbstract && dom.HasOperator(a, t)
  }

  predicate PrimitiveNotDone<S>(dom: Domain<S>, a: Agent, state: S, t: Task)
  {
    PrimitiveWithOperator(dom, a, t) && !OpIsDone(dom.Def(a).operators[t.name], state, t)
  }

  /** A new alternative from a method other than the first one (`Decomposition(subtasks,
      agenda=new_agenda)`): it shares the local agenda. */
  function NewDraft(subtasks: seq<Task>): (d: Draft)
    ensures d.subtasks == subtasks && d.agenda == Shared && d.status == StOk
    ensures d.pt.Some? <==> |subtasks| > 0
    ensures d.pt.Some? ==> d.pt.value == subtasks[0]
  {
    Draft(subtasks, Shared, StOk, if |subtasks| == 0 then None else Some(subtasks[0]))
  }

  /** The end of a decomposition's refinement: a decomposition with subtasks left takes the
      first of them as its primitive task. */
  function Finalize(d: Draft): (f: Draft)
    ensures f.subtasks == d.subtasks && f.agenda == d.agenda && f.status == d.status
    ensures |d.subtasks| > 0 ==> f.pt == Some(d.subtasks[0])
    ensures |d.subtasks| == 0 ==> f.pt == d.pt
  {
    if |d.subtasks| > 0 then d.(pt := Some(d.subtasks[0])) else d
  }

  /** The refinement in progress: the decompositions so far, the index of the one being
      refined and the local agenda. */
  datatype Work = Work(drafts: seq<Draft>, i: nat, local: seq<Task>)

  /** The alternatives for the lead task of a decomposition: a method refinement for an
      abstract task the agent has methods for, the task itself for a primitive task it has an
      operator for, an error otherwise. */
  function Candidates<S>(dom: Domain<S>, a: Agent, lead: Task, state: S, possible: seq<World<S>>,
                         ref: AgendaRef, local: seq<Task>)
    : (r: Result<seq<Alt>, EngineError>)
    requires !ref.Unset?
    ensures PrimitiveWithOperator(dom, a, lead) ==> r == Ok([Alt([lead], Shared)])
    ensures !PrimitiveWithOperator(dom, a, lead) && !(lead.isAbstract && dom.HasMethods(a, lead)) ==>
              r == Err(CannotHandle(lead))
    ensures r.Err? ==> RefinementError(r.error)
    ensures r.Ok? ==> forall k, j :: 0 <= k < |r.value| && 0 <= j < |r.value[k].subtasks| ==>
                        r.value[k].subtasks[j].agent == lead.agent
    ensures r.Ok? && !PrimitiveWithOperator(dom, a, lead) ==>
              lead.isAbstract && forall k :: 0 <= k < |r.value| ==> AltShape(r.value[k], lead, ref)
  {
    if lead.isAbstract && dom.HasMethods(a, lead) then
      RefineMethod(dom, lead, state, possible, ref, local)
    else if PrimitiveWithOperator(dom, a, lead) then
      Ok([Alt([lead], Shared)])
    else
      Err(CannotHandle(lead))
  }

  /** A decomposition whose refinement is over: one ending on a primitive task starts with a
      primitive task of the agent that is not done, which is its primitive task; one without
      applicable method has the abstract task it stopped at at the head of its own agenda; one
      that ran out of agenda has no subtasks. */
  predicate Finished<S>(dom: Domain<S>, a: Agent, state: S, d: Draft)
  {
    !d.agenda.Unset? &&
    (d.status == StOk ==>
       |d.subtasks| > 0 && PrimitiveNotDone(dom, a, state, d.subtasks[0]) &&
       d.pt == Some(d.subtasks[0])) &&
    (d.status == NoApplicableMethod ==>
       d.agenda.Own? && |d.agenda.tasks| > 0 && d.agenda.tasks[0].isAbstract) &&
    (d.status == AgendaEmpty ==> d.subtasks == [])
  }

  /** The invariant of the refinement loop: decompositions before the current index are
      finished, the others are still being refined, and none has lost its agenda. */
  predicate WorkInv<S>(dom: Domain<S>, a: Agent, state: S, w: Work)
  {
    w.i <= |w.drafts| &&
    (forall k :: 0 <= k < w.i ==> Finished(dom, a, state, w.drafts[k])) &&
    (forall k :: w.i <= k < |w.drafts| ==>
       w.drafts[k].status == StOk && !w.drafts[k].agenda.Unset?)
  }

  /** Every task of the decomposition belongs to the agent. */
  predicate OwnedDraft(a: Agent, d: Draft)
  {
    (forall j :: 0 <= j < |d.subtasks| ==> d.subtasks[j].agent == a) &&
    (d.pt.Some? ==> d.pt.value.agent == a)
  }

  /** Every task in the refinement belongs to the agent. */
  predicate OwnedWork(a: Agent, w: Work)
  {
    (forall k :: 0 <= k < |w.drafts| ==> OwnedDraft(a, w.drafts[k])) &&
    (forall j :: 0 <= j < |w.local| ==> w.local[j].agent == a)
  }

  /** The local agenda only ever loses tasks from its front. */
  predicate SuffixOf(s: seq<Task>, t: seq<Task>)
  {
    |s| <= |t| && s == t[|t| - |s|..]
  }

  /** The alternatives after the first one become new decompositions, each followed by the
      rest of the current one's subtasks. */
  function Extras(alts: seq<Alt>, next: seq<Task>): (e: seq<Draft>)
    requires |alts| > 0
    ensures |e| == |alts| - 1
    ensures forall j :: 0 <= j < |e| ==> e[j] == NewDraft(alts[j + 1].subtasks + next)
  {
    seq(|alts| - 1, j requires 0 <= j < |alts| - 1 => NewDraft(alts[j + 1].subtasks + next))
  }

  /** The current decomposition takes the first alternative; the others are appended. The
      first alternative's agenda replaces the current one unless it is empty (a `None` agenda
      is not empty in the source's comparison). */
  function Expand<S>(dom: Domain<S>, a: Agent, state: S, w: Work, cur: Draft, alts: seq<Alt>,
                     next: seq<Task>)
    : (r: Work)
    requires WorkInv(dom, a, state, w) && w.i < |w.drafts|
    requires |alts| > 0 && alts[0].subtasks != [] && !cur.agenda.Unset? && cur.status == StOk
    requires alts[0].agenda.Unset? ==> alts[0].subtasks == []
    ensures WorkInv(dom, a, state, r)
    ensures r.i == w.i && r.local == w.local && |r.drafts| == |w.drafts| + |alts| - 1
    ensures r.drafts[..w.i] == w.drafts[..w.i]
    ensures r.drafts[w.i].subtasks == alts[0].subtasks + next
  {
    var agenda :=
      if alts[0].agenda.Unset? || Resolve(alts[0].agenda, w.local) != [] then alts[0].agenda
      else cur.agenda;
    var drafts := w.drafts[w.i := cur.(subtasks := alts[0].subtasks + next, agenda := agenda)];
    var extras := Extras(alts, next);
    assert forall k :: 0 <= k < |drafts| ==> (drafts + extras)[k] == drafts[k];
    assert forall k :: 0 <= k < |extras| ==> (drafts + extras)[|drafts| + k] == extras[k];
    Work(drafts + extras, w.i, w.local)
  }

  /** Expanding keeps every task the agent's own when the alternatives' tasks are. */
  lemma ExpandOwned<S>(dom: Domain<S>, a: Agent, state: S, w: Work, cur: Draft, alts: seq<Alt>,
                       next: seq<Task>)
    requires WorkInv(dom, a, state, w) && w.i < |w.drafts|
    requires |alts| > 0 && alts[0].subtasks != [] && !cur.agenda.Unset? && cur.status == StOk
    requires alts[0].agenda.Unset? ==> alts[0].subtasks == []
    requires OwnedWork(a, w) && OwnedDraft(a, cur)
    requires forall k, j :: 0 <= k < |alts| && 0 <= j < |alts[k].subtasks| ==>
               alts[k].subtasks[j].agent == a
    requires forall j :: 0 <= j < |next| ==> next[j].agent == a
    ensures OwnedWork(a, Expand(dom, a, state, w, cur, alts, next))
  {
    var r := Expand(dom, a, state, w, cur, alts, next);
    var extras := Extras(alts, next);
    forall k | 0 <= k < |r.drafts|
      ensures OwnedDraft(a, r.drafts[k])
    {
      if k == w.i {
        var st := alts[0].subtasks + next;
        assert r.drafts[k].subtasks == st;
        assert forall j :: 0 <= j < |st| ==> st[j].agent == a by {
          forall j | 0 <= j < |st|
            ensures st[j].agent == a
          {
            if j < |alts[0].subtasks| {
              assert st[j] == alts[0].subtasks[j];
            } else {
              assert st[j] == next[j - |alts[0].subtasks|];
            }
          }
        }
      } else if k >= |w.drafts| {
        var e := k - |w.drafts|;
        var st := alts[e + 1].subtasks + next;
        assert r.drafts[k] == NewDraft(st);
        assert forall j :: 0 <= j < |st| ==> st[j].agent == a by {
          forall j | 0 <= j < |st|
            ensures st[j].agent == a
          {
            if j < |alts[e + 1].subtasks| {
              assert st[j] == alts[e + 1].subtasks[j];
            } else {
              assert st[j] == next[j - |alts[e + 1].subtasks|];
            }
          }
        }
      } else {
        assert r.drafts[k] == w.drafts[k];
      }
    }
  }

  /** The current decomposition needs no refinement of its lead (a method refining into
      nothing, or a primitive task already done): go on with the next subtask, or with the
      next task of the local agenda, or stop when the agenda is exhausted. */
  function Proceed<S>(dom: Domain<S>, a: Agent, state: S, w: Work, cur: Draft, next: seq<Task>)
    : (r: Work)
    requires WorkInv(dom, a, state, w) && w.i < |w.drafts|
    requires !cur.agenda.Unset? && cur.status == StOk
    ensures WorkInv(dom, a, state, r)
    ensures SuffixOf(r.local, w.local) && |r.drafts| == |w.drafts|
    ensures r.drafts[..w.i] == w.drafts[..w.i] && r.i >= w.i
    ensures OwnedWork(a, w) && OwnedDraft(a, cur) && (forall j :: 0 <= j < |next| ==> next[j].agent == a) ==>
              OwnedWork(a, r)
  {
    if |next| > 0 then
      Work(w.drafts[w.i := cur.(subtasks := next)], w.i, w.local)
    else if |w.local| == 0 then
      var empty := cur.(subtasks := [], status := AgendaEmpty);
      Work(w.drafts[w.i := Finalize(empty)], w.i + 1, w.local)
    else
      Work(w.drafts[w.i := cur.(subtasks := [w.local[0]])], w.i, w.local[1..])
  }

  /** No method applies to the abstract lead: the decomposition stops, with the lead put back
      in front of a snapshot of its agenda. */
  function Stuck<S>(dom: Domain<S>, a: Agent, state: S, w: Work, cur: Draft, lead: Task,
                    next: seq<Task>)
    : (r: Work)
    requires WorkInv(dom, a, state, w) && w.i < |w.drafts|
    requires !cur.agenda.Unset? && lead.isAbstract
    ensures WorkInv(dom, a, state, r)
    ensures r.local == w.local && |r.drafts| == |w.drafts| && r.i == w.i + 1
    ensures r.drafts[..w.i] == w.drafts[..w.i]
    ensures r.drafts[w.i].status == NoApplicableMethod && r.drafts[w.i].subtasks == next
    ensures r.drafts[w.i].agenda == Own([lead] + Resolve(cur.agenda, w.local))
    ensures OwnedWork(a, w) && OwnedDraft(a, cur) && (forall j :: 0 <= j < |next| ==> next[j].agent == a) ==>
              OwnedWork(a, r)
  {
    var stuck := cur.(subtasks := next,
                      agenda := Own([lead] + Resolve(cur.agenda, w.local)),
                      status := NoApplicableMethod);
    Work(w.drafts[w.i := Finalize(stuck)], w.i + 1, w.local)
  }

  /** `ExpandOwned` under the hypothesis that the turn starts from owned tasks. */
  lemma ExpandOwnedIfOwned<S>(dom: Domain<S>, a: Agent, state: S, w: Work, cur: Draft,
                              alts: seq<Alt>, next: seq<Task>)
    requires WorkInv(dom, a, state, w) && w.i < |w.drafts|
    requires |alts| > 0 && alts[0].subtasks != [] && !cur.agenda.Unset? && cur.status == StOk
    requires alts[0].agenda.Unset? ==> alts[0].subtasks == []
    requires |cur.subtasks| > 0 && next == cur.subtasks[1..]
    requires forall k, j :: 0 <= k < |alts| && 0 <= j < |alts[k].subtasks| ==>
               alts[k].subtasks[j].agent == cur.subtasks[0].agent
    ensures OwnedWork(a, w) && OwnedDraft(a, cur) ==>
              OwnedWork(a, Expand(dom, a, state, w, cur, alts, next))
  {
    if OwnedWork(a, w) && OwnedDraft(a, cur) {
      assert cur.subtasks[0].agent == a;
      assert forall j :: 0 <= j < |next| ==> next[j] == cur.subtasks[j + 1];
      ExpandOwned(dom, a, state, w, cur, alts, next);
    }
  }

  /** One turn of the inner loop of `refine_agenda` on the current decomposition. */
  function RefineTurn<S>(dom: Domain<S>, a: Agent, state: S, possible: seq<World<S>>, w: Work)
    : (r: Result<Work, EngineError>)
    requires WorkInv(dom, a, state, w) && w.i < |w.drafts|
    ensures r.Ok? ==> WorkInv(dom, a, state, r.value)
    ensures r.Ok? ==> SuffixOf(r.value.local, w.local)
    ensures r.Ok? ==> |r.value.drafts| >= |w.drafts| && r.value.i >= w.i &&
                      r.value.drafts[..w.i] == w.drafts[..w.i]
    ensures |w.drafts[w.i].subtasks| == 0 ==> r == Err(EmptyDecomposition)
    ensures r.Err? ==> RefinementError(r.error)
    ensures r.Ok? && OwnedWork(a, w) ==> OwnedWork(a, r.value)
  {
    var cur := w.drafts[w.i];
    if |cur.subtasks| == 0 then Err(EmptyDecomposition)
    else
      var lead := cur.subtasks[0];
      var primOp := PrimitiveWithOperator(dom, a, lead);
      var cur := if primOp then cur.(pt := Some(lead)) else cur;
      if primOp && PrimitiveNotDone(dom, a, state, lead) then
        Ok(Work(w.drafts[w.i := Finalize(cur)], w.i + 1, w.local))
      else
        var next := cur.subtasks[1..];
        var alts :- Candidates(dom, a, lead, state, possible, cur.agenda, w.local);
        if |alts| == 0 then
          Ok(Stuck(dom, a, state, w, cur, lead, next))
        else if alts[0].subtasks == [] || primOp then
          Ok(Proceed(dom, a, state, w, cur, next))
        else
          ExpandOwnedIfOwned(dom, a, state, w, cur, alts, next);
          Ok(Expand(dom, a, state, w, cur, alts, next))
  }

  /** The outer loop of `refine_agenda`: refine decomposition after decomposition, new ones
      being appended as methods offer them, within a bound on the number of turns. */
  function RefineLoop<S>(dom: Domain<S>, a: Agent, state: S, possible: seq<World<S>>, w: Work,
                         fuel: nat)
    : (r: Result<Work, EngineError>)
    requires WorkInv(dom, a, state, w)
    ensures r.Ok? ==> WorkInv(dom, a, state, r.value) && r.value.i == |r.value.drafts|
    ensures r.Ok? ==> SuffixOf(r.value.local, w.local)
    ensures r.Ok? ==> |r.value.drafts| >= |w.drafts|
    ensures r.Err? ==> RefinementError(r.error)
    ensures r.Ok? && OwnedWork(a, w) ==> OwnedWork(a, r.value)
    decreases fuel
  {
    if w.i >= |w.drafts| then Ok(w)
    else if fuel == 0 then Err(OutOfFuel)
    else
      var w' :- RefineTurn(dom, a, state, possible, w);
      RefineLoop(dom, a, state, possible, w', fuel - 1)
  }

  function Resolved(d: Draft, local: seq<Task>): Decomposition
  {
    Decomposition(d.subtasks, Resolve(d.agenda, local), d.status, d.pt)
  }

  /** The decompositions with their agendas resolved against the final local agenda. */
  function ResolveAll(w: Work): (r: seq<Decomposition>)
    ensures |r| == |w.drafts|
    ensures forall k :: 0 <= k < |r| ==> r[k] == Resolved(w.drafts[k], w.local)
  {
    seq(|w.drafts|, k requires 0 <= k < |w.drafts| => Resolved(w.drafts[k], w.local))
  }

  /** `refine_agenda`: the decompositions of the agent's agenda in the designated world, the
      human's possible worlds deciding where communication is needed. */
  function RefineAgenda<S>(dom: Domain<S>, a: Agent, world: World<S>, possible: seq<World<S>>,
                           fuel: nat)
    : (r: Result<seq<Decomposition>, EngineError>)
    ensures r.Ok? ==> |r.value| > 0
    ensures r.Ok? ==> forall k :: 0 <= k < |r.value| ==> Shaped(dom, a, world.state, r.value[k])
    ensures r.Err? ==> RefinementError(r.error)
    ensures r.Ok? && (forall j :: 0 <= j < |world.Agenda(a)| ==> world.Agenda(a)[j].agent == a) ==>
              forall k :: 0 <= k < |r.value| ==>
                r.value[k].pt.Some? ==> r.value[k].pt.value.agent == a
  {
    var agenda := world.Agenda(a);
    if |agenda| == 0 then Ok([Decomposition([], [], AgendaEmpty, None)])
    else
      var d0 := Draft([agenda[0]], Shared, StOk, None);
      var w :- RefineLoop(dom, a, world.state, possible, Work([d0], 0, agenda[1..]), fuel);
      Ok(ResolveAll(w))
  }

  /** The shape of every decomposition the refinement returns (see `Finished`). */
  predicate Shaped<S>(dom: Domain<S>, a: Agent, state: S, d: Decomposition)
  {
    (d.status == StOk ==>
       |d.subtasks| > 0 && PrimitiveNotDone(dom, a, state, d.subtasks[0]) &&
       d.pt == Some(d.subtasks[0])) &&
    (d.status == NoApplicableMethod ==> |d.agenda| > 0 && d.agenda[0].isAbstract) &&
    (d.status == AgendaEmpty ==> d.subtasks == [])
  }

  /** An empty agenda refines into the single empty decomposition. */
  lemma EmptyAgendaRefinement<S>(dom: Domain<S>, a: Agent, world: World<S>,
                                 possible: seq<World<S>>, fuel: nat)
    requires world.Agenda(a) == []
    ensures RefineAgenda(dom, a, world, possible, fuel) ==
            Ok([Decomposition([], [], AgendaEmpty, None)])
  {
  }

  /** An agenda headed by a primitive task that is not done refines into that task alone,
      with the rest of the agenda as the new agenda. */
  lemma PrimitiveHeadRefinement<S>(dom: Domain<S>, a: Agent, world: World<S>,
                                   possible: seq<World<S>>, fuel: nat)
    requires |world.Agenda(a)| > 0 && fuel > 0
    requires PrimitiveNotDone(dom, a, world.state, world.Agenda(a)[0])
    ensures var ag := world.Agenda(a);
            RefineAgenda(dom, a, world, possible, fuel) ==
            Ok([Decomposition([ag[0]], ag[1..], StOk, Some(ag[0]))])
  {
    var ag := world.Agenda(a);
    var d0 := Draft([ag[0]], Shared, StOk, None);
    var w := Work([d0], 0, ag[1..]);
    var d1 := Draft([ag[0]], Shared, StOk, Some(ag[0]));
    assert [d0][0 := d1] == [d1];
    var w1 := RefineTurn(dom, a, world.state, possible, w);
    assert w1 == Ok(Work([d1], 1, ag[1..]));
    assert RefineLoop(dom, a, world.state, possible, w, fuel) == w1;
    var res := RefineAgenda(dom, a, world, possible, fuel);
    assert res.value[0] == Decomposition([ag[0]], ag[1..], StOk, Some(ag[0]));
    assert res.value == [Decomposition([ag[0]], ag[1..], StOk, Some(ag[0]))];
  }

  /** An agenda headed by an abstract task the agent has no methods for, or by a primitive
      task it has no operator for, cannot be refined. */
  lemma UnknownHeadRefinement<S>(dom: Domain<S>, a: Agent, world: World<S>,
                                 possible: seq<World<S>>, fuel: nat)
    requires |world.Agenda(a)| > 0 && fuel > 0
    requires var t := world.Agenda(a)[0];
             !PrimitiveWithOperator(dom, a, t) && !(t.isAbstract && dom.HasMethods(a, t))
    ensures RefineAgenda(dom, a, world, possible, fuel) == Err(CannotHandle(world.Agenda(a)[0]))
  {
    var ag := world.Agenda(a);
    var w := Work([Draft([ag[0]], Shared, StOk, None)], 0, ag[1..]);
    assert RefineTurn(dom, a, world.state, possible, w) == Err(CannotHandle(ag[0]));
  }
}

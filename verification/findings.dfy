/** A two-method scenario on which the source's end-of-decomposition agenda loses a task: the
    agent's goal `Top` refines into `Blocked` followed by the primitive `step`, and no method
    of `Blocked` applies. The refinement stops at `Blocked` with `step` left as its subtask,
    and the source's `subtasks[1:] + new_agenda` then drops `step` although nothing was
    performed. */
module Findings {
  import opened Wrappers
  import opened Tasks
  import opened Htn
  import opened Refine
  import opened Applied

  const TopTask: Task := Task("Top", [], H, true)
  const BlockedTask: Task := Task("Blocked", [], H, true)
  const StepTask: Task := Task("step", [], H, false)

  function TopDecomp(s: int, a: Agent, p: seq<string>): seq<seq<TaskRef>>
  {
    [[TaskRef("Blocked", []), TaskRef("step", [])]]
  }

  function Never(s: int, a: Agent, p: seq<string>): bool
  {
    false
  }

  const TopMethod: Method<int> := Method("Top", None, None, None, Some(TopDecomp))
  const BlockedMethod: Method<int> := Method("Blocked", None, Some(Never), None, None)
  const StepOperator: Operator<int> := Operator("step", None, None, None, None, None, None)

  const Agents: AgentDef<int> :=
    AgentDef(map["step" := StepOperator], map["Top" := [TopMethod], "Blocked" := [BlockedMethod]])

  function Same(s: int, t: int): bool
  {
    s == t
  }

  function Always(s: int): bool
  {
    true
  }

  const Scenario: Domain<int> := Domain(Agents, Agents, H, Always, Same, Same)
  const Start: World<int> := World(0, [TopTask], [])

  const TopDraft: Draft := Draft([TopTask], Shared, StOk, None)
  const ExpandedDraft: Draft := Draft([BlockedTask, StepTask], Shared, StOk, None)
  const StuckDraft: Draft := Draft([StepTask], Own([BlockedTask]), NoApplicableMethod, Some(StepTask))

  /** `Top` has a single alternative: `Blocked` then `step`. */
  lemma TopAlternatives()
    ensures Candidates(Scenario, H, TopTask, 0, [], Shared, []) ==
            Ok([Alt([BlockedTask, StepTask], Shared)])
  {
    var decomps := [[TaskRef("Blocked", []), TaskRef("step", [])]];
    assert MethodGetDecomp(TopMethod, 0, TopTask) == decomps;
    assert decomps[1..] == [];
    assert decomps[0] == [TaskRef("Blocked", []), TaskRef("step", [])];
    var refs := decomps[0];
    assert refs[1..] == [TaskRef("step", [])] && refs[1..][1..] == [];
    assert MakeTask(Agents, H, refs[0]) == Ok(BlockedTask);
    assert MakeTask(Agents, H, refs[1]) == Ok(StepTask);
    var ts := MakeTasks(Agents, H, refs);
    assert ts.Ok? && |ts.value| == 2;
    assert ts.value[0] == BlockedTask && ts.value[1] == StepTask;
    assert ts.value == [BlockedTask, StepTask];
    assert ts == Ok([BlockedTask, StepTask]);
    assert SubtaskList(Agents, TopTask, decomps[1..], Shared) == Ok([]);
    var alts := [Alt([BlockedTask, StepTask], Shared)];
    assert [Alt([BlockedTask, StepTask], Shared)] + [] == alts;
    assert SubtaskList(Agents, TopTask, decomps, Shared) == Ok(alts);
    assert RefineMethods(Agents, TopTask, 0, [], [TopMethod], Shared, []) == Ok(alts);
  }

  /** The first turn replaces `Top` by its alternative. */
  lemma FirstTurn()
    ensures RefineTurn(Scenario, H, 0, [], Work([TopDraft], 0, [])) ==
            Ok(Work([ExpandedDraft], 0, []))
  {
    TopAlternatives();
    var alts := [Alt([BlockedTask, StepTask], Shared)];
    var w0 := Work([TopDraft], 0, []);
    assert Extras(alts, []) == [];
    assert [BlockedTask, StepTask] + [] == [BlockedTask, StepTask];
    assert [TopDraft][0 := ExpandedDraft] == [ExpandedDraft];
    assert [ExpandedDraft] + [] == [ExpandedDraft];
    assert Expand(Scenario, H, 0, w0, TopDraft, alts, []) == Work([ExpandedDraft], 0, []);
  }

  /** The second turn finds no method for `Blocked` and stops. */
  lemma SecondTurn()
    ensures RefineTurn(Scenario, H, 0, [], Work([ExpandedDraft], 0, [])) ==
            Ok(Work([StuckDraft], 1, []))
  {
    assert RefineMethods(Agents, BlockedTask, 0, [], [BlockedMethod], Shared, []) == Ok([]);
    assert Candidates(Scenario, H, BlockedTask, 0, [], Shared, []) == Ok([]);
    assert [BlockedTask] + [] == [BlockedTask];
    assert [ExpandedDraft][0 := StuckDraft] == [StuckDraft];
    assert Stuck(Scenario, H, 0, Work([ExpandedDraft], 0, []), ExpandedDraft, BlockedTask,
                 [StepTask]) == Work([StuckDraft], 1, []);
  }

  /** Two turns finish the refinement. */
  lemma ScenarioLoop()
    ensures RefineLoop(Scenario, H, 0, [], Work([TopDraft], 0, []), 2) ==
            Ok(Work([StuckDraft], 1, []))
  {
    FirstTurn();
    SecondTurn();
    var w1 := Work([ExpandedDraft], 0, []);
    var w2 := Work([StuckDraft], 1, []);
    assert RefineLoop(Scenario, H, 0, [], w2, 0) == Ok(w2);
    assert RefineLoop(Scenario, H, 0, [], w1, 1) == Ok(w2);
  }

  /** The refinement of `Top` stops at `Blocked` with `step` still to do. */
  lemma ScenarioRefinement()
    ensures RefineAgenda(Scenario, H, Start, [], 2) ==
            Ok([Decomposition([StepTask], [BlockedTask], NoApplicableMethod, Some(StepTask))])
  {
    ScenarioLoop();
    ScenarioResolved();
    assert Start.Agenda(H) == [TopTask];
    assert Start.Agenda(H)[1..] == [];
  }

  /** The stuck draft resolves to one decomposition that keeps `step` among its subtasks. */
  lemma ScenarioResolved()
    ensures ResolveAll(Work([StuckDraft], 1, [])) ==
            [Decomposition([StepTask], [BlockedTask], NoApplicableMethod, Some(StepTask))]
  {
    var rs := ResolveAll(Work([StuckDraft], 1, []));
    assert rs[0] == Decomposition([StepTask], [BlockedTask], NoApplicableMethod, Some(StepTask));
  }

  /** The source's end agenda for that decomposition is `[Blocked]`: `step`, which was
      never performed, is gone. The corrected one is `[Blocked, step]`, the method's order. */
  lemma DroppedSubtask()
    ensures RefineAgenda(Scenario, H, Start, [], 2).Ok?
    ensures var d := RefineAgenda(Scenario, H, Start, [], 2).value[0];
            d.status == NoApplicableMethod &&
            StepTask in d.subtasks &&
            EndAgendaAsWritten(d.subtasks, d.agenda) == [BlockedTask] &&
            StepTask !in EndAgendaAsWritten(d.subtasks, d.agenda) &&
            EndAgenda(d.status, d.subtasks, d.agenda) == [BlockedTask, StepTask]
  {
    ScenarioRefinement();
    assert EndAgendaAsWritten([StepTask], [BlockedTask]) == [BlockedTask];
    assert EndAgenda(NoApplicableMethod, [StepTask], [BlockedTask]) == [BlockedTask, StepTask];
  }
}

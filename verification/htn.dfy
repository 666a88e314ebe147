/** The hierarchical task network description the engine plans with: operators and methods
    as function parameters over a world state `S`, the per-agent tables built by
    `declare_operators` / `declare_methods`, the initial agendas built by `add_tasks`, the
    joint world (one shared state, one agenda per agent) and the errors the engine raises. */
module Htn {
  import opened Wrappers
  import opened Tasks
  import Fluents

  /** A condition, effect or cost function of a task: it is given the state, the agent and
      the task's parameters (Python unpacks the parameters as positional arguments). */
  type Cond<!S> = (S, Agent, seq<string>) -> bool

  /** An operator: how a primitive task is checked and applied. Every field but the name is
      optional, as in the source, and the defaults below say what an absent one means. */
  datatype Operator<!S> = Operator(
    name: string,
    doneCond: Option<Cond<S>>,
    preCond: Option<Cond<S>>,
    effects: Option<(S, Agent, seq<string>) -> S>,
    costFn: Option<(S, Agent, seq<string>) -> int>,
    sharedResource: Option<(S, Agent, seq<string>) -> Option<string>>,
    getEffect: Option<(S, Agent, seq<string>) -> Fluents.Value>)

  /** One element of a decomposition as a method writes it: a task name and its parameters. */
  datatype TaskRef = TaskRef(name: string, params: seq<string>)

  /** A method: one way to refine an abstract task. */
  datatype Method<!S> = Method(
    taskName: string,
    doneCond: Option<Cond<S>>,
    preCond: Option<Cond<S>>,
    decomp: Option<(S, Agent, seq<string>) -> seq<TaskRef>>,
    multiDecomp: Option<(S, Agent, seq<string>) -> seq<seq<TaskRef>>>)

  /** The static part of an agent: its operators by task name and its methods, in declaration
      order, by task name. */
  datatype AgentDef<!S> = AgentDef(operators: map<string, Operator<S>>,
                                   methods: map<string, seq<Method<S>>>)

  /** The joint world: the shared state and both agendas. */
  datatype World<S> = World(state: S, agendaH: seq<Task>, agendaR: seq<Task>)
  {
    function Agenda(a: Agent): seq<Task>
    {
      if a == H then agendaH else agendaR
    }

    function WithAgenda(a: Agent, ag: seq<Task>): (w: World<S>)
      ensures w.Agenda(a) == ag && w.Agenda(Other(a)) == Agenda(Other(a))
      ensures w.state == state
    {
      if a == H then this.(agendaH := ag) else this.(agendaR := ag)
    }

    function WithState(s: S): (w: World<S>)
      ensures w.state == s && w.agendaH == agendaH && w.agendaR == agendaR
    {
      this.(state := s)
    }
  }

  /** Everything the engine reads from the global registries and the scenario: both agents'
      tables, the starting agent, and three state tests the engine calls but does not define
      (co-presence of the agents, equivalence of two states as `compare_states` decides it,
      and the situation-assessment rule deciding whether a possible world is kept). */
  datatype Domain<!S> = Domain(
    human: AgentDef<S>,
    robot: AgentDef<S>,
    starting: Agent,
    copresent: S -> bool,
    sameState: (S, S) -> bool,
    assess: (S, S) -> bool)
  {
    function Def(a: Agent): AgentDef<S>
    {
      if a == H then human else robot
    }

    predicate HasOperator(a: Agent, t: Task)
    {
      t.name in Def(a).operators
    }

    predicate HasMethods(a: Agent, t: Task)
    {
      t.name in Def(a).methods
    }
  }

  /** The exceptions the engine can raise, and running out of the step bound the model adds. */
  datatype EngineError =
    | UnknownTask(name: string)
    | CannotHandle(task: Task)
    | NoMethods(task: Task)
    | EmptyDecomposition
    | MissingOperator(primitive: Option<Task>)
    | MissingGetEffect(name: string)
    | DoneIndexedAsTuple
    | NoActingAgent
    | ParamsIndexOutOfRange
    | EmptyFrontier
    | RegressFromRoot
    | NoRootChild
    | MissingRank(pair: nat)
    | LeafWithoutPrevious
    | OutOfFuel

  // ---------------------------------------------------------------------------------------
  // Defaults of optional fields
  // ---------------------------------------------------------------------------------------

  function OpIsDone<S>(op: Operator<S>, s: S, t: Task): bool
  {
    if op.doneCond.Some? then op.doneCond.value(s, t.agent, t.params) else false
  }

  function OpIsApplicable<S>(op: Operator<S>, s: S, t: Task): bool
  {
    if op.preCond.Some? then op.preCond.value(s, t.agent, t.params) else true
  }

  function OpCost<S>(op: Operator<S>, s: S, t: Task): int
  {
    if op.costFn.Some? then op.costFn.value(s, t.agent, t.params) else DefaultActionCost
  }

  function OpSharedResource<S>(op: Operator<S>, s: S, t: Task): Option<string>
  {
    if op.sharedResource.Some? then op.sharedResource.value(s, t.agent, t.params) else None
  }

  /** `apply_effects`: an operator without effects leaves the state as it is. */
  function OpApplyEffects<S>(op: Operator<S>, s: S, a: Agent, params: seq<string>): S
  {
    if op.effects.Some? then op.effects.value(s, a, params) else s
  }

  function MethodIsDone<S>(m: Method<S>, s: S, t: Task): bool
  {
    if m.doneCond.Some? then m.doneCond.value(s, t.agent, t.params) else false
  }

  function MethodIsApplicable<S>(m: Method<S>, s: S, t: Task): bool
  {
    if m.preCond.Some? then m.preCond.value(s, t.agent, t.params) else true
  }

  function MethodGetDecomp<S>(m: Method<S>, s: S, t: Task): seq<seq<TaskRef>>
  {
    if m.multiDecomp.None? then
      (if m.decomp.Some? then [m.decomp.value(s, t.agent, t.params)] else [[]])
    else
      m.multiDecomp.value(s, t.agent, t.params)
  }

  // ---------------------------------------------------------------------------------------
  // Building the tables and the initial agendas
  // ---------------------------------------------------------------------------------------

  /** The methods of a list declared for one task name, in list order. */
  function MethodsNamed<S>(ms: seq<Method<S>>, name: string): (r: seq<Method<S>>)
    ensures |r| <= |ms|
    ensures forall i :: 0 <= i < |r| ==> r[i].taskName == name
  {
    if |ms| == 0 then []
    else (if ms[0].taskName == name then [ms[0]] else []) + MethodsNamed(ms[1..], name)
  }

  /** Every method of a table is listed under the name of the task it refines. */
  predicate Filed<S>(tbl: map<string, seq<Method<S>>>)
  {
    forall k :: k in tbl ==> forall j :: 0 <= j < |tbl[k]| ==> tbl[k][j].taskName == k
  }

  /** `declare_methods`: each method is appended, in list order, to the list of its task. */
  function DeclareMethods<S>(tbl: map<string, seq<Method<S>>>, ms: seq<Method<S>>)
    : (r: map<string, seq<Method<S>>>)
    ensures tbl.Keys <= r.Keys
    ensures Filed(tbl) ==> Filed(r)
    decreases |ms|
  {
    if |ms| == 0 then tbl
    else
      var m := ms[0];
      var t := tbl[m.taskName := if m.taskName in tbl then tbl[m.taskName] + [m] else [m]];
      DeclareMethods(t, ms[1..])
  }

  /** After `declare_methods`, a task name has the methods it had before followed by those of
      the list declared for it, in list order; the names are the old ones plus the declared
      ones. */
  lemma {:induction false} DeclareMethodsSpec<S>(tbl: map<string, seq<Method<S>>>,
                                                 ms: seq<Method<S>>, k: string)
    ensures var r := DeclareMethods(tbl, ms);
            (k in r <==> k in tbl || exists i :: 0 <= i < |ms| && ms[i].taskName == k) &&
            (k in r ==> r[k] == (if k in tbl then tbl[k] else []) + MethodsNamed(ms, k))
    decreases |ms|
  {
    if |ms| > 0 {
      var m := ms[0];
      var t := tbl[m.taskName := if m.taskName in tbl then tbl[m.taskName] + [m] else [m]];
      DeclareMethodsSpec(t, ms[1..], k);
      if exists i :: 0 <= i < |ms[1..]| && ms[1..][i].taskName == k {
        var i :| 0 <= i < |ms[1..]| && ms[1..][i].taskName == k;
        assert ms[i + 1].taskName == k;
      }
      if exists i :: 0 <= i < |ms| && ms[i].taskName == k {
        var i :| 0 <= i < |ms| && ms[i].taskName == k;
        if i > 0 {
          assert ms[1..][i - 1].taskName == k;
        }
      }
    }
  }

  /** `declare_operators`: each operator is stored under its name, a later one replacing an
      earlier one. */
  function DeclareOperators<S>(tbl: map<string, Operator<S>>, ops: seq<Operator<S>>)
    : (r: map<string, Operator<S>>)
    ensures tbl.Keys <= r.Keys
    ensures |ops| > 0 ==> ops[|ops| - 1].name in r && r[ops[|ops| - 1].name] == ops[|ops| - 1]
    ensures (forall k :: k in tbl ==> tbl[k].name == k) ==> forall k :: k in r ==> r[k].name == k
    decreases |ops|
  {
    if |ops| == 0 then tbl
    else DeclareOperators(tbl[ops[0].name := ops[0]], ops[1..])
  }

  /** After `declare_operators`, a name declared in the list maps to the last operator of
      that name, and any other name keeps what it had. */
  lemma {:induction false} DeclareOperatorsSpec<S>(tbl: map<string, Operator<S>>,
                                                   ops: seq<Operator<S>>, k: string)
    ensures var r := DeclareOperators(tbl, ops);
            (k in r <==> k in tbl || exists i :: 0 <= i < |ops| && ops[i].name == k) &&
            ((forall i :: 0 <= i < |ops| ==> ops[i].name != k) ==>
               k in tbl ==> k in r && r[k] == tbl[k]) &&
            (forall i :: 0 <= i < |ops| && ops[i].name == k &&
                         (forall j :: i < j < |ops| ==> ops[j].name != k) ==>
                           k in r && r[k] == ops[i])
    decreases |ops|
  {
    if |ops| > 0 {
      var t := tbl[ops[0].name := ops[0]];
      DeclareOperatorsSpec(t, ops[1..], k);
      var r := DeclareOperators(tbl, ops);
      assert r == DeclareOperators(t, ops[1..]);
      if exists i :: 0 <= i < |ops[1..]| && ops[1..][i].name == k {
        var i :| 0 <= i < |ops[1..]| && ops[1..][i].name == k;
        assert ops[i + 1].name == k;
      }
      if exists i :: 0 <= i < |ops| && ops[i].name == k {
        var i :| 0 <= i < |ops| && ops[i].name == k;
        if i > 0 {
          assert ops[1..][i - 1].name == k;
        }
      }
      forall i | 0 <= i < |ops| && ops[i].name == k &&
                 (forall j :: i < j < |ops| ==> ops[j].name != k)
        ensures k in r && r[k] == ops[i]
      {
        if i > 0 {
          assert ops[1..][i - 1] == ops[i];
          assert forall j :: i - 1 < j < |ops[1..]| ==> ops[1..][j].name != k by {
            forall j | i - 1 < j < |ops[1..]|
              ensures ops[1..][j].name != k
            {
              assert ops[1..][j] == ops[j + 1];
            }
          }
        } else {
          assert forall j :: 0 <= j < |ops[1..]| ==> ops[1..][j].name != k by {
            forall j | 0 <= j < |ops[1..]|
              ensures ops[1..][j].name != k
            {
              assert ops[1..][j] == ops[j + 1];
            }
          }
        }
      }
      if forall i :: 0 <= i < |ops| ==> ops[i].name != k {
        assert forall i :: 0 <= i < |ops[1..]| ==> ops[1..][i].name != k by {
          forall i | 0 <= i < |ops[1..]|
            ensures ops[1..][i].name != k
          {
            assert ops[1..][i] == ops[i + 1];
          }
        }
      }
    }
  }

  /** Every operator in the table after `declare_operators` was there before or is one of
      the declared operators. */
  lemma {:induction false} DeclaredOperatorFrom<S>(tbl: map<string, Operator<S>>,
                                                   ops: seq<Operator<S>>, k: string)
    requires k in DeclareOperators(tbl, ops)
    ensures DeclareOperators(tbl, ops)[k] in ops || (k in tbl && DeclareOperators(tbl, ops)[k] == tbl[k])
    decreases |ops|
  {
    if |ops| > 0 {
      DeclaredOperatorFrom(tbl[ops[0].name := ops[0]], ops[1..], k);
      var r := DeclareOperators(tbl, ops);
      if r[k] in ops[1..] {
        var i :| 0 <= i < |ops[1..]| && ops[1..][i] == r[k];
        assert ops[i + 1] == r[k];
      }
    }
  }

  /** Every method in a task's list after `declare_methods` was in it before or is one of the
      declared methods. */
  lemma DeclaredMethodFrom<S>(tbl: map<string, seq<Method<S>>>, ms: seq<Method<S>>,
                              k: string, j: nat)
    requires k in DeclareMethods(tbl, ms) && j < |DeclareMethods(tbl, ms)[k]|
    ensures DeclareMethods(tbl, ms)[k][j] in ms ||
            (k in tbl && j < |tbl[k]| && DeclareMethods(tbl, ms)[k][j] == tbl[k][j])
  {
    DeclareMethodsSpec(tbl, ms, k);
    var before := if k in tbl then tbl[k] else [];
    var r := DeclareMethods(tbl, ms)[k];
    if j >= |before| {
      MethodsNamedFrom(ms, k, j - |before|);
    }
  }

  lemma {:induction false} MethodsNamedFrom<S>(ms: seq<Method<S>>, name: string, j: nat)
    requires j < |MethodsNamed(ms, name)|
    ensures MethodsNamed(ms, name)[j] in ms
  {
    if |ms| > 0 {
      if ms[0].taskName == name && j == 0 {
      } else {
        var d := if ms[0].taskName == name then 1 else 0;
        MethodsNamedFrom(ms[1..], name, j - d);
        assert MethodsNamed(ms, name)[j] == MethodsNamed(ms[1..], name)[j - d];
        var i :| 0 <= i < |ms[1..]| && ms[1..][i] == MethodsNamed(ms, name)[j];
        assert ms[i + 1] == ms[1..][i];
      }
    }
  }

  /** The task one decomposition entry stands for in an agent's tables: abstract when the
      agent has methods for the name, primitive when it has an operator, unknown otherwise. */
  function MakeTask<S>(d: AgentDef<S>, a: Agent, ref: TaskRef): (r: Result<Task, EngineError>)
    ensures r.Ok? <==> ref.name in d.methods || ref.name in d.operators
    ensures r.Ok? ==> r.value.name == ref.name && r.value.params == ref.params &&
                      r.value.agent == a && (r.value.isAbstract <==> ref.name in d.methods)
    ensures r.Err? ==> r.error == UnknownTask(ref.name)
  {
    if ref.name in d.methods then Ok(Task(ref.name, ref.params, a, true))
    else if ref.name in d.operators then Ok(Task(ref.name, ref.params, a, false))
    else Err(UnknownTask(ref.name))
  }

  /** The tasks of a list of entries, or the error for the first unknown name. */
  function MakeTasks<S>(d: AgentDef<S>, a: Agent, refs: seq<TaskRef>)
    : (r: Result<seq<Task>, EngineError>)
    ensures r.Ok? <==> forall i :: 0 <= i < |refs| ==> MakeTask(d, a, refs[i]).Ok?
    ensures r.Ok? ==> |r.value| == |refs| &&
                      forall i :: 0 <= i < |refs| ==> r.value[i] == MakeTask(d, a, refs[i]).value
    ensures r.Err? ==> r.error.UnknownTask?
  {
    if |refs| == 0 then Ok([])
    else
      var t :- MakeTask(d, a, refs[0]);
      var rest := MakeTasks(d, a, refs[1..]);
      assert forall i :: 1 <= i < |refs| ==> refs[i] == refs[1..][i - 1];
      if rest.Err? then
        assert !MakeTask(d, a, refs[1..][0]).Ok? || exists i :: 0 <= i < |refs[1..]| && !MakeTask(d, a, refs[1..][i]).Ok?;
        rest.PropagateFailure()
      else
        Ok([t] + rest.value)
  }

  /** `add_tasks`: the entries are appended to the agenda, or the first unknown name is
      reported. */
  function AddTasks<S>(d: AgentDef<S>, a: Agent, agenda: seq<Task>, refs: seq<TaskRef>)
    : (r: Result<seq<Task>, EngineError>)
    ensures r.Ok? <==> forall i :: 0 <= i < |refs| ==>
                         refs[i].name in d.methods || refs[i].name in d.operators
    ensures r.Ok? ==> |r.value| == |agenda| + |refs| && r.value[..|agenda|] == agenda &&
                      forall i :: 0 <= i < |refs| ==>
                        var t := r.value[|agenda| + i];
                        t.name == refs[i].name && t.params == refs[i].params &&
                        t.agent == a && (t.isAbstract <==> refs[i].name in d.methods)
  {
    var ts :- MakeTasks(d, a, refs);
    Ok(agenda + ts)
  }
}

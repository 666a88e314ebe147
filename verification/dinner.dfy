/** The "prepare dinner" scenario given to the planner (prepare_dinner_k_comm.py): a human
    and a robot share a kitchen; the vegetable must be cut, washed, put on the stove and
    seasoned, the human fetches an ingredient from the pantry and puts it in, and a final
    auxiliary action marks the food ready. Whether the vegetable is seasoned cannot be seen,
    so the domain has an operator that communicates it. The situation-assessment rule and the
    co-presence test of this scenario are those written in ConcurrentModule.py. */
module Dinner {
  import opened Wrappers
  import opened Tasks
  import opened Htn
  import Fluents
  import AndOr
  import Apply

  // ---------------------------------------------------------------------------------------
  // State
  // ---------------------------------------------------------------------------------------

  /** The scenario's fluents, one field per dictionary entry. `selfName`, `stoveAt` and the two
      observability flags are static fluents; the rest are dynamic. Locations, the agents'
      contexts and the ingredient's whereabouts are names ("kitchen", "pantry", "vegetable",
      or an agent's name when the ingredient is in its hand). */
  datatype DinnerState = DinnerState(
    selfName: string,
    stoveAt: string,
    foodReady: bool,
    washed: bool,
    cut: bool,
    seasoned: bool,
    boiling: bool,
    ingredientAt: string,
    contextH: string,
    contextR: string,
    atH: string,
    atR: string,
    washedObservable: bool,
    seasonedObservable: bool)
  {
    function At(a: Agent): string
    {
      if a == H then atH else atR
    }

    function Context(a: Agent): string
    {
      if a == H then contextH else contextR
    }

    /** The agent's location and context both set to `place`. */
    function MovedTo(a: Agent, place: string): (s: DinnerState)
      ensures s.At(a) == place && s.Context(a) == place
      ensures s.At(Other(a)) == At(Other(a)) && s.Context(Other(a)) == Context(Other(a))
    {
      if a == H then this.(atH := place, contextH := place)
      else this.(atR := place, contextR := place)
    }
  }

  /** The agent's name as the scenario writes it in state values. */
  function AgentName(a: Agent): (n: string)
    ensures n == "H" || n == "R"
  {
    if a == H then "H" else "R"
  }

  /** `food_is_ready`, which is also the scenario's goal condition. */
  predicate FoodIsReady(s: DinnerState)
  {
    s.foodReady
  }

  /** `initDomain`'s initial state: nothing done, the ingredient in the pantry, both agents in
      the kitchen, washing observable and seasoning not. */
  const InitialState: DinnerState :=
    DinnerState("None", "kitchen", false, false, false, false, false, "pantry",
                "kitchen", "kitchen", "kitchen", "kitchen", true, false)

  // ---------------------------------------------------------------------------------------
  // Operators
  // ---------------------------------------------------------------------------------------

  /** `move` from `place_i` to `place_j`: only the human moves, and only from where it is
      and is in context. */
  predicate MovePre(s: DinnerState, a: Agent, ps: seq<string>)
  {
    |ps| == 2 && a == H && s.Context(a) == ps[0] && s.At(a) == ps[0]
  }

  function MoveEffects(s: DinnerState, a: Agent, ps: seq<string>): DinnerState
  {
    if |ps| == 2 then s.MovedTo(a, ps[1]) else s
  }

  predicate GetIngredientPre(s: DinnerState, a: Agent, ps: seq<string>)
  {
    a == H && s.At(a) == "pantry" && s.ingredientAt == "pantry"
  }

  function GetIngredientEffects(s: DinnerState, a: Agent, ps: seq<string>): DinnerState
  {
    s.(ingredientAt := AgentName(a))
  }

  predicate PutIngredientPre(s: DinnerState, a: Agent, ps: seq<string>)
  {
    a == H && s.At(a) == "kitchen" && s.ingredientAt == AgentName(a) && s.boiling
  }

  function PutIngredientEffects(s: DinnerState, a: Agent, ps: seq<string>): DinnerState
  {
    s.(ingredientAt := "vegetable")
  }

  predicate CutPre(s: DinnerState, a: Agent, ps: seq<string>)
  {
    !s.cut
  }

  function CutEffects(s: DinnerState, a: Agent, ps: seq<string>): DinnerState
  {
    s.(cut := true)
  }

  predicate WashPre(s: DinnerState, a: Agent, ps: seq<string>)
  {
    !s.washed && s.cut
  }

  function WashEffects(s: DinnerState, a: Agent, ps: seq<string>): DinnerState
  {
    s.(washed := true)
  }

  predicate SeasoningPre(s: DinnerState, a: Agent, ps: seq<string>)
  {
    !s.seasoned && s.washed
  }

  function SeasoningEffects(s: DinnerState, a: Agent, ps: seq<string>): DinnerState
  {
    s.(seasoned := true)
  }

  predicate PutOnStovePre(s: DinnerState, a: Agent, ps: seq<string>)
  {
    s.washed && !s.boiling
  }

  function PutOnStoveEffects(s: DinnerState, a: Agent, ps: seq<string>): DinnerState
  {
    s.(boiling := true)
  }

  /** The auxiliary action that closes the plan once everything is in the pot. */
  predicate DoneCookingPre(s: DinnerState, a: Agent, ps: seq<string>)
  {
    !FoodIsReady(s) && s.seasoned && s.ingredientAt == "vegetable"
  }

  function DoneCookingEffects(s: DinnerState, a: Agent, ps: seq<string>): DinnerState
  {
    s.(foodReady := true)
  }

  /** Communicating the seasoning status: always applicable, changes nothing, and its effect
      on the listener is the current value of `seasoned`. */
  predicate CommunicatePre(s: DinnerState, a: Agent, ps: seq<string>)
  {
    true
  }

  function CommunicateEffects(s: DinnerState, a: Agent, ps: seq<string>): DinnerState
  {
    s
  }

  function CommunicateGetEffect(s: DinnerState, a: Agent, ps: seq<string>): Fluents.Value
  {
    Fluents.VBool(s.seasoned)
  }

  const CommunicateName: string := "communicate_status_of_seasoned"

  function SimpleOp(name: string, pre: Cond<DinnerState>,
                    eff: (DinnerState, Agent, seq<string>) -> DinnerState)
    : Operator<DinnerState>
  {
    Operator(name, None, Some(pre), Some(eff), None, None, None)
  }

  const OpMove: Operator<DinnerState> := SimpleOp("move", MovePre, MoveEffects)
  const OpGetIngredient: Operator<DinnerState> :=
    SimpleOp("get_ingredient", GetIngredientPre, GetIngredientEffects)
  const OpPutIngredient: Operator<DinnerState> :=
    SimpleOp("put_ingredient", PutIngredientPre, PutIngredientEffects)
  const OpCut: Operator<DinnerState> := SimpleOp("cut", CutPre, CutEffects)
  const OpWash: Operator<DinnerState> := SimpleOp("wash", WashPre, WashEffects)
  const OpSeasoning: Operator<DinnerState> := SimpleOp("seasoning", SeasoningPre, SeasoningEffects)
  const OpPutOnStove: Operator<DinnerState> :=
    SimpleOp("put_on_stove", PutOnStovePre, PutOnStoveEffects)
  const OpDoneCooking: Operator<DinnerState> :=
    SimpleOp("aux_done_cooking", DoneCookingPre, DoneCookingEffects)
  const OpCommunicate: Operator<DinnerState> :=
    Operator(CommunicateName, None, Some(CommunicatePre), Some(CommunicateEffects), None, None,
             Some(CommunicateGetEffect))

  const CommonOps: seq<Operator<DinnerState>> := [OpCut, OpWash, OpCommunicate]
  const RobotOps: seq<Operator<DinnerState>> := CommonOps + [OpSeasoning, OpPutOnStove]
  const HumanOps: seq<Operator<DinnerState>> :=
    CommonOps + [OpMove, OpGetIngredient, OpPutIngredient, OpDoneCooking]

  // ---------------------------------------------------------------------------------------
  // Methods
  // ---------------------------------------------------------------------------------------

  const PrepareDinner: string := "Prepare_Dinner"
  const CutNWash: string := "Cut_n_Wash"
  const BringIngredient: string := "Bring_Ingredient_From_Pantry"
  const PutIngredient: string := "Put_Ingredient"
  const DoneCooking: string := "Done_Cooking"
  const Communicate: string := "Communicate"

  function Ref(name: string): TaskRef
  {
    TaskRef(name, [])
  }

  predicate Always(s: DinnerState, a: Agent, ps: seq<string>)
  {
    true
  }

  function CommunicateDecomp(s: DinnerState, a: Agent, ps: seq<string>): seq<seq<TaskRef>>
  {
    [[Ref(CommunicateName)]]
  }

  predicate DinnerDone(s: DinnerState, a: Agent, ps: seq<string>)
  {
    FoodIsReady(s)
  }

  predicate DinnerPre(s: DinnerState, a: Agent, ps: seq<string>)
  {
    !FoodIsReady(s)
  }

  /** The human's way to prepare dinner: fetch and add the ingredient while it is in the
      pantry, then finish cooking once the seasoned vegetable has the ingredient. */
  function PrepareDinnerDecompH(s: DinnerState, a: Agent, ps: seq<string>): seq<seq<TaskRef>>
  {
    if s.At(a) == "kitchen" && s.ingredientAt == "pantry" then
      [[Ref(BringIngredient), Ref(PutIngredient), Ref(PrepareDinner)]]
    else if s.seasoned && s.ingredientAt == "vegetable" then
      [[Ref(DoneCooking), Ref(PrepareDinner)]]
    else []
  }

  predicate BringPre(s: DinnerState, a: Agent, ps: seq<string>)
  {
    !FoodIsReady(s) && s.ingredientAt == "pantry"
  }

  function BringDecomp(s: DinnerState, a: Agent, ps: seq<string>): seq<seq<TaskRef>>
  {
    if s.At(a) == "kitchen" then
      [[TaskRef("move", ["kitchen", "pantry"]), Ref("get_ingredient"),
        TaskRef("move", ["pantry", "kitchen"])]]
    else []
  }

  function PutIngredientDecomp(s: DinnerState, a: Agent, ps: seq<string>): seq<seq<TaskRef>>
  {
    if s.At(a) == "kitchen" && s.ingredientAt == AgentName(a) then [[Ref("put_ingredient")]]
    else []
  }

  /** The robot's way to prepare dinner: cut and wash if nothing is cut yet, then put the pot
      on the stove if it is not boiling, then season. */
  function PrepareDinnerDecompR(s: DinnerState, a: Agent, ps: seq<string>): seq<seq<TaskRef>>
  {
    if s.At(a) == "kitchen" && !s.cut then
      [[Ref(CutNWash), Ref("put_on_stove"), Ref("seasoning"), Ref(PrepareDinner)]]
    else if s.At(a) == "kitchen" && !s.boiling then
      [[Ref("put_on_stove"), Ref("seasoning"), Ref(PrepareDinner)]]
    else if s.At(a) == "kitchen" && !s.seasoned then
      [[Ref("seasoning"), Ref(PrepareDinner)]]
    else []
  }

  function DoneCookingDecomp(s: DinnerState, a: Agent, ps: seq<string>): seq<seq<TaskRef>>
  {
    if !FoodIsReady(s) then [[Ref("aux_done_cooking")]] else []
  }

  predicate CutNWashDone(s: DinnerState, a: Agent, ps: seq<string>)
  {
    s.cut && s.washed
  }

  predicate CutNWashPre(s: DinnerState, a: Agent, ps: seq<string>)
  {
    !s.cut || !s.washed
  }

  function CutNWashDecomp(s: DinnerState, a: Agent, ps: seq<string>): seq<seq<TaskRef>>
  {
    if s.At(a) == "kitchen" && !s.cut then [[Ref("cut"), Ref("wash"), Ref(CutNWash)]]
    else if s.At(a) == "kitchen" && !s.washed then [[Ref("wash"), Ref(CutNWash)]]
    else []
  }

  const MCommunicate: Method<DinnerState> :=
    Method(Communicate, None, Some(Always), None, Some(CommunicateDecomp))
  const MPrepareDinnerH: Method<DinnerState> :=
    Method(PrepareDinner, Some(DinnerDone), Some(DinnerPre), None, Some(PrepareDinnerDecompH))
  const MBringIngredient: Method<DinnerState> :=
    Method(BringIngredient, None, Some(BringPre), None, Some(BringDecomp))
  const MPutIngredient: Method<DinnerState> :=
    Method(PutIngredient, None, Some(DinnerPre), None, Some(PutIngredientDecomp))
  const MPrepareDinnerR: Method<DinnerState> :=
    Method(PrepareDinner, Some(DinnerDone), Some(DinnerPre), None, Some(PrepareDinnerDecompR))
  const MDoneCooking: Method<DinnerState> :=
    Method(DoneCooking, None, Some(DoneCookingPre), None, Some(DoneCookingDecomp))
  const MCutNWash: Method<DinnerState> :=
    Method(CutNWash, Some(CutNWashDone), Some(CutNWashPre), None, Some(CutNWashDecomp))

  const CommonMethods: seq<Method<DinnerState>> := [MCutNWash, MCommunicate]
  const RobotMethods: seq<Method<DinnerState>> := CommonMethods + [MPrepareDinnerR]
  const HumanMethods: seq<Method<DinnerState>> :=
    CommonMethods + [MPrepareDinnerH, MDoneCooking, MBringIngredient, MPutIngredient]

  // ---------------------------------------------------------------------------------------
  // Tables, initial world, domain
  // ---------------------------------------------------------------------------------------

  function RobotDef(): AgentDef<DinnerState>
  {
    AgentDef(DeclareOperators(map[], RobotOps), DeclareMethods(map[], RobotMethods))
  }

  function HumanDef(): AgentDef<DinnerState>
  {
    AgentDef(DeclareOperators(map[], HumanOps), DeclareMethods(map[], HumanMethods))
  }

  /** Co-presence of the agents: same context and same location. */
  predicate Copresent(s: DinnerState)
  {
    s.contextR == s.contextH && s.atR == s.atH
  }

  /** The human joins the other agent exactly by moving to the place that agent is at and
      in context of; moving either agent elsewhere separates them. */
  lemma CopresentAfterMove(s: DinnerState, a: Agent, place: string)
    ensures Copresent(s.MovedTo(a, place)) <==>
              s.At(Other(a)) == place && s.Context(Other(a)) == place
  {
  }

  /** The scenario's situation-assessment rule: with the agents together, a possible world
      is dropped when it disagrees with the designated state on a fluent the human sees
      (food ready, cut, boiling, and washed or seasoned when observable); apart, every world
      is kept. */
  function Assess(ds: DinnerState, w: DinnerState): (keep: bool)
    ensures keep <==> (Copresent(ds) ==> AgreesOnObserved(ds, w))
  {
    if Copresent(ds) then
      if ds.foodReady != w.foodReady then false
      else if ds.cut != w.cut then false
      else if ds.boiling != w.boiling then false
      else if ds.foodReady != w.foodReady then false
      else if ds.washedObservable && ds.washed != w.washed then false
      else if ds.seasonedObservable && ds.seasoned != w.seasoned then false
      else true
    else true
  }

  // ---------------------------------------------------------------------------------------
  // The state as a fluent map, and state equivalence
  // ---------------------------------------------------------------------------------------

  const FluentNames: set<string> :=
    {"self_name", "stove_at", "cooking_done", "washed", "cut", "seasoned", "boiling",
     "ingredient_at", "agent_in_context", "agent_at", "observability_washed_vegetable",
     "observability_seasoned_vegetable"}

  /** The fluents `initDomain` creates as static. */
  const StaticFluents: set<string> :=
    {"self_name", "stove_at", "observability_washed_vegetable", "observability_seasoned_vegetable"}

  function Entry(key: string, v: Fluents.Value): Fluents.Value
  {
    Fluents.VDict(map[key := v])
  }

  function PerAgent(h: string, r: string): Fluents.Value
  {
    Fluents.VDict(map["H" := Fluents.VStr(h), "R" := Fluents.VStr(r)])
  }

  /** One fluent of the state as `initDomain` creates it: its dynamic flag and its value. */
  function FluentOf(s: DinnerState, f: string): (r: Fluents.Fluent)
    ensures f in FluentNames ==> (r.dynamic <==> f !in StaticFluents)
    ensures r.dynamic ==> r.data.VDict?
  {
    if f == "self_name" then Fluents.Fluent(false, Fluents.VStr(s.selfName))
    else if f == "stove_at" then Fluents.Fluent(false, Entry("stove", Fluents.VStr(s.stoveAt)))
    else if f == "cooking_done" then
      Fluents.Fluent(true, Entry("food_ready", Fluents.VBool(s.foodReady)))
    else if f == "washed" then Fluents.Fluent(true, Entry("vegetable", Fluents.VBool(s.washed)))
    else if f == "cut" then Fluents.Fluent(true, Entry("vegetable", Fluents.VBool(s.cut)))
    else if f == "seasoned" then
      Fluents.Fluent(true, Entry("vegetable", Fluents.VBool(s.seasoned)))
    else if f == "boiling" then Fluents.Fluent(true, Entry("vegetable", Fluents.VBool(s.boiling)))
    else if f == "ingredient_at" then
      Fluents.Fluent(true, Entry("ingredient", Fluents.VStr(s.ingredientAt)))
    else if f == "agent_in_context" then Fluents.Fluent(true, PerAgent(s.contextH, s.contextR))
    else if f == "agent_at" then Fluents.Fluent(true, PerAgent(s.atH, s.atR))
    else if f == "observability_washed_vegetable" then
      Fluents.Fluent(false, Entry("washed", Fluents.VBool(s.washedObservable)))
    else Fluents.Fluent(false, Entry("seasoned", Fluents.VBool(s.seasonedObservable)))
  }

  /** The state as a fluent map, every fluent of the scenario present. */
  function Encode(s: DinnerState): (e: Fluents.State)
    ensures e.Keys == FluentNames
  {
    map f | f in FluentNames :: FluentOf(s, f)
  }

  /** The encodings of any two states have the same fluents, and every dynamic one holds a
      dictionary, so `compare_states` can run on them. */
  lemma EncodeComparable(s1: DinnerState, s2: DinnerState)
    ensures Fluents.Comparable(Encode(s1), Encode(s2), false)
  {
    var e1, e2 := Encode(s1), Encode(s2);
    forall f | f in e1 && Fluents.Compared(e1, f, false)
      ensures f in e2 && e1[f].data.VDict? && e2[f].data.VDict?
    {
      assert e1[f] == FluentOf(s1, f) && e2[f] == FluentOf(s2, f);
    }
  }

  /** `compare_states` on the encoded states (static fluents skipped). */
  predicate SameState(s1: DinnerState, s2: DinnerState)
  {
    EncodeComparable(s1, s2);
    Fluents.CompareStates(Encode(s1), Encode(s2), false)
  }

  /** The dynamic part of a state: the static fields blanked. */
  function Dynamic(s: DinnerState): DinnerState
  {
    s.(selfName := "", stoveAt := "", washedObservable := false, seasonedObservable := false)
  }

  /** A one-entry dictionary matches another under `compare_data` exactly when the key and a
      non-dictionary value are the same. */
  lemma EntryCompare(k: string, v1: Fluents.Value, v2: Fluents.Value)
    requires !v1.VDict?
    ensures Fluents.CompareData(Entry(k, v1).entries, Entry(k, v2).entries) <==> v1 == v2
  {
    var d1, d2 := Entry(k, v1).entries, Entry(k, v2).entries;
    Fluents.CompareDataIff(d1, d2);
    assert d1.Keys == d2.Keys == {k};
    assert d1[k] == v1 && d2[k] == v2;
  }

  lemma PerAgentCompare(h1: string, r1: string, h2: string, r2: string)
    ensures Fluents.CompareData(PerAgent(h1, r1).entries, PerAgent(h2, r2).entries) <==>
              h1 == h2 && r1 == r2
  {
    var d1, d2 := PerAgent(h1, r1).entries, PerAgent(h2, r2).entries;
    Fluents.CompareDataIff(d1, d2);
    assert d1.Keys == d2.Keys == {"H", "R"};
    assert d1["H"] == Fluents.VStr(h1) && d2["H"] == Fluents.VStr(h2);
    assert d1["R"] == Fluents.VStr(r1) && d2["R"] == Fluents.VStr(r2);
  }

  /** The dynamic fluents of the encoding, by name. */
  lemma DynamicFluents(s: DinnerState)
    ensures FluentOf(s, "cooking_done").data == Entry("food_ready", Fluents.VBool(s.foodReady))
    ensures FluentOf(s, "washed").data == Entry("vegetable", Fluents.VBool(s.washed))
    ensures FluentOf(s, "cut").data == Entry("vegetable", Fluents.VBool(s.cut))
    ensures FluentOf(s, "seasoned").data == Entry("vegetable", Fluents.VBool(s.seasoned))
    ensures FluentOf(s, "boiling").data == Entry("vegetable", Fluents.VBool(s.boiling))
    ensures FluentOf(s, "ingredient_at").data ==
            Entry("ingredient", Fluents.VStr(s.ingredientAt))
    ensures FluentOf(s, "agent_in_context").data == PerAgent(s.contextH, s.contextR)
    ensures FluentOf(s, "agent_at").data == PerAgent(s.atH, s.atR)
  {
  }

  /** A dynamic fluent's value depends on the dynamic fields only. */
  lemma DynamicFluentOf(s: DinnerState, f: string)
    requires f in FluentNames && f !in StaticFluents
    ensures FluentOf(s, f) == FluentOf(Dynamic(s), f)
  {
  }

  /** States that agree on the dynamic fluents are the same for `compare_states`. */
  lemma SameStateSound(s1: DinnerState, s2: DinnerState)
    requires Dynamic(s1) == Dynamic(s2)
    ensures SameState(s1, s2)
  {
    EncodeComparable(s1, s2);
    var e1, e2 := Encode(s1), Encode(s2);
    forall f | f in e1 && Fluents.Compared(e1, f, false)
      ensures Fluents.CompareData(e1[f].data.entries, e2[f].data.entries)
    {
      DynamicFluentOf(s1, f);
      DynamicFluentOf(s2, f);
      Fluents.CompareDataReflexive(e1[f].data.entries);
    }
  }

  /** States the same for `compare_states` agree on every dynamic fluent. */
  lemma SameStateComplete(s1: DinnerState, s2: DinnerState)
    requires SameState(s1, s2)
    ensures Dynamic(s1) == Dynamic(s2)
  {
    EncodeComparable(s1, s2);
    var e1, e2 := Encode(s1), Encode(s2);
    DynamicFluents(s1);
    DynamicFluents(s2);
    assert "cooking_done" in e1 && "washed" in e1 && "cut" in e1 && "seasoned" in e1;
    assert "boiling" in e1 && "ingredient_at" in e1 && "agent_in_context" in e1;
    assert "agent_at" in e1;
    EntryCompare("food_ready", Fluents.VBool(s1.foodReady), Fluents.VBool(s2.foodReady));
    EntryCompare("vegetable", Fluents.VBool(s1.washed), Fluents.VBool(s2.washed));
    EntryCompare("vegetable", Fluents.VBool(s1.cut), Fluents.VBool(s2.cut));
    EntryCompare("vegetable", Fluents.VBool(s1.seasoned), Fluents.VBool(s2.seasoned));
    EntryCompare("vegetable", Fluents.VBool(s1.boiling), Fluents.VBool(s2.boiling));
    EntryCompare("ingredient", Fluents.VStr(s1.ingredientAt), Fluents.VStr(s2.ingredientAt));
    PerAgentCompare(s1.contextH, s1.contextR, s2.contextH, s2.contextR);
    PerAgentCompare(s1.atH, s1.atR, s2.atH, s2.atR);
  }

  /** State equivalence as `compare_states` decides it on this scenario: two states are the
      same exactly when they agree on every dynamic fluent; the static ones (the stove's
      place, the observability flags) are not looked at. */
  lemma SameStateIff(s1: DinnerState, s2: DinnerState)
    ensures SameState(s1, s2) <==> Dynamic(s1) == Dynamic(s2)
  {
    if SameState(s1, s2) {
      SameStateComplete(s1, s2);
    }
    if Dynamic(s1) == Dynamic(s2) {
      SameStateSound(s1, s2);
    }
  }

  /** The scenario as the planner sees it: both agents' tables and the human moving first. */
  function DinnerDomain(): Domain<DinnerState>
  {
    Domain(HumanDef(), RobotDef(), H, Copresent, SameState, Assess)
  }

  /** The initial world: the initial state, and each agent's agenda holding the abstract task
      `Prepare_Dinner`, the robot's added first as in `initDomain`. */
  function InitialWorld(): (r: Result<World<DinnerState>, EngineError>)
  {
    var agR :- AddTasks(RobotDef(), R, [], [Ref(PrepareDinner)]);
    var agH :- AddTasks(HumanDef(), H, [], [Ref(PrepareDinner)]);
    Ok(World(InitialState, agH, agR))
  }

  // ---------------------------------------------------------------------------------------
  // The tables `initDomain` builds
  // ---------------------------------------------------------------------------------------

  /** The robot's operators: the common ones (cut, wash, communicate) and seasoning and
      putting the pot on the stove, which only the robot can do. */
  lemma RobotOperatorTable()
    ensures RobotDef().operators ==
            map["cut" := OpCut, "wash" := OpWash, CommunicateName := OpCommunicate,
                "seasoning" := OpSeasoning, "put_on_stove" := OpPutOnStove]
  {
    var ops := RobotOps;
    assert ops == [OpCut, OpWash, OpCommunicate, OpSeasoning, OpPutOnStove];
    var t0: map<string, Operator<DinnerState>> := map[];
    var t1 := t0["cut" := OpCut];
    var t2 := t1["wash" := OpWash];
    var t3 := t2[CommunicateName := OpCommunicate];
    var t4 := t3["seasoning" := OpSeasoning];
    var t5 := t4["put_on_stove" := OpPutOnStove];
    assert DeclareOperators(t0, ops) == DeclareOperators(t1, ops[1..]);
    assert DeclareOperators(t1, ops[1..]) == DeclareOperators(t2, ops[2..]);
    assert DeclareOperators(t2, ops[2..]) == DeclareOperators(t3, ops[3..]);
    assert DeclareOperators(t3, ops[3..]) == DeclareOperators(t4, ops[4..]);
    assert DeclareOperators(t4, ops[4..]) == DeclareOperators(t5, ops[5..]);
    assert ops[5..] == [];
  }

  /** The human's operators: the common ones and moving, fetching and adding the ingredient
      and the auxiliary closing action, which only the human can do. */
  lemma HumanOperatorTable()
    ensures HumanDef().operators ==
            map["cut" := OpCut, "wash" := OpWash, CommunicateName := OpCommunicate,
                "move" := OpMove, "get_ingredient" := OpGetIngredient,
                "put_ingredient" := OpPutIngredient, "aux_done_cooking" := OpDoneCooking]
  {
    var ops := HumanOps;
    assert ops == [OpCut, OpWash, OpCommunicate, OpMove, OpGetIngredient, OpPutIngredient,
                   OpDoneCooking];
    var t0: map<string, Operator<DinnerState>> := map[];
    var t1 := t0["cut" := OpCut];
    var t2 := t1["wash" := OpWash];
    var t3 := t2[CommunicateName := OpCommunicate];
    var t4 := t3["move" := OpMove];
    var t5 := t4["get_ingredient" := OpGetIngredient];
    var t6 := t5["put_ingredient" := OpPutIngredient];
    var t7 := t6["aux_done_cooking" := OpDoneCooking];
    assert DeclareOperators(t0, ops) == DeclareOperators(t1, ops[1..]);
    assert DeclareOperators(t1, ops[1..]) == DeclareOperators(t2, ops[2..]);
    assert DeclareOperators(t2, ops[2..]) == DeclareOperators(t3, ops[3..]);
    assert DeclareOperators(t3, ops[3..]) == DeclareOperators(t4, ops[4..]);
    assert DeclareOperators(t4, ops[4..]) == DeclareOperators(t5, ops[5..]);
    assert DeclareOperators(t5, ops[5..]) == DeclareOperators(t6, ops[6..]);
    assert DeclareOperators(t6, ops[6..]) == DeclareOperators(t7, ops[7..]);
    assert ops[7..] == [];
  }

  /** The robot's methods: one for each of its three abstract tasks. */
  lemma RobotMethodTable()
    ensures RobotDef().methods ==
            map[CutNWash := [MCutNWash], Communicate := [MCommunicate],
                PrepareDinner := [MPrepareDinnerR]]
  {
    var ms := RobotMethods;
    assert ms == [MCutNWash, MCommunicate, MPrepareDinnerR];
    var t0: map<string, seq<Method<DinnerState>>> := map[];
    var t1 := t0[CutNWash := [MCutNWash]];
    var t2 := t1[Communicate := [MCommunicate]];
    var t3 := t2[PrepareDinner := [MPrepareDinnerR]];
    assert DeclareMethods(t0, ms) == DeclareMethods(t1, ms[1..]);
    assert DeclareMethods(t1, ms[1..]) == DeclareMethods(t2, ms[2..]);
    assert DeclareMethods(t2, ms[2..]) == DeclareMethods(t3, ms[3..]);
    assert ms[3..] == [];
  }

  /** The human's methods: one for each of its six abstract tasks. */
  lemma HumanMethodTable()
    ensures HumanDef().methods ==
            map[CutNWash := [MCutNWash], Communicate := [MCommunicate],
                PrepareDinner := [MPrepareDinnerH], DoneCooking := [MDoneCooking],
                BringIngredient := [MBringIngredient], PutIngredient := [MPutIngredient]]
  {
    var ms := HumanMethods;
    assert ms == [MCutNWash, MCommunicate, MPrepareDinnerH] + HumanOwnMethods;
    var t0: map<string, seq<Method<DinnerState>>> := map[];
    var t1 := t0[CutNWash := [MCutNWash]];
    var t2 := t1[Communicate := [MCommunicate]];
    var t3 := t2[PrepareDinner := [MPrepareDinnerH]];
    assert DeclareMethods(t0, ms) == DeclareMethods(t1, ms[1..]);
    assert DeclareMethods(t1, ms[1..]) == DeclareMethods(t2, ms[2..]);
    assert DeclareMethods(t2, ms[2..]) == DeclareMethods(t3, ms[3..]);
    assert ms[3..] == HumanOwnMethods;
    HumanOwnMethodsDeclared(t3);
  }

  const HumanOwnMethods: seq<Method<DinnerState>> :=
    [MDoneCooking, MBringIngredient, MPutIngredient]

  lemma HumanOwnMethodsDeclared(t: map<string, seq<Method<DinnerState>>>)
    requires DoneCooking !in t && BringIngredient !in t && PutIngredient !in t
    ensures DeclareMethods(t, HumanOwnMethods) ==
            t[DoneCooking := [MDoneCooking]][BringIngredient := [MBringIngredient]]
             [PutIngredient := [MPutIngredient]]
  {
    var ms := HumanOwnMethods;
    var t1 := t[DoneCooking := [MDoneCooking]];
    var t2 := t1[BringIngredient := [MBringIngredient]];
    var t3 := t2[PutIngredient := [MPutIngredient]];
    assert DeclareMethods(t, ms) == DeclareMethods(t1, ms[1..]);
    assert DeclareMethods(t1, ms[1..]) == DeclareMethods(t2, ms[2..]);
    assert DeclareMethods(t2, ms[2..]) == DeclareMethods(t3, ms[3..]);
    assert ms[3..] == [];
  }

  // ---------------------------------------------------------------------------------------
  // What the operators do
  // ---------------------------------------------------------------------------------------

  /** The scenario's nine primitive tasks. */
  datatype Prim = Cut | Wash | Tell | Season | Stove | Move | Fetch | AddIngredient | Finish

  function OpOf(p: Prim): Operator<DinnerState>
  {
    match p
    case Cut => OpCut
    case Wash => OpWash
    case Tell => OpCommunicate
    case Season => OpSeasoning
    case Stove => OpPutOnStove
    case Move => OpMove
    case Fetch => OpGetIngredient
    case AddIngredient => OpPutIngredient
    case Finish => OpDoneCooking
  }

  /** The primitive task an operator name stands for. */
  function PrimNamed(name: string): Option<Prim>
  {
    if name == "cut" then Some(Cut)
    else if name == "wash" then Some(Wash)
    else if name == CommunicateName then Some(Tell)
    else if name == "seasoning" then Some(Season)
    else if name == "put_on_stove" then Some(Stove)
    else if name == "move" then Some(Move)
    else if name == "get_ingredient" then Some(Fetch)
    else if name == "put_ingredient" then Some(AddIngredient)
    else if name == "aux_done_cooking" then Some(Finish)
    else None
  }

  /** Every operator either agent has is one of the nine, stored under its own name. */
  lemma TableOperators(a: Agent, k: string)
    requires k in DinnerDomain().Def(a).operators
    ensures PrimNamed(k).Some? && DinnerDomain().Def(a).operators[k] == OpOf(PrimNamed(k).value)
    ensures OpOf(PrimNamed(k).value).name == k
  {
    if a == H { HumanOperatorTable(); } else { RobotOperatorTable(); }
  }

  /** Cutting and washing, as either agent's table holds them: cutting is possible iff the
      vegetable is not cut and cuts it; washing needs it cut and not washed, and washes it. */
  lemma CutAndWash(a: Agent, s: DinnerState, t: Task)
    ensures var ops := DinnerDomain().Def(a).operators;
            "cut" in ops && "wash" in ops &&
            (OpIsApplicable(ops["cut"], s, t) <==> !s.cut) &&
            OpApplyEffects(ops["cut"], s, t.agent, t.params) == s.(cut := true) &&
            (OpIsApplicable(ops["wash"], s, t) <==> s.cut && !s.washed) &&
            OpApplyEffects(ops["wash"], s, t.agent, t.params) == s.(washed := true)
  {
    if a == H { HumanOperatorTable(); } else { RobotOperatorTable(); }
  }

  /** The robot's own operators: seasoning needs the vegetable washed and not yet seasoned;
      putting on the stove needs it washed and not boiling. */
  lemma RobotCooking(s: DinnerState, t: Task)
    ensures var ops := RobotDef().operators;
            "seasoning" in ops && "put_on_stove" in ops &&
            (OpIsApplicable(ops["seasoning"], s, t) <==> s.washed && !s.seasoned) &&
            OpApplyEffects(ops["seasoning"], s, t.agent, t.params) == s.(seasoned := true) &&
            (OpIsApplicable(ops["put_on_stove"], s, t) <==> s.washed && !s.boiling) &&
            OpApplyEffects(ops["put_on_stove"], s, t.agent, t.params) == s.(boiling := true)
  {
    RobotOperatorTable();
  }

  /** The human's moves: possible only for the human, from the place it is at and is in
      context of, and it puts both its location and its context at the target. */
  lemma HumanMove(s: DinnerState, t: Task, from: string, to: string)
    requires t.params == [from, to]
    ensures var ops := HumanDef().operators;
            "move" in ops &&
            (OpIsApplicable(ops["move"], s, t) <==>
               t.agent == H && s.contextH == from && s.atH == from) &&
            OpApplyEffects(ops["move"], s, t.agent, t.params) == s.MovedTo(t.agent, to)
  {
    HumanOperatorTable();
  }

  /** The human's handling of the ingredient and the closing action: fetching needs the human
      and the ingredient in the pantry; putting it in needs the human in the kitchen holding
      it with the vegetable boiling, and puts it in the vegetable; the closing action makes
      the food ready. */
  lemma HumanIngredient(s: DinnerState, t: Task)
    requires t.agent == H
    ensures var ops := HumanDef().operators;
            "get_ingredient" in ops && "put_ingredient" in ops && "aux_done_cooking" in ops &&
            (OpIsApplicable(ops["get_ingredient"], s, t) <==>
               s.atH == "pantry" && s.ingredientAt == "pantry") &&
            OpApplyEffects(ops["get_ingredient"], s, H, t.params) == s.(ingredientAt := "H") &&
            (OpIsApplicable(ops["put_ingredient"], s, t) <==>
               s.atH == "kitchen" && s.ingredientAt == "H" && s.boiling) &&
            OpApplyEffects(ops["put_ingredient"], s, H, t.params) ==
              s.(ingredientAt := "vegetable") &&
            (OpIsApplicable(ops["aux_done_cooking"], s, t) <==>
               !s.foodReady && s.seasoned && s.ingredientAt == "vegetable") &&
            OpApplyEffects(ops["aux_done_cooking"], s, H, t.params) == s.(foodReady := true)
  {
    HumanOperatorTable();
  }

  /** The order in which the scenario's facts build up: washing needs cutting, seasoning and
      boiling need washing, the ingredient goes into boiling water, and the food is ready
      only with the seasoned vegetable and the ingredient in it. The ingredient is in the
      pantry, in the human's hand, or in the pot. */
  predicate Consistent(s: DinnerState)
  {
    (s.washed ==> s.cut) &&
    (s.seasoned ==> s.washed) &&
    (s.boiling ==> s.washed) &&
    (s.ingredientAt == "vegetable" ==> s.boiling) &&
    (s.foodReady ==> s.seasoned && s.ingredientAt == "vegetable") &&
    (s.ingredientAt == "pantry" || s.ingredientAt == "H" || s.ingredientAt == "vegetable")
  }

  function B(b: bool): nat
  {
    if b then 1 else 0
  }

  /** How far the cooking has got: one for each fact reached, and the ingredient counts one
      once fetched and two once in the pot. */
  function Stage(s: DinnerState): (n: nat)
    ensures n <= 7
  {
    B(s.cut) + B(s.washed) + B(s.seasoned) + B(s.boiling) + B(s.foodReady) +
    (if s.ingredientAt == "pantry" then 0 else if s.ingredientAt == "vegetable" then 2 else 1)
  }

  /** No reached fact is undone from `s` to `s'`. */
  predicate Kept(s: DinnerState, s': DinnerState)
  {
    (s.cut ==> s'.cut) && (s.washed ==> s'.washed) && (s.seasoned ==> s'.seasoned) &&
    (s.boiling ==> s'.boiling) && (s.foodReady ==> s'.foodReady)
  }

  /** An applicable operator keeps the state consistent and undoes no reached fact; moving
      and communicating leave the cooking where it is, and every other operator advances it,
      so at most seven such actions occur on any branch. */
  lemma OperatorStep(p: Prim, s: DinnerState, t: Task)
    requires Consistent(s) && OpIsApplicable(OpOf(p), s, t)
    ensures var s' := OpApplyEffects(OpOf(p), s, t.agent, t.params);
            Consistent(s') && Kept(s, s') &&
            (p == Move || p == Tell ==> Stage(s') == Stage(s)) &&
            (p != Move && p != Tell ==> Stage(s') > Stage(s))
  {
    match p
    case Cut =>
    case Wash =>
    case Tell =>
    case Season =>
    case Stove =>
    case Move =>
    case Fetch =>
    case AddIngredient =>
    case Finish =>
  }

  /** Only the human moves, fetches and adds the ingredient; seasoning and putting on the
      stove are in the robot's table only. */
  lemma HumanOnlyActions(s: DinnerState, ps: seq<string>)
    ensures !MovePre(s, R, ps) && !GetIngredientPre(s, R, ps) && !PutIngredientPre(s, R, ps)
    ensures "seasoning" !in HumanDef().operators && "put_on_stove" !in HumanDef().operators
    ensures "move" !in RobotDef().operators && "get_ingredient" !in RobotDef().operators
    ensures "put_ingredient" !in RobotDef().operators
    ensures "aux_done_cooking" !in RobotDef().operators
  {
    HumanOperatorTable();
    RobotOperatorTable();
  }

  /** The communication operator changes nothing and tells the listener exactly whether the
      vegetable is seasoned: two states give the same message iff they agree on it. */
  lemma CommunicationRevealsSeasoning(s1: DinnerState, s2: DinnerState, a: Agent,
                                      ps: seq<string>)
    ensures IsCommunication(OpCommunicate.name) && OpCommunicate.getEffect.Some?
    ensures OpApplyEffects(OpCommunicate, s1, a, ps) == s1
    ensures OpCommunicate.getEffect.value(s1, a, ps) == OpCommunicate.getEffect.value(s2, a, ps)
            <==> s1.seasoned == s2.seasoned
  {
    assert CommunicateMarker <= CommunicateName;
  }

  /** Only the status communication is named as a communication, and it has its value
      function. */
  lemma PrimCommunication(p: Prim)
    ensures IsCommunication(OpOf(p).name) <==> p == Tell
    ensures p == Tell ==> OpOf(p).getEffect.Some?
  {
    var name := OpOf(p).name;
    if p == Tell {
      assert CommunicateMarker <= CommunicateName;
    } else if p == Finish {
      assert name == "aux_done_cooking";
      NoRoomNotContains(name, CommunicateMarker);
    } else if p == AddIngredient || p == Fetch {
      assert name == "put_ingredient" || name == "get_ingredient";
      NoRoomNotContains(name, CommunicateMarker);
    } else if p == Stove {
      assert name == "put_on_stove";
      NoRoomNotContains(name, CommunicateMarker);
    } else {
      assert |name| < |CommunicateMarker|;
      ShorterNotContains(name, CommunicateMarker);
    }
  }

  /** Of all the operators either agent has, only the status communication is a
      communication operator, and it has its value function: applying any operator of the
      scenario to its own task never fails, whatever the possible worlds. */
  lemma CommunicationOperators(a: Agent, k: string)
    requires k in DinnerDomain().Def(a).operators
    ensures IsCommunication(k) <==> k == CommunicateName
    ensures IsCommunication(k) ==> DinnerDomain().Def(a).operators[k].getEffect.Some?
    ensures forall s: DinnerState, possible: seq<World<DinnerState>>, t: Task ::
              t.name == k ==> Apply.ApplyOperator(DinnerDomain().Def(a).operators[k], s, possible, t).Ok?
  {
    TableOperators(a, k);
    var p := PrimNamed(k).value;
    PrimCommunication(p);
    assert p == Tell <==> k == CommunicateName;
  }

  // ---------------------------------------------------------------------------------------
  // Situation assessment and co-presence
  // ---------------------------------------------------------------------------------------

  /** The fluents the human sees agree between the designated state and a world. */
  predicate AgreesOnObserved(ds: DinnerState, w: DinnerState)
  {
    ds.foodReady == w.foodReady && ds.cut == w.cut && ds.boiling == w.boiling &&
    (ds.washedObservable ==> ds.washed == w.washed) &&
    (ds.seasonedObservable ==> ds.seasoned == w.seasoned)
  }

  /** The designated state is always kept; with seasoning unobservable, a world and its copy
      with the seasoning flipped are kept or dropped together, which is why the scenario
      needs the communication operator. */
  lemma SeasoningUnseen(ds: DinnerState, w: DinnerState)
    ensures Assess(ds, ds)
    ensures !ds.seasonedObservable ==> Assess(ds, w) == Assess(ds, w.(seasoned := !w.seasoned))
    ensures ds.washedObservable && Copresent(ds) && ds.washed != w.washed ==> !Assess(ds, w)
  {
  }

  // ---------------------------------------------------------------------------------------
  // Methods
  // ---------------------------------------------------------------------------------------

  /** Every method with a done condition is applicable exactly when it is not done. */
  lemma MethodsDecided(a: Agent, k: string, j: nat, s: DinnerState, t: Task)
    requires k in DinnerDomain().Def(a).methods && j < |DinnerDomain().Def(a).methods[k]|
    ensures var m := DinnerDomain().Def(a).methods[k][j];
            m.taskName == k &&
            (m.doneCond.Some? ==> (MethodIsApplicable(m, s, t) <==> !MethodIsDone(m, s, t)))
  {
    if a == H { HumanMethodTable(); } else { RobotMethodTable(); }
  }

  /** Prepare_Dinner, for either agent, is done exactly when the food is ready and applicable
      exactly when it is not. */
  lemma PrepareDinnerDoneIffReady(a: Agent, s: DinnerState, t: Task)
    ensures var ms := DinnerDomain().Def(a).methods;
            PrepareDinner in ms && |ms[PrepareDinner]| == 1 &&
            (MethodIsDone(ms[PrepareDinner][0], s, t) <==> FoodIsReady(s)) &&
            (MethodIsApplicable(ms[PrepareDinner][0], s, t) <==> !FoodIsReady(s))
  {
    if a == H { HumanMethodTable(); } else { RobotMethodTable(); }
  }

  /** Cut_n_Wash, for either agent, is done exactly when the vegetable is cut and washed;
      with the acting agent in the kitchen and nothing cut, its only alternative is to cut,
      wash and check again, and once cut but not washed, to wash and check again. */
  lemma CutNWashAlternatives(a: Agent, s: DinnerState, t: Task)
    ensures var ms := DinnerDomain().Def(a).methods;
            CutNWash in ms && |ms[CutNWash]| == 1 &&
            var m := ms[CutNWash][0];
            (MethodIsDone(m, s, t) <==> s.cut && s.washed) &&
            (MethodIsApplicable(m, s, t) <==> !(s.cut && s.washed)) &&
            (s.At(t.agent) == "kitchen" && !s.cut ==>
               MethodGetDecomp(m, s, t) == [[Ref("cut"), Ref("wash"), Ref(CutNWash)]]) &&
            (s.At(t.agent) == "kitchen" && s.cut && !s.washed ==>
               MethodGetDecomp(m, s, t) == [[Ref("wash"), Ref(CutNWash)]]) &&
            (s.At(t.agent) != "kitchen" ==> MethodGetDecomp(m, s, t) == [])
  {
    if a == H { HumanMethodTable(); } else { RobotMethodTable(); }
  }

  /** An entry of a decomposition names a task the agent knows, with as many parameters as
      its operator takes: two for `move`, none otherwise. */
  predicate KnownEntry(d: AgentDef<DinnerState>, e: TaskRef)
  {
    (e.name in d.methods || e.name in d.operators) &&
    (e.name in d.operators ==> |e.params| == if e.name == "move" then 2 else 0)
  }

  /** The entries the methods of both agents write. */
  const CommonEntries: set<TaskRef> :=
    {Ref("cut"), Ref("wash"), Ref(CutNWash), Ref(CommunicateName)}
  const RobotEntries: set<TaskRef> :=
    CommonEntries + {Ref("put_on_stove"), Ref("seasoning"), Ref(PrepareDinner)}
  const HumanEntries: set<TaskRef> :=
    CommonEntries + {Ref(BringIngredient), Ref(PutIngredient), Ref(PrepareDinner),
                     Ref(DoneCooking), TaskRef("move", ["kitchen", "pantry"]),
                     Ref("get_ingredient"), TaskRef("move", ["pantry", "kitchen"]),
                     Ref("put_ingredient"), Ref("aux_done_cooking")}

  lemma RobotEntriesKnown(e: TaskRef)
    requires e in RobotEntries
    ensures KnownEntry(RobotDef(), e)
  {
    RobotMethodTable();
    RobotOperatorTable();
  }

  lemma HumanEntriesKnown(e: TaskRef)
    requires e in HumanEntries
    ensures KnownEntry(HumanDef(), e)
  {
    HumanMethodTable();
    HumanOperatorTable();
  }

  lemma CommonDecompositions(m: Method<DinnerState>, s: DinnerState, t: Task, i: nat, e: nat)
    requires m == MCutNWash || m == MCommunicate
    requires i < |MethodGetDecomp(m, s, t)| && e < |MethodGetDecomp(m, s, t)[i]|
    ensures MethodGetDecomp(m, s, t)[i][e] in CommonEntries
  {
  }

  lemma RobotDecompositions(m: Method<DinnerState>, s: DinnerState, t: Task, i: nat, e: nat)
    requires m in RobotMethods
    requires i < |MethodGetDecomp(m, s, t)| && e < |MethodGetDecomp(m, s, t)[i]|
    ensures MethodGetDecomp(m, s, t)[i][e] in RobotEntries
  {
    if m != MPrepareDinnerR {
      CommonDecompositions(m, s, t, i, e);
    }
  }

  lemma HumanDecompositions(m: Method<DinnerState>, s: DinnerState, t: Task, i: nat, e: nat)
    requires m in HumanMethods
    requires i < |MethodGetDecomp(m, s, t)| && e < |MethodGetDecomp(m, s, t)[i]|
    ensures MethodGetDecomp(m, s, t)[i][e] in HumanEntries
  {
    if m == MCutNWash || m == MCommunicate {
      CommonDecompositions(m, s, t, i, e);
    }
  }

  /** Every decomposition any method of either agent offers, in any state, is made of known
      tasks with the right number of parameters, so refining never meets an unknown name. */
  lemma DecompositionsKnown(a: Agent, k: string, j: nat, s: DinnerState, t: Task, i: nat, e: nat)
    requires k in DinnerDomain().Def(a).methods && j < |DinnerDomain().Def(a).methods[k]|
    requires var m := DinnerDomain().Def(a).methods[k][j];
             i < |MethodGetDecomp(m, s, t)| && e < |MethodGetDecomp(m, s, t)[i]|
    ensures var m := DinnerDomain().Def(a).methods[k][j];
            KnownEntry(DinnerDomain().Def(a), MethodGetDecomp(m, s, t)[i][e]) &&
            MakeTask(DinnerDomain().Def(a), a, MethodGetDecomp(m, s, t)[i][e]).Ok?
  {
    var d := DinnerDomain().Def(a);
    var m := d.methods[k][j];
    DeclaredMethodFrom(map[], if a == H then HumanMethods else RobotMethods, k, j);
    if a == H {
      HumanDecompositions(m, s, t, i, e);
      HumanEntriesKnown(MethodGetDecomp(m, s, t)[i][e]);
    } else {
      RobotDecompositions(m, s, t, i, e);
      RobotEntriesKnown(MethodGetDecomp(m, s, t)[i][e]);
    }
  }

  // ---------------------------------------------------------------------------------------
  // Decompositions that can be carried out
  // ---------------------------------------------------------------------------------------

  /** Carries out the leading primitive entries of a decomposition for agent `a`, in order,
      stopping at the first entry that is not an operator of the agent: the state reached and
      the entries left, or `None` when a primitive is not applicable when its turn comes. */
  function RunPrimitives(d: AgentDef<DinnerState>, a: Agent, refs: seq<TaskRef>, s: DinnerState)
    : (r: Option<(DinnerState, seq<TaskRef>)>)
    ensures r.Some? ==> |r.value.1| <= |refs| && r.value.1 == refs[|refs| - |r.value.1|..]
    decreases |refs|
  {
    if |refs| == 0 || refs[0].name !in d.operators || refs[0].name in d.methods then
      Some((s, refs))
    else
      var op := d.operators[refs[0].name];
      var t := Task(refs[0].name, refs[0].params, a, false);
      if !OpIsApplicable(op, s, t) then None
      else RunPrimitives(d, a, refs[1..], OpApplyEffects(op, s, a, t.params))
  }

  /** Tables in which `cut` and `wash` are the scenario's operators and Cut_n_Wash is an
      abstract task. */
  ghost predicate CutNWashTables(d: AgentDef<DinnerState>)
  {
    "cut" in d.operators && d.operators["cut"] == OpCut && "cut" !in d.methods &&
    "wash" in d.operators && d.operators["wash"] == OpWash && "wash" !in d.methods &&
    CutNWash in d.methods
  }

  /** What carrying out Cut_n_Wash needs from an agent's tables. */
  lemma CutNWashEntries(a: Agent)
    ensures CutNWashTables(DinnerDomain().Def(a))
  {
    if a == H {
      HumanMethodTable();
      HumanOperatorTable();
    } else {
      RobotMethodTable();
      RobotOperatorTable();
    }
  }

  lemma CutNWashRuns(d: AgentDef<DinnerState>, a: Agent, s: DinnerState)
    requires CutNWashTables(d)
    requires Consistent(s) && s.At(a) == "kitchen" && CutNWashPre(s, a, [])
    ensures var alts := CutNWashDecomp(s, a, []);
            |alts| == 1 &&
            var r := RunPrimitives(d, a, alts[0], s);
            r.Some? && CutNWashDone(r.value.0, a, []) && r.value.1 == [Ref(CutNWash)]
  {
    var refs := CutNWashDecomp(s, a, [])[0];
    var s2 := s.(cut := true, washed := true);
    if !s.cut {
      assert refs == [Ref("cut"), Ref("wash"), Ref(CutNWash)];
      var s1 := s.(cut := true);
      assert CutPre(s, a, []) && CutEffects(s, a, []) == s1;
      assert RunPrimitives(d, a, refs, s) == RunPrimitives(d, a, refs[1..], s1);
      assert refs[1..][0] == Ref("wash");
      assert WashPre(s1, a, []) && WashEffects(s1, a, []) == s2;
      assert RunPrimitives(d, a, refs[1..], s1) == RunPrimitives(d, a, refs[2..], s2);
      assert refs[2..] == [Ref(CutNWash)];
    } else {
      assert refs == [Ref("wash"), Ref(CutNWash)];
      assert WashPre(s, a, []) && WashEffects(s, a, []) == s2;
      assert RunPrimitives(d, a, refs, s) == RunPrimitives(d, a, refs[1..], s2);
      assert refs[1..] == [Ref(CutNWash)];
    }
  }

  /** Cut_n_Wash, applicable with the agent in the kitchen, offers one decomposition whose
      primitive actions the agent can all carry out, after which the task is done and only
      its own recursive entry is left. */
  lemma CutNWashExecutes(a: Agent, s: DinnerState)
    requires Consistent(s) && s.At(a) == "kitchen" && CutNWashPre(s, a, [])
    ensures var alts := CutNWashDecomp(s, a, []);
            |alts| == 1 &&
            var r := RunPrimitives(DinnerDomain().Def(a), a, alts[0], s);
            r.Some? && CutNWashDone(r.value.0, a, []) && r.value.1 == [Ref(CutNWash)]
  {
    CutNWashEntries(a);
    CutNWashRuns(DinnerDomain().Def(a), a, s);
  }

  /** Tables in which moving and fetching are the scenario's operators. */
  ghost predicate BringTables(d: AgentDef<DinnerState>)
  {
    "move" in d.operators && d.operators["move"] == OpMove && "move" !in d.methods &&
    "get_ingredient" in d.operators && d.operators["get_ingredient"] == OpGetIngredient &&
    "get_ingredient" !in d.methods
  }

  /** What bringing the ingredient needs from the human's tables. */
  lemma BringEntries()
    ensures BringTables(HumanDef())
  {
    HumanMethodTable();
    HumanOperatorTable();
  }

  lemma BringRuns(d: AgentDef<DinnerState>, s: DinnerState)
    requires BringTables(d)
    requires s.atH == "kitchen" && s.contextH == "kitchen" && s.ingredientAt == "pantry"
    ensures var alts := BringDecomp(s, H, []);
            |alts| == 1 &&
            var r := RunPrimitives(d, H, alts[0], s);
            r.Some? && r.value.1 == [] && r.value.0 == s.(ingredientAt := "H")
  {
    var refs := BringDecomp(s, H, [])[0];
    var s1 := s.(atH := "pantry", contextH := "pantry");
    var s2 := s1.(ingredientAt := "H");
    var s3 := s.(ingredientAt := "H");
    assert RunPrimitives(d, H, refs, s) == RunPrimitives(d, H, refs[1..], s1);
    assert refs[1..][0] == Ref("get_ingredient");
    assert RunPrimitives(d, H, refs[1..], s1) == RunPrimitives(d, H, refs[2..], s2);
    assert refs[2..][0] == TaskRef("move", ["pantry", "kitchen"]);
    assert MovePre(s2, H, ["pantry", "kitchen"]);
    assert MoveEffects(s2, H, ["pantry", "kitchen"]) == s3;
    assert RunPrimitives(d, H, refs[2..], s2) == RunPrimitives(d, H, refs[3..], s3);
    assert refs[3..] == [];
  }

  /** Bringing the ingredient, with the human in the kitchen and the ingredient in the
      pantry, offers one decomposition the human can carry out entirely: it ends back in the
      kitchen holding the ingredient, and nothing else changes. */
  lemma BringExecutes(s: DinnerState)
    requires s.atH == "kitchen" && s.contextH == "kitchen" && s.ingredientAt == "pantry"
    ensures var alts := BringDecomp(s, H, []);
            |alts| == 1 &&
            var r := RunPrimitives(HumanDef(), H, alts[0], s);
            r.Some? && r.value.1 == [] && r.value.0 == s.(ingredientAt := "H")
  {
    BringEntries();
    BringRuns(HumanDef(), s);
  }

  // ---------------------------------------------------------------------------------------
  // Planning the scenario
  // ---------------------------------------------------------------------------------------

  /** The initial world is built without error: each agent's agenda holds its abstract
      `Prepare_Dinner` task, and the initial state is consistent, has nothing cooked, and
      has the agents together. */
  lemma InitialWorldOk()
    ensures InitialWorld().Ok?
    ensures InitialWorld().value.state == InitialState
    ensures InitialWorld().value.agendaH == [Task(PrepareDinner, [], H, true)]
    ensures InitialWorld().value.agendaR == [Task(PrepareDinner, [], R, true)]
    ensures Consistent(InitialState) && Stage(InitialState) == 0 && Copresent(InitialState)
  {
    HumanMethodTable();
    RobotMethodTable();
  }

  /** `main`: the AND/OR exploration of the scenario from its initial world. When it ends,
      the root is solved or no pair is left to explore. */
  function Plan(fuel: nat, steps: nat): (r: Result<AndOr.Search<DinnerState>, EngineError>)
    ensures r.Ok? ==> |r.value.tree.pairs| > 0
    ensures r.Ok? ==> r.value.tree.pairs[0].done || |r.value.frontier| == 0
  {
    var w :- InitialWorld();
    AndOr.ExploreAndOr(DinnerDomain(), w, fuel, steps)
  }
}

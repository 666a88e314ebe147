/** One exploration step of the co-planning search (`exploration_step_tt`,
    `exploration_when_HR_insame_context` and `exploration_when_HR_not_insame_context` in
    ConcurrentModule.py): the first pair of the frontier is assessed, the acting agent refines
    its agenda in the designated world, every applied decomposition becomes a candidate pair
    (the other agent waiting for its turn) with the worlds the human then considers possible,
    the candidates are placed in a new step, and the new pairs that neither end the plan nor
    repeat a double pass go in front of the frontier. */
module Explore {
  import opened Wrappers
  import opened Tasks
  import opened Htn
  import opened Applied
  import opened Worlds
  import opened ActionTree

  /** The verdict an exploration step records when it runs as the goal test of a leaf
      (`goal_test[1]`): nothing yet, a final pair was generated, or a double pass was. */
  datatype Label = Unlabelled | GoalLabel | PassLabel

  /** `goal_test`: whether the step runs as a goal test, and its verdict so far. */
  datatype GoalTest = GoalTest(checking: bool, verdict: Label)

  datatype Outcome<S> = Outcome(tree: Tree<S>, frontier: seq<nat>, goal: GoalTest,
                                maxWorlds: nat)

  // ---------------------------------------------------------------------------------------
  // The selected pair
  // ---------------------------------------------------------------------------------------

  /** The agent acting after a pair: the starting agent after `BEGIN`, otherwise the agent
      that was waiting for its turn; any other pair is an error. */
  function ActingAgent<S>(dom: Domain<S>, p: Pair<S>): (r: Result<Agent, EngineError>)
    ensures r.Ok? <==> IsBegin(p) || IsWaitTurn(p.human) || IsWaitTurn(p.robot)
    ensures r.Err? ==> r.error == NoActingAgent
    ensures r.Ok? && IsBegin(p) ==> r.value == dom.starting
    ensures r.Ok? && !IsBegin(p) ==> (r.value == H <==> IsWaitTurn(p.human))
  {
    if IsBegin(p) then Ok(dom.starting)
    else if IsWaitTurn(p.human) then Ok(H)
    else if IsWaitTurn(p.robot) then Ok(R)
    else Err(NoActingAgent)
  }

  /** The selected pair after situation assessment and de-duplication of its possible worlds,
      with its co-presence recorded. */
  function Assessed<S>(dom: Domain<S>, p: Pair<S>): (r: Pair<S>)
    ensures r == p.(possible := r.possible, copresent := dom.copresent(p.end.state))
    ensures |r.possible| <= |p.possible|
  {
    var cop := dom.copresent(p.end.state);
    p.(possible := Dedup(dom, cop, p.end, Assess(dom, p.end.state, p.possible)), copresent := cop)
  }

  /** The worlds the human still considers possible at the selected pair are worlds it
      considered possible before that the assessment rule keeps, each different from the
      designated world and from the others, and every dropped world the rule keeps matches
      one of them. */
  lemma AssessedWorlds<S>(dom: Domain<S>, p: Pair<S>)
    ensures var r := Assessed(dom, p);
            (forall k :: 0 <= k < |r.possible| ==>
               r.possible[k] in p.possible && dom.assess(p.end.state, r.possible[k].state) &&
               WorldsDifferent(dom, r.copresent, r.possible[k], p.end)) &&
            (forall k, l :: 0 <= l < k < |r.possible| ==>
               WorldsDifferent(dom, r.copresent, r.possible[k], r.possible[l])) &&
            (forall w :: w in p.possible && dom.assess(p.end.state, w.state) &&
                         WorldsDifferent(dom, r.copresent, w, p.end) ==>
               w in r.possible ||
               exists l :: 0 <= l < |r.possible| && !WorldsDifferent(dom, r.copresent, w, r.possible[l]))
  {
    var cop := dom.copresent(p.end.state);
    var assessed := Assess(dom, p.end.state, p.possible);
    DedupSpec(dom, cop, p.end, assessed);
    forall w | w in p.possible && dom.assess(p.end.state, w.state)
      ensures w in assessed
    {
      var i :| 0 <= i < |p.possible| && p.possible[i] == w;
    }
  }

  // ---------------------------------------------------------------------------------------
  // The PASS marker
  // ---------------------------------------------------------------------------------------

  /** The action of the given side of a candidate (`true` for the human's). */
  function Side<S>(c: Candidate<S>, human: bool): Action
  {
    if human then c.human else c.robot
  }

  /** The candidate with `PASS` appended to the parameters of the given side's action. */
  function WithPass<S>(c: Candidate<S>, human: bool): (r: Candidate<S>)
    ensures Side(r, human) == AddParam(Side(c, human), "PASS")
    ensures Side(r, !human) == Side(c, !human)
    ensures r.end == c.end && r.possible == c.possible && r.key == c.key
  {
    if human then c.(human := AddParam(c.human, "PASS")) else c.(robot := AddParam(c.robot, "PASS"))
  }

  /** The position of the first candidate whose action on the given side is passive. */
  function FirstPassive<S>(cs: seq<Candidate<S>>, human: bool): (r: Option<nat>)
    ensures r.Some? ==> r.value < |cs| && IsPassive(Side(cs[r.value], human))
    ensures r.Some? ==> forall j :: 0 <= j < r.value ==> !IsPassive(Side(cs[j], human))
    ensures r.None? <==> forall j :: 0 <= j < |cs| ==> !IsPassive(Side(cs[j], human))
  {
    if |cs| == 0 then None
    else if IsPassive(Side(cs[0], human)) then Some(0)
    else
      match FirstPassive(cs[1..], human)
      case None => None
      case Some(k) => Some(k + 1)
  }

  /** The first candidate whose action on the given side is passive gets the `PASS` marker;
      the flag says whether there was one. */
  function MarkPass<S>(cs: seq<Candidate<S>>, human: bool): (r: (seq<Candidate<S>>, bool))
    ensures |r.0| == |cs|
    ensures r.1 <==> exists j :: 0 <= j < |cs| && IsPassive(Side(cs[j], human))
    ensures forall j :: 0 <= j < |cs| ==> r.0[j].key == cs[j].key && r.0[j].end == cs[j].end
    ensures forall j :: 0 <= j < |cs| ==> Side(r.0[j], !human) == Side(cs[j], !human)
    ensures forall j :: 0 <= j < |cs| ==>
              r.0[j] == cs[j] || (IsPassive(Side(cs[j], human)) && r.0[j] == WithPass(cs[j], human))
  {
    match FirstPassive(cs, human)
    case None => (cs, false)
    case Some(i) => (cs[i := WithPass(cs[i], human)], true)
  }

  // ---------------------------------------------------------------------------------------
  // The human's turn
  // ---------------------------------------------------------------------------------------

  /** The applied decomposition that waits for a signal, which the human may not take. */
  predicate WaitsForSignal<S>(d: AppliedDec<S>)
  {
    d.pt.Some? && d.pt.value.name == SignalWaitName
  }

  function WithoutSignalWaits<S>(ds: seq<AppliedDec<S>>): (r: seq<AppliedDec<S>>)
    ensures |r| <= |ds|
    ensures forall d :: d in r ==> d in ds && !WaitsForSignal(d)
    ensures forall d :: d in ds && !WaitsForSignal(d) ==> d in r
  {
    if |ds| == 0 then []
    else (if WaitsForSignal(ds[0]) then [] else [ds[0]]) + WithoutSignalWaits(ds[1..])
  }

  /** The human's candidates from its applied decompositions `ds` and the possible worlds
      `after` them: each decomposition but the signal waits, the robot waiting for its turn,
      each its own human option; the first passive human action is marked `PASS`, and when
      there is none and the agents are together the human may pass instead, in the selected
      pair's world. */
  function HumanOptions<S>(p: Pair<S>, ds: seq<AppliedDec<S>>, after: seq<World<S>>)
    : (r: seq<Candidate<S>>)
    ensures DistinctKeys(r)
    ensures forall j :: 0 <= j < |r| ==> r[j].robot == CreatePassive(R, "WAIT_TURN")
    ensures |WithoutSignalWaits(ds)| <= |r| <= |WithoutSignalWaits(ds)| + 1
  {
    OwnOptions(p, WithoutSignalWaits(ds), after)
  }

  /** The human's candidates from the decompositions `own` it may take. */
  function OwnOptions<S>(p: Pair<S>, own: seq<AppliedDec<S>>, after: seq<World<S>>)
    : (r: seq<Candidate<S>>)
    ensures DistinctKeys(r)
    ensures forall j :: 0 <= j < |r| ==> r[j].robot == CreatePassive(R, "WAIT_TURN")
    ensures |own| <= |r| <= |own| + 1
  {
    var base := HumanBase(own, after);
    var marked := MarkPass(base, true);
    if !marked.1 && p.copresent then
      marked.0 + [Candidate(CreatePassive(H, "PASS"), CreatePassive(R, "WAIT_TURN"), p.end, p.possible, |own|)]
    else marked.0
  }

  /** One candidate per applied decomposition of the human, the robot waiting for its turn. */
  function HumanBase<S>(own: seq<AppliedDec<S>>, after: seq<World<S>>): (r: seq<Candidate<S>>)
    ensures |r| == |own|
    ensures forall k :: 0 <= k < |own| ==>
              r[k] == Candidate(own[k].action, CreatePassive(R, "WAIT_TURN"), own[k].end, after, k)
  {
    seq(|own|, k requires 0 <= k < |own| =>
          Candidate(own[k].action, CreatePassive(R, "WAIT_TURN"), own[k].end, after, k))
  }

  /** Each of the human's candidates but the last extra one performs one applied
      decomposition, its passive action possibly marked `PASS`; the human may pass on its own
      exactly when the agents are together and none of its actions is passive. */
  lemma HumanOptionsSpec<S>(p: Pair<S>, ds: seq<AppliedDec<S>>, after: seq<World<S>>)
    ensures var r := HumanOptions(p, ds, after);
            var own := WithoutSignalWaits(ds);
            (forall j :: 0 <= j < |own| ==>
               r[j].end == own[j].end && r[j].possible == after &&
               (r[j].human == own[j].action ||
                (IsPassive(own[j].action) && r[j].human == AddParam(own[j].action, "PASS")))) &&
            (|r| == |own| + 1 <==>
               p.copresent && forall j :: 0 <= j < |own| ==> !IsPassive(own[j].action)) &&
            (|r| == |own| + 1 ==>
               r[|own|] == Candidate(CreatePassive(H, "PASS"), CreatePassive(R, "WAIT_TURN"),
                                     p.end, p.possible, |own|))
  {
    OwnOptionsSpec(p, WithoutSignalWaits(ds), after);
  }

  lemma OwnOptionsSpec<S>(p: Pair<S>, own: seq<AppliedDec<S>>, after: seq<World<S>>)
    ensures var r := OwnOptions(p, own, after);
            (forall j :: 0 <= j < |own| ==>
               r[j].end == own[j].end && r[j].possible == after &&
               (r[j].human == own[j].action ||
                (IsPassive(own[j].action) && r[j].human == AddParam(own[j].action, "PASS")))) &&
            (|r| == |own| + 1 <==>
               p.copresent && forall j :: 0 <= j < |own| ==> !IsPassive(own[j].action)) &&
            (|r| == |own| + 1 ==>
               r[|own|] == Candidate(CreatePassive(H, "PASS"), CreatePassive(R, "WAIT_TURN"),
                                     p.end, p.possible, |own|))
  {
    var r := OwnOptions(p, own, after);
    var base := HumanBase(own, after);
    var marked := MarkPass(base, true);
    assert marked.1 <==> exists j :: 0 <= j < |own| && IsPassive(own[j].action) by {
      if marked.1 {
        var j :| 0 <= j < |base| && IsPassive(Side(base[j], true));
      } else {
        forall j | 0 <= j < |own|
          ensures !IsPassive(own[j].action)
        {
          assert !IsPassive(Side(base[j], true));
        }
      }
    }
    assert forall j :: 0 <= j < |own| ==> r[j] == marked.0[j];
  }

  // ---------------------------------------------------------------------------------------
  // The robot's turn, agents apart
  // ---------------------------------------------------------------------------------------

  function Ends<S>(ds: seq<AppliedDec<S>>): (r: seq<World<S>>)
    ensures |r| == |ds| && forall k :: 0 <= k < |ds| ==> r[k] == ds[k].end
  {
    seq(|ds|, k requires 0 <= k < |ds| => ds[k].end)
  }

  /** The ends of every applied decomposition but the `k`-th, in order. */
  function OtherEnds<S>(ds: seq<AppliedDec<S>>, k: nat): (r: seq<World<S>>)
    ensures forall j :: 0 <= j < |ds| && j != k ==> ds[j].end in r
  {
    if |ds| == 0 then []
    else
      var rest := OtherEnds(ds[1..], if k == 0 then |ds| else k - 1);
      assert forall j :: 1 <= j < |ds| ==> ds[1..][j - 1] == ds[j];
      (if k == 0 then [] else [ds[0].end]) + rest
  }

  /** The other ends hold nothing but the ends of the other decompositions. */
  lemma {:induction false} OtherEndsOnly<S>(ds: seq<AppliedDec<S>>, k: nat)
    ensures forall w :: w in OtherEnds(ds, k) ==> exists j :: 0 <= j < |ds| && j != k && ds[j].end == w
    decreases |ds|
  {
    if |ds| > 0 {
      var k' := if k == 0 then |ds| else k - 1;
      OtherEndsOnly(ds[1..], k');
      forall w | w in OtherEnds(ds, k)
        ensures exists j :: 0 <= j < |ds| && j != k && ds[j].end == w
      {
        if w !in OtherEnds(ds[1..], k') {
          assert w == ds[0].end && k != 0;
        } else {
          var j :| 0 <= j < |ds[1..]| && j != k' && ds[1..][j].end == w;
          assert ds[j + 1].end == w;
        }
      }
    }
  }

  predicate SomePassive<S>(ds: seq<AppliedDec<S>>)
  {
    exists k :: 0 <= k < |ds| && IsPassive(ds[k].action)
  }

  /** The worlds the robot may have reached unseen from `u` with applied decompositions
      `ds`: the end of each, then `u` itself when none of them waits. */
  function UnseenHere<S>(ds: seq<AppliedDec<S>>, u: World<S>): (r: seq<World<S>>)
    ensures forall k :: 0 <= k < |ds| ==> ds[k].end in r
    ensures |ds| <= |r| && (!SomePassive(ds) <==> u in r[|ds|..])
    ensures forall w :: w in r ==> w == u || exists k :: 0 <= k < |ds| && ds[k].end == w
  {
    var r := Ends(ds) + (if SomePassive(ds) then [] else [u]);
    assert forall k :: 0 <= k < |ds| ==> r[k] == ds[k].end;
    assert r[|ds|..] == (if SomePassive(ds) then [] else [u]);
    r
  }

  /** The result of `get_applied_refinement` for one agent in one world. */
  type Refiner<!S> = World<S> -> Result<(seq<AppliedDec<S>>, seq<World<S>>), EngineError>

  /** The robot's refinement in a world the human considers possible, from the human's side:
      no possible worlds of its own. */
  function RobotRefiner<S>(dom: Domain<S>, fuel: nat): Refiner<S>
  {
    u => GetAppliedRefinement(dom, R, u, [], fuel)
  }

  /** The applied decompositions in each of `worlds`, in order; an error as soon as one of
      them is. */
  function RefineEach<S>(refine: Refiner<S>, worlds: seq<World<S>>)
    : (r: Result<seq<seq<AppliedDec<S>>>, EngineError>)
    ensures r.Ok? ==> |r.value| == |worlds|
    ensures r.Ok? ==> forall i :: 0 <= i < |worlds| ==>
              refine(worlds[i]).Ok? && r.value[i] == refine(worlds[i]).value.0
    ensures (forall i :: 0 <= i < |worlds| ==> refine(worlds[i]).Ok?) ==> r.Ok?
  {
    if |worlds| == 0 then Ok([])
    else
      var ref :- refine(worlds[0]);
      var rest :- RefineEach(refine, worlds[1..]);
      assert forall i :: 1 <= i < |worlds| ==> worlds[1..][i - 1] == worlds[i];
      Ok([ref.0] + rest)
  }

  /** The unseen worlds of every possible world, in order, given the robot's refinement in
      each. */
  function UnseenFrom<S>(refs: seq<seq<AppliedDec<S>>>, worlds: seq<World<S>>): (r: seq<World<S>>)
    requires |refs| == |worlds|
  {
    if |worlds| == 0 then [] else UnseenHere(refs[0], worlds[0]) + UnseenFrom(refs[1..], worlds[1..])
  }

  /** Every outcome of the `i`-th refinement is an unseen world, and so is the `i`-th world
      when the refinement does not wait. */
  lemma {:induction false} UnseenFromComplete<S>(refs: seq<seq<AppliedDec<S>>>, worlds: seq<World<S>>, i: nat)
    requires |refs| == |worlds| && i < |worlds|
    ensures forall k :: 0 <= k < |refs[i]| ==> refs[i][k].end in UnseenFrom(refs, worlds)
    ensures !SomePassive(refs[i]) ==> worlds[i] in UnseenFrom(refs, worlds)
    decreases |worlds|
  {
    var here := UnseenHere(refs[0], worlds[0]);
    var rest := UnseenFrom(refs[1..], worlds[1..]);
    assert UnseenFrom(refs, worlds) == here + rest;
    if i == 0 {
      if !SomePassive(refs[0]) {
        assert worlds[0] in here[|refs[0]|..];
      }
    } else {
      UnseenFromComplete(refs[1..], worlds[1..], i - 1);
      assert refs[1..][i - 1] == refs[i] && worlds[1..][i - 1] == worlds[i];
    }
  }

  /** `w` is the `i`-th world or an outcome of the `i`-th refinement. */
  ghost predicate OutcomeAt<S>(refs: seq<seq<AppliedDec<S>>>, worlds: seq<World<S>>, i: nat, w: World<S>)
    requires |refs| == |worlds| && i < |worlds|
  {
    w == worlds[i] || exists k :: 0 <= k < |refs[i]| && refs[i][k].end == w
  }

  /** Every unseen world is a possible world or an outcome of the refinement there. */
  lemma {:induction false} UnseenFromSound<S>(refs: seq<seq<AppliedDec<S>>>, worlds: seq<World<S>>,
                                              w: World<S>)
    requires |refs| == |worlds| && w in UnseenFrom(refs, worlds)
    ensures exists i :: 0 <= i < |worlds| && OutcomeAt(refs, worlds, i, w)
    decreases |worlds|
  {
    var here := UnseenHere(refs[0], worlds[0]);
    var rest := UnseenFrom(refs[1..], worlds[1..]);
    assert UnseenFrom(refs, worlds) == here + rest;
    if w in here {
      assert OutcomeAt(refs, worlds, 0, w);
    } else {
      UnseenFromSound(refs[1..], worlds[1..], w);
      var i :| 0 <= i < |worlds| - 1 && OutcomeAt(refs[1..], worlds[1..], i, w);
      assert refs[1..][i] == refs[i + 1] && worlds[1..][i] == worlds[i + 1];
      assert OutcomeAt(refs, worlds, i + 1, w);
    }
  }

  /** The worlds the human must consider after the robot acted unseen: for every world it
      considered possible, the end of each of the robot's applied decompositions there (with
      no possible worlds of its own), and the world itself when the robot could act there
      without waiting. */
  function UnseenWorlds<S>(dom: Domain<S>, worlds: seq<World<S>>, fuel: nat)
    : (r: Result<seq<World<S>>, EngineError>)
    ensures r.Ok? <==> forall i :: 0 <= i < |worlds| ==> GetAppliedRefinement(dom, R, worlds[i], [], fuel).Ok?
    ensures |worlds| == 0 ==> r == Ok([])
  {
    var refs :- RefineEach(RobotRefiner(dom, fuel), worlds);
    Ok(UnseenFrom(refs, worlds))
  }

  /** `w` is a world the robot can reach unseen from `u`, or `u` itself. */
  ghost predicate ReachedUnseen<S>(dom: Domain<S>, u: World<S>, w: World<S>, fuel: nat)
  {
    var g := GetAppliedRefinement(dom, R, u, [], fuel);
    g.Ok? && (w == u || exists k :: 0 <= k < |g.value.0| && g.value.0[k].end == w)
  }

  /** The unseen worlds hold every outcome of the robot's decompositions in each possible
      world, and each possible world where it need not wait. */
  lemma UnseenWorldsComplete<S>(dom: Domain<S>, worlds: seq<World<S>>, fuel: nat)
    requires UnseenWorlds(dom, worlds, fuel).Ok?
    ensures var post := UnseenWorlds(dom, worlds, fuel).value;
            forall i :: 0 <= i < |worlds| ==>
              var g := GetAppliedRefinement(dom, R, worlds[i], [], fuel);
              g.Ok? && (forall k :: 0 <= k < |g.value.0| ==> g.value.0[k].end in post) &&
              (!SomePassive(g.value.0) ==> worlds[i] in post)
  {
    var refs := RefineEach(RobotRefiner(dom, fuel), worlds).value;
    forall i | 0 <= i < |worlds|
      ensures var g := GetAppliedRefinement(dom, R, worlds[i], [], fuel);
              g.Ok? && (forall k :: 0 <= k < |g.value.0| ==> g.value.0[k].end in UnseenFrom(refs, worlds)) &&
              (!SomePassive(g.value.0) ==> worlds[i] in UnseenFrom(refs, worlds))
    {
      UnseenFromComplete(refs, worlds, i);
    }
  }

  /** The unseen worlds hold nothing but outcomes of the robot's decompositions in a possible
      world, or a possible world itself. */
  lemma UnseenWorldsSound<S>(dom: Domain<S>, worlds: seq<World<S>>, fuel: nat)
    requires UnseenWorlds(dom, worlds, fuel).Ok?
    ensures forall w :: w in UnseenWorlds(dom, worlds, fuel).value ==>
              exists i :: 0 <= i < |worlds| && ReachedUnseen(dom, worlds[i], w, fuel)
  {
    var refs := RefineEach(RobotRefiner(dom, fuel), worlds).value;
    forall w | w in UnseenFrom(refs, worlds)
      ensures exists i :: 0 <= i < |worlds| && ReachedUnseen(dom, worlds[i], w, fuel)
    {
      UnseenFromSound(refs, worlds, w);
      var i :| 0 <= i < |worlds| && OutcomeAt(refs, worlds, i, w);
      assert ReachedUnseen(dom, worlds[i], w, fuel);
    }
  }

  /** The robot's candidates, from its applied decompositions `ds` in the designated world,
      when the human cannot see it: one per decomposition, the human waiting for its turn,
      all in one human option; the human then considers possible the worlds `post` the robot
      could have reached unseen, every other designated outcome, and (when the robot need not
      wait) the designated world unchanged. The first passive robot action is marked `PASS`;
      without one the robot may pass instead. */
  function ApartOptions<S>(p: Pair<S>, post: seq<World<S>>, ds: seq<AppliedDec<S>>)
    : (r: seq<Candidate<S>>)
    ensures |ds| > 0 ==> |r| > 0
    ensures OneKey(r)
    ensures forall j :: 0 <= j < |r| ==> r[j].human == CreatePassive(H, "WAIT_TURN")
    ensures |ds| <= |r| <= |ds| + 1
  {
    var base := ApartBase(p, post, ds);
    var marked := MarkPass(base, false);
    if marked.1 then marked.0
    else marked.0 + [Candidate(CreatePassive(H, "WAIT_TURN"), CreatePassive(R, "PASS"), p.end, post + Ends(ds), 0)]
  }

  /** The worlds the human considers possible after the robot performed its `k`-th
      designated decomposition unseen. */
  function ApartWorlds<S>(p: Pair<S>, post: seq<World<S>>, ds: seq<AppliedDec<S>>, k: nat)
    : (r: seq<World<S>>)
    ensures post <= r
    ensures !SomePassive(ds) ==> |r| > 0 && r[|r| - 1] == p.end
    ensures k < |ds| ==> forall j :: 0 <= j < |ds| && j != k ==> ds[j].end in r
  {
    post + OtherEnds(ds, k) + (if SomePassive(ds) then [] else [p.end])
  }

  /** After the robot's `k`-th designated decomposition, performed unseen, the human
      considers possible exactly the unseen worlds, the other designated outcomes, and the
      designated world itself when the robot need not wait. */
  lemma ApartWorldsSpec<S>(p: Pair<S>, post: seq<World<S>>, ds: seq<AppliedDec<S>>, k: nat)
    ensures var r := ApartWorlds(p, post, ds, k);
            (forall w :: w in post ==> w in r) &&
            (forall j :: 0 <= j < |ds| && j != k ==> ds[j].end in r) &&
            (!SomePassive(ds) ==> p.end in r) &&
            (forall w :: w in r ==>
               w in post || (exists j :: 0 <= j < |ds| && j != k && ds[j].end == w) ||
               (w == p.end && !SomePassive(ds)))
  {
    OtherEndsOnly(ds, k);
  }

  function ApartBase<S>(p: Pair<S>, post: seq<World<S>>, ds: seq<AppliedDec<S>>): (r: seq<Candidate<S>>)
    ensures |r| == |ds|
    ensures forall k :: 0 <= k < |ds| ==>
              r[k] == Candidate(CreatePassive(H, "WAIT_TURN"), ds[k].action, ds[k].end,
                                ApartWorlds(p, post, ds, k), 0)
  {
    seq(|ds|, k requires 0 <= k < |ds| =>
          Candidate(CreatePassive(H, "WAIT_TURN"), ds[k].action, ds[k].end, ApartWorlds(p, post, ds, k), 0))
  }

  /** Each of the robot's unseen candidates performs its designated decomposition, its
      passive action possibly marked `PASS`, and leaves the human unable to rule out any of
      the other designated outcomes or the unseen worlds; the robot may pass on its own
      exactly when none of its actions is passive. */
  lemma ApartOptionsSpec<S>(p: Pair<S>, post: seq<World<S>>, ds: seq<AppliedDec<S>>)
    ensures var r := ApartOptions(p, post, ds);
            (forall k :: 0 <= k < |ds| ==>
               r[k].end == ds[k].end && r[k].possible == ApartWorlds(p, post, ds, k) &&
               (r[k].robot == ds[k].action ||
                (IsPassive(ds[k].action) && r[k].robot == AddParam(ds[k].action, "PASS")))) &&
            (|r| == |ds| + 1 <==> !SomePassive(ds)) &&
            (|r| == |ds| + 1 ==> r[|ds|].robot == CreatePassive(R, "PASS") && r[|ds|].end == p.end)
  {
    var r := ApartOptions(p, post, ds);
    var base := ApartBase(p, post, ds);
    var marked := MarkPass(base, false);
    assert marked.1 <==> SomePassive(ds) by {
      if marked.1 {
        var j :| 0 <= j < |base| && IsPassive(Side(base[j], false));
      }
    }
    assert forall j :: 0 <= j < |ds| ==> r[j] == marked.0[j];
  }

  // ---------------------------------------------------------------------------------------
  // The robot's turn, agents together
  // ---------------------------------------------------------------------------------------

  /** Whether two robot actions look the same to the human: same name and parameters. The
      source compares the parameters position by position over both lists, so two actions
      of the same name with parameter lists of different lengths index out of range. */
  function SameAction(a: Action, b: Action): (r: Result<bool, EngineError>)
    ensures r.Err? <==> a.name == b.name && |a.params| != |b.params|
    ensures r.Err? ==> r.error == ParamsIndexOutOfRange
    ensures r.Ok? ==> (r.value <==> a.name == b.name && a.params == b.params)
  {
    if a.name != b.name then Ok(false)
    else if |a.params| != |b.params| then Err(ParamsIndexOutOfRange)
    else Ok(a.params == b.params)
  }

  /** A decomposition whose next action the human cannot tell from `a`. */
  predicate LooksLike<S>(a: Action, d: AppliedDec<S>)
  {
    d.action.name == a.name && d.action.params == a.params
  }

  /** The ends of the applied decompositions whose action looks like `a`, in order. */
  function MatchingEnds<S>(a: Action, pds: seq<AppliedDec<S>>): (r: Result<seq<World<S>>, EngineError>)
    ensures r.Ok? ==> forall j :: 0 <= j < |pds| && LooksLike(a, pds[j]) ==> pds[j].end in r.value
    ensures r.Ok? ==> forall w :: w in r.value ==>
              exists j :: 0 <= j < |pds| && LooksLike(a, pds[j]) && pds[j].end == w
    ensures r.Err? <==> exists j :: 0 <= j < |pds| && SameAction(a, pds[j].action).Err?
  {
    if |pds| == 0 then Ok([])
    else
      assert forall j :: 1 <= j < |pds| ==> pds[1..][j - 1] == pds[j];
      var same := SameAction(a, pds[0].action);
      var rest := MatchingEnds(a, pds[1..]);
      if same.Err? then Err(same.error)
      else if rest.Err? then Err(rest.error)
      else Ok((if same.value then [pds[0].end] else []) + rest.value)
  }

  /** `w` is what the robot reaches from `u`, with `cur` the human's possible worlds, by an
      action that looks like `a`. */
  ghost predicate ExplainedBy<S>(dom: Domain<S>, a: Action, u: World<S>, cur: seq<World<S>>,
                                 w: World<S>, fuel: nat)
  {
    var g := GetAppliedRefinement(dom, R, u, cur, fuel);
    g.Ok? && exists j :: 0 <= j < |g.value.0| && LooksLike(a, g.value.0[j]) && g.value.0[j].end == w
  }

  /** `w` is what the robot reaches in one of `worlds` by an action that looks like `a`. */
  ghost predicate Explained<S(!new)>(dom: Domain<S>, a: Action, worlds: seq<World<S>>, w: World<S>,
                                     fuel: nat)
  {
    exists i, cur :: 0 <= i < |worlds| && ExplainedBy(dom, a, worlds[i], cur, w, fuel)
  }

  /** What the human infers from seeing the robot do `a`: for each world it considered
      possible, the ends of the robot's decompositions there whose action looks like `a`.
      `cur` is the human's list of possible worlds, which the robot's communications prune;
      it comes back with the inferred worlds. */
  function Observed<S>(dom: Domain<S>, a: Action, worlds: seq<World<S>>, cur: seq<World<S>>, fuel: nat)
    : (r: Result<(seq<World<S>>, seq<World<S>>), EngineError>)
    decreases |worlds|
  {
    if |worlds| == 0 then Ok(([], cur))
    else
      var pref :- GetAppliedRefinement(dom, R, worlds[0], cur, fuel);
      var ends :- MatchingEnds(a, pref.0);
      var rest :- Observed(dom, a, worlds[1..], pref.1, fuel);
      Ok((ends + rest.0, rest.1))
  }

  /** Every world the human infers is explained by an action that looks like the robot's in
      one of the worlds it considered possible. */
  lemma {:induction false} ObservedExplained<S(!new)>(dom: Domain<S>, a: Action, worlds: seq<World<S>>,
                                                   cur: seq<World<S>>, fuel: nat)
    requires Observed(dom, a, worlds, cur, fuel).Ok?
    ensures forall w :: w in Observed(dom, a, worlds, cur, fuel).value.0 ==> Explained(dom, a, worlds, w, fuel)
    decreases |worlds|
  {
    if |worlds| > 0 {
      var pref := GetAppliedRefinement(dom, R, worlds[0], cur, fuel).value;
      var ends := MatchingEnds(a, pref.0).value;
      var rest := Observed(dom, a, worlds[1..], pref.1, fuel).value;
      ObservedExplained(dom, a, worlds[1..], pref.1, fuel);
      assert Observed(dom, a, worlds, cur, fuel).value.0 == ends + rest.0;
      forall w | w in ends + rest.0
        ensures Explained(dom, a, worlds, w, fuel)
      {
        if w in ends {
          assert ExplainedBy(dom, a, worlds[0], cur, w, fuel);
        } else {
          var i, c :| 0 <= i < |worlds[1..]| && ExplainedBy(dom, a, worlds[1..][i], c, w, fuel);
          assert ExplainedBy(dom, a, worlds[i + 1], c, w, fuel);
        }
      }
    }
  }

  /** One candidate per designated decomposition, with the worlds inferred from its action;
      each decomposition iterates over the list of possible worlds as the previous ones left
      it. */
  function TogetherFrom<S>(dom: Domain<S>, ds: seq<AppliedDec<S>>, cur: seq<World<S>>, fuel: nat)
    : (r: Result<(seq<Candidate<S>>, seq<World<S>>), EngineError>)
    ensures r.Ok? ==> |r.value.0| == |ds|
    ensures r.Ok? ==> forall k :: 0 <= k < |ds| ==>
              r.value.0[k].human == CreatePassive(H, "WAIT_TURN") && r.value.0[k].key == 0 &&
              r.value.0[k].robot == ds[k].action && r.value.0[k].end == ds[k].end
  {
    if |ds| == 0 then Ok(([], cur))
    else
      var obs :- Observed(dom, ds[0].action, cur, cur, fuel);
      var rest :- TogetherFrom(dom, ds[1..], obs.1, fuel);
      assert forall k :: 1 <= k < |ds| ==> ds[1..][k - 1] == ds[k];
      Ok(([Candidate(CreatePassive(H, "WAIT_TURN"), ds[0].action, ds[0].end, obs.0, 0)] + rest.0, rest.1))
  }

  /** `w` is explained by an action that looks like `a` in some world the human considered
      possible at some point of the observation. */
  ghost predicate SomehowExplained<S(!new)>(dom: Domain<S>, a: Action, w: World<S>, fuel: nat)
  {
    exists ws :: Explained(dom, a, ws, w, fuel)
  }

  /** Every world a candidate keeps possible is related by `ok` to its decomposition's
      action. */
  ghost predicate AllRelated<S>(ok: (Action, World<S>) -> bool, ds: seq<AppliedDec<S>>,
                                cs: seq<Candidate<S>>)
  {
    forall k, w :: 0 <= k < |ds| && k < |cs| && w in cs[k].possible ==> ok(ds[k].action, w)
  }

  lemma AllRelatedCons<S>(ok: (Action, World<S>) -> bool, d: AppliedDec<S>, ds: seq<AppliedDec<S>>,
                          c: Candidate<S>, cs: seq<Candidate<S>>)
    requires forall w :: w in c.possible ==> ok(d.action, w)
    requires AllRelated(ok, ds, cs)
    ensures AllRelated(ok, [d] + ds, [c] + cs)
  {
    forall k, w | 0 <= k < |[d] + ds| && k < |[c] + cs| && w in ([c] + cs)[k].possible
      ensures ok(([d] + ds)[k].action, w)
    {
      if k > 0 {
        assert ([c] + cs)[k] == cs[k - 1] && ([d] + ds)[k] == ds[k - 1];
      }
    }
  }

  /** The relation "the action explains the world". */
  ghost function Explains<S(!new)>(dom: Domain<S>, fuel: nat): (ok: (Action, World<S>) -> bool)
    ensures forall a, w :: ok(a, w) == SomehowExplained(dom, a, w, fuel)
  {
    (a, w) => SomehowExplained(dom, a, w, fuel)
  }

  /** Every world a candidate keeps possible is explained by the candidate's robot action. */
  lemma {:induction false} TogetherFromExplained<S(!new)>(dom: Domain<S>, ds: seq<AppliedDec<S>>,
                                                       cur: seq<World<S>>, fuel: nat)
    requires TogetherFrom(dom, ds, cur, fuel).Ok?
    ensures AllRelated(Explains(dom, fuel), ds, TogetherFrom(dom, ds, cur, fuel).value.0)
    decreases |ds|
  {
    if |ds| > 0 {
      var ok := Explains(dom, fuel);
      var obs := Observed(dom, ds[0].action, cur, cur, fuel).value;
      var rest := TogetherFrom(dom, ds[1..], obs.1, fuel).value;
      var c := Candidate(CreatePassive(H, "WAIT_TURN"), ds[0].action, ds[0].end, obs.0, 0);
      ObservedExplained(dom, ds[0].action, cur, cur, fuel);
      TogetherFromExplained(dom, ds[1..], obs.1, fuel);
      forall w | w in c.possible
        ensures ok(ds[0].action, w)
      {
        assert Explained(dom, ds[0].action, cur, w, fuel);
      }
      AllRelatedCons(ok, ds[0], ds[1..], c, rest.0);
      assert [ds[0]] + ds[1..] == ds;
      assert TogetherFrom(dom, ds, cur, fuel).value.0 == [c] + rest.0;
    }
  }

  /** The robot waits without acting (`PASSIVE` of kind `WAIT`). */
  predicate Waits(a: Action)
  {
    IsPassive(a) && |a.params| > 0 && a.params[0] == "WAIT"
  }

  /** The robot's candidates, from its applied decompositions `ds` in the designated world,
      when the human sees it: none when some decomposition only waits, otherwise one per
      decomposition with the worlds its action explains; all in one human option. The first
      passive robot action is marked `PASS`; without one, and unless the human is waiting for
      a signal, the robot may wait and pass, with the possible worlds as the observations
      left them. */
  function TogetherOptions<S>(dom: Domain<S>, p: Pair<S>, ds: seq<AppliedDec<S>>, fuel: nat)
    : (r: Result<seq<Candidate<S>>, EngineError>)
    ensures r.Ok? ==> OneKey(r.value)
    ensures r.Ok? ==> forall j :: 0 <= j < |r.value| ==> r.value[j].human == CreatePassive(H, "WAIT_TURN")
  {
    var acting :- TogetherActing(dom, p, ds, fuel);
    Ok(PassAppended(p, acting.0, acting.1))
  }

  /** The robot's acting candidates with the first passive one marked `PASS`, followed, when
      none is passive and the human is not waiting for a signal, by the robot's own wait with
      the possible worlds `worlds`. */
  function PassAppended<S>(p: Pair<S>, cs: seq<Candidate<S>>, worlds: seq<World<S>>): (r: seq<Candidate<S>>)
  {
    var marked := MarkPass(cs, false);
    if marked.1 || Contains(p.human.name, SignalName) then marked.0
    else
      marked.0 + [Candidate(CreatePassive(H, "WAIT_TURN"), AddParam(CreatePassive(R, "WAIT"), "PASS"),
                            p.end, worlds, 0)]
  }

  /** Some designated decomposition only waits. */
  predicate NoRealAction<S>(ds: seq<AppliedDec<S>>)
  {
    exists k :: 0 <= k < |ds| && Waits(ds[k].action)
  }

  /** The acting candidates of the robot in the human's sight, none when it only waits. */
  function TogetherActing<S>(dom: Domain<S>, p: Pair<S>, ds: seq<AppliedDec<S>>, fuel: nat)
    : (r: Result<(seq<Candidate<S>>, seq<World<S>>), EngineError>)
    ensures r.Ok? ==> |r.value.0| == (if NoRealAction(ds) then 0 else |ds|)
    ensures r.Ok? ==> forall k :: 0 <= k < |r.value.0| ==>
              r.value.0[k].human == CreatePassive(H, "WAIT_TURN") && r.value.0[k].key == 0 &&
              r.value.0[k].robot == ds[k].action && r.value.0[k].end == ds[k].end
  {
    if NoRealAction(ds) then Ok(([], p.possible)) else TogetherFrom(dom, ds, p.possible, fuel)
  }

  /** Each of the robot's candidates in the human's sight performs its designated
      decomposition, its passive action possibly marked `PASS`; the robot may wait and pass
      on its own exactly when none of them is passive and the human is not waiting for a
      signal. */
  lemma TogetherOptionsSpec<S>(dom: Domain<S>, p: Pair<S>, ds: seq<AppliedDec<S>>, fuel: nat)
    requires TogetherOptions(dom, p, ds, fuel).Ok?
    ensures var r := TogetherOptions(dom, p, ds, fuel).value;
            var acting := if NoRealAction(ds) then 0 else |ds|;
            acting <= |r| <= acting + 1 &&
            (forall k :: 0 <= k < acting ==>
               r[k].end == ds[k].end &&
               (r[k].robot == ds[k].action ||
                (IsPassive(ds[k].action) && r[k].robot == AddParam(ds[k].action, "PASS")))) &&
            (|r| == acting + 1 <==>
               !Contains(p.human.name, SignalName) && forall k :: 0 <= k < acting ==> !IsPassive(ds[k].action)) &&
            (|r| == acting + 1 ==> Waits(r[acting].robot) && IsPass(r[acting].robot))
  {
    var acting := TogetherActing(dom, p, ds, fuel).value;
    PassAppendedSpec(p, ds, acting.0, acting.1);
  }

  lemma PassAppendedSpec<S>(p: Pair<S>, ds: seq<AppliedDec<S>>, cs: seq<Candidate<S>>, worlds: seq<World<S>>)
    requires |cs| <= |ds|
    requires forall k :: 0 <= k < |cs| ==> cs[k].robot == ds[k].action && cs[k].end == ds[k].end
    ensures var r := PassAppended(p, cs, worlds);
            |cs| <= |r| <= |cs| + 1 &&
            (forall k :: 0 <= k < |cs| ==>
               r[k].end == ds[k].end &&
               (r[k].robot == ds[k].action ||
                (IsPassive(ds[k].action) && r[k].robot == AddParam(ds[k].action, "PASS")))) &&
            (|r| == |cs| + 1 <==>
               !Contains(p.human.name, SignalName) && forall k :: 0 <= k < |cs| ==> !IsPassive(ds[k].action)) &&
            (|r| == |cs| + 1 ==> Waits(r[|cs|].robot) && IsPass(r[|cs|].robot))
  {
    var r := PassAppended(p, cs, worlds);
    var marked := MarkPass(cs, false);
    assert marked.1 <==> exists k :: 0 <= k < |cs| && IsPassive(ds[k].action) by {
      if marked.1 {
        var j :| 0 <= j < |cs| && IsPassive(Side(cs[j], false));
      } else {
        forall k | 0 <= k < |cs|
          ensures !IsPassive(ds[k].action)
        {
          assert !IsPassive(Side(cs[k], false));
        }
      }
    }
    assert forall j :: 0 <= j < |marked.0| ==> r[j] == marked.0[j];
  }

  /** The candidates of the acting agent, and the selected pair's possible worlds after them
      (only the robot's refinement in the human's sight changes them). */
  function Candidates<S>(dom: Domain<S>, p: Pair<S>, agent: Agent, fuel: nat)
    : (r: Result<(seq<Candidate<S>>, seq<World<S>>), EngineError>)
    ensures r.Ok? && agent == H ==> DistinctKeys(r.value.0) && r.value.1 == p.possible
    ensures r.Ok? && agent == R ==> OneKey(r.value.0)
    ensures r.Ok? && agent == R && !p.copresent ==> |r.value.0| > 0 && r.value.1 == p.possible
  {
    if agent == H then
      var ref :- GetAppliedRefinement(dom, H, p.end, p.possible, fuel);
      Ok((HumanOptions(p, ref.0, ref.1), p.possible))
    else if !p.copresent then
      var post :- UnseenWorlds(dom, p.possible, fuel);
      var ref :- GetAppliedRefinement(dom, R, p.end, [], fuel);
      Ok((ApartOptions(p, post, ref.0), p.possible))
    else
      var ref :- GetAppliedRefinement(dom, R, p.end, p.possible, fuel);
      var cs :- TogetherOptions(dom, p, ref.0, fuel);
      Ok((cs, ref.1))
  }

  // ---------------------------------------------------------------------------------------
  // Classifying the new pairs
  // ---------------------------------------------------------------------------------------

  /** Pair `j` repeats a pass: both it and the pair it extends are passive, and that one is
      not the initial pair. */
  predicate DoublePassive<S>(t: Tree<S>, j: nat)
    requires Wf(t) && j < |t.pairs|
  {
    var p := t.pairs[j];
    PairPassive(p) && p.previous.Some? &&
    PairPassive(t.pairs[p.previous.value]) && !IsBegin(t.pairs[p.previous.value])
  }

  /** A new pair that still needs exploring: it neither ends the plan nor repeats a pass. */
  predicate Explorable<S>(t: Tree<S>, j: nat)
    requires Wf(t) && j < |t.pairs|
  {
    !IsFinal(t, j) && !DoublePassive(t, j)
  }

  /** The pairs from `j` on that still need exploring, in order. */
  function KeptFrom<S>(t: Tree<S>, j: nat): (r: seq<nat>)
    requires Wf(t)
    ensures forall x :: x in r <==> j <= x < |t.pairs| && Explorable(t, x)
    ensures forall a, b :: 0 <= a < b < |r| ==> r[a] < r[b]
    ensures forall a :: 0 <= a < |r| ==> j <= r[a]
    decreases |t.pairs| - j
  {
    if j >= |t.pairs| then []
    else (if Explorable(t, j) then [j] else []) + KeptFrom(t, j + 1)
  }

  /** The pairs from `j` on that repeat a pass get the `pass` mark; nothing else changes. */
  function MarkPassFrom<S>(t: Tree<S>, j: nat): (r: Tree<S>)
    requires Wf(t)
    ensures SameLinks(t, r)
    ensures forall i :: 0 <= i < |t.pairs| ==>
              r.pairs[i] == t.pairs[i].(pass := r.pairs[i].pass) &&
              (r.pairs[i].pass <==> t.pairs[i].pass || (j <= i && !IsFinal(t, i) && DoublePassive(t, i)))
  {
    var ps := seq(|t.pairs|, i requires 0 <= i < |t.pairs| =>
                  if j <= i && !IsFinal(t, i) && DoublePassive(t, i) then t.pairs[i].(pass := true)
                  else t.pairs[i]);
    t.(pairs := ps)
  }

  /** The goal test's verdict after classifying the pairs from `j` on: while it runs as a
      goal test, the last final pair sets it to goal and the last double pass after it to
      pass; otherwise it is left alone. */
  function LabelFrom<S>(t: Tree<S>, j: nat, g: GoalTest): (r: GoalTest)
    requires Wf(t)
    ensures r.checking == g.checking
    ensures !g.checking ==> r == g
    ensures r.verdict != g.verdict ==> exists i :: j <= i < |t.pairs| && !Explorable(t, i)
    ensures g.checking && (exists i :: j <= i < |t.pairs| && !Explorable(t, i)) ==> r.verdict != Unlabelled
    ensures r.verdict == GoalLabel && g.verdict != GoalLabel ==> exists i :: j <= i < |t.pairs| && IsFinal(t, i)
    decreases |t.pairs| - j
  {
    if j >= |t.pairs| then g
    else
      var g' := if !g.checking then g
                else if IsFinal(t, j) then g.(verdict := GoalLabel)
                else if DoublePassive(t, j) then g.(verdict := PassLabel)
                else g;
      assert g'.verdict != g.verdict || (g.checking && !Explorable(t, j)) ==> !Explorable(t, j);
      LabelFrom(t, j + 1, g')
  }

  // ---------------------------------------------------------------------------------------
  // The step
  // ---------------------------------------------------------------------------------------

  predicate InTree<S>(t: Tree<S>, frontier: seq<nat>)
  {
    forall i :: 0 <= i < |frontier| ==> frontier[i] < |t.pairs|
  }

  /** The selected pair after its own exploration: assessed and de-duplicated, with the
      possible worlds the robot's refinement in the human's sight left. */
  function Explored<S>(t: Tree<S>, sel: nat, p: Pair<S>, possible: seq<World<S>>): (r: Tree<S>)
    requires Wf(t) && sel < |t.pairs|
    requires p == t.pairs[sel].(possible := p.possible, copresent := p.copresent)
    ensures Wf(r) && SameLinks(t, r)
    ensures r.pairs == t.pairs[sel := p.(possible := possible)]
  {
    var r := t.(pairs := t.pairs[sel := p.(possible := possible)]);
    SameLinksWf(t, r);
    r
  }

  /** The candidates placed in a new step below pair `sel`, the new pairs that repeat a pass
      marked. */
  function Grow<S>(t: Tree<S>, sel: nat, cs: seq<Candidate<S>>): (r: Tree<S>)
    requires Wf(t) && sel < |t.pairs|
    ensures Wf(r)
    ensures |r.pairs| == |t.pairs| + |cs|
    ensures |r.steps| == |t.steps| + 1 && r.steps[..|t.steps|] == t.steps
    ensures r.steps[|t.steps|] == NewStep(t, sel, Arrange(cs))
  {
    var gs := Arrange(cs);
    FlattenArrangeLength(cs);
    var t2 := AddStep(t, sel, gs);
    var t3 := MarkPassFrom(t2, |t.pairs|);
    SameLinksWf(t2, t3);
    t3
  }

  lemma FlattenArrangeLength<S>(cs: seq<Candidate<S>>)
    ensures |Flatten(Arrange(cs))| == |cs|
  {
    ArrangeIsPermutation(cs);
    assert |multiset(Flatten(Arrange(cs)))| == |multiset(cs)|;
  }

  /** What growing does to the pairs: the earlier pairs other than `sel` are untouched, `sel`
      gains the new pairs as its next ones, and every new pair extends `sel`, sits in the new
      step, has the opposite node type and is not done. */
  lemma GrowPairs<S>(t: Tree<S>, sel: nat, cs: seq<Candidate<S>>)
    requires Wf(t) && sel < |t.pairs|
    ensures var r := Grow(t, sel, cs);
            (forall i :: 0 <= i < |t.pairs| && i != sel ==> r.pairs[i] == t.pairs[i]) &&
            r.pairs[sel] == t.pairs[sel].(next := t.pairs[sel].next + Range(|t.pairs|, |cs|))
    ensures var r := Grow(t, sel, cs);
            forall i :: |t.pairs| <= i < |r.pairs| ==>
              r.pairs[i].previous == Some(sel) && r.pairs[i].step == |t.steps| &&
              r.pairs[i].nodeType == Flip(t.pairs[sel].nodeType) && !r.pairs[i].done
  {
    var gs := Arrange(cs);
    FlattenArrangeLength(cs);
    var t2 := AddStep(t, sel, gs);
    var t3 := MarkPassFrom(t2, |t.pairs|);
    assert t3 == Grow(t, sel, cs);
    forall i | 0 <= i < |t.pairs| && i != sel
      ensures t3.pairs[i] == t.pairs[i]
    {
      assert t2.pairs[i] == t.pairs[i];
    }
    assert t2.pairs[sel] == t.pairs[sel].(next := t.pairs[sel].next + Range(|t.pairs|, |cs|));
    forall i | |t.pairs| <= i < |t3.pairs|
      ensures t3.pairs[i].previous == Some(sel) && t3.pairs[i].step == |t.steps| &&
              t3.pairs[i].nodeType == Flip(t.pairs[sel].nodeType) && !t3.pairs[i].done
    {
      var k := i - |t.pairs|;
      assert t2.pairs[|t.pairs| + k] == Place(Flatten(gs)[k], sel, t.pairs[sel].nodeType, |t.steps|);
    }
  }

  /** `exploration_step_tt`: explore the first pair of the frontier. The candidates of the
      acting agent become the pairs of a new step below it, and the frontier becomes the new
      pairs that still need exploring, in order, followed by the rest of the old frontier. */
  function ExplorationStep<S>(dom: Domain<S>, t: Tree<S>, frontier: seq<nat>, goal: GoalTest,
                              maxWorlds: nat, fuel: nat)
    : (r: Result<Outcome<S>, EngineError>)
    requires Wf(t) && InTree(t, frontier)
    ensures |frontier| == 0 ==> r == Err(EmptyFrontier)
    ensures r.Ok? ==> Wf(r.value.tree) && InTree(r.value.tree, r.value.frontier)
    ensures r.Ok? ==> |r.value.tree.pairs| >= |t.pairs|
    ensures r.Ok? ==> |r.value.tree.steps| == |t.steps| + 1 && r.value.tree.steps[..|t.steps|] == t.steps
    ensures r.Ok? ==> r.value.frontier == KeptFrom(r.value.tree, |t.pairs|) + frontier[1..]
    ensures r.Ok? ==> r.value.maxWorlds >= maxWorlds
    ensures r.Ok? ==> r.value.goal.checking == goal.checking && (!goal.checking ==> r.value.goal == goal)
  {
    if |frontier| == 0 then Err(EmptyFrontier)
    else
      var sel := frontier[0];
      var p := Assessed(dom, t.pairs[sel]);
      var agent :- ActingAgent(dom, p);
      var res :- Candidates(dom, p, agent, fuel);
      var t1 := Explored(t, sel, p, res.1);
      var t3 := Grow(t1, sel, res.0);
      var next := KeptFrom(t3, |t.pairs|) + frontier[1..];
      NextFrontierInTree(t, t3, frontier);
      Ok(Outcome(t3, next, LabelFrom(t3, |t.pairs|, goal), MaxWorlds(maxWorlds, |p.possible|)))
  }

  lemma NextFrontierInTree<S>(t: Tree<S>, u: Tree<S>, frontier: seq<nat>)
    requires Wf(u) && InTree(t, frontier) && |frontier| > 0 && |t.pairs| <= |u.pairs|
    ensures InTree(u, KeptFrom(u, |t.pairs|) + frontier[1..])
  {
    var kept := KeptFrom(u, |t.pairs|);
    forall i | 0 <= i < |kept| + |frontier| - 1
      ensures (kept + frontier[1..])[i] < |u.pairs|
    {
      if i < |kept| {
        assert kept[i] in kept;
      } else {
        assert (kept + frontier[1..])[i] == frontier[i - |kept| + 1];
      }
    }
  }

  /** How a step grows the pairs of `t` below pair `sel` into those of `u`: the pairs other
      than `sel` are untouched; `sel` keeps its actions, end world, links and flags and gains
      the new pairs as its next ones; each new pair extends it, sits in the new step, has the
      opposite node type and is not done. */
  ghost predicate GrownFrom<S>(t: Tree<S>, u: Tree<S>, sel: nat)
    requires sel < |t.pairs| <= |u.pairs|
  {
    (forall i :: 0 <= i < |t.pairs| && i != sel ==> u.pairs[i] == t.pairs[i]) &&
    (var q := u.pairs[sel];
     var p := t.pairs[sel];
     q.human == p.human && q.robot == p.robot && q.end == p.end &&
     q.previous == p.previous && q.nodeType == p.nodeType && q.done == p.done &&
     q.next == p.next + Range(|t.pairs|, |u.pairs| - |t.pairs|)) &&
    (forall i :: |t.pairs| <= i < |u.pairs| ==>
       u.pairs[i].previous == Some(sel) && u.pairs[i].step == |t.steps| &&
       u.pairs[i].nodeType == Flip(t.pairs[sel].nodeType) && !u.pairs[i].done)
  }

  lemma ExploredGrownFrom<S>(t: Tree<S>, sel: nat, p: Pair<S>, possible: seq<World<S>>,
                             cs: seq<Candidate<S>>)
    requires Wf(t) && sel < |t.pairs|
    requires p == t.pairs[sel].(possible := p.possible, copresent := p.copresent)
    ensures GrownFrom(t, Grow(Explored(t, sel, p, possible), sel, cs), sel)
  {
    GrowPairs(Explored(t, sel, p, possible), sel, cs);
  }

  /** What an exploration step does to the pairs: it grows them below the explored pair (see
      `GrownFrom`). */
  lemma ExplorationStepPairs<S>(dom: Domain<S>, t: Tree<S>, frontier: seq<nat>, goal: GoalTest,
                                maxWorlds: nat, fuel: nat)
    requires Wf(t) && InTree(t, frontier)
    requires ExplorationStep(dom, t, frontier, goal, maxWorlds, fuel).Ok?
    ensures |frontier| > 0 && frontier[0] < |t.pairs|
    ensures GrownFrom(t, ExplorationStep(dom, t, frontier, goal, maxWorlds, fuel).value.tree, frontier[0])
  {
    var sel := frontier[0];
    var p := Assessed(dom, t.pairs[sel]);
    var res := Candidates(dom, p, ActingAgent(dom, p).value, fuel).value;
    ExploredGrownFrom(t, sel, p, res.1, res.0);
  }
}

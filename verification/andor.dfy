/** The AND/OR search over the action tree (`regress_new_status_backward`,
    `fun_AND_OR_search_new`, `verify_cycle` and `extract_complete_andor_policy` in
    ConcurrentModule.py): pairs are explored breadth first; a pair whose exploration leaves
    nothing to explore is marked by the goal test and its status is propagated to its
    ancestors, an OR node being solved by one solved child and an AND node by all of them;
    the search stops once the initial pair is solved, and the policy keeps, below every AND
    node, all solved children and, below every OR node, the first one. */
module AndOr {
  import opened Wrappers
  import opened Tasks
  import opened Htn
  import opened ActionTree
  import opened Explore

  // ---------------------------------------------------------------------------------------
  // Regression of the solved status
  // ---------------------------------------------------------------------------------------

  /** Some child of `p` that is not a pass is solved. */
  predicate SomeChildDone<S>(t: Tree<S>, p: nat)
    requires Wf(t) && p < |t.pairs|
  {
    exists k :: 0 <= k < |t.pairs[p].next| &&
      !t.pairs[t.pairs[p].next[k]].pass && t.pairs[t.pairs[p].next[k]].done
  }

  /** Every child of `p` that is not a pass is solved. */
  predicate AllChildrenDone<S>(t: Tree<S>, p: nat)
    requires Wf(t) && p < |t.pairs|
  {
    forall k :: 0 <= k < |t.pairs[p].next| && !t.pairs[t.pairs[p].next[k]].pass ==>
      t.pairs[t.pairs[p].next[k]].done
  }

  /** What solves a node: one solved child for an OR node, all of them for an AND node. */
  predicate Solved<S>(t: Tree<S>, p: nat)
    requires Wf(t) && p < |t.pairs|
  {
    if t.pairs[p].nodeType == OrNode then SomeChildDone(t, p) else AllChildrenDone(t, p)
  }

  /** `a` is `p` or one of the pairs `p` extends, directly or not. */
  ghost predicate Above<S>(t: Tree<S>, a: nat, p: nat)
    requires Wf(t) && p < |t.pairs|
    decreases p
  {
    a == p || (t.pairs[p].previous.Some? && Above(t, a, t.pairs[p].previous.value))
  }

  lemma {:induction false} AboveSameLinks<S>(t: Tree<S>, u: Tree<S>, a: nat, p: nat)
    requires Wf(t) && SameLinks(t, u) && p < |t.pairs|
    ensures Wf(u) && (Above(u, a, p) <==> Above(t, a, p))
    decreases p
  {
    SameLinksWf(t, u);
    if t.pairs[p].previous.Some? {
      AboveSameLinks(t, u, a, t.pairs[p].previous.value);
    }
  }

  lemma {:induction false} AboveIsBelow<S>(t: Tree<S>, a: nat, p: nat)
    requires Wf(t) && p < |t.pairs| && Above(t, a, p)
    ensures a <= p
    decreases p
  {
    if a != p {
      AboveIsBelow(t, a, t.pairs[p].previous.value);
    }
  }

  /** Only the solved marks change, and only from unsolved to solved. */
  ghost predicate MarksGrow<S>(t: Tree<S>, u: Tree<S>)
  {
    |u.pairs| == |t.pairs| && u.steps == t.steps &&
    forall i :: 0 <= i < |t.pairs| ==>
      u.pairs[i] == t.pairs[i].(done := u.pairs[i].done) && (t.pairs[i].done ==> u.pairs[i].done)
  }

  function SetDone<S>(t: Tree<S>, p: nat): (r: Tree<S>)
    requires Wf(t) && p < |t.pairs|
    ensures Wf(r) && SameLinks(t, r) && MarksGrow(t, r)
    ensures r.pairs[p].done
    ensures forall i :: 0 <= i < |t.pairs| && i != p ==> r.pairs[i] == t.pairs[i]
  {
    var r := t.(pairs := t.pairs[p := t.pairs[p].(done := true)]);
    SameLinksWf(t, r);
    r
  }

  /** Marks `p` when its children solve it. */
  function MarkIfSolved<S>(t: Tree<S>, p: nat): (r: Tree<S>)
    requires Wf(t) && p < |t.pairs|
    ensures Wf(r) && SameLinks(t, r) && MarksGrow(t, r)
    ensures forall i :: 0 <= i < |t.pairs| && i != p ==> r.pairs[i] == t.pairs[i]
    ensures r.pairs[p].done <==> t.pairs[p].done || Solved(t, p)
  {
    if Solved(t, p) then SetDone(t, p) else t
  }

  /** The loop of `regress_new_status_backward` from the unsolved pair `p` upwards: an OR node
      is marked when a child is solved and the walk goes on either way; an AND node ends the
      walk unless all its children are solved, in which case it is marked. The walk also ends
      at the initial pair and below an already solved pair. */
  function RegressUp<S>(t: Tree<S>, p: nat): (r: Tree<S>)
    requires Wf(t) && p < |t.pairs|
    ensures Wf(r) && SameLinks(t, r) && MarksGrow(t, r)
    ensures forall i :: p < i < |t.pairs| ==> r.pairs[i] == t.pairs[i]
    decreases p
  {
    if t.pairs[p].nodeType == AndNode && !AllChildrenDone(t, p) then t
    else
      var t' := MarkIfSolved(t, p);
      match t.pairs[p].previous
      case None => t'
      case Some(q) => if t'.pairs[q].done then t' else RegressUp(t', q)
  }

  /** The walk decides `p` by its children: it ends solved exactly when it was solved or its
      children solve it. */
  lemma RegressUpDecides<S>(t: Tree<S>, p: nat)
    requires Wf(t) && p < |t.pairs|
    ensures RegressUp(t, p).pairs[p].done <==> t.pairs[p].done || Solved(t, p)
  {
    if !(t.pairs[p].nodeType == AndNode && !AllChildrenDone(t, p)) {
      var t' := MarkIfSolved(t, p);
      assert t'.pairs[p].done <==> t.pairs[p].done || Solved(t, p);
    }
  }

  /** A children's mark unchanged keeps a node solved. */
  lemma SolvedKept<S>(t: Tree<S>, u: Tree<S>, p: nat)
    requires Wf(t) && SameLinks(t, u) && MarksGrow(t, u) && p < |t.pairs|
    requires forall i :: p < i < |t.pairs| ==> u.pairs[i] == t.pairs[i]
    ensures Wf(u) && (Solved(u, p) <==> Solved(t, p))
  {
    SameLinksWf(t, u);
    assert forall k :: 0 <= k < |t.pairs[p].next| ==> t.pairs[p].next[k] > p;
  }

  /** Every pair the walk marks lies on the way up from `p` and is solved by its children in
      the resulting tree. */
  lemma {:induction false} RegressUpJustified<S>(t: Tree<S>, p: nat)
    requires Wf(t) && p < |t.pairs|
    ensures var r := RegressUp(t, p);
            forall i :: 0 <= i < |t.pairs| && r.pairs[i].done && !t.pairs[i].done ==>
              Above(t, i, p) && Solved(r, i)
    decreases p
  {
    if !(t.pairs[p].nodeType == AndNode && !AllChildrenDone(t, p)) {
      var t' := MarkIfSolved(t, p);
      if t.pairs[p].previous.Some? && !t'.pairs[t.pairs[p].previous.value].done {
        var q := t.pairs[p].previous.value;
        RegressUpJustified(t', q);
        JustifiedBelow(t, p, q);
      } else if Solved(t, p) {
        SolvedKept(t, t', p);
      }
    }
  }

  /** The pairs marked by the walk from `q`, the pair above `p`, lie above `p` too, and `p`
      itself is marked only when its children solve it. */
  lemma JustifiedBelow<S>(t: Tree<S>, p: nat, q: nat)
    requires Wf(t) && p < |t.pairs| && t.pairs[p].previous == Some(q)
    requires var t' := MarkIfSolved(t, p);
             var r := RegressUp(t', q);
             forall i :: 0 <= i < |t.pairs| && r.pairs[i].done && !t'.pairs[i].done ==>
               Above(t', i, q) && Solved(r, i)
    ensures var r := RegressUp(MarkIfSolved(t, p), q);
            forall i :: 0 <= i < |t.pairs| && r.pairs[i].done && !t.pairs[i].done ==>
              Above(t, i, p) && Solved(r, i)
  {
    var t' := MarkIfSolved(t, p);
    var r := RegressUp(t', q);
    forall i | 0 <= i < |t.pairs| && r.pairs[i].done && !t.pairs[i].done
      ensures Above(t, i, p) && Solved(r, i)
    {
      if i == p {
        SolvedKept(t, t', p);
        SolvedKept(t', r, p);
      } else {
        AboveSameLinks(t, t', i, q);
      }
    }
  }

  /** Every pair marked in `r` but not in `t` lies below every pair above `p` that `t`
      already marks solved: a walk from `p` never gets past a solved pair. */
  ghost predicate MarksBelowSolved<S>(t: Tree<S>, r: Tree<S>, p: nat)
    requires Wf(t) && p < |t.pairs| && |r.pairs| == |t.pairs|
  {
    forall i, a :: 0 <= i < |t.pairs| && 0 <= a < |t.pairs| && r.pairs[i].done &&
                   !t.pairs[i].done && Above(t, a, p) && t.pairs[a].done ==>
      a < i
  }

  /** The walk from the unsolved pair `p` stops below the first pair above it that is
      already solved: every pair it marks lies below every such pair. */
  lemma {:induction false} RegressUpStopsAtDone<S>(t: Tree<S>, p: nat)
    requires Wf(t) && p < |t.pairs| && !t.pairs[p].done
    ensures MarksBelowSolved(t, RegressUp(t, p), p)
    decreases p
  {
    var r := RegressUp(t, p);
    if !(t.pairs[p].nodeType == AndNode && !AllChildrenDone(t, p)) {
      var t' := MarkIfSolved(t, p);
      match t.pairs[p].previous
      case None =>
      case Some(q) =>
        if !t'.pairs[q].done {
          RegressUpStopsAtDone(t', q);
        }
        forall i, a | 0 <= i < |t.pairs| && 0 <= a < |t.pairs| && r.pairs[i].done &&
                      !t.pairs[i].done && Above(t, a, p) && t.pairs[a].done
          ensures a < i
        {
          assert a != p;
          AboveIsBelow(t, a, q);
          if i != p {
            AboveSameLinks(t, t', a, q);
          }
        }
    }
  }

  /** `regress_new_status_backward`: a solved or passed pair hands its status to the pair it
      extends unless that one is already solved. The initial pair has nothing above it. */
  function Regress<S>(t: Tree<S>, e: nat): (r: Result<Tree<S>, EngineError>)
    requires Wf(t) && e < |t.pairs|
    ensures r.Err? <==> (t.pairs[e].done || t.pairs[e].pass) && t.pairs[e].previous.None?
    ensures r.Err? ==> r.error == RegressFromRoot
    ensures r.Ok? ==> Wf(r.value) && SameLinks(t, r.value) && MarksGrow(t, r.value)
    ensures r.Ok? && !t.pairs[e].done && !t.pairs[e].pass ==> r.value == t
    ensures r.Ok? ==> forall i :: e <= i < |t.pairs| ==> r.value.pairs[i] == t.pairs[i]
  {
    if !t.pairs[e].done && !t.pairs[e].pass then Ok(t)
    else
      match t.pairs[e].previous
      case None => Err(RegressFromRoot)
      case Some(p) => if t.pairs[p].done then Ok(t) else Ok(RegressUp(t, p))
  }

  /** The pair above a solved or passed pair ends solved exactly when it was or when its
      children solve it; every pair newly marked lies above the pair and is solved by its
      children; and the walk stops at the first pair above that is already solved, marking
      nothing beyond it. */
  lemma RegressSpec<S>(t: Tree<S>, e: nat)
    requires Wf(t) && e < |t.pairs| && Regress(t, e).Ok?
    ensures var r := Regress(t, e).value;
            (t.pairs[e].done || t.pairs[e].pass) ==>
              var p := t.pairs[e].previous.value;
              r.pairs[p].done <==> t.pairs[p].done || Solved(t, p)
    ensures var r := Regress(t, e).value;
            forall i :: 0 <= i < |t.pairs| && r.pairs[i].done && !t.pairs[i].done ==>
              i < e && Above(t, i, e) && Solved(r, i)
    ensures (t.pairs[e].done || t.pairs[e].pass) ==>
              MarksBelowSolved(t, Regress(t, e).value, t.pairs[e].previous.value)
  {
    var r := Regress(t, e).value;
    if (t.pairs[e].done || t.pairs[e].pass) && !t.pairs[t.pairs[e].previous.value].done {
      var p := t.pairs[e].previous.value;
      RegressUpDecides(t, p);
      RegressUpJustified(t, p);
      RegressUpStopsAtDone(t, p);
      forall i | 0 <= i < |t.pairs| && r.pairs[i].done && !t.pairs[i].done
        ensures i < e && Above(t, i, e) && Solved(r, i)
      {
        AboveIsBelow(t, i, p);
      }
    }
  }

  /** The same stop seen from the solved or passed pair itself: no pair is marked above an
      ancestor of `e` that was already solved. */
  lemma RegressStopsAtDone<S>(t: Tree<S>, e: nat)
    requires Wf(t) && e < |t.pairs| && Regress(t, e).Ok?
    ensures var r := Regress(t, e).value;
            forall i, a :: 0 <= i < |t.pairs| && 0 <= a < |t.pairs| && r.pairs[i].done &&
                           !t.pairs[i].done && a != e && Above(t, a, e) && t.pairs[a].done ==>
              a < i
  {
    RegressSpec(t, e);
  }

  // ---------------------------------------------------------------------------------------
  // The search loop
  // ---------------------------------------------------------------------------------------

  /** The state of `fun_AND_OR_search_new`: the tree, the pairs still to explore in order,
      the goal test shared by every exploration step and the largest number of worlds seen. */
  datatype Search<S> = Search(tree: Tree<S>, frontier: seq<nat>, goal: GoalTest, maxWorlds: nat)

  ghost predicate SearchWf<S>(s: Search<S>)
  {
    Wf(s.tree) && InTree(s.tree, s.frontier) && |s.tree.pairs| > 0
  }

  /** The goal test's verdict applied to a pair: `goal` solves it, `pass` marks it passed. */
  function MarkVerdict<S>(t: Tree<S>, e: nat, v: Label): (r: Tree<S>)
    requires Wf(t) && e < |t.pairs|
    ensures Wf(r) && SameLinks(t, r)
    ensures forall i :: 0 <= i < |t.pairs| && i != e ==> r.pairs[i] == t.pairs[i]
    ensures r.pairs[e].done <==> t.pairs[e].done || v == GoalLabel
    ensures r.pairs[e].pass <==> t.pairs[e].pass || v == PassLabel
    ensures r.pairs[e] == t.pairs[e].(done := r.pairs[e].done, pass := r.pairs[e].pass)
  {
    var p := t.pairs[e];
    var q := if v == GoalLabel then p.(done := true)
             else if v == PassLabel then p.(pass := true) else p;
    var r := t.(pairs := t.pairs[e := q]);
    SameLinksWf(t, r);
    r
  }

  /** `verify_cycle`: the exploration of pair `sel` repeated on the tree as it was before the
      turn, with the goal test switched on; only its verdict and the worlds it saw are used. */
  function VerifyCycle<S>(dom: Domain<S>, t: Tree<S>, sel: nat, goal: GoalTest, maxWorlds: nat,
                          fuel: nat)
    : (r: Result<(GoalTest, nat), EngineError>)
    requires Wf(t) && sel < |t.pairs|
    ensures r.Ok? ==> r.value.0.checking && r.value.1 >= maxWorlds
  {
    var check :- ExplorationStep(dom, t, [sel], goal.(checking := true), maxWorlds, fuel);
    Ok((check.goal, check.maxWorlds))
  }

  /** A pair with nothing left to explore: marked by the verdict, its status regressed. */
  function Settle<S>(t: Tree<S>, sel: nat, v: Label): (r: Result<Tree<S>, EngineError>)
    requires Wf(t) && sel < |t.pairs|
    ensures r.Ok? ==> Wf(r.value) && |r.value.pairs| == |t.pairs|
    ensures r.Ok? ==> forall i :: 0 <= i < |t.pairs| && t.pairs[i].done ==> r.value.pairs[i].done
    ensures r.Ok? ==> (r.value.pairs[sel].done <==> t.pairs[sel].done || v == GoalLabel)
    ensures r.Err? <==> (t.pairs[sel].done || t.pairs[sel].pass || v != Unlabelled) &&
                        t.pairs[sel].previous.None?
  {
    Regress(MarkVerdict(t, sel, v), sel)
  }

  /** One turn of the search loop: the first pair of the frontier is explored; when nothing
      is left to explore below it, the goal test is switched on for good, the exploration is
      repeated on the tree as it was before the turn to read the verdict, the pair is marked
      accordingly and its status regressed. Otherwise the new pairs join the end of the
      frontier. */
  function SearchTurn<S>(dom: Domain<S>, s: Search<S>, fuel: nat): (r: Result<Search<S>, EngineError>)
    requires SearchWf(s) && |s.frontier| > 0
    ensures r.Ok? ==> SearchWf(r.value) && |r.value.tree.pairs| >= |s.tree.pairs|
    ensures r.Ok? ==> (s.goal.checking ==> r.value.goal.checking) && r.value.maxWorlds >= s.maxWorlds
  {
    var sel := s.frontier[0];
    var out :- ExplorationStep(dom, s.tree, [sel], s.goal, s.maxWorlds, fuel);
    if |out.frontier| > 0 then
      var next := s.frontier[1..] + out.frontier;
      InTreeJoin(s.tree, out.tree, s.frontier, out.frontier);
      Ok(Search(out.tree, next, out.goal, out.maxWorlds))
    else
      var check :- VerifyCycle(dom, s.tree, sel, out.goal, out.maxWorlds, fuel);
      CloseTurn(s, out.tree, check)
  }

  /** The end of a turn whose explored pair has nothing left to explore below it: the pair is
      settled by the verdict of the repeated exploration and leaves the frontier. */
  function CloseTurn<S>(s: Search<S>, u: Tree<S>, check: (GoalTest, nat))
    : (r: Result<Search<S>, EngineError>)
    requires SearchWf(s) && |s.frontier| > 0 && Wf(u) && |u.pairs| >= |s.tree.pairs|
    ensures r.Ok? ==> SearchWf(r.value) && |r.value.tree.pairs| == |u.pairs|
    ensures r.Ok? ==> r.value.goal == check.0 && r.value.maxWorlds == check.1
    ensures r.Ok? ==> KeepsSolved(u, r.value.tree)
  {
    var t :- Settle(u, s.frontier[0], check.0.verdict);
    InTreeJoin(s.tree, t, s.frontier, []);
    Ok(Search(t, s.frontier[1..], check.0, check.1))
  }

  lemma InTreeJoin<S>(t: Tree<S>, u: Tree<S>, frontier: seq<nat>, added: seq<nat>)
    requires InTree(t, frontier) && InTree(u, added) && |frontier| > 0 && |t.pairs| <= |u.pairs|
    ensures InTree(u, frontier[1..] + added)
  {
    var next := frontier[1..] + added;
    forall i | 0 <= i < |next|
      ensures next[i] < |u.pairs|
    {
      if i < |frontier| - 1 {
        assert next[i] == frontier[i + 1];
      } else {
        assert next[i] == added[i - |frontier| + 1];
      }
    }
  }

  /** Every pair of `t` solved in `t` is still solved in `u`. */
  ghost predicate KeepsSolved<S>(t: Tree<S>, u: Tree<S>)
  {
    |t.pairs| <= |u.pairs| && forall i :: 0 <= i < |t.pairs| && t.pairs[i].done ==> u.pairs[i].done
  }

  lemma KeepsSolvedTransitive<S>(t: Tree<S>, u: Tree<S>, v: Tree<S>)
    requires KeepsSolved(t, u) && KeepsSolved(u, v)
    ensures KeepsSolved(t, v)
  {
  }

  /** An exploration step never clears a solved mark. */
  lemma ExplorationKeepsSolved<S>(dom: Domain<S>, t: Tree<S>, sel: nat, goal: GoalTest,
                                  maxWorlds: nat, fuel: nat)
    requires Wf(t) && sel < |t.pairs|
    requires ExplorationStep(dom, t, [sel], goal, maxWorlds, fuel).Ok?
    ensures KeepsSolved(t, ExplorationStep(dom, t, [sel], goal, maxWorlds, fuel).value.tree)
  {
    ExplorationStepPairs(dom, t, [sel], goal, maxWorlds, fuel);
  }

  /** A turn never clears a solved mark of a pair that was already in the tree. */
  lemma SearchTurnKeepsSolved<S>(dom: Domain<S>, s: Search<S>, fuel: nat)
    requires SearchWf(s) && |s.frontier| > 0 && SearchTurn(dom, s, fuel).Ok?
    ensures KeepsSolved(s.tree, SearchTurn(dom, s, fuel).value.tree)
  {
    var sel := s.frontier[0];
    var out := ExplorationStep(dom, s.tree, [sel], s.goal, s.maxWorlds, fuel).value;
    ExplorationKeepsSolved(dom, s.tree, sel, s.goal, s.maxWorlds, fuel);
    if |out.frontier| == 0 {
      var check := VerifyCycle(dom, s.tree, sel, out.goal, out.maxWorlds, fuel).value;
      KeepsSolvedTransitive(s.tree, out.tree, CloseTurn(s, out.tree, check).value.tree);
    }
  }

  /** `fun_AND_OR_search_new`: turns until the frontier is empty or the initial pair is
      solved; `steps` bounds the number of turns. */
  function AndOrSearch<S>(dom: Domain<S>, s: Search<S>, fuel: nat, steps: nat)
    : (r: Result<Search<S>, EngineError>)
    requires SearchWf(s)
    ensures r.Ok? ==> SearchWf(r.value) && |r.value.tree.pairs| >= |s.tree.pairs|
    ensures r.Ok? ==> r.value.tree.pairs[0].done || |r.value.frontier| == 0
    ensures r.Ok? && s.tree.pairs[0].done && |s.frontier| == 0 ==> r.value == s
    ensures r.Ok? ==> KeepsSolved(s.tree, r.value.tree)
    decreases steps
  {
    if |s.frontier| == 0 then Ok(s)
    else if steps == 0 then Err(OutOfFuel)
    else
      var s' :- SearchTurn(dom, s, fuel);
      SearchTurnKeepsSolved(dom, s, fuel);
      if s'.tree.pairs[0].done then Ok(s')
      else
        var r := AndOrSearch(dom, s', fuel, steps - 1);
        if r.Ok? then
          KeepsSolvedTransitive(s.tree, s'.tree, r.value.tree);
          r
        else r
  }

  /** The search as `explore_ANDOR` starts it: the initial tree, the initial pair as the only
      pair to explore, the goal test off and no world seen. */
  function StartSearch<S>(dom: Domain<S>, world: World<S>): (s: Search<S>)
    ensures SearchWf(s) && s.frontier == [0] && !s.goal.checking
  {
    Search(InitTree(dom, world), [0], GoalTest(false, Unlabelled), 0)
  }

  /** `explore_ANDOR` without its reporting: the search started from `world`, run until the
      root is solved or nothing is left to explore; the root still holds `world`. */
  function ExploreAndOr<S>(dom: Domain<S>, world: World<S>, fuel: nat, steps: nat)
    : (r: Result<Search<S>, EngineError>)
    ensures r.Ok? ==> |r.value.tree.pairs| > 0 && (r.value.tree.pairs[0].done || |r.value.frontier| == 0)
  {
    AndOrSearch(dom, StartSearch(dom, world), fuel, steps)
  }

  // ---------------------------------------------------------------------------------------
  // Policy extraction
  // ---------------------------------------------------------------------------------------

  /** The steps from `c` on whose parent is step `s`, in the order they were created. */
  function Children<S>(t: Tree<S>, s: nat, c: nat): (r: seq<nat>)
    ensures c <= |t.steps| ==> |r| <= |t.steps| - c
    ensures forall k :: k in r <==> c <= k < |t.steps| && t.steps[k].parent == Some(s)
    ensures forall a :: 0 <= a < |r| ==> c <= r[a] < |t.steps| && t.steps[r[a]].parent == Some(s)
    ensures forall a, b :: 0 <= a < b < |r| ==> r[a] < r[b]
    decreases |t.steps| - c
  {
    if c >= |t.steps| then []
    else (if t.steps[c].parent == Some(s) then [c] else []) + Children(t, s, c + 1)
  }

  /** The pair a step extends is solved (`child.from_pair.node_done == "DONE"`). */
  predicate FromDone<S>(t: Tree<S>, c: nat)
    requires Wf(t) && c < |t.steps|
  {
    t.steps[c].from.Some? && t.pairs[t.steps[c].from.value].done
  }

  /** The steps of `cs` whose pair is solved, in order. */
  function DoneAmong<S>(t: Tree<S>, cs: seq<nat>): (r: seq<nat>)
    requires Wf(t) && forall k :: 0 <= k < |cs| ==> cs[k] < |t.steps|
    ensures |r| <= |cs|
    ensures forall k :: k in r <==> k in cs && FromDone(t, k)
  {
    if |cs| == 0 then []
    else (if FromDone(t, cs[0]) then [cs[0]] else []) + DoneAmong(t, cs[1..])
  }

  /** The children a step keeps in the policy: all solved ones below an AND node, the first
      solved one below an OR node. */
  function Pruned<S>(t: Tree<S>, s: nat): (r: seq<nat>)
    requires Wf(t) && s < |t.steps| && t.steps[s].from.Some?
    ensures |r| <= |t.steps|
    ensures forall k :: k in r ==> k in Children(t, s, 0) && FromDone(t, k)
    ensures forall a :: 0 <= a < |r| ==> s < r[a] < |t.steps|
  {
    var cs := Children(t, s, 0);
    var ds := DoneAmong(t, cs);
    assert forall a :: 0 <= a < |ds| ==> ds[a] in ds && ds[a] in cs;
    if t.pairs[t.steps[s].from.value].nodeType == AndNode then ds
    else if |ds| == 0 then [] else [ds[0]]
  }

  lemma {:induction false} DoneAmongFirst<S>(t: Tree<S>, cs: seq<nat>)
    requires Wf(t) && forall k :: 0 <= k < |cs| ==> cs[k] < |t.steps|
    requires |DoneAmong(t, cs)| > 0
    ensures exists j :: 0 <= j < |cs| && cs[j] == DoneAmong(t, cs)[0] &&
              forall l :: 0 <= l < j ==> !FromDone(t, cs[l])
  {
    if !FromDone(t, cs[0]) {
      DoneAmongFirst(t, cs[1..]);
      var j :| 0 <= j < |cs[1..]| && cs[1..][j] == DoneAmong(t, cs[1..])[0] &&
               forall l :: 0 <= l < j ==> !FromDone(t, cs[1..][l]);
      assert cs[j + 1] == DoneAmong(t, cs)[0];
      forall l | 0 <= l < j + 1
        ensures !FromDone(t, cs[l])
      {
        if l > 0 {
          assert cs[l] == cs[1..][l - 1];
        }
      }
    }
  }

  /** Below an AND node the policy keeps exactly the solved children. */
  lemma PrunedAnd<S>(t: Tree<S>, s: nat)
    requires Wf(t) && s < |t.steps| && t.steps[s].from.Some?
    requires t.pairs[t.steps[s].from.value].nodeType == AndNode
    ensures forall k :: k in Pruned(t, s) <==> k in Children(t, s, 0) && FromDone(t, k)
  {
  }

  /** Below an OR node the policy keeps one child when some child is solved, and then the
      first solved one. */
  lemma PrunedOr<S>(t: Tree<S>, s: nat)
    requires Wf(t) && s < |t.steps| && t.steps[s].from.Some?
    requires t.pairs[t.steps[s].from.value].nodeType == OrNode
    ensures var r := Pruned(t, s);
            var cs := Children(t, s, 0);
            |r| <= 1 &&
            (|r| == 1 <==> exists k :: k in cs && FromDone(t, k)) &&
            (|r| == 1 ==> exists j :: 0 <= j < |cs| && cs[j] == r[0] &&
                            forall l :: 0 <= l < j ==> !FromDone(t, cs[l]))
  {
    var cs := Children(t, s, 0);
    var ds := DoneAmong(t, cs);
    if |ds| > 0 {
      DoneAmongFirst(t, cs);
      assert ds[0] in ds;
    }
  }

  /** Step `x` is entered from its parent `p`: below the initial step (no pair, depth 0) the
      walk enters its first child only; below any other step the children it keeps. */
  predicate Enters<S>(t: Tree<S>, p: nat, x: nat)
    requires Wf(t) && p < |t.steps|
  {
    if t.steps[p].from.None? then
      t.steps[p].depth == 0 && |Children(t, p, 0)| > 0 && x == Children(t, p, 0)[0]
    else x in Pruned(t, p)
  }

  /** The extraction started at step `s` reaches step `x`. */
  ghost predicate Reaches<S>(t: Tree<S>, s: nat, x: nat)
    requires Wf(t) && x < |t.steps|
    decreases x
  {
    x == s ||
    (s < x && t.steps[x].parent.Some? &&
     Reaches(t, s, t.steps[x].parent.value) && Enters(t, t.steps[x].parent.value, x))
  }

  /** `extract_complete_andor_policy` from step `s`, recording in `kept` the children each
      visited step keeps: the initial step keeps its children and goes on with the first one
      (there must be one); any other step without a pair is left alone; a step extending a
      pair keeps its pruned children and goes on with each of them. */
  function ExtractFrom<S>(t: Tree<S>, s: nat, kept: seq<seq<nat>>)
    : (r: Result<seq<seq<nat>>, EngineError>)
    requires Wf(t) && s < |t.steps| && |kept| == |t.steps|
    ensures r.Ok? ==> |r.value| == |t.steps|
    ensures r.Err? ==> r.error == NoRootChild
    decreases |t.steps| - s, |t.steps| + 1
  {
    if t.steps[s].from.None? then
      if t.steps[s].depth == 0 then
        var cs := Children(t, s, 0);
        if |cs| == 0 then Err(NoRootChild)
        else
          assert cs[0] in cs;
          ExtractFrom(t, cs[0], kept)
      else Ok(kept)
    else
      var ks := Pruned(t, s);
      ExtractAll(t, s, ks, kept[s := ks])
  }

  function ExtractAll<S>(t: Tree<S>, s: nat, ks: seq<nat>, kept: seq<seq<nat>>)
    : (r: Result<seq<seq<nat>>, EngineError>)
    requires Wf(t) && s < |t.steps| && |kept| == |t.steps| && |ks| <= |t.steps|
    requires forall k :: 0 <= k < |ks| ==> s < ks[k] < |t.steps|
    ensures r.Ok? ==> |r.value| == |t.steps|
    ensures r.Err? ==> r.error == NoRootChild
    decreases |t.steps| - s, |ks|
  {
    if |ks| == 0 then Ok(kept)
    else
      var kept' :- ExtractFrom(t, ks[0], kept);
      ExtractAll(t, s, ks[1..], kept')
  }

  /** The children every step keeps once the policy is extracted from the initial step;
      steps the extraction does not visit keep all their children. */
  function ExtractPolicy<S>(t: Tree<S>): (r: Result<seq<seq<nat>>, EngineError>)
    requires Wf(t) && |t.steps| > 0
    ensures r.Ok? ==> |r.value| == |t.steps|
  {
    ExtractFrom(t, 0, seq(|t.steps|, s requires 0 <= s < |t.steps| => Children(t, s, 0)))
  }

  /** The children kept by the extraction from `s`, given what was kept before it. */
  ghost predicate KeptFrom<S>(t: Tree<S>, s: nat, kept: seq<seq<nat>>, r: seq<seq<nat>>)
    requires Wf(t) && |kept| == |t.steps| && |r| == |t.steps|
  {
    forall x :: 0 <= x < |t.steps| ==>
      r[x] == if Reaches(t, s, x) && t.steps[x].from.Some? then Pruned(t, x) else kept[x]
  }

  lemma ReachesBelow<S>(t: Tree<S>, s: nat, x: nat)
    requires Wf(t) && x < |t.steps| && Reaches(t, s, x)
    ensures s <= x
  {
  }

  /** Reaching `x` from a kept child `k` of `s` is reaching it from `s`. */
  lemma {:induction false} ReachesThrough<S>(t: Tree<S>, s: nat, k: nat, x: nat)
    requires Wf(t) && s < k < |t.steps| && x < |t.steps|
    requires t.steps[k].parent == Some(s) && Enters(t, s, k)
    requires Reaches(t, k, x)
    ensures Reaches(t, s, x)
    decreases x
  {
    if x != k {
      ReachesThrough(t, s, k, t.steps[x].parent.value);
    }
  }

  /** Reaching `x` from `s`, other than `s` itself, goes through a child `s` enters. */
  lemma {:induction false} ReachesVia<S>(t: Tree<S>, s: nat, x: nat)
    requires Wf(t) && s < x < |t.steps| && Reaches(t, s, x)
    ensures exists k :: s < k <= x && t.steps[k].parent == Some(s) && Enters(t, s, k) &&
              Reaches(t, k, x)
    decreases x
  {
    var p := t.steps[x].parent.value;
    if p != s {
      ReachesVia(t, s, p);
      var k :| s < k <= p && t.steps[k].parent == Some(s) && Enters(t, s, k) && Reaches(t, k, p);
      assert Reaches(t, k, x);
    } else {
      assert Reaches(t, x, x);
    }
  }

  /** From the initial step the extraction reaches the step itself and what its first child
      reaches. */
  lemma RootReaches<S>(t: Tree<S>, s: nat)
    requires Wf(t) && s < |t.steps| && t.steps[s].from.None? && t.steps[s].depth == 0
    requires |Children(t, s, 0)| > 0
    ensures var c := Children(t, s, 0)[0];
            forall x :: 0 <= x < |t.steps| ==> (Reaches(t, s, x) <==> x == s || Reaches(t, c, x))
    ensures !Reaches(t, Children(t, s, 0)[0], s)
  {
    var cs := Children(t, s, 0);
    assert cs[0] in cs;
    forall x | 0 <= x < |t.steps|
      ensures Reaches(t, s, x) <==> x == s || Reaches(t, cs[0], x)
    {
      if Reaches(t, cs[0], x) {
        ReachesThrough(t, s, cs[0], x);
      }
      if x != s && Reaches(t, s, x) {
        ReachesBelow(t, s, x);
        ReachesVia(t, s, x);
      }
    }
  }

  /** From any other step without a pair the extraction reaches nothing but the step. */
  lemma LoneReaches<S>(t: Tree<S>, s: nat)
    requires Wf(t) && s < |t.steps| && t.steps[s].from.None? && t.steps[s].depth != 0
    ensures forall x :: 0 <= x < |t.steps| && Reaches(t, s, x) ==> x == s
  {
    forall x | 0 <= x < |t.steps| && Reaches(t, s, x)
      ensures x == s
    {
      if x != s {
        ReachesBelow(t, s, x);
        ReachesVia(t, s, x);
      }
    }
  }

  /** From a step extending a pair the extraction reaches the step and what its kept children
      reach. */
  lemma PrunedReaches<S>(t: Tree<S>, s: nat)
    requires Wf(t) && s < |t.steps| && t.steps[s].from.Some?
    ensures var ks := Pruned(t, s);
            forall x :: 0 <= x < |t.steps| ==>
              (Reaches(t, s, x) <==> x == s || exists j :: 0 <= j < |ks| && Reaches(t, ks[j], x))
    ensures var ks := Pruned(t, s);
            forall j :: 0 <= j < |ks| ==> !Reaches(t, ks[j], s)
  {
    var ks := Pruned(t, s);
    forall x | 0 <= x < |t.steps|
      ensures Reaches(t, s, x) <==> x == s || exists j :: 0 <= j < |ks| && Reaches(t, ks[j], x)
    {
      if x != s && Reaches(t, s, x) {
        ReachesBelow(t, s, x);
        ReachesVia(t, s, x);
        var k :| s < k <= x && t.steps[k].parent == Some(s) && Enters(t, s, k) && Reaches(t, k, x);
        var j :| 0 <= j < |ks| && ks[j] == k;
      }
      if exists j :: 0 <= j < |ks| && Reaches(t, ks[j], x) {
        var j :| 0 <= j < |ks| && Reaches(t, ks[j], x);
        assert ks[j] in ks;
        ReachesThrough(t, s, ks[j], x);
      }
    }
    forall j | 0 <= j < |ks|
      ensures !Reaches(t, ks[j], s)
    {
    }
  }

  /** The extraction from `s` keeps the pruned children of exactly the steps it reaches that
      extend a pair, and leaves every other step as it was. */
  lemma {:induction false} ExtractFromSpec<S>(t: Tree<S>, s: nat, kept: seq<seq<nat>>)
    requires Wf(t) && s < |t.steps| && |kept| == |t.steps|
    requires ExtractFrom(t, s, kept).Ok?
    ensures KeptFrom(t, s, kept, ExtractFrom(t, s, kept).value)
    decreases |t.steps| - s, |t.steps| + 1, 1
  {
    if t.steps[s].from.None? {
      if t.steps[s].depth == 0 {
        ExtractFromRootSpec(t, s, kept);
      } else {
        LoneReaches(t, s);
      }
    } else {
      ExtractFromPrunedSpec(t, s, kept);
    }
  }

  lemma {:induction false} ExtractFromRootSpec<S>(t: Tree<S>, s: nat, kept: seq<seq<nat>>)
    requires Wf(t) && s < |t.steps| && |kept| == |t.steps|
    requires t.steps[s].from.None? && t.steps[s].depth == 0 && ExtractFrom(t, s, kept).Ok?
    ensures KeptFrom(t, s, kept, ExtractFrom(t, s, kept).value)
    decreases |t.steps| - s, |t.steps| + 1, 0
  {
    var cs := Children(t, s, 0);
    assert cs[0] in cs;
    assert ExtractFrom(t, s, kept) == ExtractFrom(t, cs[0], kept);
    ExtractFromSpec(t, cs[0], kept);
    RootReaches(t, s);
  }

  lemma {:induction false} ExtractFromPrunedSpec<S>(t: Tree<S>, s: nat, kept: seq<seq<nat>>)
    requires Wf(t) && s < |t.steps| && |kept| == |t.steps|
    requires t.steps[s].from.Some? && ExtractFrom(t, s, kept).Ok?
    ensures KeptFrom(t, s, kept, ExtractFrom(t, s, kept).value)
    decreases |t.steps| - s, |t.steps| + 1, 0
  {
    var ks := Pruned(t, s);
    assert ExtractFrom(t, s, kept) == ExtractAll(t, s, ks, kept[s := ks]);
    ExtractAllSpec(t, s, ks, kept[s := ks]);
    PrunedReaches(t, s);
  }

  /** The extraction over the children `ks` keeps the pruned children of exactly the steps
      reached from one of them that extend a pair. */
  lemma {:induction false} ExtractAllSpec<S>(t: Tree<S>, s: nat, ks: seq<nat>, kept: seq<seq<nat>>)
    requires Wf(t) && s < |t.steps| && |kept| == |t.steps| && |ks| <= |t.steps|
    requires forall k :: 0 <= k < |ks| ==> s < ks[k] < |t.steps|
    requires ExtractAll(t, s, ks, kept).Ok?
    ensures var r := ExtractAll(t, s, ks, kept).value;
            forall x :: 0 <= x < |t.steps| ==>
              r[x] == if (exists j :: 0 <= j < |ks| && Reaches(t, ks[j], x)) && t.steps[x].from.Some?
                      then Pruned(t, x) else kept[x]
    decreases |t.steps| - s, |ks|, 0
  {
    if |ks| > 0 {
      var kept' := ExtractFrom(t, ks[0], kept).value;
      ExtractFromSpec(t, ks[0], kept);
      ExtractAllSpec(t, s, ks[1..], kept');
      var r := ExtractAll(t, s, ks, kept).value;
      forall x | 0 <= x < |t.steps|
        ensures (exists j :: 0 <= j < |ks| && Reaches(t, ks[j], x)) <==>
                Reaches(t, ks[0], x) || exists j :: 0 <= j < |ks[1..]| && Reaches(t, ks[1..][j], x)
      {
        if exists j :: 0 <= j < |ks| && Reaches(t, ks[j], x) {
          var j :| 0 <= j < |ks| && Reaches(t, ks[j], x);
          if j > 0 {
            assert ks[1..][j - 1] == ks[j];
          }
        }
        if exists j :: 0 <= j < |ks[1..]| && Reaches(t, ks[1..][j], x) {
          var j :| 0 <= j < |ks[1..]| && Reaches(t, ks[1..][j], x);
          assert ks[j + 1] == ks[1..][j];
        }
      }
    }
  }

  /** The extracted policy: every step the extraction reaches from the initial step that
      extends a pair keeps exactly its pruned children (all solved ones below an AND node,
      the first solved one below an OR node); every other step keeps all its children. */
  lemma ExtractPolicySpec<S>(t: Tree<S>)
    requires Wf(t) && |t.steps| > 0 && ExtractPolicy(t).Ok?
    ensures forall x :: 0 <= x < |t.steps| ==>
              ExtractPolicy(t).value[x] ==
                if Reaches(t, 0, x) && t.steps[x].from.Some? then Pruned(t, x) else Children(t, x, 0)
  {
    ExtractFromSpec(t, 0, seq(|t.steps|, s requires 0 <= s < |t.steps| => Children(t, s, 0)));
  }
}

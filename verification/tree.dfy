/** The joint action tree (`ActionPair`, `HumanOption`, `BaseStep`/`Step` in ConcurrentModule.py)
    as an arena: pairs and steps live in two sequences and refer to each other by index. A pair
    holds the human's and the robot's action, the designated world after them and the worlds
    the human still considers possible; a step groups the pairs that extend one pair into human
    options. */
module ActionTree {
  import opened Wrappers
  import opened Tasks
  import opened Htn

  /** AND nodes are the human's turns (every choice of the human must succeed), OR nodes the
      robot's (one choice of the robot suffices). */
  datatype NodeType = AndNode | OrNode

  function Flip(n: NodeType): (m: NodeType)
    ensures m != n
  {
    if n == AndNode then OrNode else AndNode
  }

  /** An action pair. `previous` and `next` link it to the pair it extends and the pairs that
      extend it; `step` is the step it belongs to. `done` and `pass` are the AND/OR search
      marks (`node_done == "DONE"`, `node_pass == "pass"`). */
  datatype Pair<S> = Pair(human: Action, robot: Action, end: World<S>, possible: seq<World<S>>,
                          previous: Option<nat>, next: seq<nat>, nodeType: NodeType,
                          done: bool, pass: bool, copresent: bool, step: nat)

  /** A step: its human options (pair indices, grouped by human action), the pair it extends,
      its parent step, its depth below the initial step, and its common robot actions. */
  datatype Step = Step(options: seq<seq<nat>>, from: Option<nat>, parent: Option<nat>,
                       depth: nat, cra: seq<Action>)

  datatype Tree<S> = Tree(pairs: seq<Pair<S>>, steps: seq<Step>)

  /** A pair built by an exploration step before it is placed in the tree; pairs with equal
      `key` share their human action and therefore their human option. */
  datatype Candidate<S> = Candidate(human: Action, robot: Action, end: World<S>,
                                    possible: seq<World<S>>, key: nat)

  /** `ActionPair.is_passive`: both agents are passive. */
  predicate PairPassive<S>(p: Pair<S>)
  {
    IsPassive(p.human) && IsPassive(p.robot)
  }

  /** `ActionPair.is_begin`: both agents are passive with kind `BEGIN`. */
  predicate IsBegin<S>(p: Pair<S>)
  {
    PairPassive(p) && |p.human.params| > 0 && p.human.params[0] == "BEGIN" &&
    |p.robot.params| > 0 && p.robot.params[0] == "BEGIN"
  }

  /** Indices a tree refers to are in range, a pair comes after the pair it extends, the
      pairs extending a pair sit in a later step, the pairs a step lists belong to it, and a
      step comes after its parent. */
  ghost predicate Wf<S>(t: Tree<S>)
  {
    (forall i :: 0 <= i < |t.pairs| ==> t.pairs[i].step < |t.steps|) &&
    (forall i :: 0 <= i < |t.pairs| && t.pairs[i].previous.Some? ==> t.pairs[i].previous.value < i) &&
    (forall i, k :: 0 <= i < |t.pairs| && 0 <= k < |t.pairs[i].next| ==>
       i < t.pairs[i].next[k] < |t.pairs| &&
       t.pairs[t.pairs[i].next[k]].step > t.pairs[i].step) &&
    (forall s, o, k ::
       0 <= s < |t.steps| && 0 <= o < |t.steps[s].options| && 0 <= k < |t.steps[s].options[o]|
       ==> t.steps[s].options[o][k] < |t.pairs| && t.pairs[t.steps[s].options[o][k]].step == s) &&
    (forall s :: 0 <= s < |t.steps| && t.steps[s].parent.Some? ==> t.steps[s].parent.value < s) &&
    (forall s :: 0 <= s < |t.steps| && t.steps[s].from.Some? ==> t.steps[s].from.value < |t.pairs|)
  }

  /** `ActionPair.is_final`: both agents idle, or one idle and the other waiting for its turn
      right after the mirrored pair. */
  predicate IsFinal<S>(t: Tree<S>, i: nat)
    requires Wf(t) && i < |t.pairs|
  {
    var p := t.pairs[i];
    (IsIdle(p.human) && IsIdle(p.robot)) ||
    (p.previous.Some? &&
     var q := t.pairs[p.previous.value];
     (IsWaitTurn(p.human) && IsIdle(p.robot) && IsIdle(q.human) && IsWaitTurn(q.robot)) ||
     (IsIdle(p.human) && IsWaitTurn(p.robot) && IsWaitTurn(q.human) && IsIdle(q.robot)))
  }

  /** Two trees with the same steps whose pairs agree on their links and actions: one was
      obtained from the other by changing marks or possible worlds only. */
  predicate SameLinks<S>(t: Tree<S>, u: Tree<S>)
  {
    |u.pairs| == |t.pairs| && u.steps == t.steps &&
    forall i :: 0 <= i < |t.pairs| ==>
      u.pairs[i].previous == t.pairs[i].previous && u.pairs[i].next == t.pairs[i].next &&
      u.pairs[i].step == t.pairs[i].step && u.pairs[i].human == t.pairs[i].human &&
      u.pairs[i].robot == t.pairs[i].robot
  }

  /** Changing marks or possible worlds keeps a tree well formed and its final pairs final. */
  lemma SameLinksWf<S>(t: Tree<S>, u: Tree<S>)
    requires Wf(t) && SameLinks(t, u)
    ensures Wf(u)
    ensures forall i :: 0 <= i < |t.pairs| ==> (IsFinal(u, i) <==> IsFinal(t, i))
  {
  }

  /** The initial tree of `explore_ANDOR`: one step holding one `BEGIN` pair in the starting
      world with no other world possible, an AND node when the human starts. */
  function InitTree<S>(dom: Domain<S>, world: World<S>): (t: Tree<S>)
    ensures Wf(t) && |t.pairs| == 1 && |t.steps| == 1
    ensures IsBegin(t.pairs[0]) && t.pairs[0].previous.None? && t.pairs[0].next == []
    ensures t.pairs[0].end == world && t.pairs[0].possible == [] && !t.pairs[0].done
    ensures t.pairs[0].nodeType == AndNode <==> dom.starting == H
    ensures !IsFinal(t, 0)
    ensures t.steps[0].options == [[0]] && t.steps[0].from.None? && t.steps[0].depth == 0
  {
    var p := Pair(CreatePassive(H, "BEGIN"), CreatePassive(R, "BEGIN"), world, [], None, [],
                  if dom.starting == H then AndNode else OrNode, false, false, false, 0);
    Tree([p], [Step([[0]], None, None, 0, [])])
  }

  // ---------------------------------------------------------------------------------------
  // Human options
  // ---------------------------------------------------------------------------------------

  function Flatten<T>(gs: seq<seq<T>>): (r: seq<T>)
  {
    if |gs| == 0 then [] else gs[0] + Flatten(gs[1..])
  }

  lemma {:induction false} FlattenAppend<T>(a: seq<seq<T>>, b: seq<seq<T>>)
    ensures Flatten(a + b) == Flatten(a) + Flatten(b)
  {
    if |a| == 0 {
      assert a + b == b;
    } else {
      assert (a + b)[1..] == a[1..] + b;
      FlattenAppend(a[1..], b);
    }
  }

  /** The grouping `arrange_pairs_in_HumanOption` keeps: every group is non-empty, all its
      candidates share a key, and no two groups share one. */
  predicate Grouped<S>(gs: seq<seq<Candidate<S>>>)
  {
    (forall i :: 0 <= i < |gs| ==> |gs[i]| > 0) &&
    (forall i, k :: 0 <= i < |gs| && 0 <= k < |gs[i]| ==> gs[i][k].key == gs[i][0].key) &&
    (forall i, j :: 0 <= i < j < |gs| && |gs[i]| > 0 && |gs[j]| > 0 ==> gs[i][0].key != gs[j][0].key)
  }

  /** The group holding a key, if any. */
  function FindGroup<S>(gs: seq<seq<Candidate<S>>>, key: nat): (r: Option<nat>)
    ensures r.Some? ==> r.value < |gs| && |gs[r.value]| > 0 && gs[r.value][0].key == key
    ensures r.None? ==> forall i :: 0 <= i < |gs| && |gs[i]| > 0 ==> gs[i][0].key != key
  {
    if |gs| == 0 then None
    else if |gs[0]| > 0 && gs[0][0].key == key then Some(0)
    else
      var r := FindGroup(gs[1..], key);
      if r.Some? then Some(r.value + 1) else None
  }

  /** One turn of the grouping loop: a candidate joins the group of its key, or opens a new
      group after the existing ones. */
  function Insert<S>(gs: seq<seq<Candidate<S>>>, c: Candidate<S>): (r: seq<seq<Candidate<S>>>)
    requires Grouped(gs)
    ensures Grouped(r)
  {
    var f := FindGroup(gs, c.key);
    if f.Some? then gs[f.value := gs[f.value] + [c]] else gs + [[c]]
  }

  function ArrangeFrom<S>(gs: seq<seq<Candidate<S>>>, cs: seq<Candidate<S>>)
    : (r: seq<seq<Candidate<S>>>)
    requires Grouped(gs)
    ensures Grouped(r)
    decreases |cs|
  {
    if |cs| == 0 then gs else ArrangeFrom(Insert(gs, cs[0]), cs[1..])
  }

  /** `arrange_pairs_in_HumanOption`: the candidates grouped by key, groups in the order their
      key first occurs, candidates in their order within a group. */
  function Arrange<S>(cs: seq<Candidate<S>>): (r: seq<seq<Candidate<S>>>)
    ensures Grouped(r)
  {
    ArrangeFrom([], cs)
  }

  lemma InsertKeeps<S>(gs: seq<seq<Candidate<S>>>, c: Candidate<S>)
    requires Grouped(gs)
    ensures multiset(Flatten(Insert(gs, c))) == multiset(Flatten(gs)) + multiset{c}
  {
    var f := FindGroup(gs, c.key);
    if f.Some? {
      var i := f.value;
      assert gs == gs[..i] + [gs[i]] + gs[i + 1..];
      assert gs[i := gs[i] + [c]] == gs[..i] + [gs[i] + [c]] + gs[i + 1..];
      FlattenAppend(gs[..i] + [gs[i]], gs[i + 1..]);
      FlattenAppend(gs[..i], [gs[i]]);
      FlattenAppend(gs[..i] + [gs[i] + [c]], gs[i + 1..]);
      FlattenAppend(gs[..i], [gs[i] + [c]]);
      assert Flatten([gs[i]]) == gs[i];
      assert Flatten([gs[i] + [c]]) == gs[i] + [c];
    } else {
      FlattenAppend(gs, [[c]]);
      assert Flatten([[c]]) == [c];
    }
  }

  lemma {:induction false} ArrangeFromKeeps<S>(gs: seq<seq<Candidate<S>>>, cs: seq<Candidate<S>>)
    requires Grouped(gs)
    ensures multiset(Flatten(ArrangeFrom(gs, cs))) == multiset(Flatten(gs)) + multiset(cs)
    decreases |cs|
  {
    if |cs| > 0 {
      var gs' := Insert(gs, cs[0]);
      var m0 := multiset(Flatten(gs));
      var m1 := multiset(Flatten(gs'));
      var m2 := multiset(Flatten(ArrangeFrom(gs', cs[1..])));
      assert m1 == m0 + multiset{cs[0]} by {
        InsertKeeps(gs, cs[0]);
      }
      assert m2 == m1 + multiset(cs[1..]) by {
        ArrangeFromKeeps(gs', cs[1..]);
      }
      assert multiset(cs) == multiset{cs[0]} + multiset(cs[1..]) by {
        assert cs == [cs[0]] + cs[1..];
      }
      assert ArrangeFrom(gs, cs) == ArrangeFrom(gs', cs[1..]);
    } else {
      assert ArrangeFrom(gs, cs) == gs;
    }
  }

  /** The human options hold exactly the candidates, each once. */
  lemma ArrangeIsPermutation<S>(cs: seq<Candidate<S>>)
    ensures multiset(Flatten(Arrange(cs))) == multiset(cs)
  {
    ArrangeFromKeeps([], cs);
  }

  predicate DistinctKeys<S>(cs: seq<Candidate<S>>)
  {
    forall i, j :: 0 <= i < j < |cs| ==> cs[i].key != cs[j].key
  }

  predicate OneKey<S>(cs: seq<Candidate<S>>)
  {
    forall i :: 0 <= i < |cs| ==> cs[i].key == cs[0].key
  }

  function Singletons<S>(cs: seq<Candidate<S>>): (r: seq<seq<Candidate<S>>>)
    ensures |r| == |cs| && forall k :: 0 <= k < |cs| ==> r[k] == [cs[k]]
  {
    seq(|cs|, k requires 0 <= k < |cs| => [cs[k]])
  }

  /** A candidate whose key no group has opens a new group. */
  lemma InsertNew<S>(gs: seq<seq<Candidate<S>>>, c: Candidate<S>)
    requires Grouped(gs)
    requires forall i :: 0 <= i < |gs| && |gs[i]| > 0 ==> gs[i][0].key != c.key
    ensures Insert(gs, c) == gs + [[c]]
  {
  }

  lemma SingletonsCons<S>(cs: seq<Candidate<S>>)
    requires |cs| > 0
    ensures Singletons(cs) == [[cs[0]]] + Singletons(cs[1..])
  {
    var a := Singletons(cs);
    var b := Singletons(cs[1..]);
    assert |a| == 1 + |b|;
    forall k | 0 <= k < |a|
      ensures a[k] == ([[cs[0]]] + b)[k]
    {
      if k > 0 {
        assert cs[1..][k - 1] == cs[k];
      }
    }
  }

  lemma SingletonsAfter<S>(gs: seq<seq<Candidate<S>>>, cs: seq<Candidate<S>>)
    requires |cs| > 0
    ensures (gs + [[cs[0]]]) + Singletons(cs[1..]) == gs + Singletons(cs)
  {
    SingletonsCons(cs);
  }

  lemma {:induction false} ArrangeFromDistinct<S>(gs: seq<seq<Candidate<S>>>, cs: seq<Candidate<S>>)
    requires Grouped(gs) && forall i :: 0 <= i < |gs| ==> |gs[i]| == 1
    requires DistinctKeys(cs)
    requires forall i, j :: 0 <= i < |gs| && 0 <= j < |cs| ==> gs[i][0].key != cs[j].key
    ensures ArrangeFrom(gs, cs) == gs + Singletons(cs)
    decreases |cs|
  {
    if |cs| == 0 {
      assert ArrangeFrom(gs, cs) == gs;
      assert gs + Singletons(cs) == gs;
    } else {
      var gs': seq<seq<Candidate<S>>> := gs + [[cs[0]]];
      assert ArrangeFrom(gs, cs) == ArrangeFrom(gs', cs[1..]) by {
        InsertNew(gs, cs[0]);
      }
      assert ArrangeFrom(gs', cs[1..]) == gs' + Singletons(cs[1..]) by {
        DistinctStep(gs, cs);
        ArrangeFromDistinct(gs', cs[1..]);
      }
      SingletonsAfter(gs, cs);
    }
  }

  lemma DistinctStep<S>(gs: seq<seq<Candidate<S>>>, cs: seq<Candidate<S>>)
    requires |cs| > 0 && Grouped(gs) && forall i :: 0 <= i < |gs| ==> |gs[i]| == 1
    requires DistinctKeys(cs)
    requires forall i, j :: 0 <= i < |gs| && 0 <= j < |cs| ==> gs[i][0].key != cs[j].key
    ensures Grouped(gs + [[cs[0]]]) && forall i :: 0 <= i < |gs + [[cs[0]]]| ==> |(gs + [[cs[0]]])[i]| == 1
    ensures DistinctKeys(cs[1..])
    ensures forall i, j :: 0 <= i < |gs + [[cs[0]]]| && 0 <= j < |cs[1..]| ==>
              (gs + [[cs[0]]])[i][0].key != cs[1..][j].key
  {
    var gs': seq<seq<Candidate<S>>> := gs + [[cs[0]]];
    InsertNew(gs, cs[0]);
    forall i, j | 0 <= i < |gs'| && 0 <= j < |cs[1..]|
      ensures gs'[i][0].key != cs[1..][j].key
    {
      assert cs[1..][j] == cs[j + 1];
      if i == |gs| {
        assert gs'[i][0] == cs[0];
      } else {
        assert gs'[i] == gs[i];
      }
    }
  }

  lemma {:induction false} FlattenSingletons<S>(cs: seq<Candidate<S>>)
    ensures Flatten(Singletons(cs)) == cs
    decreases |cs|
  {
    if |cs| > 0 {
      assert Singletons(cs)[1..] == Singletons(cs[1..]);
      FlattenSingletons(cs[1..]);
      assert cs == [cs[0]] + cs[1..];
    } else {
      assert Singletons(cs) == [];
    }
  }

  /** With a different human action per candidate every candidate is its own human option, and
      the options keep the candidates' order. */
  lemma ArrangeDistinct<S>(cs: seq<Candidate<S>>)
    requires DistinctKeys(cs)
    ensures |Arrange(cs)| == |cs| && Flatten(Arrange(cs)) == cs
  {
    var none: seq<seq<Candidate<S>>> := [];
    ArrangeFromDistinct(none, cs);
    assert none + Singletons(cs) == Singletons(cs);
    FlattenSingletons(cs);
  }

  lemma {:induction false} ArrangeFromOneKey<S>(g: seq<Candidate<S>>, cs: seq<Candidate<S>>)
    requires |g| > 0 && OneKey(g) && forall j :: 0 <= j < |cs| ==> cs[j].key == g[0].key
    ensures ArrangeFrom([g], cs) == [g + cs]
    decreases |cs|
  {
    if |cs| > 0 {
      assert Insert([g], cs[0]) == [g + [cs[0]]] by {
        assert FindGroup([g], cs[0].key) == Some(0);
      }
      assert ArrangeFrom([g], cs) == ArrangeFrom([g + [cs[0]]], cs[1..]);
      assert OneKey(g + [cs[0]]);
      assert forall j :: 0 <= j < |cs[1..]| ==> cs[1..][j].key == (g + [cs[0]])[0].key;
      ArrangeFromOneKey(g + [cs[0]], cs[1..]);
      assert g + [cs[0]] + cs[1..] == g + cs;
    } else {
      assert g + cs == g;
      assert ArrangeFrom([g], cs) == [g];
    }
  }

  /** With one human action shared by all candidates they form a single human option. */
  lemma ArrangeOneKey<S>(cs: seq<Candidate<S>>)
    requires |cs| > 0 && OneKey(cs)
    ensures Arrange(cs) == [cs] && Flatten(Arrange(cs)) == cs
  {
    var none: seq<seq<Candidate<S>>> := [];
    assert Insert(none, cs[0]) == [[cs[0]]] by {
      assert FindGroup(none, cs[0].key).None?;
    }
    assert Arrange(cs) == ArrangeFrom([[cs[0]]], cs[1..]);
    ArrangeFromOneKey([cs[0]], cs[1..]);
    assert [cs[0]] + cs[1..] == cs;
    assert Flatten([cs]) == cs + Flatten([cs][1..]);
  }

  // ---------------------------------------------------------------------------------------
  // Placing a new step
  // ---------------------------------------------------------------------------------------

  function Range(b: nat, n: nat): (r: seq<nat>)
    ensures |r| == n && forall k :: 0 <= k < n ==> r[k] == b + k
  {
    seq(n, k requires 0 <= k < n => b + k)
  }

  /** The pair indices of consecutive groups placed from index `b` on. */
  function Ranges<T>(gs: seq<seq<T>>, b: nat): (r: seq<seq<nat>>)
    ensures |r| == |gs|
    ensures forall o, k :: 0 <= o < |r| && 0 <= k < |r[o]| ==> b <= r[o][k] < b + |Flatten(gs)|
    ensures forall o :: 0 <= o < |r| ==> |r[o]| == |gs[o]|
    ensures Flatten(r) == Range(b, |Flatten(gs)|)
  {
    if |gs| == 0 then []
    else
      var rest := Ranges(gs[1..], b + |gs[0]|);
      assert |Flatten(gs)| == |gs[0]| + |Flatten(gs[1..])|;
      var r := [Range(b, |gs[0]|)] + rest;
      assert r[1..] == rest;
      assert Flatten(r) == Range(b, |gs[0]|) + Flatten(rest);
      assert Range(b, |gs[0]|) + Range(b + |gs[0]|, |Flatten(gs[1..])|) == Range(b, |Flatten(gs)|);
      r
  }

  /** The pair a candidate becomes when it extends pair `sel` in step `s`: its node type is
      the opposite of `sel`'s. */
  function Place<S>(c: Candidate<S>, sel: nat, kind: NodeType, s: nat): (p: Pair<S>)
    ensures p.human == c.human && p.robot == c.robot && p.end == c.end && p.possible == c.possible
    ensures p.previous == Some(sel) && p.next == [] && p.nodeType == Flip(kind) && p.step == s
    ensures !p.done && !p.pass
  {
    Pair(c.human, c.robot, c.end, c.possible, Some(sel), [], Flip(kind), false, false, false, s)
  }

  function PlaceAll<S>(cs: seq<Candidate<S>>, sel: nat, kind: NodeType, s: nat): (r: seq<Pair<S>>)
    ensures |r| == |cs| && forall k :: 0 <= k < |cs| ==> r[k] == Place(cs[k], sel, kind, s)
  {
    seq(|cs|, k requires 0 <= k < |cs| => Place(cs[k], sel, kind, s))
  }

  /** The arena after placing the groups' candidates below pair `sel`. */
  function Extended<S>(t: Tree<S>, sel: nat, gs: seq<seq<Candidate<S>>>): (r: seq<Pair<S>>)
    requires sel < |t.pairs|
    ensures |r| == |t.pairs| + |Flatten(gs)|
    ensures forall i :: 0 <= i < |t.pairs| && i != sel ==> r[i] == t.pairs[i]
    ensures r[sel] == t.pairs[sel].(next := t.pairs[sel].next + Range(|t.pairs|, |Flatten(gs)|))
    ensures forall k :: 0 <= k < |Flatten(gs)| ==>
              r[|t.pairs| + k] == Place(Flatten(gs)[k], sel, t.pairs[sel].nodeType, |t.steps|)
  {
    var n := |t.pairs|;
    var flat := Flatten(gs);
    var p := t.pairs[sel];
    var added := PlaceAll(flat, sel, p.nodeType, |t.steps|);
    var kept := t.pairs[sel := p.(next := p.next + Range(n, |flat|))];
    assert forall k :: 0 <= k < |flat| ==> (kept + added)[n + k] == added[k];
    kept + added
  }

  function NewStep<S>(t: Tree<S>, sel: nat, gs: seq<seq<Candidate<S>>>): (s: Step)
    requires Wf(t) && sel < |t.pairs|
    ensures s.from == Some(sel) && s.parent == Some(t.pairs[sel].step)
    ensures s.depth == t.steps[t.pairs[sel].step].depth + 1 && |s.options| == |gs|
    ensures forall o, k :: 0 <= o < |s.options| && 0 <= k < |s.options[o]| ==>
              |t.pairs| <= s.options[o][k] < |t.pairs| + |Flatten(gs)|
    ensures Flatten(s.options) == Range(|t.pairs|, |Flatten(gs)|)
  {
    var p := t.pairs[sel];
    Step(Ranges(gs, |t.pairs|), Some(sel), Some(p.step), t.steps[p.step].depth + 1, [])
  }

  /** After a step is added, the pairs every step lists exist and belong to it. */
  lemma AddStepOptions<S>(t: Tree<S>, sel: nat, gs: seq<seq<Candidate<S>>>)
    requires Wf(t) && sel < |t.pairs|
    ensures var ps := Extended(t, sel, gs);
            var ss := t.steps + [NewStep(t, sel, gs)];
            forall s, o, k ::
              0 <= s < |ss| && 0 <= o < |ss[s].options| && 0 <= k < |ss[s].options[o]|
              ==> ss[s].options[o][k] < |ps| && ps[ss[s].options[o][k]].step == s
  {
    var ps := Extended(t, sel, gs);
    var ss := t.steps + [NewStep(t, sel, gs)];
    var n := |t.pairs|;
    forall s, o, k | 0 <= s < |ss| && 0 <= o < |ss[s].options| && 0 <= k < |ss[s].options[o]|
      ensures ss[s].options[o][k] < |ps| && ps[ss[s].options[o][k]].step == s
    {
      var j := ss[s].options[o][k];
      if s < |t.steps| {
        assert ss[s] == t.steps[s];
        assert j < n && t.pairs[j].step == s;
        if j == sel {
          assert ps[j].step == t.pairs[sel].step;
        } else {
          assert ps[j] == t.pairs[j];
        }
      } else {
        assert n <= j < n + |Flatten(gs)|;
        assert ps[n + (j - n)].step == |t.steps|;
      }
    }
  }

  /** After a step is added, every pair belongs to an existing step. */
  lemma AddStepPairStep<S>(t: Tree<S>, sel: nat, gs: seq<seq<Candidate<S>>>)
    requires Wf(t) && sel < |t.pairs|
    ensures var ps := Extended(t, sel, gs);
            forall i :: 0 <= i < |ps| ==> ps[i].step < |t.steps| + 1
  {
    var ps := Extended(t, sel, gs);
    var n := |t.pairs|;
    forall i | 0 <= i < |ps|
      ensures ps[i].step < |t.steps| + 1
    {
      if i >= n {
        assert ps[n + (i - n)].step == |t.steps|;
      }
    }
  }

  /** After a step is added, every pair still extends an earlier pair. */
  lemma AddStepPrevious<S>(t: Tree<S>, sel: nat, gs: seq<seq<Candidate<S>>>)
    requires Wf(t) && sel < |t.pairs|
    ensures var ps := Extended(t, sel, gs);
            forall i :: 0 <= i < |ps| && ps[i].previous.Some? ==> ps[i].previous.value < i
  {
    var ps := Extended(t, sel, gs);
    var n := |t.pairs|;
    forall i | 0 <= i < |ps| && ps[i].previous.Some?
      ensures ps[i].previous.value < i
    {
      if i >= n {
        assert ps[n + (i - n)].previous == Some(sel);
      }
    }
  }

  /** After a step is added, the pairs extending a pair are later pairs in later steps. */
  lemma AddStepNext<S>(t: Tree<S>, sel: nat, gs: seq<seq<Candidate<S>>>)
    requires Wf(t) && sel < |t.pairs|
    ensures var ps := Extended(t, sel, gs);
            forall i, k :: 0 <= i < |ps| && 0 <= k < |ps[i].next| ==>
              i < ps[i].next[k] < |ps| && ps[ps[i].next[k]].step > ps[i].step
  {
    var ps := Extended(t, sel, gs);
    var n := |t.pairs|;
    assert forall i :: n <= i < |ps| ==> ps[i].next == [] by {
      forall i | n <= i < |ps|
        ensures ps[i].next == []
      {
        assert ps[n + (i - n)].next == [];
      }
    }
    forall i, k | 0 <= i < n && 0 <= k < |ps[i].next|
      ensures i < ps[i].next[k] < |ps| && ps[ps[i].next[k]].step > ps[i].step
    {
      if i == sel {
        var old_next := t.pairs[sel].next;
        if k >= |old_next| {
          var j := ps[i].next[k];
          assert j == n + (k - |old_next|);
          assert ps[n + (k - |old_next|)].step == |t.steps|;
        } else {
          assert ps[i].next[k] == old_next[k];
        }
      }
    }
  }

  /** After a step is added, steps keep pointing at earlier steps and existing pairs. */
  lemma AddStepSteps<S>(t: Tree<S>, sel: nat, gs: seq<seq<Candidate<S>>>)
    requires Wf(t) && sel < |t.pairs|
    ensures var ps := Extended(t, sel, gs);
            var ss := t.steps + [NewStep(t, sel, gs)];
            (forall s :: 0 <= s < |ss| && ss[s].parent.Some? ==> ss[s].parent.value < s) &&
            (forall s :: 0 <= s < |ss| && ss[s].from.Some? ==> ss[s].from.value < |ps|)
  {
    var ps := Extended(t, sel, gs);
    var ss := t.steps + [NewStep(t, sel, gs)];
    assert forall s :: 0 <= s < |ss| && ss[s].parent.Some? ==> ss[s].parent.value < s by {
      forall s | 0 <= s < |ss| && ss[s].parent.Some?
        ensures ss[s].parent.value < s
      {
        if s < |t.steps| {
          assert ss[s] == t.steps[s];
        }
      }
    }
    assert forall s :: 0 <= s < |ss| && ss[s].from.Some? ==> ss[s].from.value < |ps| by {
      forall s | 0 <= s < |ss| && ss[s].from.Some?
        ensures ss[s].from.value < |ps|
      {
        if s < |t.steps| {
          assert ss[s] == t.steps[s];
        }
      }
    }
  }

  lemma AddStepWf<S>(t: Tree<S>, sel: nat, gs: seq<seq<Candidate<S>>>)
    requires Wf(t) && sel < |t.pairs|
    ensures Wf(Tree(Extended(t, sel, gs), t.steps + [NewStep(t, sel, gs)]))
  {
    AddStepPairStep(t, sel, gs);
    AddStepPrevious(t, sel, gs);
    AddStepNext(t, sel, gs);
    AddStepSteps(t, sel, gs);
    AddStepOptions(t, sel, gs);
  }

  /** `Step(parent=...)` followed by `BaseStep.init`: a new step below the step of pair `sel`,
      one human option per group, whose pairs are appended to the arena in option order and
      linked to `sel` both ways. Nothing else changes. */
  function AddStep<S>(t: Tree<S>, sel: nat, gs: seq<seq<Candidate<S>>>): (r: Tree<S>)
    requires Wf(t) && sel < |t.pairs|
    ensures Wf(r)
    ensures |r.steps| == |t.steps| + 1 && r.steps[..|t.steps|] == t.steps
    ensures r.pairs == Extended(t, sel, gs)
    ensures r.steps[|t.steps|] == NewStep(t, sel, gs)
  {
    AddStepWf(t, sel, gs);
    var r := Tree(Extended(t, sel, gs), t.steps + [NewStep(t, sel, gs)]);
    assert r.steps[..|t.steps|] == t.steps;
    r
  }

  // ---------------------------------------------------------------------------------------
  // Common robot actions
  // ---------------------------------------------------------------------------------------

  /** Some action of the list is similar to `x` (`check_list` with `are_similar`). */
  predicate SimilarIn(x: Action, ys: seq<Action>)
  {
    exists j :: 0 <= j < |ys| && AreSimilar(x, ys[j])
  }

  /** `x` is similar to some robot action of every listed human option. */
  predicate SimilarInAll(x: Action, others: seq<seq<Action>>)
  {
    forall k :: 0 <= k < |others| ==> SimilarIn(x, others[k])
  }

  /** The actions of `xs` similar to some action of `ys`, in their order. */
  function KeepSimilar(xs: seq<Action>, ys: seq<Action>): (r: seq<Action>)
    ensures |r| <= |xs|
  {
    if |xs| == 0 then []
    else KeepSimilar(xs[..|xs| - 1], ys) + (if SimilarIn(xs[|xs| - 1], ys) then [xs[|xs| - 1]] else [])
  }

  /** The reference definition of the common robot actions: the first option's robot actions
      that are similar to a robot action of each other option, in their order. */
  function CommonRobotActions(xs: seq<Action>, others: seq<seq<Action>>): (r: seq<Action>)
    ensures |r| <= |xs|
  {
    if |xs| == 0 then []
    else CommonRobotActions(xs[..|xs| - 1], others) +
         (if SimilarInAll(xs[|xs| - 1], others) then [xs[|xs| - 1]] else [])
  }

  /** The common robot actions are exactly the first option's actions similar to something in
      every other option, in their order. */
  lemma {:induction false} CommonRobotActionsSpec(xs: seq<Action>, others: seq<seq<Action>>)
    ensures forall x :: x in CommonRobotActions(xs, others) <==> x in xs && SimilarInAll(x, others)
    decreases |xs|
  {
    if |xs| > 0 {
      CommonRobotActionsSpec(xs[..|xs| - 1], others);
      assert xs == xs[..|xs| - 1] + [xs[|xs| - 1]];
    }
  }

  /** Filtering once more against a further option is filtering against all of them. */
  lemma {:induction false} KeepSimilarCommon(xs: seq<Action>, others: seq<seq<Action>>, o: seq<Action>)
    ensures KeepSimilar(CommonRobotActions(xs, others), o) == CommonRobotActions(xs, others + [o])
    decreases |xs|
  {
    if |xs| > 0 {
      var init := xs[..|xs| - 1];
      var x := xs[|xs| - 1];
      KeepSimilarCommon(init, others, o);
      var c := CommonRobotActions(init, others);
      assert forall k :: 0 <= k < |others| ==> (others + [o])[k] == others[k];
      assert SimilarInAll(x, others + [o]) <==> SimilarInAll(x, others) && SimilarIn(x, o) by {
        if SimilarInAll(x, others) && SimilarIn(x, o) {
          forall k | 0 <= k < |others + [o]|
            ensures SimilarIn(x, (others + [o])[k])
          {
            if k == |others| {
              assert (others + [o])[k] == o;
            }
          }
        }
        if SimilarInAll(x, others + [o]) {
          assert SimilarIn(x, (others + [o])[|others|]);
        }
      }
      if SimilarInAll(x, others) {
        assert (c + [x])[..|c + [x]| - 1] == c;
      } else {
        assert c + [] == c;
      }
    }
  }

  lemma KeepSimilarStep(xs: seq<Action>, n: nat, ys: seq<Action>)
    requires n < |xs|
    ensures KeepSimilar(xs[..n + 1], ys) ==
            KeepSimilar(xs[..n], ys) + (if SimilarIn(xs[n], ys) then [xs[n]] else [])
  {
    assert xs[..n + 1][..n] == xs[..n];
  }

  /** The inner loop of `identify_CRA`: walking the candidates with an index, a candidate the
      option has no similar robot action for is popped, otherwise the index moves on. */
  method DropDissimilar(cands: seq<Action>, o: seq<Action>) returns (cra: seq<Action>)
    ensures cra == KeepSimilar(cands, o)
  {
    cra := cands;
    var j := 0;
    ghost var n := 0;
    while j < |cra|
      invariant 0 <= j <= |cra| && 0 <= n <= |cands|
      invariant cra[..j] == KeepSimilar(cands[..n], o)
      invariant cra[j..] == cands[n..]
      decreases |cra| - j
    {
      var candidate := cra[j];
      assert candidate == cands[n] by {
        assert cra[j..][0] == cands[n..][0];
      }
      KeepSimilarStep(cands, n, o);
      var found := CheckList(o, (x: Action) => AreSimilar(candidate, x)).Some?;
      assert found <==> SimilarIn(candidate, o);
      if !found {
        assert cra[j + 1..] == cands[n + 1..] by {
          assert cra[j..][1..] == cands[n..][1..];
        }
        cra := cra[..j] + cra[j + 1..];
        assert cra[..j] == KeepSimilar(cands[..n + 1], o);
      } else {
        assert cra[..j + 1] == cra[..j] + [cra[j]];
        assert cra[j + 1..] == cands[n + 1..] by {
          assert cra[j..][1..] == cands[n..][1..];
        }
        j := j + 1;
      }
      n := n + 1;
    }
    assert cands[n..] == [] && cands[..n] == cands;
    assert cra[..j] == cra;
  }

  /** `identify_CRA`: starting from the first human option's robot actions, every other option
      removes the candidates it has no similar robot action for. */
  method IdentifyCRA(options: seq<seq<Action>>) returns (cra: seq<Action>)
    requires |options| > 0
    ensures cra == CommonRobotActions(options[0], options[1..])
  {
    cra := options[0];
    CommonNone(options[0]);
    assert options[1..1] == [];
    var i := 1;
    while i < |options|
      invariant 1 <= i <= |options|
      invariant cra == CommonRobotActions(options[0], options[1..i])
    {
      cra := DropDissimilar(cra, options[i]);
      KeepSimilarCommon(options[0], options[1..i], options[i]);
      assert options[1..i] + [options[i]] == options[1..i + 1];
      i := i + 1;
    }
    assert options[1..i] == options[1..];
  }

  lemma {:induction false} CommonNone(xs: seq<Action>)
    ensures CommonRobotActions(xs, []) == xs
    decreases |xs|
  {
    if |xs| > 0 {
      CommonNone(xs[..|xs| - 1]);
      assert xs == xs[..|xs| - 1] + [xs[|xs| - 1]];
    }
  }
}

/** Tasks on an agent's agenda and the actions the planner puts into action pairs: the two
    agents, abstract and primitive tasks, passive actions and their kinds, action similarity
    and the first-match list helper (`Task`, `Action` in CommonModule.py, `check_list` in
    ConcurrentModule.py). */
module Tasks {
  import opened Wrappers

  /** The two agents: the human and the robot. */
  datatype Agent = H | R

  function Other(a: Agent): (b: Agent)
    ensures b != a
  {
    if a == H then R else H
  }

  /** A task on an agenda. Identity numbers and provenance fields of the Python objects play
      no part in planning and are not modelled. */
  datatype Task = Task(name: string, params: seq<string>, agent: Agent, isAbstract: bool)

  /** An action: a primitive task once it has been given its cost and shared resource. */
  datatype Action = Action(name: string, params: seq<string>, agent: Agent, cost: int,
                           resource: Option<string>)

  /** Cost of waiting per agent (`g_wait_cost`: 2 for the human, 0 for the robot). */
  function WaitCost(a: Agent): int
  {
    if a == H then 2 else 0
  }

  /** Default cost of an operator without a cost function (`DEFAULT_ACTION_COST`). */
  const DefaultActionCost: int := 1

  const PassiveName: string := "PASSIVE"
  const SignalName: string := "GET_SIGNAL"

  /** `cast_PT2A`: the primitive task turned into an action. */
  function CastToAction(t: Task, cost: int, resource: Option<string>): (a: Action)
    ensures a.name == t.name && a.params == t.params && a.agent == t.agent
    ensures a.cost == cost && a.resource == resource
  {
    Action(t.name, t.params, t.agent, cost, resource)
  }

  /** `create_passive`: a passive action of the given kind, at the agent's waiting cost. */
  function CreatePassive(a: Agent, kind: string): (p: Action)
    ensures IsPassive(p) && p.params == [kind] && p.agent == a
    ensures p.cost == WaitCost(a) && p.resource == None
  {
    Action(PassiveName, [kind], a, WaitCost(a), None)
  }

  /** `create_passive_signal`: waiting for a signal, which is not a passive action. */
  function CreatePassiveSignal(a: Agent, kind: string): (p: Action)
    ensures !IsPassive(p) && p.name == SignalName && p.params == [kind] && p.agent == a
  {
    Action(SignalName, [kind], a, WaitCost(a), None)
  }

  predicate IsPassive(a: Action)
  {
    a.name == PassiveName
  }

  predicate IsIdle(a: Action)
  {
    IsPassive(a) && "IDLE" in a.params
  }

  predicate IsPass(a: Action)
  {
    IsPassive(a) && "PASS" in a.params
  }

  predicate IsWait(a: Action)
  {
    IsPassive(a) && "WAIT" in a.params
  }

  predicate IsWaitTurn(a: Action)
  {
    IsPassive(a) && "WAIT_TURN" in a.params
  }

  /** Appending one more kind to a passive action's parameters (the `PASS` marker). */
  function AddParam(a: Action, kind: string): (b: Action)
    ensures b.name == a.name && b.agent == a.agent && b.cost == a.cost
    ensures b.params == a.params + [kind]
  {
    a.(params := a.params + [kind])
  }

  /** `are_similar`: any two passive actions are similar; otherwise name, parameters, cost
      and agent must all agree. */
  function AreSimilar(a1: Action, a2: Action): (similar: bool)
    ensures similar <==> (IsPassive(a1) && IsPassive(a2)) ||
                         a1.(resource := None) == a2.(resource := None)
  {
    if IsPassive(a1) && IsPassive(a2) then true
    else a1.name == a2.name && a1.params == a2.params && a1.cost == a2.cost
         && a1.agent == a2.agent
  }

  /** Similarity is reflexive and symmetric, holds between passive actions whatever their
      kinds, and between two non-passive actions means equality on everything but the
      shared resource. */
  lemma AreSimilarProperties(a1: Action, a2: Action)
    ensures AreSimilar(a1, a1)
    ensures AreSimilar(a1, a2) == AreSimilar(a2, a1)
    ensures IsPassive(a1) && IsPassive(a2) ==> AreSimilar(a1, a2)
    ensures !IsPassive(a1) ==>
              (AreSimilar(a1, a2) <==> a1.(resource := None) == a2.(resource := None))
  {
  }

  /** `check_list`: the first element meeting the condition, if any. */
  function CheckList<T(==)>(xs: seq<T>, cond: T -> bool): (r: Option<T>)
    ensures r.None? <==> forall i :: 0 <= i < |xs| ==> !cond(xs[i])
    ensures r.Some? ==> exists i :: 0 <= i < |xs| && xs[i] == r.value && cond(xs[i]) &&
                                   forall j :: 0 <= j < i ==> !cond(xs[j])
  {
    if |xs| == 0 then None
    else if cond(xs[0]) then Some(xs[0])
    else
      var r := CheckList(xs[1..], cond);
      assert forall i :: 1 <= i < |xs| ==> xs[i] == xs[1..][i - 1];
      if r.Some? then
        var i :| 0 <= i < |xs[1..]| && xs[1..][i] == r.value && cond(xs[1..][i]) &&
                 forall j :: 0 <= j < i ==> !cond(xs[1..][j]);
        assert xs[i + 1] == r.value;
        assert forall j :: 0 <= j < i + 1 ==> !cond(xs[j]) by {
          forall j | 0 <= j < i + 1
            ensures !cond(xs[j])
          {
            if j > 0 {
              assert xs[j] == xs[1..][j - 1];
            }
          }
        }
        r
      else
        r
  }

  /** Python's `in` on strings: `sub` occurs somewhere inside `s`. */
  predicate Contains(s: string, sub: string)
  {
    sub <= s || (|s| > 0 && Contains(s[1..], sub))
  }

  /** `sub` occurs in `s` starting at position `i`. */
  predicate OccursAt(s: string, sub: string, i: nat)
  {
    i + |sub| <= |s| && s[i..i + |sub|] == sub
  }

  /** The recursive test agrees with the positional reading of substring search. */
  lemma {:induction false} ContainsIff(s: string, sub: string)
    ensures Contains(s, sub) <==> exists i: nat :: OccursAt(s, sub, i)
  {
    if sub <= s {
      assert OccursAt(s, sub, 0);
    } else if |s| > 0 {
      ContainsIff(s[1..], sub);
      if Contains(s[1..], sub) {
        var i: nat :| OccursAt(s[1..], sub, i);
        assert s[i + 1..i + 1 + |sub|] == s[1..][i..i + |sub|];
        assert OccursAt(s, sub, i + 1);
      }
      assert !OccursAt(s, sub, 0) by {
        if |sub| <= |s| {
          assert s[..|sub|] == s[0..|sub|];
        }
      }
      if exists i: nat :: OccursAt(s, sub, i) {
        var i: nat :| OccursAt(s, sub, i);
        assert s[1..][i - 1..i - 1 + |sub|] == s[i..i + |sub|];
        assert OccursAt(s[1..], sub, i - 1);
      }
    } else {
      assert |sub| > 0;
      assert forall i: nat :: !OccursAt(s, sub, i);
    }
  }

  const CommunicateMarker: string := "communicate"
  const SignalWaitName: string := "passive_wait_for_signal"

  /** Names containing `communicate` mark communication operators. */
  predicate IsCommunication(name: string)
  {
    Contains(name, CommunicateMarker)
  }

  /** A string shorter than `sub` does not contain it. */
  lemma {:induction false} ShorterNotContains(s: string, sub: string)
    requires |s| < |sub|
    ensures !Contains(s, sub)
  {
    if |s| > 0 {
      ShorterNotContains(s[1..], sub);
    }
  }

  /** A string does not contain `sub` when every position holding the first letter of `sub`
      leaves too little room after it for `sub` to fit. */
  lemma {:induction false} NoRoomNotContains(s: string, sub: string)
    requires |sub| > 0
    requires forall i :: 0 <= i < |s| && s[i] == sub[0] ==> |s| - i < |sub|
    ensures !Contains(s, sub)
  {
    if |s| >= |sub| {
      assert s[0] != sub[0];
      assert forall i :: 0 <= i < |s[1..]| && s[1..][i] == sub[0] ==> |s[1..]| - i < |sub| by {
        assert forall i :: 0 <= i < |s[1..]| ==> s[1..][i] == s[i + 1];
      }
      NoRoomNotContains(s[1..], sub);
    } else {
      ShorterNotContains(s, sub);
    }
  }
}

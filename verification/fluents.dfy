/** World states as the planner stores them: a map from fluent names to values, each fluent
    tagged static or dynamic, and the structural comparison the planner uses to decide that
    two worlds hold the same facts (`compare_states`, `compare_data`, `sort_dict_recursive`
    in CommonModule.py). */
module Fluents {

  /** A fluent value. Dictionaries nest; lists hold names (cube, box and location names in
      the scenarios), which is what the planner sorts. */
  datatype Value =
    | VNone
    | VBool(b: bool)
    | VStr(s: string)
    | VList(items: seq<string>)
    | VDict(entries: map<string, Value>)

  /** A fluent entry: its dynamic flag (static fluents are shared between world copies and
      skipped by the default comparison) and its value. */
  datatype Fluent = Fluent(dynamic: bool, data: Value)

  type State = map<string, Fluent>

  // ---------------------------------------------------------------------------------------
  // Ordering of strings, as Python compares `str` values (code point by code point)
  // ---------------------------------------------------------------------------------------

  predicate StrLe(a: string, b: string)
  {
    if |a| == 0 then true
    else if |b| == 0 then false
    else if a[0] < b[0] then true
    else if b[0] < a[0] then false
    else StrLe(a[1..], b[1..])
  }

  lemma StrLeTotal(a: string, b: string)
    ensures StrLe(a, b) || StrLe(b, a)
  {
    if |a| > 0 && |b| > 0 && a[0] == b[0] {
      StrLeTotal(a[1..], b[1..]);
    }
  }

  lemma StrLeAntisymmetric(a: string, b: string)
    requires StrLe(a, b) && StrLe(b, a)
    ensures a == b
  {
    if |a| > 0 && |b| > 0 {
      StrLeAntisymmetric(a[1..], b[1..]);
      assert a == [a[0]] + a[1..];
      assert b == [b[0]] + b[1..];
    }
  }

  lemma StrLeTransitive(a: string, b: string, c: string)
    requires StrLe(a, b) && StrLe(b, c)
    ensures StrLe(a, c)
  {
    if |a| > 0 && |b| > 0 && |c| > 0 && a[0] == b[0] && b[0] == c[0] {
      StrLeTransitive(a[1..], b[1..], c[1..]);
    }
  }

  predicate Sorted(s: seq<string>)
  {
    forall i, j :: 0 <= i < j < |s| ==> StrLe(s[i], s[j])
  }

  /** Insertion of one name into a sorted list. */
  function Insert(x: string, s: seq<string>): (r: seq<string>)
    requires Sorted(s)
    ensures Sorted(r)
    ensures multiset(r) == multiset(s) + multiset{x}
  {
    if |s| == 0 then [x]
    else if StrLe(x, s[0]) then
      assert Sorted([x] + s) by {
        forall i, j | 0 <= i < j < |[x] + s|
          ensures StrLe(([x] + s)[i], ([x] + s)[j])
        {
          if i == 0 && j > 1 {
            StrLeTransitive(x, s[0], s[j - 1]);
          }
        }
      }
      [x] + s
    else
      StrLeTotal(x, s[0]);
      assert s == [s[0]] + s[1..];
      var rest := Insert(x, s[1..]);
      assert Sorted([s[0]] + rest) by {
        forall k | 0 <= k < |rest|
          ensures StrLe(s[0], rest[k])
        {
          assert rest[k] in multiset(rest);
          if rest[k] != x {
            assert rest[k] in multiset(s[1..]);
            var m :| 0 <= m < |s[1..]| && s[1..][m] == rest[k];
            assert s[m + 1] == rest[k];
          }
        }
      }
      [s[0]] + rest
  }

  /** Python's `sorted` on a list of names. */
  function SortStrings(s: seq<string>): (r: seq<string>)
    ensures Sorted(r)
    ensures multiset(r) == multiset(s)
  {
    if |s| == 0 then []
    else
      assert s == [s[0]] + s[1..];
      Insert(s[0], SortStrings(s[1..]))
  }

  /** The head of a sorted list is below every element of it. */
  lemma HeadIsLeast(s: seq<string>, x: string)
    requires Sorted(s) && x in multiset(s)
    ensures |s| > 0 && StrLe(s[0], x)
  {
    var i :| 0 <= i < |s| && s[i] == x;
    if i == 0 {
      StrLeTotal(x, x);
    }
  }

  /** Two sorted lists with the same elements are the same list. */
  lemma {:induction false} SortedUnique(a: seq<string>, b: seq<string>)
    requires Sorted(a) && Sorted(b)
    requires multiset(a) == multiset(b)
    ensures a == b
    decreases |a|
  {
    if |a| == 0 {
      assert |multiset(b)| == 0;
    } else {
      assert a[0] in multiset(a);
      HeadIsLeast(b, a[0]);
      assert b[0] in multiset(b);
      HeadIsLeast(a, b[0]);
      StrLeAntisymmetric(a[0], b[0]);
      assert a == [a[0]] + a[1..];
      assert b == [b[0]] + b[1..];
      assert multiset(a[1..]) == multiset(b[1..]) by {
        assert multiset(a) == multiset{a[0]} + multiset(a[1..]);
        assert multiset(b) == multiset{b[0]} + multiset(b[1..]);
        forall z
          ensures multiset(a[1..])[z] == multiset(b[1..])[z]
        {
          assert multiset(a)[z] == multiset(b)[z];
        }
      }
      SortedUnique(a[1..], b[1..]);
    }
  }

  /** Sorting makes two name lists equal exactly when they hold the same names the same
      number of times. */
  lemma SortStringsEqualIff(a: seq<string>, b: seq<string>)
    ensures SortStrings(a) == SortStrings(b) <==> multiset(a) == multiset(b)
  {
    if multiset(a) == multiset(b) {
      SortedUnique(SortStrings(a), SortStrings(b));
    }
  }

  // ---------------------------------------------------------------------------------------
  // sort_dict_recursive and compare_data
  // ---------------------------------------------------------------------------------------

  /** The normal form `sort_dict_recursive` gives one entry of a dictionary. */
  function NormalEntry(v: Value): Value
    decreases v, 1
  {
    match v
    case VDict(m) => VDict(SortDictRecursive(m))
    case VList(xs) => VList(SortStrings(xs))
    case _ => v
  }

  /** `sort_dict_recursive`: the same keys, nested dictionaries normalised in turn and lists
      sorted. Key order is not part of a Dafny map, as it is not part of Python's dict
      equality. */
  function SortDictRecursive(d: map<string, Value>): (r: map<string, Value>)
    ensures r.Keys == d.Keys
    ensures forall k :: k in d && d[k].VList? ==>
              r[k].VList? && Sorted(r[k].items) && multiset(r[k].items) == multiset(d[k].items)
    ensures forall k :: k in d && d[k].VDict? ==> r[k].VDict? && r[k].entries.Keys == d[k].entries.Keys
    ensures forall k :: k in d && !d[k].VList? && !d[k].VDict? ==> r[k] == d[k]
    decreases VDict(d), 0
  {
    map k | k in d :: NormalEntry(d[k])
  }

  /** Equivalence of dictionary entries that the normal form decides, defined without
      sorting: dictionaries entry by entry, lists as multisets, anything else by equality. */
  predicate NestedEquiv(v1: Value, v2: Value)
  {
    match v1
    case VDict(a) =>
      v2.VDict? && a.Keys == v2.entries.Keys &&
      forall k :: k in a ==> NestedEquiv(a[k], v2.entries[k])
    case VList(xs) => v2.VList? && multiset(xs) == multiset(v2.items)
    case _ => v1 == v2
  }

  predicate DictEquiv(a: map<string, Value>, b: map<string, Value>)
  {
    a.Keys == b.Keys && forall k :: k in a ==> NestedEquiv(a[k], b[k])
  }

  lemma NormalEntryEqualIff(v1: Value, v2: Value)
    ensures NormalEntry(v1) == NormalEntry(v2) <==> NestedEquiv(v1, v2)
    decreases v1, 1
  {
    match v1
    case VDict(a) =>
      if v2.VDict? {
        SortDictEqualIff(a, v2.entries);
        assert NestedEquiv(v1, v2) == DictEquiv(a, v2.entries);
      } else {
        assert !NormalEntry(v2).VDict?;
      }
    case VList(xs) =>
      if v2.VList? {
        SortStringsEqualIff(xs, v2.items);
      } else {
        assert !NormalEntry(v2).VList?;
      }
    case _ =>
      assert NormalEntry(v1) == v1;
      if !v2.VDict? && !v2.VList? {
        assert NormalEntry(v2) == v2;
      }
  }

  /** Two dictionaries have the same `sort_dict_recursive` normal form exactly when they
      are equivalent entry by entry. */
  lemma SortDictEqualIff(a: map<string, Value>, b: map<string, Value>)
    ensures SortDictRecursive(a) == SortDictRecursive(b) <==> DictEquiv(a, b)
    decreases VDict(a), 0
  {
    var ra, rb := SortDictRecursive(a), SortDictRecursive(b);
    if ra == rb {
      assert a.Keys == ra.Keys == rb.Keys == b.Keys;
      forall k | k in a
        ensures NestedEquiv(a[k], b[k])
      {
        assert ra[k] == rb[k];
        NormalEntryEqualIff(a[k], b[k]);
      }
    }
    if DictEquiv(a, b) {
      forall k | k in a
        ensures ra[k] == rb[k]
      {
        NormalEntryEqualIff(a[k], b[k]);
      }
      assert ra == rb;
    }
  }

  /** The comparison `compare_data` applies to the two values found under one key: two
      dictionaries are compared through their normal forms, anything else directly (so a
      list directly under the key is order-sensitive). */
  predicate EntryMatches(v1: Value, v2: Value)
  {
    if v1.VDict? && v2.VDict? then
      SortDictRecursive(v1.entries) == SortDictRecursive(v2.entries)
    else
      v1 == v2
  }

  /** `compare_data`: every key of either dictionary must be in both, with matching values. */
  function CompareData(d1: map<string, Value>, d2: map<string, Value>): (same: bool)
    ensures same ==> d1.Keys == d2.Keys
    ensures d1.Keys != d2.Keys ==> !same
  {
    (forall k :: k in d1 ==> k in d2) &&
    (forall k :: k in d2 ==> k in d1) &&
    (forall k :: k in d1 && k in d2 ==> EntryMatches(d1[k], d2[k]))
  }

  predicate TopEquiv(v1: Value, v2: Value)
  {
    if v1.VDict? && v2.VDict? then DictEquiv(v1.entries, v2.entries) else v1 == v2
  }

  /** `compare_data` decides: same keys, and under each key either two equivalent
      dictionaries (nested lists compared as multisets) or two equal values. */
  lemma CompareDataIff(d1: map<string, Value>, d2: map<string, Value>)
    ensures CompareData(d1, d2) <==>
              d1.Keys == d2.Keys && forall k :: k in d1 ==> TopEquiv(d1[k], d2[k])
  {
    forall k | k in d1 && k in d2
      ensures EntryMatches(d1[k], d2[k]) <==> TopEquiv(d1[k], d2[k])
    {
      if d1[k].VDict? && d2[k].VDict? {
        SortDictEqualIff(d1[k].entries, d2[k].entries);
      }
    }
  }

  lemma NestedEquivReflexive(v: Value)
    ensures NestedEquiv(v, v)
  {
    match v
    case VDict(a) =>
      forall k | k in a
        ensures NestedEquiv(a[k], a[k])
      {
        NestedEquivReflexive(a[k]);
      }
    case _ =>
  }

  lemma NestedEquivSymmetric(v1: Value, v2: Value)
    requires NestedEquiv(v1, v2)
    ensures NestedEquiv(v2, v1)
  {
    match v1
    case VDict(a) =>
      forall k | k in v2.entries
        ensures NestedEquiv(v2.entries[k], a[k])
      {
        NestedEquivSymmetric(a[k], v2.entries[k]);
      }
    case _ =>
  }

  /** `compare_data` is reflexive. */
  lemma CompareDataReflexive(d: map<string, Value>)
    ensures CompareData(d, d)
  {
    CompareDataIff(d, d);
    forall k | k in d
      ensures TopEquiv(d[k], d[k])
    {
      if d[k].VDict? {
        forall j | j in d[k].entries
          ensures NestedEquiv(d[k].entries[j], d[k].entries[j])
        {
          NestedEquivReflexive(d[k].entries[j]);
        }
      }
    }
  }

  /** `compare_data` is symmetric. */
  lemma CompareDataSymmetric(d1: map<string, Value>, d2: map<string, Value>)
    ensures CompareData(d1, d2) == CompareData(d2, d1)
  {
    CompareDataIff(d1, d2);
    CompareDataIff(d2, d1);
    if CompareData(d1, d2) {
      forall k | k in d2
        ensures TopEquiv(d2[k], d1[k])
      {
        if d1[k].VDict? && d2[k].VDict? {
          forall j | j in d2[k].entries
            ensures NestedEquiv(d2[k].entries[j], d1[k].entries[j])
          {
            NestedEquivSymmetric(d1[k].entries[j], d2[k].entries[j]);
          }
        }
      }
    }
  }

  /** A list directly under a compared key is compared in order: the normal form is only
      applied when both values under a key are dictionaries, so two lists under that key
      match exactly when they are equal. */
  lemma ListOrderMattersAtTop(k: string, xs: seq<string>, ys: seq<string>)
    ensures CompareData(map[k := VList(xs)], map[k := VList(ys)]) <==> xs == ys
  {
    var d1, d2 := map[k := VList(xs)], map[k := VList(ys)];
    assert d1[k] == VList(xs) && d2[k] == VList(ys);
  }

  /** A list nested one dictionary deeper is compared as a multiset: the two lists match
      there exactly when they hold the same names, in any order. */
  lemma ListOrderIgnoredWhenNested(k: string, l: string, xs: seq<string>, ys: seq<string>)
    ensures CompareData(map[k := VDict(map[l := VList(xs)])], map[k := VDict(map[l := VList(ys)])])
            <==> multiset(xs) == multiset(ys)
  {
    var n1 := map[k := VDict(map[l := VList(xs)])];
    var n2 := map[k := VDict(map[l := VList(ys)])];
    CompareDataIff(n1, n2);
    var e1, e2 := map[l := VList(xs)], map[l := VList(ys)];
    assert n1[k] == VDict(e1) && n2[k] == VDict(e2);
    assert e1[l] == VList(xs) && e2[l] == VList(ys);
    assert DictEquiv(e1, e2) <==> NestedEquiv(VList(xs), VList(ys));
  }

  // ---------------------------------------------------------------------------------------
  // compare_states
  // ---------------------------------------------------------------------------------------

  /** The fluents `compare_states` looks at. */
  predicate Compared(s: State, f: string, withStatic: bool)
    requires f in s
  {
    s[f].dynamic || withStatic
  }

  /** What `compare_states` needs of its arguments to run without raising: every compared
      fluent of the first state exists in the second, and both values are dictionaries. */
  predicate Comparable(s1: State, s2: State, withStatic: bool)
  {
    forall f :: f in s1 && Compared(s1, f, withStatic) ==>
      f in s2 && s1[f].data.VDict? && s2[f].data.VDict?
  }

  /** `compare_states`: every compared fluent of the first state matches under
      `compare_data`. */
  function CompareStates(s1: State, s2: State, withStatic: bool): (same: bool)
    requires Comparable(s1, s2, withStatic)
    ensures same ==> forall f :: f in s1 && Compared(s1, f, withStatic) ==>
                       s1[f].data.entries.Keys == s2[f].data.entries.Keys
  {
    forall f :: f in s1 && Compared(s1, f, withStatic) ==>
      CompareData(s1[f].data.entries, s2[f].data.entries)
  }

  /** Two states built from one schema: the same fluents with the same flags. */
  predicate SameSchema(s1: State, s2: State)
  {
    s1.Keys == s2.Keys && forall f :: f in s1 ==> s1[f].dynamic == s2[f].dynamic
  }

  /** On states of one schema the comparison is an equivalence's symmetric half; a state
      always matches itself. */
  lemma CompareStatesProperties(s1: State, s2: State, withStatic: bool)
    requires SameSchema(s1, s2)
    requires Comparable(s1, s2, withStatic)
    ensures Comparable(s2, s1, withStatic)
    ensures Comparable(s1, s1, withStatic)
    ensures CompareStates(s1, s1, withStatic)
    ensures CompareStates(s1, s2, withStatic) == CompareStates(s2, s1, withStatic)
  {
    forall f | f in s1 && Compared(s1, f, withStatic)
      ensures CompareData(s1[f].data.entries, s1[f].data.entries)
      ensures CompareData(s1[f].data.entries, s2[f].data.entries) ==
              CompareData(s2[f].data.entries, s1[f].data.entries)
    {
      CompareDataReflexive(s1[f].data.entries);
      CompareDataSymmetric(s1[f].data.entries, s2[f].data.entries);
    }
  }

  /** A dynamic fluent whose dictionaries differ on their key sets makes the states differ. */
  lemma DifferentKeysDiffer(s1: State, s2: State, f: string)
    requires Comparable(s1, s2, false)
    requires f in s1 && s1[f].dynamic
    requires s1[f].data.entries.Keys != s2[f].data.entries.Keys
    ensures !CompareStates(s1, s2, false)
  {
  }
}

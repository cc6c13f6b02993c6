/**
 * The orderings the builder imposes before scoping a list of nodes: brace
 * elements by end location and `@_specialize` attributes by location (a stable
 * sort on an integer key), and type members by start location with the
 * pattern-binding tie-break (IterableTypeScope::getMembersInSourceOrder).
 */
module SourceOrder {
  import opened Wrappers
  import opened Syntax

  // ---------------------------------------------------------------------
  // Sorting by an integer key

  ghost predicate SortedByKey<T>(s: seq<T>, key: T -> int)
  {
    forall i, j :: 0 <= i < j < |s| ==> key(s[i]) <= key(s[j])
  }

  /** The subsequence of `s` whose key is `v`; a stable sort keeps it unchanged. */
  function WithKey<T>(s: seq<T>, key: T -> int, v: int): seq<T>
  {
    if s == [] then []
    else WithKey(s[..|s| - 1], key, v) + (if key(s[|s| - 1]) == v then [s[|s| - 1]] else [])
  }

  lemma {:induction false} WithKeyAppend<T>(a: seq<T>, b: seq<T>, key: T -> int, v: int)
    ensures WithKey(a + b, key, v) == WithKey(a, key, v) + WithKey(b, key, v)
    decreases |b|
  {
    if b == [] {
      assert a + b == a;
    } else {
      var b' := b[..|b| - 1];
      assert (a + b)[..|a + b| - 1] == a + b';
      WithKeyAppend(a, b', key, v);
    }
  }

  lemma {:induction false} WithKeyNone<T>(s: seq<T>, key: T -> int, v: int)
    requires forall i :: 0 <= i < |s| ==> key(s[i]) != v
    ensures WithKey(s, key, v) == []
    decreases |s|
  {
    if s != [] {
      WithKeyNone(s[..|s| - 1], key, v);
    }
  }

  /** Inserts `x` after every element whose key is not greater than its own. */
  method InsertByKey<T>(r: seq<T>, x: T, key: T -> int) returns (res: seq<T>)
    requires SortedByKey(r, key)
    ensures SortedByKey(res, key)
    ensures multiset(res) == multiset(r) + multiset{x}
    ensures forall v :: WithKey(res, key, v) == WithKey(r, key, v) + (if key(x) == v then [x] else [])
    ensures (|r| == 0 || key(r[|r| - 1]) <= key(x)) ==> res == r + [x]
  {
    var p := |r|;
    while p > 0 && key(r[p - 1]) > key(x)
      invariant 0 <= p <= |r|
      invariant forall j :: p <= j < |r| ==> key(r[j]) > key(x)
    {
      p := p - 1;
    }
    res := r[..p] + [x] + r[p..];
    SortedInsertion(r, p, x, key);
    assert r == r[..p] + r[p..];
    forall v
      ensures WithKey(res, key, v) == WithKey(r, key, v) + (if key(x) == v then [x] else [])
    {
      WithKeyInsertion(r, p, x, key, v);
    }
  }

  lemma SortedInsertion<T>(r: seq<T>, p: nat, x: T, key: T -> int)
    requires SortedByKey(r, key) && p <= |r|
    requires p == 0 || key(r[p - 1]) <= key(x)
    requires forall j :: p <= j < |r| ==> key(r[j]) > key(x)
    ensures SortedByKey(r[..p] + [x] + r[p..], key)
  {
    var res := r[..p] + [x] + r[p..];
    forall i, j | 0 <= i < j < |res|
      ensures key(res[i]) <= key(res[j])
    {
      if j < p {
        assert res[i] == r[i] && res[j] == r[j];
      } else if j == p {
        assert res[i] == r[i];
      } else if i == p {
        assert res[j] == r[j - 1];
      } else if i < p {
        assert res[i] == r[i] && res[j] == r[j - 1];
      } else {
        assert res[i] == r[i - 1] && res[j] == r[j - 1];
      }
    }
  }

  lemma WithKeyInsertion<T>(r: seq<T>, p: nat, x: T, key: T -> int, v: int)
    requires p <= |r|
    requires forall j :: p <= j < |r| ==> key(r[j]) > key(x)
    ensures WithKey(r[..p] + [x] + r[p..], key, v) == WithKey(r, key, v) + (if key(x) == v then [x] else [])
  {
    WithKeyAppend(r[..p] + [x], r[p..], key, v);
    WithKeyAppend(r[..p], [x], key, v);
    WithKeyAppend(r[..p], r[p..], key, v);
    assert [x][..0] == [];
    assert r == r[..p] + r[p..];
    if key(x) == v {
      WithKeyNone(r[p..], key, v);
    }
  }

  /** std::stable_sort on an integer key, as insertion sort on a copy. */
  method StableSortByKey<T>(s: seq<T>, key: T -> int) returns (r: seq<T>)
    ensures SortedByKey(r, key)
    ensures multiset(r) == multiset(s)
    ensures forall v :: WithKey(r, key, v) == WithKey(s, key, v)
    ensures SortedByKey(s, key) ==> r == s
  {
    r := [];
    for i := 0 to |s|
      invariant SortedByKey(r, key)
      invariant multiset(r) == multiset(s[..i])
      invariant forall v :: WithKey(r, key, v) == WithKey(s[..i], key, v)
      invariant SortedByKey(s, key) ==> r == s[..i]
    {
      assert s[..i + 1][..i] == s[..i];
      assert s[..i + 1] == s[..i] + [s[i]];
      r := InsertByKey(r, s[i], key);
    }
    assert s[..|s|] == s;
  }

  // ---------------------------------------------------------------------
  // Member ordering

  /** isVarDeclInPatternBindingDecl: d1 is a variable bound by the pattern binding d2. */
  predicate IsVarDeclInPatternBindingDecl(d1: Node, d2: Node)
  {
    d1.VarDecl? && d2.PatternBindingDecl? && d1.parentPatternBinding == Some(d2.info.id)
  }

  /**
   * The comparator of getMembersInSourceOrder as written: at equal start
   * locations it answers "d1 first" unless d1 is a variable of d2, so it
   * answers true both ways for two unrelated members.
   */
  predicate MemberComesFirstAsWritten(d1: Node, d2: Node)
  {
    if d1.info.start == d2.info.start then !IsVarDeclInPatternBindingDecl(d1, d2)
    else d1.info.start < d2.info.start
  }

  /** The as-written comparator is not irreflexive: every member "comes before" itself. */
  lemma AsWrittenComparatorIsReflexive(d: Node)
    ensures MemberComesFirstAsWritten(d, d)
  {
  }

  /** Two unrelated members at one location each "come before" the other. */
  lemma AsWrittenComparatorIsNotAsymmetric()
    ensures var a := IgnoredDecl(Info(1, 7, 9, false), ImportDecl);
            var b := IgnoredDecl(Info(2, 7, 8, false), ImportDecl);
            MemberComesFirstAsWritten(a, b) && MemberComesFirstAsWritten(b, a)
  {
  }

  /**
   * The corrected ordering, as an integer sort key (so that "neither comes
   * first" is an equivalence, as std::stable_sort needs): by start location,
   * and at one start location every pattern binding before the other members.
   */
  function MemberSortKey(d: Node): (k: int)
    ensures k / 2 == d.info.start
    ensures k % 2 == 0 <==> d.PatternBindingDecl?
  {
    2 * d.info.start + (if d.PatternBindingDecl? then 0 else 1)
  }

  /**
   * What the corrected key promises: an earlier start sorts first, a later
   * key never has an earlier start, and a pattern binding sorts before a
   * variable it binds that starts at the same location.
   */
  lemma MemberSortKeyOrder(a: Node, b: Node)
    ensures a.info.start < b.info.start ==> MemberSortKey(a) < MemberSortKey(b)
    ensures MemberSortKey(a) <= MemberSortKey(b) ==> a.info.start <= b.info.start
    ensures a.info.start == b.info.start && IsVarDeclInPatternBindingDecl(b, a) ==>
              MemberSortKey(a) < MemberSortKey(b)
  {
  }

  /** The members with a valid start location, in their original order. */
  function Localizable(members: seq<Node>): (r: seq<Node>)
    ensures forall i :: 0 <= i < |r| ==> IsLocalizable(r[i]) && r[i] in members
    ensures multiset(r) <= multiset(members)
  {
    if members == [] then []
    else
      var rest := Localizable(members[..|members| - 1]);
      var last := members[|members| - 1];
      assert members == members[..|members| - 1] + [last];
      if IsLocalizable(last) then rest + [last] else rest
  }

  /** What std::is_sorted checks: no element sorts before the one before it. */
  ghost predicate AdjacentInOrder<T>(s: seq<T>, key: T -> int)
  {
    forall i :: 0 < i < |s| ==> key(s[i - 1]) <= key(s[i])
  }

  /** std::is_sorted on a key: checking neighbours decides whether the whole list is sorted. */
  method IsSortedByKey<T>(s: seq<T>, key: T -> int) returns (b: bool)
    ensures b <==> SortedByKey(s, key)
  {
    b := true;
    var i := 1;
    while i < |s|
      invariant 1 <= i <= |s| || |s| == 0
      invariant b <==> forall j :: 0 < j < i && j < |s| ==> key(s[j - 1]) <= key(s[j])
    {
      if key(s[i]) < key(s[i - 1]) {
        b := false;
      }
      i := i + 1;
    }
    if b {
      forall i, j | 0 <= i < j < |s|
        ensures key(s[i]) <= key(s[j])
      {
        AdjacentSorted(s, key, i, j);
      }
    }
  }

  /** A list whose neighbours are in order is sorted. */
  lemma {:induction false} AdjacentSorted<T>(s: seq<T>, key: T -> int, i: nat, j: nat)
    requires AdjacentInOrder(s, key) && i < j < |s|
    ensures key(s[i]) <= key(s[j])
    decreases j - i
  {
    if j - 1 > i {
      AdjacentSorted(s, key, i, j - 1);
    }
  }

  /**
   * getMembersInSourceOrder with the corrected ordering: exactly the
   * localizable members, sorted by start location; members at one start that
   * the ordering leaves together keep their order; a pattern binding comes
   * before its variables whenever no variable starts before its binding (the
   * debug assertion patternPreceedsVar); and the list is left as it is when
   * already in order.
   */
  method GetMembersInSourceOrder(members: seq<Node>) returns (sorted: seq<Node>)
    ensures multiset(sorted) == multiset(Localizable(members))
    ensures forall i :: 0 <= i < |sorted| ==> IsLocalizable(sorted[i]) && sorted[i] in members
    ensures forall i, j :: 0 <= i < j < |sorted| ==>
              sorted[i].info.start <= sorted[j].info.start && MemberSortKey(sorted[i]) <= MemberSortKey(sorted[j])
    ensures forall v :: WithKey(sorted, MemberSortKey, v) == WithKey(Localizable(members), MemberSortKey, v)
    ensures (forall a, b :: a in members && b in members && IsVarDeclInPatternBindingDecl(a, b) ==>
               b.info.start <= a.info.start) ==>
            forall i, j :: 0 <= i < j < |sorted| ==> !IsVarDeclInPatternBindingDecl(sorted[i], sorted[j])
    ensures SortedByKey(Localizable(members), MemberSortKey) ==> sorted == Localizable(members)
  {
    sorted := FilterLocalizable(members);
    var inOrder := IsSortedByKey(sorted, MemberSortKey);
    if !inOrder {
      sorted := StableSortByKey(sorted, MemberSortKey);
    }
    forall i | 0 <= i < |sorted|
      ensures IsLocalizable(sorted[i]) && sorted[i] in members
    {
      assert sorted[i] in multiset(Localizable(members));
    }
    forall i, j | 0 <= i < j < |sorted|
      ensures sorted[i].info.start <= sorted[j].info.start
    {
      MemberSortKeyOrder(sorted[i], sorted[j]);
    }
    if forall a, b :: a in members && b in members && IsVarDeclInPatternBindingDecl(a, b) ==>
         b.info.start <= a.info.start
    {
      forall i, j | 0 <= i < j < |sorted|
        ensures !IsVarDeclInPatternBindingDecl(sorted[i], sorted[j])
      {
        MemberSortKeyOrder(sorted[j], sorted[i]);
      }
    }
  }

  /** The first loop of getMembersInSourceOrder: the localizable members, in their given order. */
  method FilterLocalizable(members: seq<Node>) returns (kept: seq<Node>)
    ensures kept == Localizable(members)
  {
    kept := [];
    for i := 0 to |members|
      invariant kept == Localizable(members[..i])
    {
      assert members[..i + 1][..i] == members[..i];
      if IsLocalizable(members[i]) {
        kept := kept + [members[i]];
      }
    }
    assert members[..|members|] == members;
  }
}

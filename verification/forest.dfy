/**
 * The scope tree as an arena of scope records addressed by index, with the
 * ghost bookkeeping the proofs use: the depth of every scope, the scopes that
 * were disowned, and which scope owns each referent in the dedup set.
 */
module Forest {
  import opened Wrappers
  import opened Syntax
  import opened Scopes

  /** A snapshot of the arena: scopes, their depths, the disowned scopes and the referent owners. */
  datatype ArenaState = ArenaState(scopes: seq<Scope>, depth: seq<nat>, disowned: set<nat>,
                                   owner: map<int, nat>)

  ghost predicate Live(A: ArenaState, i: nat)
  {
    i < |A.scopes| && i !in A.disowned
  }

  /** `y` is a proper descendant of `x`: following parents from `y` reaches `x`. */
  ghost predicate Under(A: ArenaState, y: nat, x: nat)
    decreases if y < |A.depth| then A.depth[y] else 0
  {
    y < |A.scopes| && y < |A.depth| && A.scopes[y].parent.Some?
    && var p := A.scopes[y].parent.value;
       p < |A.depth| && A.depth[p] < A.depth[y]
       && (p == x || Under(A, p, x))
  }

  // ---------------------------------------------------------------------
  // Tree invariant: exclusive parent ownership, depths, disowned scopes

  /** A scope's parent lists it among its children, one level higher. */
  ghost predicate ParentOK(A: ArenaState, i: nat)
  {
    i < |A.scopes| && i < |A.depth|
    && (A.scopes[i].parent.Some? ==>
          var p := A.scopes[i].parent.value;
          p < |A.scopes| && p < |A.depth| && A.depth[i] == A.depth[p] + 1
          && i in A.scopes[p].children)
  }

  /** A scope's children are distinct scopes whose parent it is. */
  ghost predicate ChildrenOK(A: ArenaState, i: nat)
  {
    i < |A.scopes|
    && (forall j :: 0 <= j < |A.scopes[i].children| ==>
          A.scopes[i].children[j] < |A.scopes| && A.scopes[A.scopes[i].children[j]].parent == Some(i))
    && (forall j, k :: 0 <= j < k < |A.scopes[i].children| ==>
          A.scopes[i].children[j] != A.scopes[i].children[k])
  }

  ghost predicate TreeOK(A: ArenaState)
  {
    |A.scopes| >= 1 && |A.depth| == |A.scopes|
    && A.scopes[0].kind == ASTSourceFileScope && A.scopes[0].parent == None
    && A.depth[0] == 0 && 0 !in A.disowned
    && (forall i :: 0 <= i < |A.depth| ==> A.depth[i] < |A.scopes|)
    && (forall i :: 0 <= i < |A.scopes| ==> ParentOK(A, i) && ChildrenOK(A, i))
    && (forall i :: i in A.disowned ==>
          i < |A.scopes| && A.scopes[i].parent.None? && A.scopes[i].children == [])
  }

  /** Every scope's kind holds a node of the right shape. */
  ghost predicate KindsOK(A: ArenaState)
  {
    forall i :: 0 <= i < |A.scopes| ==> WellFormed(A.scopes[i].kind)
  }

  // ---------------------------------------------------------------------
  // Dedup invariant: the set holds exactly the referents of live scopes

  /** The live scope `A.owner[r]` has referent `r`. */
  ghost predicate OwnerOK(A: ArenaState, r: int)
  {
    r in A.owner && A.owner[r] < |A.scopes| && A.owner[r] !in A.disowned
    && Referent(A.scopes[A.owner[r]].kind) == Some(r)
  }

  /** A live scope with a referent is the owner of that referent. */
  ghost predicate Owns(A: ArenaState, i: nat)
  {
    i < |A.scopes| && Referent(A.scopes[i].kind).Some?
    && Referent(A.scopes[i].kind).value in A.owner
    && A.owner[Referent(A.scopes[i].kind).value] == i
  }

  /**
   * The dedup set is the owned referents plus `pending`, a referent inserted
   * whose scope is not yet allocated; no two live scopes share a referent.
   */
  ghost predicate DedupOK(A: ArenaState, pointers: set<int>, pending: set<int>)
  {
    pointers == A.owner.Keys + pending && A.owner.Keys !! pending
    && (forall r :: r in A.owner ==> OwnerOK(A, r))
    && (forall i :: 0 <= i < |A.scopes| && i !in A.disowned && Referent(A.scopes[i].kind).Some? ==>
          Owns(A, i))
  }

  // ---------------------------------------------------------------------
  // Growth: what building below one scope may change

  /** `b` is `a` with children appended; its snapshot is rewritten only when `refresh`. */
  ghost predicate ScopeGrown(a: Scope, b: Scope, refresh: bool)
  {
    b.kind == a.kind && b.parent == a.parent && a.children <= b.children
    && (!refresh ==> b.childrenCountWhenLastExpanded == a.childrenCountWhenLastExpanded
                     && b.snapshot == a.snapshot)
  }

  /**
   * `B` extends `A` by new scopes, all of them below `p`: every old scope other
   * than `p` is unchanged, `p` only gains children, depths and owners are
   * extended, nothing is disowned.
   */
  ghost predicate Grown(A: ArenaState, B: ArenaState, p: nat, refresh: bool)
  {
    |A.scopes| <= |B.scopes| && A.depth <= B.depth && B.disowned == A.disowned
    && (forall r :: r in A.owner ==> r in B.owner && B.owner[r] == A.owner[r])
    && (forall i :: 0 <= i < |A.scopes| && i != p ==> B.scopes[i] == A.scopes[i])
    && (p < |A.scopes| ==> ScopeGrown(A.scopes[p], B.scopes[p], refresh))
    && (forall i :: |A.scopes| <= i < |B.scopes| ==> Under(B, i, p))
  }

  /** `r` is a live insertion point that is `p` itself or a new scope below `p`. */
  ghost predicate NewPoint(A: ArenaState, B: ArenaState, r: nat, p: nat)
  {
    Live(B, r) && (r == p || (|A.scopes| <= r && Under(B, r, p)))
  }

  /**
   * The insertion point an expansion of `x` returns, by the rule of its kind:
   * `x` itself, its parent, or a live point at or below `x`.
   */
  ghost predicate ExpansionPoint(A: ArenaState, B: ArenaState, x: nat, r: nat)
  {
    x < |A.scopes|
    && match InsertionPointRuleOf(A.scopes[x].kind)
       case ReturnsSelf => r == x
       case ReturnsParent => A.scopes[x].parent == Some(r)
       case ReturnsDescendant => NewPoint(A, B, r, x)
  }

  /**
   * A scope of kind `k` was created and appended as the last child of `p`, and
   * `r`, the insertion point its expansion returned, follows the rule of `k`:
   * the new scope, `p`, or the new scope or a scope below it.
   */
  ghost predicate Attached(A: ArenaState, B: ArenaState, p: nat, k: ScopeKind, r: nat)
  {
    p < |A.scopes| && |A.scopes| < |B.scopes|
    && B.scopes[p].children == A.scopes[p].children + [|A.scopes|]
    && B.scopes[|A.scopes|].kind == k && B.scopes[|A.scopes|].parent == Some(p)
    && (InsertionPointRuleOf(k) == ReturnsSelf ==> r == |A.scopes|)
    && (InsertionPointRuleOf(k) == ReturnsParent ==> r == p)
    && (InsertionPointRuleOf(k) == ReturnsDescendant ==> |A.scopes| <= r && (r == |A.scopes| || Under(B, r, |A.scopes|)))
  }

  // ---------------------------------------------------------------------
  // Lemmas about descendants

  lemma {:induction false} UnderDepth(A: ArenaState, y: nat, x: nat)
    requires Under(A, y, x)
    ensures x < |A.depth| && A.depth[x] < A.depth[y]
    decreases A.depth[y]
  {
    var p := A.scopes[y].parent.value;
    if p != x {
      UnderDepth(A, p, x);
    }
  }

  lemma {:induction false} UnderTrans(A: ArenaState, z: nat, y: nat, x: nat)
    requires Under(A, z, y) && Under(A, y, x)
    ensures Under(A, z, x)
    decreases A.depth[z]
  {
    var p := A.scopes[z].parent.value;
    if p != y {
      UnderTrans(A, p, y, x);
    }
  }

  /** Every ancestor of an ancestor of `z` is an ancestor of `z`. */
  lemma UnderAncestors(A: ArenaState, z: nat, y: nat)
    requires Under(A, z, y)
    ensures forall x :: Under(A, y, x) ==> Under(A, z, x)
  {
    forall x | Under(A, y, x)
      ensures Under(A, z, x)
    {
      UnderTrans(A, z, y, x);
    }
  }

  /** A scope whose parent is `x` is below `x`. */
  lemma ChildUnder(A: ArenaState, c: nat, x: nat)
    requires TreeOK(A) && c < |A.scopes| && A.scopes[c].parent == Some(x)
    ensures Under(A, c, x)
  {
    assert ParentOK(A, c);
  }

  /** Growth keeps every descendant relation of the old scopes. */
  lemma {:induction false} UnderGrown(A: ArenaState, B: ArenaState, y: nat, x: nat, p: nat, refresh: bool)
    requires Grown(A, B, p, refresh) && Under(A, y, x)
    ensures Under(B, y, x)
    decreases A.depth[y]
  {
    assert A.depth[y] == B.depth[y];
    var q := A.scopes[y].parent.value;
    assert B.scopes[y].parent == A.scopes[y].parent;
    assert A.depth[q] == B.depth[q];
    if q != x {
      UnderGrown(A, B, q, x, p, refresh);
    }
  }

  lemma GrownRefl(A: ArenaState, p: nat)
    ensures Grown(A, A, p, false)
  {
  }

  /** Growth below `p` then below `p` or a new scope is growth below `p`. */
  lemma GrownTrans(A: ArenaState, B: ArenaState, C: ArenaState, p: nat, q: nat, rf1: bool, rf2: bool)
    requires Grown(A, B, p, rf1) && Grown(B, C, q, rf2)
    requires q == p || |A.scopes| <= q < |B.scopes|
    ensures Grown(A, C, p, rf1 || (q == p && rf2))
  {
    assert A.depth <= C.depth by {
      assert A.depth == B.depth[..|A.depth|];
      assert B.depth == C.depth[..|B.depth|];
    }
    forall i | |A.scopes| <= i < |C.scopes|
      ensures Under(C, i, p)
    {
      if i < |B.scopes| {
        UnderGrown(B, C, i, p, q, rf2);
      } else if q != p {
        UnderGrown(B, C, q, p, q, rf2);
        UnderTrans(C, i, q, p);
      }
    }
  }

  /**
   * Attaching a new child `c` to `p` and expanding it: all growth is below `p`,
   * and the insertion point the expansion returns (the child itself, the
   * parent, or a new point below the child) is a point below `p`.
   */
  lemma AttachStep(A: ArenaState, B: ArenaState, C: ArenaState, p: nat, c: nat, r: nat)
    requires TreeOK(B) && Grown(A, B, p, false) && p < |A.scopes| && c == |A.scopes| && |B.scopes| == c + 1
    requires B.scopes[c].parent == Some(p) && Live(B, p) && Live(B, c)
    requires Grown(B, C, c, true)
    requires r == c || r == p || NewPoint(B, C, r, c)
    ensures Grown(A, C, p, false) && NewPoint(A, C, r, p)
  {
    GrownTrans(A, B, C, p, c, false, true);
    ChildUnder(B, c, p);
    UnderGrown(B, C, c, p, c, true);
    if r != c && r != p {
      UnderTrans(C, r, c, p);
    }
  }

  /**
   * Threading the insertion point: if `q` is a point below `p` and the next
   * step grows below `q` and returns `r` below `q`, then `r` is below `p`.
   */
  lemma ChainStep(A: ArenaState, B: ArenaState, C: ArenaState, p: nat, q: nat, r: nat)
    requires Grown(A, B, p, false) && NewPoint(A, B, q, p)
    requires Grown(B, C, q, false) && NewPoint(B, C, r, q)
    ensures Grown(A, C, p, false) && NewPoint(A, C, r, p)
  {
    GrownTrans(A, B, C, p, q, false, false);
    if q != p {
      UnderGrown(B, C, q, p, q, false);
      if r != q {
        UnderTrans(C, r, q, p);
      }
    }
  }

  /** A step that grows below `q` (and whose result is dropped) keeps the current point `r`. */
  lemma SideStep(A: ArenaState, B: ArenaState, C: ArenaState, p: nat, q: nat, r: nat)
    requires Grown(A, B, p, false) && NewPoint(A, B, q, p) && NewPoint(A, B, r, p)
    requires Grown(B, C, q, false)
    ensures Grown(A, C, p, false) && NewPoint(A, C, r, p)
  {
    GrownTrans(A, B, C, p, q, false, false);
    if r != p {
      UnderGrown(B, C, r, p, q, false);
    }
  }

  /** Refreshing the snapshot of `x` after expanding it keeps the growth and the insertion point. */
  lemma RefreshStep(A: ArenaState, B: ArenaState, C: ArenaState, x: nat, r: nat)
    requires Grown(A, B, x, false) && ExpansionPoint(A, B, x, r)
    requires Grown(B, C, x, true) && |C.scopes| == |B.scopes|
    ensures Grown(A, C, x, true) && ExpansionPoint(A, C, x, r)
  {
    GrownTrans(A, B, C, x, x, false, true);
    if InsertionPointRuleOf(A.scopes[x].kind) == ReturnsDescendant && r != x {
      UnderGrown(B, C, r, x, x, true);
    }
  }

  // ---------------------------------------------------------------------
  // The child of `x` above a descendant, for tearing a subtree down child by child

  /** The child of `x` on the path from `y` up to `x`. */
  ghost function Top(A: ArenaState, y: nat, x: nat): nat
    requires Under(A, y, x)
    decreases A.depth[y]
  {
    var p := A.scopes[y].parent.value;
    if p == x then y else Top(A, p, x)
  }

  lemma {:induction false} TopIsChild(A: ArenaState, y: nat, x: nat)
    requires TreeOK(A) && Under(A, y, x) && x < |A.scopes|
    ensures Top(A, y, x) in A.scopes[x].children
    ensures Top(A, y, x) == y || Under(A, y, Top(A, y, x))
    decreases A.depth[y]
  {
    assert ParentOK(A, y);
    var p := A.scopes[y].parent.value;
    if p != x {
      TopIsChild(A, p, x);
      var t := Top(A, p, x);
      if t != p {
        UnderTrans(A, y, p, t);
      }
    }
  }

  /** Every scope at or below a child `c` of `x` is below `x`, with `c` as its top. */
  lemma {:induction false} TopOfChild(A: ArenaState, y: nat, c: nat, x: nat)
    requires TreeOK(A) && x < |A.scopes| && c in A.scopes[x].children
    requires y == c || Under(A, y, c)
    ensures Under(A, y, x) && Top(A, y, x) == c
    decreases if y < |A.depth| then A.depth[y] else 0
  {
    assert ChildrenOK(A, x);
    assert A.scopes[c].parent == Some(x);
    ChildUnder(A, c, x);
    if y != c {
      var p := A.scopes[y].parent.value;
      UnderDepth(A, c, x);
      if p != c {
        TopOfChild(A, p, c, x);
        UnderDepth(A, p, c);
        assert p != x;
      } else {
        assert Top(A, c, x) == c;
      }
      UnderTrans(A, y, c, x);
      assert Top(A, y, x) == Top(A, p, x);
    }
  }

  /**
   * When the parents of `c` and of every scope below `c` are the same in `A`
   * and `B`, and `B` only ever cuts parents, the scopes below `c` are the same.
   */
  lemma {:induction false} UnderSameBelow(A: ArenaState, B: ArenaState, y: nat, c: nat)
    requires A.depth == B.depth && |A.scopes| == |B.scopes|
    requires forall z :: 0 <= z < |A.scopes| ==>
               B.scopes[z].parent == A.scopes[z].parent || B.scopes[z].parent.None?
    requires forall z :: 0 <= z < |A.scopes| && Under(A, z, c) ==> B.scopes[z].parent == A.scopes[z].parent
    ensures Under(A, y, c) <==> Under(B, y, c)
    decreases if y < |A.depth| then A.depth[y] else 0
  {
    if y < |A.scopes| && y < |A.depth| && A.scopes[y].parent.Some? {
      var p := A.scopes[y].parent.value;
      if p != c && p < |A.depth| && A.depth[p] < A.depth[y] {
        UnderSameBelow(A, B, p, c);
      }
    }
  }

  // ---------------------------------------------------------------------
  // The kinds of a scope's children

  /** From position `from` on, the children of `p` have the kinds `ks`, in order, and no others follow. */
  ghost predicate ChildKindsFrom(A: ArenaState, p: nat, from: nat, ks: seq<ScopeKind>)
  {
    ChildKindsAt(A, p, from, ks) && from + |ks| == |A.scopes[p].children|
  }

  /** The children of `p` at positions `from` to `from + |ks|` have the kinds `ks`. */
  ghost predicate ChildKindsAt(A: ArenaState, p: nat, from: nat, ks: seq<ScopeKind>)
  {
    p < |A.scopes| && from + |ks| <= |A.scopes[p].children|
    && forall j :: from <= j < from + |ks| ==>
         A.scopes[p].children[j] < |A.scopes| && A.scopes[A.scopes[p].children[j]].kind == ks[j - from]
  }

  /** The youngest child of `p` is a scope of kind `k`. */
  ghost predicate LastChildKind(A: ArenaState, p: nat, k: ScopeKind)
  {
    p < |A.scopes| && |A.scopes[p].children| > 0
    && A.scopes[p].children[|A.scopes[p].children| - 1] < |A.scopes|
    && A.scopes[A.scopes[p].children[|A.scopes[p].children| - 1]].kind == k
  }

  /** Growth only adds referents to the dedup set. */
  lemma GrownKeepsReferents(A: ArenaState, B: ArenaState, pa: set<int>, pb: set<int>, p: nat, refresh: bool)
    requires DedupOK(A, pa, {}) && DedupOK(B, pb, {}) && Grown(A, B, p, refresh)
    ensures pa <= pb
  {
    forall r | r in pa
      ensures r in pb
    {
      assert r in A.owner;
    }
  }

  /** From position `from` on, every child of `p` is a scope whose kind is in `ks`. */
  ghost predicate ChildKindsIn(A: ArenaState, p: nat, from: nat, ks: set<ScopeKind>)
  {
    p < |A.scopes| && from <= |A.scopes[p].children|
    && forall j :: from <= j < |A.scopes[p].children| ==>
         A.scopes[p].children[j] < |A.scopes| && A.scopes[A.scopes[p].children[j]].kind in ks
  }

  /** Attaching a scope whose kind is in `ks` keeps every child from `from` on of a kind in `ks`. */
  lemma AttachKeepsChildKindsIn(A: ArenaState, B: ArenaState, p: nat, k: ScopeKind, r: nat, from: nat,
                                ks: set<ScopeKind>)
    requires TreeOK(A) && Grown(A, B, p, false) && Attached(A, B, p, k, r) && ChildKindsIn(A, p, from, ks)
    requires k in ks
    ensures ChildKindsIn(B, p, from, ks)
  {
    assert ChildrenOK(A, p);
    forall j | from <= j < |A.scopes[p].children|
      ensures B.scopes[A.scopes[p].children[j]] == A.scopes[A.scopes[p].children[j]]
    {
      assert ParentOK(A, A.scopes[p].children[j]);
    }
  }

  /** The scope just attached to `p` is its youngest child. */
  lemma AttachedIsLastChild(A: ArenaState, B: ArenaState, p: nat, k: ScopeKind, r: nat)
    requires Attached(A, B, p, k, r)
    ensures LastChildKind(B, p, k) && B.scopes[p].children[|B.scopes[p].children| - 1] == |A.scopes|
  {
  }

  /** Growth below another scope keeps the youngest child of `x` and its kind. */
  lemma GrownKeepsLastChild(A: ArenaState, B: ArenaState, q: nat, x: nat, k: ScopeKind, refresh: bool)
    requires Grown(A, B, q, refresh) && LastChildKind(A, x, k) && x != q
    ensures LastChildKind(B, x, k)
    ensures B.scopes[x].children == A.scopes[x].children
  {
  }

  /** From position `from` on, the children of `p` are scopes of entries of `d`, in increasing index order. */
  ghost predicate EntryChildren(A: ArenaState, p: nat, from: nat, d: Node, vis: DeclVisibilityKind)
  {
    p < |A.scopes| && from <= |A.scopes[p].children|
    && (forall j :: from <= j < |A.scopes[p].children| ==>
          A.scopes[p].children[j] < |A.scopes| && EntryOf(A.scopes[A.scopes[p].children[j]].kind, d, vis))
    && (forall j, j' :: from <= j < j' < |A.scopes[p].children| ==>
          A.scopes[p].children[j] < |A.scopes| && A.scopes[p].children[j'] < |A.scopes|
          && EntryIndex(A.scopes[A.scopes[p].children[j]].kind) < EntryIndex(A.scopes[A.scopes[p].children[j']].kind))
  }

  /** Children whose kinds are entry scopes of `d` in increasing order are entry children. */
  lemma EntryChildrenOfKinds(A: ArenaState, p: nat, from: nat, ks: seq<ScopeKind>, d: Node, vis: DeclVisibilityKind)
    requires ChildKindsFrom(A, p, from, ks) && EntryKinds(ks, d, vis)
    ensures EntryChildren(A, p, from, d, vis)
  {
    forall j, j' | from <= j < j' < |A.scopes[p].children|
      ensures EntryIndex(A.scopes[A.scopes[p].children[j]].kind) < EntryIndex(A.scopes[A.scopes[p].children[j']].kind)
    {
      assert A.scopes[A.scopes[p].children[j]].kind == ks[j - from];
      assert A.scopes[A.scopes[p].children[j']].kind == ks[j' - from];
    }
  }

  /** Growth below `p` keeps the position and kind of every child `p` already had. */
  lemma GrownKeepsChildKinds(A: ArenaState, B: ArenaState, p: nat, from: nat, ks: seq<ScopeKind>, refresh: bool)
    requires TreeOK(A) && Grown(A, B, p, refresh) && ChildKindsAt(A, p, from, ks)
    ensures ChildKindsAt(B, p, from, ks)
  {
    assert ChildrenOK(A, p);
    forall j | from <= j < from + |ks|
      ensures B.scopes[p].children[j] == A.scopes[p].children[j]
      ensures B.scopes[A.scopes[p].children[j]] == A.scopes[A.scopes[p].children[j]]
    {
      assert ParentOK(A, A.scopes[p].children[j]);
    }
  }

  /** Attaching a scope of kind `k` to `p` extends the kinds of its children by `k`. */
  lemma AttachExtendsChildKinds(A: ArenaState, B: ArenaState, p: nat, k: ScopeKind, r: nat, from: nat,
                                ks: seq<ScopeKind>)
    requires TreeOK(A) && Grown(A, B, p, false) && Attached(A, B, p, k, r) && ChildKindsFrom(A, p, from, ks)
    ensures ChildKindsFrom(B, p, from, ks + [k])
  {
    GrownKeepsChildKinds(A, B, p, from, ks, false);
  }

  /** Growth below another scope `q` keeps the children of `x` and their kinds. */
  lemma GrownAsideKeepsChildKinds(A: ArenaState, B: ArenaState, q: nat, x: nat, from: nat, ks: seq<ScopeKind>,
                                  refresh: bool)
    requires Grown(A, B, q, refresh) && x != q && ChildKindsFrom(A, x, from, ks)
    ensures ChildKindsFrom(B, x, from, ks)
  {
    forall j | from <= j < from + |ks|
      ensures B.scopes[x].children[j] < |B.scopes| && B.scopes[B.scopes[x].children[j]].kind == ks[j - from]
    {
      var c := A.scopes[x].children[j];
      assert B.scopes[x].children[j] == c;
      if c != q {
        assert B.scopes[c] == A.scopes[c];
      }
    }
  }

  /** Children of kinds `ks` from `from` on, then growth adding children of kinds `ks2`: all are of kinds in `ks + ks2`. */
  lemma GrownJoinsChildKindsIn(A: ArenaState, B: ArenaState, p: nat, from: nat, ks: set<ScopeKind>,
                               ks2: set<ScopeKind>, refresh: bool)
    requires TreeOK(A) && Grown(A, B, p, refresh) && ChildKindsIn(A, p, from, ks)
    requires ChildKindsIn(B, p, |A.scopes[p].children|, ks2)
    ensures ChildKindsIn(B, p, from, ks + ks2)
  {
    assert ChildrenOK(A, p);
    forall j | from <= j < |A.scopes[p].children|
      ensures B.scopes[p].children[j] == A.scopes[p].children[j]
      ensures B.scopes[A.scopes[p].children[j]] == A.scopes[A.scopes[p].children[j]]
    {
      assert ParentOK(A, A.scopes[p].children[j]);
    }
  }

  /**
   * The children of `h` from position `m` on, where `h` is `x` itself (`d` = 1)
   * or a child of `x` (`d` = 2): live scopes, other than `x`, `d` levels below it.
   */
  lemma RecentChildren(A: ArenaState, x: nat, h: nat, m: nat, d: nat)
    requires TreeOK(A) && x < |A.scopes| && h < |A.scopes| && m <= |A.scopes[h].children|
    requires (h == x && d == 1) || (h != x && A.scopes[h].parent == Some(x) && d == 2)
    ensures forall i :: m <= i < |A.scopes[h].children| ==>
              A.scopes[h].children[i] < |A.scopes| && A.scopes[h].children[i] != x
              && A.scopes[h].children[i] !in A.disowned && A.depth[A.scopes[h].children[i]] == A.depth[x] + d
  {
    assert ChildrenOK(A, h) && ParentOK(A, h);
    forall i | m <= i < |A.scopes[h].children|
      ensures A.scopes[h].children[i] < |A.scopes| && A.scopes[h].children[i] != x
      ensures A.scopes[h].children[i] !in A.disowned && A.depth[A.scopes[h].children[i]] == A.depth[x] + d
    {
      assert ParentOK(A, A.scopes[h].children[i]);
    }
  }
}

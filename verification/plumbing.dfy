/**
 * The two elementary edits of the scope tree, over arena snapshots: attaching
 * an orphan as the last child of a scope (addChild), and taking a child out of
 * a scope's list and emancipating it.  Both keep the tree invariant.
 */
module Plumbing {
  import opened Wrappers
  import opened Scopes
  import opened Forest
  import opened Teardown

  /** `A` with orphan `s` appended to the children of `p`, its parent set to `p`. */
  function Attach(A: ArenaState, p: nat, s: nat): ArenaState
    requires p < |A.scopes| && s < |A.scopes|
  {
    A.(scopes := A.scopes[p := A.scopes[p].(children := A.scopes[p].children + [s])]
                         [s := A.scopes[s].(parent := Some(p))])
  }

  /** `A` with the child at position `j` of `x` taken out of its list and emancipated. */
  function Detach(A: ArenaState, x: nat, j: nat): ArenaState
    requires x < |A.scopes| && j < |A.scopes[x].children| && A.scopes[x].children[j] < |A.scopes|
  {
    var c := A.scopes[x].children[j];
    A.(scopes := A.scopes[x := A.scopes[x].(children := A.scopes[x].children[..j] + A.scopes[x].children[j + 1..])]
                         [c := A.scopes[c].(parent := None)])
  }

  /** An edit that keeps every kind, the disowned set and the owners keeps the kind and dedup invariants. */
  lemma KindsKept(A: ArenaState, B: ArenaState, pointers: set<int>, pending: set<int>)
    requires |B.scopes| == |A.scopes| && B.disowned == A.disowned && B.owner == A.owner
    requires forall i :: 0 <= i < |A.scopes| ==> B.scopes[i].kind == A.scopes[i].kind
    requires KindsOK(A) && DedupOK(A, pointers, pending)
    ensures KindsOK(B) && DedupOK(B, pointers, pending)
  {
    forall r | r in B.owner
      ensures OwnerOK(B, r)
    {
      assert OwnerOK(A, r);
    }
    forall i | 0 <= i < |B.scopes| && i !in B.disowned && Referent(B.scopes[i].kind).Some?
      ensures Owns(B, i)
    {
      assert Owns(A, i);
    }
  }

  /** An edit that keeps every kind, parent and child list keeps all three invariants. */
  lemma ShapeKept(A: ArenaState, B: ArenaState, pointers: set<int>, pending: set<int>)
    requires |B.scopes| == |A.scopes| && B.depth == A.depth && B.disowned == A.disowned && B.owner == A.owner
    requires forall i :: 0 <= i < |A.scopes| ==>
               B.scopes[i].kind == A.scopes[i].kind && B.scopes[i].parent == A.scopes[i].parent
               && B.scopes[i].children == A.scopes[i].children
    requires TreeOK(A) && KindsOK(A) && DedupOK(A, pointers, pending)
    ensures TreeOK(B) && KindsOK(B) && DedupOK(B, pointers, pending)
  {
    KindsKept(A, B, pointers, pending);
    forall i | 0 <= i < |B.scopes|
      ensures ParentOK(B, i) && ChildrenOK(B, i)
    {
      assert ParentOK(A, i) && ChildrenOK(A, i);
    }
  }

  /** Replacing one scope's kind by a well-formed kind with the same referent keeps all three invariants. */
  lemma KindReplaced(A: ArenaState, x: nat, k: ScopeKind, pointers: set<int>)
    requires TreeOK(A) && KindsOK(A) && DedupOK(A, pointers, {}) && 0 < x < |A.scopes|
    requires WellFormed(k) && Referent(k) == Referent(A.scopes[x].kind)
    ensures var B := A.(scopes := A.scopes[x := A.scopes[x].(kind := k)]);
            TreeOK(B) && KindsOK(B) && DedupOK(B, pointers, {})
  {
    var B := A.(scopes := A.scopes[x := A.scopes[x].(kind := k)]);
    forall i | 0 <= i < |B.scopes|
      ensures ParentOK(B, i) && ChildrenOK(B, i)
    {
      assert ParentOK(A, i) && ChildrenOK(A, i);
    }
    forall r | r in B.owner
      ensures OwnerOK(B, r)
    {
      assert OwnerOK(A, r);
    }
    forall i | 0 <= i < |B.scopes| && i !in B.disowned && Referent(B.scopes[i].kind).Some?
      ensures Owns(B, i)
    {
      assert Owns(A, i);
    }
  }

  /**
   * Scopes detached from the tree before `x` is torn down and rebuilt come
   * through unchanged and not disowned.
   */
  lemma DetachedSurvive(S1: ArenaState, S2: ArenaState, S3: ArenaState, x: nat, kept: seq<nat>)
    requires TreeOK(S1) && DisownedBelow(S1, S2, x) && Grown(S2, S3, x, true)
    requires forall i :: 0 <= i < |kept| ==>
               kept[i] < |S1.scopes| && kept[i] != x && kept[i] !in S1.disowned && S1.scopes[kept[i]].parent.None?
    ensures forall i :: 0 <= i < |kept| ==>
              kept[i] < |S3.scopes| && kept[i] !in S3.disowned && S3.scopes[kept[i]] == S1.scopes[kept[i]]
              && kept[i] < |S3.depth| && S3.depth[kept[i]] == S1.depth[kept[i]]
  {
    forall i | 0 <= i < |kept|
      ensures kept[i] < |S3.scopes| && kept[i] !in S3.disowned && S3.scopes[kept[i]] == S1.scopes[kept[i]]
      ensures kept[i] < |S3.depth| && S3.depth[kept[i]] == S1.depth[kept[i]]
    {
      assert !Under(S1, kept[i], x);
    }
  }

  lemma AttachKeepsTree(A: ArenaState, p: nat, s: nat)
    requires TreeOK(A) && Live(A, p) && Live(A, s)
    requires A.scopes[s].parent.None? && A.depth[s] == A.depth[p] + 1
    ensures TreeOK(Attach(A, p, s))
    ensures Attach(A, p, s).scopes[p].children == A.scopes[p].children + [s]
  {
    var B := Attach(A, p, s);
    assert s != p;
    assert B.scopes[s].parent == Some(p) && B.scopes[p].children == A.scopes[p].children + [s];
    assert forall i :: 0 <= i < |A.scopes| ==> B.scopes[i].kind == A.scopes[i].kind;
    assert forall i :: 0 <= i < |A.scopes| && i != s ==> B.scopes[i].parent == A.scopes[i].parent;
    assert forall i :: 0 <= i < |A.scopes| && i != p ==> B.scopes[i].children == A.scopes[i].children;
    forall i | 0 <= i < |B.scopes|
      ensures ParentOK(B, i)
    {
      assert ParentOK(A, i);
    }
    forall i | 0 <= i < |B.scopes|
      ensures ChildrenOK(B, i)
    {
      assert ChildrenOK(A, i);
      forall j | 0 <= j < |A.scopes[i].children|
        ensures A.scopes[i].children[j] != s
      {
        assert A.scopes[A.scopes[i].children[j]].parent == Some(i);
      }
    }
  }

  lemma DetachKeepsTree(A: ArenaState, x: nat, j: nat)
    requires TreeOK(A) && x < |A.scopes| && j < |A.scopes[x].children|
    ensures A.scopes[x].children[j] < |A.scopes|
    ensures TreeOK(Detach(A, x, j)) && DetachedAt(A, Detach(A, x, j), x, j, A.scopes[x].children[j])
    ensures A.scopes[x].children[j] != 0 && A.scopes[x].children[j] !in A.disowned
  {
    assert ChildrenOK(A, x);
    var c := A.scopes[x].children[j];
    assert ParentOK(A, c);
    var B := Detach(A, x, j);
    assert c != x;
    assert B.scopes[x].children == A.scopes[x].children[..j] + A.scopes[x].children[j + 1..];
    assert B.scopes[c].parent.None?;
    DetachParents(A, x, j);
    DetachChildren(A, x, j);
  }

  /** After a detach every scope still listed under a parent is found in that parent's list. */
  lemma DetachParents(A: ArenaState, x: nat, j: nat)
    requires TreeOK(A) && x < |A.scopes| && j < |A.scopes[x].children|
    requires A.scopes[x].children[j] < |A.scopes| && A.scopes[x].children[j] != x
    ensures forall i :: 0 <= i < |A.scopes| ==> ParentOK(Detach(A, x, j), i)
  {
    var c := A.scopes[x].children[j];
    var B := Detach(A, x, j);
    var ch := A.scopes[x].children;
    var nch := ch[..j] + ch[j + 1..];
    assert B.scopes[x].children == nch;
    forall i | 0 <= i < |B.scopes|
      ensures ParentOK(B, i)
    {
      assert ParentOK(A, i);
      if i != c && A.scopes[i].parent == Some(x) {
        var k :| 0 <= k < |ch| && ch[k] == i;
        if k < j {
          assert nch[k] == i;
        } else {
          assert nch[k - 1] == i;
        }
      } else if i != c {
        assert B.scopes[i].parent == A.scopes[i].parent;
      }
    }
  }

  /** After a detach every child list still points back at its owner and has no repeats. */
  lemma DetachChildren(A: ArenaState, x: nat, j: nat)
    requires TreeOK(A) && x < |A.scopes| && j < |A.scopes[x].children|
    requires A.scopes[x].children[j] < |A.scopes| && A.scopes[x].children[j] != x
    ensures forall i :: 0 <= i < |A.scopes| ==> ChildrenOK(Detach(A, x, j), i)
  {
    var c := A.scopes[x].children[j];
    var B := Detach(A, x, j);
    var ch := A.scopes[x].children;
    var nch := ch[..j] + ch[j + 1..];
    assert B.scopes[x].children == nch;
    assert ChildrenOK(A, x);
    forall i | 0 <= i < |B.scopes|
      ensures ChildrenOK(B, i)
    {
      assert ChildrenOK(A, i);
      if i == x {
        DetachedListOK(A, x, j);
      } else {
        forall k | 0 <= k < |A.scopes[i].children|
          ensures A.scopes[i].children[k] != c
        {
          assert A.scopes[A.scopes[i].children[k]].parent == Some(i);
        }
        assert B.scopes[i].children == A.scopes[i].children;
      }
    }
  }

  /** The shortened child list of `x` still points back at `x` and has no repeats. */
  lemma DetachedListOK(A: ArenaState, x: nat, j: nat)
    requires TreeOK(A) && x < |A.scopes| && j < |A.scopes[x].children|
    requires A.scopes[x].children[j] < |A.scopes| && A.scopes[x].children[j] != x
    ensures ChildrenOK(Detach(A, x, j), x)
  {
    var c := A.scopes[x].children[j];
    var B := Detach(A, x, j);
    var ch := A.scopes[x].children;
    var nch := ch[..j] + ch[j + 1..];
    assert B.scopes[x].children == nch;
    assert ChildrenOK(A, x);
    forall k | 0 <= k < |nch|
      ensures nch[k] != c && nch[k] < |B.scopes| && B.scopes[nch[k]].parent == Some(x)
    {
      if k < j {
        assert nch[k] == ch[k];
      } else {
        assert nch[k] == ch[k + 1];
      }
    }
    forall k, l | 0 <= k < l < |nch|
      ensures nch[k] != nch[l]
    {
      var k' := if k < j then k else k + 1;
      var l' := if l < j then l else l + 1;
      assert nch[k] == ch[k'] && nch[l] == ch[l'];
    }
  }

  /** `A` with a detached, childless scope of kind `k` at depth `d` appended, owning the referent of `k`. */
  function Appended(A: ArenaState, k: ScopeKind, d: nat): ArenaState
  {
    A.(scopes := A.scopes + [Scope(k, None, [], 0, InitialSnapshot(k))], depth := A.depth + [d],
       owner := if Referent(k).Some? then A.owner[Referent(k).value := |A.scopes|] else A.owner)
  }

  /** Appending a detached scope keeps the tree invariant. */
  lemma AppendKeepsTree(A: ArenaState, k: ScopeKind, d: nat)
    requires TreeOK(A) && d <= |A.scopes|
    ensures TreeOK(Appended(A, k, d))
  {
    var B := Appended(A, k, d);
    forall i | 0 <= i < |B.scopes|
      ensures ParentOK(B, i) && ChildrenOK(B, i)
    {
      if i < |A.scopes| {
        assert ParentOK(A, i) && ChildrenOK(A, i);
      }
    }
  }

  /** Appending a scope whose referent was pending makes it the owner and empties `pending`. */
  lemma AppendKeepsDedup(A: ArenaState, k: ScopeKind, d: nat, pointers: set<int>)
    requires TreeOK(A) && KindsOK(A) && DedupOK(A, pointers, RefSet(k)) && WellFormed(k)
    ensures KindsOK(Appended(A, k, d)) && DedupOK(Appended(A, k, d), pointers, {})
  {
    var B := Appended(A, k, d);
    assert |A.scopes| !in A.disowned;
    forall r | r in B.owner
      ensures OwnerOK(B, r)
    {
      if r !in RefSet(k) {
        assert OwnerOK(A, r);
      }
    }
    forall i | 0 <= i < |B.scopes| && i !in B.disowned && Referent(B.scopes[i].kind).Some?
      ensures Owns(B, i)
    {
      if i < |A.scopes| {
        assert Owns(A, i);
        assert Referent(A.scopes[i].kind).value in A.owner.Keys;
        assert B.scopes[i] == A.scopes[i];
      }
    }
  }
}

/**
 * What tearing a subtree down does to the arena, stated over arena snapshots:
 * disownDescendants takes the children of a scope one at a time, disowns
 * everything below each, then detaches and disowns the child itself.
 */
module Teardown {
  import opened Wrappers
  import opened Scopes
  import opened Forest

  /** A scope as it is once disowned: detached and childless. */
  function Cut(s: Scope): (r: Scope)
    ensures r.parent.None? && r.children == [] && r.kind == s.kind
  {
    s.(parent := None, children := [])
  }

  /** `B` is `A` with child `c`, at position `j` of `x`, removed from `x` and orphaned. */
  ghost predicate DetachedAt(A: ArenaState, B: ArenaState, x: nat, j: nat, c: nat)
  {
    x < |A.scopes| && j < |A.scopes[x].children| && c == A.scopes[x].children[j]
    && c < |A.scopes| && c != x
    && |B.scopes| == |A.scopes| && B.depth == A.depth && B.disowned == A.disowned && B.owner == A.owner
    && B.scopes[x] == A.scopes[x].(children := A.scopes[x].children[..j] + A.scopes[x].children[j + 1..])
    && B.scopes[c] == A.scopes[c].(parent := None)
    && (forall i :: 0 <= i < |A.scopes| && i != x && i != c ==> B.scopes[i] == A.scopes[i])
  }

  /** `y` lies at or below one of the first `k` children of `x`. */
  ghost predicate Done(A: ArenaState, x: nat, k: nat, y: nat)
  {
    Under(A, y, x) && x < |A.scopes| && k <= |A.scopes[x].children|
    && Top(A, y, x) in A.scopes[x].children[..k]
  }

  /** The first `k` children of `x`, and everything below them, have been disowned. */
  ghost predicate PartlyDisowned(A: ArenaState, B: ArenaState, x: nat, k: nat)
  {
    |B.scopes| == |A.scopes| && B.depth == A.depth && x < |A.scopes| && k <= |A.scopes[x].children|
    && B.scopes[x] == A.scopes[x].(children := A.scopes[x].children[k..])
    && (forall y :: 0 <= y < |A.scopes| && Done(A, x, k, y) ==> B.scopes[y] == Cut(A.scopes[y]))
    && (forall y :: 0 <= y < |A.scopes| && y != x && !Done(A, x, k, y) ==> B.scopes[y] == A.scopes[y])
    && (forall y: nat :: y in B.disowned <==> y in A.disowned || (y < |A.scopes| && Done(A, x, k, y)))
    && (forall r :: r in B.owner ==> r in A.owner && B.owner[r] == A.owner[r])
  }

  /**
   * The effect of disownDescendants on `x`: `x` has no children, every scope
   * below it is disowned, detached and childless, and nothing else changed.
   */
  ghost predicate DisownedBelow(A: ArenaState, B: ArenaState, x: nat)
  {
    |B.scopes| == |A.scopes| && B.depth == A.depth && x < |A.scopes|
    && B.scopes[x] == A.scopes[x].(children := [])
    && (forall y :: 0 <= y < |A.scopes| && Under(A, y, x) ==> B.scopes[y] == Cut(A.scopes[y]))
    && (forall y :: 0 <= y < |A.scopes| && y != x && !Under(A, y, x) ==> B.scopes[y] == A.scopes[y])
    && (forall y: nat :: y in B.disowned <==> y in A.disowned || (y < |A.scopes| && Under(A, y, x)))
    && (forall r :: r in B.owner ==> r in A.owner && B.owner[r] == A.owner[r])
  }

  lemma PartlyDisownedStart(A: ArenaState, x: nat)
    requires TreeOK(A) && x < |A.scopes|
    ensures PartlyDisowned(A, A, x, 0)
  {
    assert A.scopes[x].children[0..] == A.scopes[x].children;
  }

  lemma PartlyDisownedEnd(A: ArenaState, B: ArenaState, x: nat)
    requires TreeOK(A) && x < |A.scopes| && PartlyDisowned(A, B, x, |A.scopes[x].children|)
    ensures DisownedBelow(A, B, x)
  {
    var ch := A.scopes[x].children;
    assert ch[..|ch|] == ch;
    assert ch[|ch|..] == [];
    forall y | 0 <= y < |A.scopes|
      ensures Done(A, x, |ch|, y) <==> Under(A, y, x)
    {
      if Under(A, y, x) {
        TopIsChild(A, y, x);
      }
    }
  }

  /** Below a child `c` of `x`, which is not among the first `k`, nothing was touched yet. */
  lemma UntouchedBelow(A: ArenaState, S: ArenaState, x: nat, k: nat, c: nat)
    requires TreeOK(A) && PartlyDisowned(A, S, x, k) && k < |A.scopes[x].children|
    requires c == A.scopes[x].children[k]
    ensures forall y :: 0 <= y < |A.scopes| ==> (Under(A, y, c) <==> Under(S, y, c))
    ensures forall y :: 0 <= y < |A.scopes| && (y == c || Under(A, y, c)) ==> !Done(A, x, k, y) && y != x
  {
    var ch := A.scopes[x].children;
    assert ChildrenOK(A, x);
    forall y | 0 <= y < |A.scopes| && (y == c || Under(A, y, c))
      ensures !Done(A, x, k, y) && y != x
    {
      TopOfChild(A, y, c, x);
      UnderDepth(A, y, x);
    }
    forall z | 0 <= z < |A.scopes|
      ensures S.scopes[z].parent == A.scopes[z].parent || S.scopes[z].parent.None?
    {
      if z != x && Done(A, x, k, z) {
        assert S.scopes[z] == Cut(A.scopes[z]);
      }
    }
    forall y | 0 <= y < |A.scopes|
      ensures Under(A, y, c) <==> Under(S, y, c)
    {
      UnderSameBelow(A, S, y, c);
    }
  }

  /** Which scopes are done after the next child, `c`, is torn down. */
  lemma DoneNext(A: ArenaState, x: nat, k: nat, c: nat, y: nat)
    requires TreeOK(A) && x < |A.scopes| && k < |A.scopes[x].children| && c == A.scopes[x].children[k]
    requires y < |A.scopes|
    ensures Done(A, x, k + 1, y) <==> Done(A, x, k, y) || y == c || Under(A, y, c)
  {
    var ch := A.scopes[x].children;
    assert ch[..k + 1] == ch[..k] + [c];
    if y == c || Under(A, y, c) {
      TopOfChild(A, y, c, x);
    }
    if Under(A, y, x) && Top(A, y, x) == c {
      TopIsChild(A, y, x);
    }
  }

  /** One turn of the teardown loop keeps PartlyDisowned with one more child done. */
  lemma DisownStep(A: ArenaState, Sk: ArenaState, Sa: ArenaState, Sb: ArenaState, Sc: ArenaState,
                   x: nat, k: nat, c: nat)
    requires TreeOK(A) && PartlyDisowned(A, Sk, x, k) && k < |A.scopes[x].children|
    requires c == A.scopes[x].children[k]
    requires DisownedBelow(Sk, Sa, c)
    requires DetachedAt(Sa, Sb, x, 0, c)
    requires Sc.scopes == Sb.scopes && Sc.depth == Sb.depth && Sc.disowned == Sb.disowned + {c}
    requires forall r :: r in Sc.owner ==> r in Sb.owner && Sc.owner[r] == Sb.owner[r]
    ensures PartlyDisowned(A, Sc, x, k + 1)
  {
    var ch := A.scopes[x].children;
    UntouchedBelow(A, Sk, x, k, c);
    assert ch[k..][1..] == ch[k + 1..];
    forall y | 0 <= y < |A.scopes|
      ensures Done(A, x, k + 1, y) ==> Sc.scopes[y] == Cut(A.scopes[y])
      ensures y != x && !Done(A, x, k + 1, y) ==> Sc.scopes[y] == A.scopes[y]
      ensures y in Sc.disowned <==> y in A.disowned || Done(A, x, k + 1, y)
    {
      DoneNext(A, x, k, c, y);
      if Done(A, x, k, y) {
        assert Sk.scopes[y] == Cut(A.scopes[y]);
        assert !Under(Sk, y, c);
        assert y != c && y != x;
      }
    }
  }

  /**
   * After disownDescendants the referent of every former descendant is gone
   * from the dedup set, and the owners left are exactly those of the scopes
   * not below `x`.
   */
  lemma DisownErasesReferents(A: ArenaState, B: ArenaState, x: nat, pointersB: set<int>)
    requires TreeOK(A) && DedupOK(A, A.owner.Keys, {}) && TreeOK(B) && DedupOK(B, pointersB, {})
    requires DisownedBelow(A, B, x) && x !in A.disowned
    ensures forall y :: 0 <= y < |A.scopes| && Under(A, y, x) && Referent(A.scopes[y].kind).Some? ==>
              Referent(A.scopes[y].kind).value !in pointersB
    ensures forall r :: r in pointersB <==> r in A.owner && !Under(A, A.owner[r], x)
  {
    forall y | 0 <= y < |A.scopes| && Under(A, y, x) && Referent(A.scopes[y].kind).Some?
      ensures Referent(A.scopes[y].kind).value !in pointersB
    {
      var r := Referent(A.scopes[y].kind).value;
      if y !in A.disowned {
        assert Owns(A, y);
      } else {
        assert A.scopes[y].parent.None?;
      }
    }
    forall r | r in A.owner && !Under(A, A.owner[r], x)
      ensures r in pointersB
    {
      assert OwnerOK(A, r);
      var i := A.owner[r];
      UnderIrreflexive(A, x);
      if i == x {
        assert B.scopes[x].kind == A.scopes[x].kind;
      } else {
        assert B.scopes[i] == A.scopes[i];
      }
      assert Owns(B, i);
    }
    forall r | r in pointersB
      ensures r in A.owner && !Under(A, A.owner[r], x)
    {
      assert OwnerOK(B, r);
    }
  }

  lemma UnderIrreflexive(A: ArenaState, x: nat)
    ensures !Under(A, x, x)
  {
    if Under(A, x, x) {
      UnderDepth(A, x, x);
    }
  }
}

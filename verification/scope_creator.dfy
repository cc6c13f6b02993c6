/**
 * The scope creator: it owns the scope tree (an arena of scopes addressed by
 * index, the root, index 0, being the source-file scope) and the dedup set of
 * referents, and builds the tree by visiting AST nodes and expanding the
 * scopes it creates for them.
 */
module ScopeTree {
  import opened Wrappers
  import opened Syntax
  import opened Scopes
  import opened Forest
  import opened Teardown
  import opened Plumbing
  import opened NodeSets
  import opened SourceOrder
  import opened Closures

  /**
   * One step of building: what the visitor does with one class of node (its
   * ignore and create tables), or one link of a chain of scopes.
   */
  datatype ScopeAction =
    | Ignore                            // nothing changes; the point stays
    | Create(kind: ScopeKind)           // a new scope of `kind`, its point following
    | CreateUnique(kind: ScopeKind)     // a scope of `kind` when its referent is new, its point following
    | KeepPoint(kinds: set<ScopeKind>)  // only children of these kinds are added, and each is scoped; the point stays
    | Binding(pbd: Node)                // wrapper scopes, then the binding's entry scopes; the point stays
    | IfConfig(icd: Node, clauses: seq<ClauseSteps>)  // the clauses threaded from the point, then a diversion scope

  /** The steps of one clause of an `#if`. */
  datatype ClauseSteps = ClauseSteps(steps: seq<ScopeAction>)

  /**
   * A step of action `a` under `p`, from `A` to `B`, with `pointers` the
   * referents scoped before it, returned `r` (null for a duplicate).
   */
  ghost predicate Performed(A: ArenaState, B: ArenaState, p: nat, a: ScopeAction, r: Option<nat>, pointers: set<int>)
    decreases a, 4
  {
    match a
    case Ignore => B == A && r == Some(p)
    case Create(k) => r.Some? && Attached(A, B, p, k, r.value)
    case CreateUnique(k) =>
      Referent(k).Some? && (r.None? <==> Referent(k).value in pointers)
      && (r.None? ==> B == A) && (r.Some? ==> Attached(A, B, p, k, r.value))
    case _ => CompositePerformed(A, B, p, a, r)
  }

  /** Performed, for the actions made of several scope creations. */
  ghost predicate CompositePerformed(A: ArenaState, B: ArenaState, p: nat, a: ScopeAction, r: Option<nat>)
    decreases a, 3
  {
    match a
    case KeepPoint(ks) => r == Some(p) && KeptPoint(A, B, p, ks)
    case Binding(pbd) => r == Some(p) && pbd.PatternBindingDecl? && p < |A.scopes| && BindingScoped(A, B, p, pbd)
    case IfConfig(_, _) => r.Some? && IfConfigDone(A, B, p, a, r.value)
    case _ => false
  }

  /** From `A` to `B`, `p` got only children of kinds in `ks`, and every such kind is scoped in `B`. */
  ghost predicate KeptPoint(A: ArenaState, B: ArenaState, p: nat, ks: set<ScopeKind>)
  {
    p < |A.scopes| && ChildKindsIn(B, p, |A.scopes[p].children|, ks) && Scoped(B, ks)
  }

  /** Every kind in `ks` that is deduplicated has its referent in the dedup set of `A`. */
  ghost predicate Scoped(A: ArenaState, ks: set<ScopeKind>)
  {
    forall k :: k in ks && Referent(k).Some? ==> Referent(k).value in A.owner
  }

  /**
   * What visiting pattern binding `pbd` under `p` adds: the property-wrapper
   * scopes of its first entry's variables, then scopes of its entries in index
   * order, with the visibility of a member when `p` is a type scope and of a
   * local otherwise; every entry's pattern ends up in the dedup set.
   */
  ghost predicate BindingScoped(A: ArenaState, B: ArenaState, p: nat, pbd: Node)
    requires pbd.PatternBindingDecl? && p < |A.scopes|
  {
    var w := if |pbd.patternList| == 0 then [] else WrapperKinds(pbd.patternList[0].vars);
    var n0 := |A.scopes[p].children|;
    var vis := if IsATypeDeclScope(A.scopes[p].kind) then MemberOfCurrentNominal else LocalVariable;
    ChildKindsAt(B, p, n0, w) && EntryChildren(B, p, n0 + |w|, pbd, vis)
    && (forall i :: 0 <= i < |pbd.patternList| ==> pbd.patternList[i].patternId in B.owner)
  }

  /** The index of the last active clause among the first `n`, or -1 when none of them is active. */
  function LastActiveClause(clauses: seq<IfConfigClause>, n: nat): (k: int)
    requires n <= |clauses|
    ensures -1 <= k < n
    ensures k >= 0 ==> clauses[k].isActive && forall j :: k < j < n ==> !clauses[j].isActive
    ensures k < 0 ==> forall j :: 0 <= j < n ==> !clauses[j].isActive
  {
    if n == 0 then -1 else if clauses[n - 1].isActive then n - 1 else LastActiveClause(clauses, n - 1)
  }

  /**
   * The first `n` clauses of `#if` action `a`, each threaded from `p`: clause
   * `i` ran from `ends[i]` to `ends[i + 1]` through the states `cs[i]` and the
   * points `cp[i]`, starting again from `p`.
   */
  ghost predicate ClausesThreaded(A: ArenaState, p: nat, a: ScopeAction, n: nat,
                                  ends: seq<ArenaState>, cs: seq<seq<ArenaState>>, cp: seq<seq<nat>>)
    requires a.IfConfig? && n <= |a.clauses|
    decreases a, 0
  {
    |ends| == n + 1 && |cs| == n && |cp| == n && ends[0] == A
    && forall i :: 0 <= i < n ==>
         |cs[i]| == |a.clauses[i].steps| + 1 && |cp[i]| == |a.clauses[i].steps| + 1
         && cs[i][0] == ends[i] && cs[i][|cs[i]| - 1] == ends[i + 1] && cp[i][0] == p
         && forall j :: 0 <= j < |a.clauses[i].steps| ==>
              ThreadedStep(a.clauses[i].steps[j], cs[i][j], cs[i][j + 1], cp[i][j], cp[i][j + 1])
  }

  /**
   * Visiting `#if` action `a` under `p`: every clause threaded from `p`, then
   * `q`, a diversion scope attached to `p` whose lookup parent is the point the
   * last active clause reached, or `p` when no clause is active.
   */
  ghost predicate IfConfigTrace(A: ArenaState, B: ArenaState, p: nat, a: ScopeAction,
                                ends: seq<ArenaState>, cs: seq<seq<ArenaState>>, cp: seq<seq<nat>>, q: nat)
    requires a.IfConfig?
    decreases a, 1
  {
    a.icd.IfConfigDecl? && |a.clauses| == |a.icd.clauses| && ClausesThreaded(A, p, a, |a.clauses|, ends, cs, cp)
    && var k := LastActiveClause(a.icd.clauses, |a.clauses|);
       Attached(ends[|a.clauses|], B, p, LookupParentDiversionScope(if k < 0 then p else cp[k][|cp[k]| - 1], a.icd), q)
  }

  /** Visiting `#if` action `a` under `p` led from `A` to `B` and returned `q`. */
  ghost predicate IfConfigDone(A: ArenaState, B: ArenaState, p: nat, a: ScopeAction, q: nat)
    requires a.IfConfig?
    decreases a, 2
  {
    exists ends, cs, cp :: IfConfigTrace(A, B, p, a, ends, cs, cp, q)
  }

  /** One threaded step: action `a` under `q` led from `A` to `B`, and the point moved to its result, if any. */
  ghost predicate ThreadedStep(a: ScopeAction, A: ArenaState, B: ArenaState, q: nat, q': nat)
    decreases a, 5
  {
    exists r: Option<nat> :: Performed(A, B, q, a, r, A.owner.Keys) && q' == r.GetOr(q)
  }

  /**
   * The insertion point threaded through `actions`: step `i` ran from
   * `states[i]` under `points[i]`, with the referents of `states[i]` already
   * scoped, and left `states[i + 1]` and `points[i + 1]`, its result or, when
   * it returned null, `points[i]` again.
   */
  ghost predicate Threaded(actions: seq<ScopeAction>, states: seq<ArenaState>, points: seq<nat>)
  {
    |states| == |actions| + 1 && |points| == |actions| + 1
    && forall i :: 0 <= i < |actions| ==> ThreadedStep(actions[i], states[i], states[i + 1], points[i], points[i + 1])
  }

  /**
   * Every step of `actions` ran under the same scope `p`, from `states[i]` to
   * `states[i + 1]`, and returned `results[i]`, which the caller drops.
   */
  ghost predicate Fanned(actions: seq<ScopeAction>, states: seq<ArenaState>, results: seq<nat>, p: nat)
  {
    |states| == |actions| + 1 && |results| == |actions|
    && forall i :: 0 <= i < |actions| ==> ThreadedStep(actions[i], states[i], states[i + 1], p, results[i])
  }

  /** A performed step is a threaded step to its result. */
  lemma StepPerformed(a: ScopeAction, A: ArenaState, B: ArenaState, q: nat, r: Option<nat>)
    requires Performed(A, B, q, a, r, A.owner.Keys)
    ensures ThreadedStep(a, A, B, q, r.GetOr(q))
  {
  }

  /** Threading one more step onto a trace. */
  lemma ThreadedExtend(actions: seq<ScopeAction>, states: seq<ArenaState>, points: seq<nat>,
                       a: ScopeAction, B: ArenaState, q: nat)
    requires Threaded(actions, states, points)
    requires ThreadedStep(a, states[|actions|], B, points[|actions|], q)
    ensures Threaded(actions + [a], states + [B], points + [q])
  {
    var acts := actions + [a];
    var sts := states + [B];
    var pts := points + [q];
    forall i | 0 <= i < |acts|
      ensures ThreadedStep(acts[i], sts[i], sts[i + 1], pts[i], pts[i + 1])
    {
      if i < |actions| {
        assert acts[i] == actions[i] && sts[i] == states[i] && sts[i + 1] == states[i + 1];
        assert pts[i] == points[i] && pts[i + 1] == points[i + 1];
      }
    }
  }

  /** Threading step `i` of `actions` onto the trace of the steps before it. */
  lemma ThreadedNext(actions: seq<ScopeAction>, i: nat, states: seq<ArenaState>, points: seq<nat>, B: ArenaState, q: nat)
    requires i < |actions| && Threaded(actions[..i], states, points)
    requires ThreadedStep(actions[i], states[i], B, points[i], q)
    ensures Threaded(actions[..i + 1], states + [B], points + [q])
  {
    ThreadedExtend(actions[..i], states, points, actions[i], B, q);
    assert actions[..i + 1] == actions[..i] + [actions[i]];
  }

  /** A step before a trace that starts where the step ended. */
  lemma ThreadedPrepend(a: ScopeAction, actions: seq<ScopeAction>, A: ArenaState, states: seq<ArenaState>, q: nat,
                        points: seq<nat>)
    requires Threaded(actions, states, points) && ThreadedStep(a, A, states[0], q, points[0])
    ensures Threaded([a] + actions, [A] + states, [q] + points)
  {
    var acts, sts, pts := [a] + actions, [A] + states, [q] + points;
    forall i | 0 <= i < |acts|
      ensures ThreadedStep(acts[i], sts[i], sts[i + 1], pts[i], pts[i + 1])
    {
      if i > 0 {
        assert acts[i] == actions[i - 1] && sts[i] == states[i - 1] && sts[i + 1] == states[i];
        assert pts[i] == points[i - 1] && pts[i + 1] == points[i];
      }
    }
  }

  /** One more clause, threaded from `p` where the clauses before it ended, onto the trace of an `#if`. */
  lemma ClausesThreadedNext(A: ArenaState, p: nat, a: ScopeAction, n: nat, ends: seq<ArenaState>,
                            cs: seq<seq<ArenaState>>, cp: seq<seq<nat>>, states: seq<ArenaState>, points: seq<nat>)
    requires a.IfConfig? && n < |a.clauses| && ClausesThreaded(A, p, a, n, ends, cs, cp)
    requires Threaded(a.clauses[n].steps, states, points) && states[0] == ends[n] && points[0] == p
    ensures ClausesThreaded(A, p, a, n + 1, ends + [states[|states| - 1]], cs + [states], cp + [points])
  {
    var ends', cs', cp' := ends + [states[|states| - 1]], cs + [states], cp + [points];
    forall i | 0 <= i < n + 1
      ensures |cs'[i]| == |a.clauses[i].steps| + 1 && |cp'[i]| == |a.clauses[i].steps| + 1
      ensures cs'[i][0] == ends'[i] && cs'[i][|cs'[i]| - 1] == ends'[i + 1] && cp'[i][0] == p
      ensures forall j :: 0 <= j < |a.clauses[i].steps| ==>
                ThreadedStep(a.clauses[i].steps[j], cs'[i][j], cs'[i][j + 1], cp'[i][j], cp'[i][j + 1])
    {
      if i < n {
        assert cs'[i] == cs[i] && cp'[i] == cp[i] && ends'[i] == ends[i] && ends'[i + 1] == ends[i + 1];
      } else {
        assert cs'[i] == states && cp'[i] == points && ends'[i] == ends[n];
      }
    }
  }

  /** Each of the first `n` clauses of a threaded `#if` is a trace of its own steps from `p`. */
  lemma ClausesThreadedEach(A: ArenaState, p: nat, a: ScopeAction, n: nat,
                            ends: seq<ArenaState>, cs: seq<seq<ArenaState>>, cp: seq<seq<nat>>)
    requires a.IfConfig? && n <= |a.clauses| && ClausesThreaded(A, p, a, n, ends, cs, cp)
    ensures |cs| == n && |cp| == n
    ensures forall i :: 0 <= i < n ==> Threaded(a.clauses[i].steps, cs[i], cp[i]) && cp[i][0] == p
  {
  }

  /** Growth keeps every referent scoped. */
  lemma ScopedGrown(A: ArenaState, B: ArenaState, p: nat, refresh: bool, ks: set<ScopeKind>)
    requires Grown(A, B, p, refresh) && Scoped(A, ks)
    ensures Scoped(B, ks)
  {
    forall k | k in ks && Referent(k).Some?
      ensures Referent(k).value in B.owner
    {
      var r := Referent(k).value;
      assert r in A.owner;
      assert r in B.owner && B.owner[r] == A.owner[r];
    }
  }

  /** One more step under `p` onto a fan. */
  lemma FannedExtend(actions: seq<ScopeAction>, states: seq<ArenaState>, results: seq<nat>, p: nat,
                     a: ScopeAction, B: ArenaState, q: nat)
    requires Fanned(actions, states, results, p)
    requires ThreadedStep(a, states[|actions|], B, p, q)
    ensures Fanned(actions + [a], states + [B], results + [q], p)
  {
    var acts := actions + [a];
    var sts := states + [B];
    var rs := results + [q];
    forall j | 0 <= j < |acts|
      ensures ThreadedStep(acts[j], sts[j], sts[j + 1], p, rs[j])
    {
      if j < |actions| {
        assert acts[j] == actions[j] && sts[j] == states[j] && sts[j + 1] == states[j + 1] && rs[j] == results[j];
      }
    }
  }

  /** Step `i` of `actions`, run under `p`, onto the fan of the steps before it. */
  lemma FannedNext(actions: seq<ScopeAction>, i: nat, states: seq<ArenaState>, results: seq<nat>, p: nat,
                   B: ArenaState, q: nat)
    requires i < |actions| && Fanned(actions[..i], states, results, p)
    requires ThreadedStep(actions[i], states[i], B, p, q)
    ensures Fanned(actions[..i + 1], states + [B], results + [q], p)
  {
    FannedExtend(actions[..i], states, results, p, actions[i], B, q);
    assert actions[..i + 1] == actions[..i] + [actions[i]];
  }

  /** The portions a type or extension gets below its deepest generic parameter, in creation order. */
  ghost function PortionKinds(d: Node): seq<ScopeKind>
    requires d.TypeDecl?
  {
    (if d.hasTrailingWhereClause && d.tkind != OpaqueTypeDecl then [GenericTypeOrExtensionScope(WherePortion, d)] else [])
    + (if IsIterableTypeDecl(d) then [GenericTypeOrExtensionScope(BodyPortion, d)] else [])
  }

  /** The steps of createGenericParamScopes: a unique scope per generic parameter, in order. */
  function GenericParamActions(decl: Node, generics: Option<GenericParamList>): (acts: seq<ScopeAction>)
    ensures generics.None? ==> acts == []
    ensures generics.Some? ==> |acts| == |generics.value.params|
  {
    if generics.None? then []
    else seq(|generics.value.params|, i requires 0 <= i < |generics.value.params| =>
               CreateUnique(GenericParamScope(decl, generics.value, i)))
  }

  /** The steps of createNestedConditionalClauseScopes: a clause scope per condition element, in order. */
  function ConditionalClauseActions(s: Node, afterConds: Loc): (acts: seq<ScopeAction>)
    requires s.IfStmt? || s.WhileStmt? || s.GuardStmt?
    ensures |acts| == |s.cond|
  {
    seq(|s.cond|, i requires 0 <= i < |s.cond| => Create(ConditionalClauseScope(s, i, afterConds)))
  }

  /** The key specialize attributes are sorted by: their location. */
  function AttrLocKey(a: SpecializeAttr): int
  {
    a.loc
  }

  /** The key brace elements are sorted by: their end location. */
  function EndKey(n: Node): int
  {
    n.info.end
  }

  class ScopeCreator {
    /** The scopes, addressed by index; index 0 is the source-file scope. */
    var scopes: seq<Scope>
    ghost var depth: seq<nat>
    ghost var disowned: set<nat>
    ghost var owner: map<int, nat>
    /** The referents of the scopes created so far. */
    const scopedNodes: NodeSet

    ghost function State(): ArenaState
      reads this
    {
      ArenaState(scopes, depth, disowned, owner)
    }

    /** The tree, kind and dedup invariants, with `pending` referents inserted but not yet allocated. */
    ghost predicate Ready(pending: set<int>)
      reads this, scopedNodes
    {
      TreeOK(State()) && KindsOK(State()) && DedupOK(State(), scopedNodes.pointers, pending)
    }

    ghost predicate Valid()
      reads this, scopedNodes
    {
      Ready({})
    }

    constructor ()
      ensures Valid() && fresh(scopedNodes)
      ensures scopes == [Scope(ASTSourceFileScope, None, [], 0, NoSnapshot)]
      ensures scopedNodes.pointers == {}
    {
      scopes := [Scope(ASTSourceFileScope, None, [], 0, NoSnapshot)];
      depth := [0];
      disowned := {};
      owner := map[];
      scopedNodes := new NodeSet();
    }

    // -------------------------------------------------------------------
    // Tree plumbing

    /** `new (ctx) Scope(args)`: a detached scope whose pending referent it now owns. */
    method Allocate(k: ScopeKind, ghost d: nat) returns (c: nat)
      requires Ready(RefSet(k)) && WellFormed(k) && d <= |scopes|
      modifies this
      ensures Valid() && c == old(|scopes|)
      ensures scopes == old(scopes) + [Scope(k, None, [], 0, InitialSnapshot(k))]
      ensures depth == old(depth) + [d] && disowned == old(disowned)
      ensures owner == if Referent(k).Some? then old(owner)[Referent(k).value := c] else old(owner)
    {
      ghost var A := State();
      AppendKeepsTree(A, k, d);
      AppendKeepsDedup(A, k, d, scopedNodes.pointers);
      c := |scopes|;
      scopes := scopes + [Scope(k, None, [], 0, InitialSnapshot(k))];
      depth := depth + [d];
      if Referent(k).Some? {
        owner := owner[Referent(k).value := c];
      }
      assert State() == Appended(A, k, d);
    }

    /** addChild: `s` must be an orphan; it becomes the last child of `p`, earlier children untouched. */
    method AddChild(p: nat, s: nat)
      requires Valid() && Live(State(), p) && Live(State(), s)
      requires scopes[s].parent.None? && depth[s] == depth[p] + 1
      modifies this
      ensures Valid() && State() == Attach(old(State()), p, s)
      ensures scopes[p].children == old(scopes[p].children) + [s] && scopes[s].parent == Some(p)
    {
      ghost var A := State();
      AttachKeepsTree(A, p, s);
      scopes := scopes[p := scopes[p].(children := scopes[p].children + [s])];
      scopes := scopes[s := scopes[s].(parent := Some(p))];
      assert State() == Attach(A, p, s);
      KindsKept(A, State(), scopedNodes.pointers, {});
    }

    /** Remove the child at position `j` of `x` from the list and emancipate it. */
    method RemoveChildAt(x: nat, j: nat) returns (c: nat)
      requires Valid() && x < |scopes| && j < |scopes[x].children|
      modifies this
      ensures Valid() && DetachedAt(old(State()), State(), x, j, c)
      ensures c != 0 && c !in disowned
    {
      ghost var A := State();
      DetachKeepsTree(A, x, j);
      c := scopes[x].children[j];
      scopes := scopes[x := scopes[x].(children := scopes[x].children[..j] + scopes[x].children[j + 1..])];
      scopes := scopes[c := scopes[c].(parent := None)];
      assert State() == Detach(A, x, j);
      KindsKept(A, State(), scopedNodes.pointers, {});
    }

    /** The rest of disowning a detached, childless scope: its referent leaves the dedup set. */
    method DisownDetached(c: nat)
      requires Valid() && Live(State(), c) && c != 0
      requires scopes[c].parent.None? && scopes[c].children == []
      modifies this, scopedNodes
      ensures Valid()
      ensures scopes == old(scopes) && depth == old(depth) && disowned == old(disowned) + {c}
      ensures owner == old(owner) - RefSet(old(scopes[c].kind))
      ensures scopedNodes.pointers == old(scopedNodes.pointers) - RefSet(old(scopes[c].kind))
    {
      ghost var A := State();
      scopedNodes.Erase(Referent(scopes[c].kind));
      disowned := disowned + {c};
      owner := owner - RefSet(scopes[c].kind);
      forall r | r in owner
        ensures OwnerOK(State(), r)
      {
        assert OwnerOK(A, r);
      }
      forall i | 0 <= i < |scopes| && i !in disowned && Referent(scopes[i].kind).Some?
        ensures Owns(State(), i)
      {
        assert Owns(A, i);
      }
      forall i | 0 <= i < |scopes|
        ensures ParentOK(State(), i) && ChildrenOK(State(), i)
      {
        assert ParentOK(A, i) && ChildrenOK(A, i);
      }
    }

    /**
     * disownDescendants: every scope below `x` is disowned (detached, childless,
     * its referent erased from the dedup set) and `x` is left without children.
     */
    method DisownDescendants(x: nat)
      requires Valid() && x < |scopes|
      modifies this, scopedNodes
      ensures Valid() && DisownedBelow(old(State()), State(), x)
      ensures forall y :: 0 <= y < |scopes| && Under(old(State()), y, x) ==> scopes[y].parent.None?
      ensures old(State()).scopes[x].parent == scopes[x].parent
      ensures x !in old(disowned) ==>
                forall y :: 0 <= y < |scopes| && Under(old(State()), y, x) && Referent(scopes[y].kind).Some? ==>
                  Referent(scopes[y].kind).value !in scopedNodes.pointers
      decreases |scopes| - depth[x], 1
    {
      ghost var S0 := State();
      ghost var k: nat := 0;
      PartlyDisownedStart(S0, x);
      while scopes[x].children != []
        invariant Valid() && PartlyDisowned(S0, State(), x, k)
        decreases |scopes[x].children|
      {
        DisownFirstChild(x, S0, k);
        k := k + 1;
      }
      PartlyDisownedEnd(S0, State(), x);
      if x !in S0.disowned {
        DisownErasesReferents(S0, State(), x, scopedNodes.pointers);
      }
    }

    /** One turn of disownDescendants: the first remaining child of `x` and everything below it are disowned. */
    method DisownFirstChild(x: nat, ghost S0: ArenaState, ghost k: nat)
      requires Valid() && TreeOK(S0) && PartlyDisowned(S0, State(), x, k) && scopes[x].children != []
      modifies this, scopedNodes
      ensures Valid() && PartlyDisowned(S0, State(), x, k + 1)
      decreases |scopes| - depth[x], 0
    {
      ghost var Sk := State();
      var c := scopes[x].children[0];
      assert c == S0.scopes[x].children[k];
      assert ChildrenOK(Sk, x) && ParentOK(Sk, c);
      DisownDescendants(c);
      ghost var Sa := State();
      var c' := RemoveChildAt(x, 0);
      ghost var Sb := State();
      assert c' == c && c != 0;
      DisownDetached(c);
      DisownStep(S0, Sk, Sa, Sb, State(), x, k, c);
    }

    /**
     * rescueYoungestChildren: the last `count` children of `x` are taken off
     * (emancipated, their referents kept) and returned in their original order.
     */
    method RescueYoungestChildren(x: nat, count: nat) returns (youngest: seq<nat>)
      requires Valid() && x < |scopes| && count <= |scopes[x].children|
      modifies this
      ensures Valid()
      ensures |scopes| == old(|scopes|) && depth == old(depth) && disowned == old(disowned) && owner == old(owner)
      ensures youngest == old(scopes[x].children)[|old(scopes[x].children)| - count..]
      ensures scopes[x] == old(scopes[x]).(children := old(scopes[x].children)[..|old(scopes[x].children)| - count])
      ensures forall i :: 0 <= i < |youngest| ==>
                youngest[i] < |scopes| && scopes[youngest[i]] == old(scopes[youngest[i]]).(parent := None)
      ensures forall i :: 0 <= i < |scopes| && i != x && i !in youngest ==> scopes[i] == old(scopes[i])
    {
      ghost var S0 := State();
      var ch := scopes[x].children;
      var n := |ch|;
      youngest := [];
      for i := n - count to n
        invariant youngest == ch[n - count..i]
      {
        youngest := youngest + [ch[i]];
      }
      assert ChildrenOK(S0, x);
      for j := 0 to count
        invariant Valid() && |scopes| == |S0.scopes| && depth == S0.depth
        invariant disowned == S0.disowned && owner == S0.owner
        invariant scopes[x] == S0.scopes[x].(children := ch[..n - j])
        invariant forall i :: n - j <= i < n ==> scopes[ch[i]] == S0.scopes[ch[i]].(parent := None)
        invariant forall i :: 0 <= i < |scopes| && i != x && i !in ch[n - j..] ==> scopes[i] == S0.scopes[i]
      {
        RescueLastChild(x, S0, ch, j);
      }
      assert ch[n - count..] == youngest;
    }

    /** One turn of rescueYoungestChildren: the last remaining child of `x`, `ch[n - j - 1]`, is taken off. */
    method RescueLastChild(x: nat, ghost S0: ArenaState, ghost ch: seq<nat>, ghost j: nat)
      requires Valid() && x < |scopes| && |scopes| == |S0.scopes|
      requires depth == S0.depth && disowned == S0.disowned && owner == S0.owner
      requires ch == S0.scopes[x].children && j < |ch| && ChildrenOK(S0, x)
      requires scopes[x] == S0.scopes[x].(children := ch[..|ch| - j])
      requires forall i :: |ch| - j <= i < |ch| ==> scopes[ch[i]] == S0.scopes[ch[i]].(parent := None)
      requires forall i :: 0 <= i < |scopes| && i != x && i !in ch[|ch| - j..] ==> scopes[i] == S0.scopes[i]
      modifies this
      ensures Valid() && |scopes| == |S0.scopes| && depth == S0.depth && disowned == S0.disowned && owner == S0.owner
      ensures scopes[x] == S0.scopes[x].(children := ch[..|ch| - j - 1])
      ensures forall i :: |ch| - j - 1 <= i < |ch| ==> scopes[ch[i]] == S0.scopes[ch[i]].(parent := None)
      ensures forall i :: 0 <= i < |scopes| && i != x && i !in ch[|ch| - j - 1..] ==> scopes[i] == S0.scopes[i]
    {
      var n := |ch|;
      var b := RemoveChildAt(x, |scopes[x].children| - 1);
      assert b == ch[n - j - 1];
      assert ch[..n - j][..n - j - 1] == ch[..n - j - 1];
      forall i | n - j - 1 <= i < n
        ensures scopes[ch[i]] == S0.scopes[ch[i]].(parent := None)
      {
        if i > n - j - 1 {
          assert ch[i] != b;
        }
      }
      forall i | 0 <= i < |scopes| && i != x && i !in ch[n - j - 1..]
        ensures scopes[i] == S0.scopes[i]
      {
        assert i != b && i !in ch[n - j..];
      }
    }

    /** addReusedScopes: re-attach the rescued scopes to `target`, in order, after its children. */
    method AddReusedScopes(target: nat, toAdd: seq<nat>)
      requires Valid() && Live(State(), target)
      requires forall i :: 0 <= i < |toAdd| ==>
                 toAdd[i] < |scopes| && toAdd[i] !in disowned
                 && scopes[toAdd[i]].parent.None? && depth[toAdd[i]] == depth[target] + 1
      requires forall i, j :: 0 <= i < j < |toAdd| ==> toAdd[i] != toAdd[j]
      modifies this
      ensures Valid()
      ensures |scopes| == old(|scopes|) && depth == old(depth) && disowned == old(disowned) && owner == old(owner)
      ensures scopes[target] == old(scopes[target]).(children := old(scopes[target].children) + toAdd)
      ensures forall i :: 0 <= i < |toAdd| ==> scopes[toAdd[i]] == old(scopes[toAdd[i]]).(parent := Some(target))
      ensures forall i :: 0 <= i < |scopes| && i != target && i !in toAdd ==> scopes[i] == old(scopes[i])
    {
      ghost var S0 := State();
      for k := 0 to |toAdd|
        invariant Valid() && |scopes| == |S0.scopes| && depth == S0.depth
        invariant disowned == S0.disowned && owner == S0.owner
        invariant scopes[target] == S0.scopes[target].(children := S0.scopes[target].children + toAdd[..k])
        invariant forall i :: 0 <= i < k ==> scopes[toAdd[i]] == S0.scopes[toAdd[i]].(parent := Some(target))
        invariant forall i :: k <= i < |toAdd| ==> scopes[toAdd[i]] == S0.scopes[toAdd[i]]
        invariant forall i :: 0 <= i < |scopes| && i != target && i !in toAdd ==> scopes[i] == S0.scopes[i]
      {
        AddReusedScope(target, toAdd, k, S0);
      }
      assert toAdd[..|toAdd|] == toAdd;
    }

    /** One turn of addReusedScopes: `toAdd[k]` becomes the last child of `target`. */
    method AddReusedScope(target: nat, toAdd: seq<nat>, k: nat, ghost S0: ArenaState)
      requires Valid() && Live(State(), target) && k < |toAdd| && target < |S0.scopes|
      requires |scopes| == |S0.scopes| && depth == S0.depth && disowned == S0.disowned && owner == S0.owner
      requires forall i :: 0 <= i < |toAdd| ==>
                 toAdd[i] < |S0.scopes| && toAdd[i] !in S0.disowned
                 && S0.scopes[toAdd[i]].parent.None? && S0.depth[toAdd[i]] == S0.depth[target] + 1
      requires forall i, j :: 0 <= i < j < |toAdd| ==> toAdd[i] != toAdd[j]
      requires scopes[target] == S0.scopes[target].(children := S0.scopes[target].children + toAdd[..k])
      requires forall i :: 0 <= i < k ==> scopes[toAdd[i]] == S0.scopes[toAdd[i]].(parent := Some(target))
      requires forall i :: k <= i < |toAdd| ==> scopes[toAdd[i]] == S0.scopes[toAdd[i]]
      requires forall i :: 0 <= i < |scopes| && i != target && i !in toAdd ==> scopes[i] == S0.scopes[i]
      modifies this
      ensures Valid() && |scopes| == |S0.scopes| && depth == S0.depth && disowned == S0.disowned && owner == S0.owner
      ensures scopes[target] == S0.scopes[target].(children := S0.scopes[target].children + toAdd[..k + 1])
      ensures forall i :: 0 <= i < k + 1 ==> scopes[toAdd[i]] == S0.scopes[toAdd[i]].(parent := Some(target))
      ensures forall i :: k + 1 <= i < |toAdd| ==> scopes[toAdd[i]] == S0.scopes[toAdd[i]]
      ensures forall i :: 0 <= i < |scopes| && i != target && i !in toAdd ==> scopes[i] == S0.scopes[i]
    {
      AddChild(target, toAdd[k]);
      assert toAdd[..k + 1] == toAdd[..k] + [toAdd[k]];
    }

    // -------------------------------------------------------------------
    // Creating subtrees

    /** createSubtreeImpl: allocate a scope of kind `k`, add it as the last child of `p`, expand it. */
    method CreateSubtreeImpl(p: nat, k: ScopeKind) returns (r: nat)
      requires Ready(RefSet(k)) && WellFormed(k) && Live(State(), p)
      modifies this, scopedNodes
      ensures Valid() && Grown(old(State()), State(), p, false) && NewPoint(old(State()), State(), r, p)
      ensures Attached(old(State()), State(), p, k, r)
      decreases KindNode(k), KindRank(k), 5
    {
      ghost var A := State();
      var c := AllocateChild(p, k);
      ghost var B := State();
      r := ExpandAndBeCurrent(c);
      AttachStep(A, B, State(), p, c, r);
    }

    /** The first half of createSubtreeImpl: a new scope of kind `k`, appended as the last child of `p`. */
    method AllocateChild(p: nat, k: ScopeKind) returns (c: nat)
      requires Ready(RefSet(k)) && WellFormed(k) && Live(State(), p)
      modifies this
      ensures Valid() && Grown(old(State()), State(), p, false) && Live(State(), p)
      ensures c == old(|scopes|) && |scopes| == c + 1 && Live(State(), c)
      ensures scopes[c].kind == k && scopes[c].parent == Some(p) && scopes[c].children == []
      ensures scopes[p].children == old(scopes[p].children) + [c]
    {
      ghost var A := State();
      c := Allocate(k, depth[p] + 1);
      AddChild(p, c);
      ChildUnder(State(), c, p);
    }

    /** createSubtree: for kinds that are never checked for duplicates. */
    method CreateSubtree(p: nat, k: ScopeKind) returns (r: nat)
      requires Valid() && Live(State(), p) && WellFormed(k) && Referent(k).None?
      modifies this, scopedNodes
      ensures Valid() && Grown(old(State()), State(), p, false) && NewPoint(old(State()), State(), r, p)
      ensures Attached(old(State()), State(), p, k, r)
      decreases KindNode(k), KindRank(k), 6
    {
      r := CreateSubtreeImpl(p, k);
    }

    /**
     * createSubtreeIfUnique: a scope is created exactly when its referent is
     * not yet in the dedup set; otherwise nothing changes and the result is null.
     */
    method CreateSubtreeIfUnique(p: nat, k: ScopeKind) returns (r: Option<nat>)
      requires Valid() && Live(State(), p) && WellFormed(k) && Referent(k).Some?
      modifies this, scopedNodes
      ensures Valid() && Grown(old(State()), State(), p, false)
      ensures NewPoint(old(State()), State(), r.GetOr(p), p)
      ensures r.None? <==> Referent(k).value in old(scopedNodes.pointers)
      ensures r.None? ==> State() == old(State()) && scopedNodes.pointers == old(scopedNodes.pointers)
      ensures r.Some? ==> Attached(old(State()), State(), p, k, r.value)
      ensures Referent(k).value in scopedNodes.pointers
      ensures KeptPoint(old(State()), State(), p, {k})
      decreases KindNode(k), KindRank(k), 6
    {
      ghost var A := State();
      var inserted := scopedNodes.Insert(Referent(k));
      if inserted {
        var ip := CreateSubtreeImpl(p, k);
        r := Some(ip);
        AttachKeepsChildKindsIn(A, State(), p, k, ip, |A.scopes[p].children|, {k});
      } else {
        r := None;
      }
    }

    /** createSubtreeMustBeUnique: a duplicate creates nothing and yields `p`. */
    method CreateSubtreeMustBeUnique(p: nat, k: ScopeKind) returns (r: nat)
      requires Valid() && Live(State(), p) && WellFormed(k) && Referent(k).Some?
      modifies this, scopedNodes
      ensures Valid() && Grown(old(State()), State(), p, false) && NewPoint(old(State()), State(), r, p)
      ensures Referent(k).value !in old(scopedNodes.pointers) ==> Attached(old(State()), State(), p, k, r)
      ensures Referent(k).value in old(scopedNodes.pointers) ==> State() == old(State()) && r == p
      decreases KindNode(k), KindRank(k), 7
    {
      var s := CreateSubtreeIfUnique(p, k);
      r := s.GetOr(p);
    }

    // -------------------------------------------------------------------
    // Expansion

    /**
     * expandAndBeCurrent: expand `x`, then record its snapshot and its
     * children count, so that the children added later are the youngest.
     */
    method ExpandAndBeCurrent(x: nat) returns (r: nat)
      requires Valid() && Live(State(), x)
      requires InsertionPointRuleOf(scopes[x].kind) == ReturnsParent ==> scopes[x].parent.Some?
      modifies this, scopedNodes
      ensures Valid() && Grown(old(State()), State(), x, true) && ExpansionPoint(old(State()), State(), x, r)
      ensures scopes[x].childrenCountWhenLastExpanded == |scopes[x].children|
      ensures scopes[x].snapshot == BeCurrent(old(scopes[x].kind), old(scopes[x].snapshot))
      ensures !scopes[x].kind.PatternEntryDeclScope? ==> IsCurrent(scopes[x].kind, scopes[x].snapshot)
      decreases KindNode(scopes[x].kind), KindRank(scopes[x].kind), 4
    {
      ghost var A := State();
      r := ExpandSpecifically(x);
      ghost var B := State();
      var s := scopes[x];
      scopes := scopes[x := s.(snapshot := BeCurrent(s.kind, s.snapshot), childrenCountWhenLastExpanded := |s.children|)];
      ShapeKept(B, State(), scopedNodes.pointers, {});
      RefreshStep(A, B, State(), x, r);
    }

    /**
     * expandSpecifically: the expansion of each scope class, returning the
     * scope itself, its parent, or the deepest new insertion point, by the
     * rule of its kind.
     */
    method ExpandSpecifically(x: nat) returns (r: nat)
      requires Valid() && Live(State(), x)
      requires InsertionPointRuleOf(scopes[x].kind) == ReturnsParent ==> scopes[x].parent.Some?
      modifies this, scopedNodes
      ensures Valid() && Grown(old(State()), State(), x, false) && ExpansionPoint(old(State()), State(), x, r)
      decreases KindNode(scopes[x].kind), KindRank(scopes[x].kind), 3
    {
      ghost var A := State();
      var k := scopes[x].kind;
      r := x;
      if IsDeclKind(k) {
        r := ExpandDeclScope(x);
      } else if IsStmtKind(k) {
        r := ExpandStmtScope(x);
      } else if IsClosureKind(k) {
        r := ExpandClosureScope(x);
      } else {
        GrownRefl(A, x);
      }
      if InsertionPointRuleOf(k) == ReturnsParent {
        r := scopes[x].parent.value;
      }
    }

    /** What a group of expansions promises: growth below `x`, and a new point only for descendant-rule kinds. */
    ghost predicate GroupExpanded(A: ArenaState, x: nat, r: nat)
      reads this, scopedNodes
    {
      Valid() && x < |A.scopes| && Grown(A, State(), x, false)
      && (if InsertionPointRuleOf(A.scopes[x].kind) == ReturnsDescendant then NewPoint(A, State(), r, x)
          else r == x)
    }

    /** The declaration scopes' expansions. */
    method ExpandDeclScope(x: nat) returns (r: nat)
      requires Valid() && Live(State(), x) && IsDeclKind(scopes[x].kind)
      modifies this, scopedNodes
      ensures GroupExpanded(old(State()), x, r)
      decreases KindNode(scopes[x].kind), KindRank(scopes[x].kind), 2
    {
      var k := scopes[x].kind;
      if IsFunctionOrEntryKind(k) {
        r := ExpandFunctionOrEntryScope(x);
      } else {
        r := ExpandOtherDeclScope(x);
      }
    }

    /** The kinds of the scopes of functions and pattern entries. */
    predicate IsFunctionOrEntryKind(k: ScopeKind)
    {
      k.AbstractFunctionDeclScope? || k.AbstractFunctionParamsScope? || k.AbstractFunctionBodyScope?
      || k.PatternEntryDeclScope? || k.PatternEntryInitializerScope?
    }

    /** The expansions of the scopes of functions and pattern entries. */
    method ExpandFunctionOrEntryScope(x: nat) returns (r: nat)
      requires Valid() && Live(State(), x) && IsDeclKind(scopes[x].kind) && IsFunctionOrEntryKind(scopes[x].kind)
      modifies this, scopedNodes
      ensures GroupExpanded(old(State()), x, r)
      decreases KindNode(scopes[x].kind), KindRank(scopes[x].kind), 1
    {
      var k := scopes[x].kind;
      assert WellFormed(k);
      r := x;
      match k {
      case AbstractFunctionDeclScope(d) =>
        ghost var attrs, fan, results, states, points := ExpandFunctionDecl(x, d);
      case AbstractFunctionParamsScope(o) => r := ExpandFunctionParams(x, o);
      case AbstractFunctionBodyScope(d) => ExpandFunctionBody(x, d);
      case PatternEntryDeclScope(d, i, vis) => ExpandPatternEntry(x, d, i, vis);
      case PatternEntryInitializerScope(d, i, _) => r := ExpandPatternEntryInitializer(x, d, i);
      case _ => assert false;
      }
    }

    /** The expansions of the other declaration scopes. */
    method ExpandOtherDeclScope(x: nat) returns (r: nat)
      requires Valid() && Live(State(), x) && IsDeclKind(scopes[x].kind) && !IsFunctionOrEntryKind(scopes[x].kind)
      modifies this, scopedNodes
      ensures GroupExpanded(old(State()), x, r)
      decreases KindNode(scopes[x].kind), KindRank(scopes[x].kind), 1
    {
      var k := scopes[x].kind;
      assert WellFormed(k);
      r := x;
      match k {
      case VarDeclScope(d) => ExpandVarDecl(x, d);
      case AttachedPropertyWrapperScope(d) => ExpandAttachedPropertyWrapper(x, d);
      case GenericTypeOrExtensionScope(portion, d) =>
        if portion.WholePortion? {
          ghost var deepest, states, points := ExpandWholePortion(x, d);
        } else if portion.BodyPortion? {
          ghost var members, states, results := ExpandBodyPortion(x, d);
        }
      case TopLevelCodeScope(d) => r := ExpandTopLevelCode(x, d);
      case SubscriptDeclScope(d) =>
        ghost var states, points, storage := ExpandSubscript(x, d);
      case DefaultArgumentInitializerScope(param) => ExpandDefaultArgument(x, param);
      case _ => assert false;
      }
    }

    /** The statement scopes' expansions. */
    method ExpandStmtScope(x: nat) returns (r: nat)
      requires Valid() && Live(State(), x) && IsStmtKind(scopes[x].kind)
      modifies this, scopedNodes
      ensures GroupExpanded(old(State()), x, r)
      decreases KindNode(scopes[x].kind), KindRank(scopes[x].kind), 2
    {
      var k := scopes[x].kind;
      if IsConditionalKind(k) {
        r := ExpandConditionalStmtScope(x);
      } else {
        r := ExpandOtherStmtScope(x);
      }
    }

    /** The kinds of the scopes of statements with conditions, and of their clauses. */
    predicate IsConditionalKind(k: ScopeKind)
    {
      k.ConditionalClauseScope? || k.GuardStmtScope? || k.IfStmtScope? || k.WhileStmtScope?
      || k.RepeatWhileScope? || k.DoCatchStmtScope?
    }

    /** The expansions of the scopes of statements with conditions, and of their clauses. */
    method ExpandConditionalStmtScope(x: nat) returns (r: nat)
      requires Valid() && Live(State(), x) && IsStmtKind(scopes[x].kind) && IsConditionalKind(scopes[x].kind)
      modifies this, scopedNodes
      ensures GroupExpanded(old(State()), x, r)
      decreases KindNode(scopes[x].kind), KindRank(scopes[x].kind), 1
    {
      var k := scopes[x].kind;
      assert WellFormed(k);
      r := x;
      match k {
      case ConditionalClauseScope(s, i, e) => r := ExpandConditionalClause(x, s, i, e);
      case GuardStmtScope(s) =>
        ghost var states, points, M, bodyPoint;
        r, states, points, M, bodyPoint := ExpandGuard(x, s);
      case IfStmtScope(s) =>
        ghost var states, points, elseResult := ExpandIf(x, s);
      case WhileStmtScope(s) =>
        ghost var states, points := ExpandWhile(x, s);
      case RepeatWhileScope(s) =>
        ghost var states, results := ExpandRepeatWhile(x, s);
      case DoCatchStmtScope(s) =>
        ghost var states, results := ExpandDoCatch(x, s);
      case _ => assert false;
      }
    }

    /** The expansions of the other statement scopes. */
    method ExpandOtherStmtScope(x: nat) returns (r: nat)
      requires Valid() && Live(State(), x) && IsStmtKind(scopes[x].kind) && !IsConditionalKind(scopes[x].kind)
      modifies this, scopedNodes
      ensures GroupExpanded(old(State()), x, r)
      decreases KindNode(scopes[x].kind), KindRank(scopes[x].kind), 1
    {
      var k := scopes[x].kind;
      assert WellFormed(k);
      r := x;
      match k {
      case SwitchStmtScope(s) =>
        ghost var states, results := ExpandSwitch(x, s);
      case ForEachStmtScope(s) =>
        ghost var states, results := ExpandForEach(x, s);
      case ForEachPatternScope(s) =>
        ghost var states, results := ExpandForEachPattern(x, s);
      case CatchStmtScope(s) =>
        ghost var states, results := ExpandCatch(x, s);
      case CaseStmtScope(s) =>
        ghost var states, results := ExpandCase(x, s);
      case BraceStmtScope(s) =>
        ghost var sorted, states, points;
        r, sorted, states, points := ExpandBrace(x, s);
      case _ => assert false;
      }
    }

    /** The closure scopes' expansions. */
    method ExpandClosureScope(x: nat) returns (r: nat)
      requires Valid() && Live(State(), x) && IsClosureKind(scopes[x].kind)
      modifies this, scopedNodes
      ensures GroupExpanded(old(State()), x, r)
      decreases KindNode(scopes[x].kind), KindRank(scopes[x].kind), 1
    {
      var k := scopes[x].kind;
      assert WellFormed(k);
      r := x;
      match k {
      case WholeClosureScope(f) => ExpandWholeClosure(x, f);
      case CaptureListScope(e) => ExpandCaptureList(x, e);
      case ClosureBodyScope(f) => ExpandClosureBody(x, f);
      case _ => assert false;
      }
    }

    // -------------------------------------------------------------------
    // Expansions that return a new insertion point (or the scope itself)

    /** AbstractFunctionParamsScope: a sibling scope per default argument; the body goes under the scope. */
    method ExpandFunctionParams(x: nat, o: Node) returns (r: nat)
      requires Valid() && Live(State(), x) && (o.AbstractFunctionDecl? || o.SubscriptDecl?)
      modifies this, scopedNodes
      ensures Valid() && Grown(old(State()), State(), x, false) && r == x
      ensures ChildKindsFrom(State(), x, old(|scopes[x].children|), DefaultArgKinds(ParamsOf(o)))
      decreases o, 40, 0
    {
      ghost var A := State();
      ghost var n0 := |scopes[x].children|;
      var params := if o.AbstractFunctionDecl? then o.params else o.indices;
      assert params == ParamsOf(o);
      GrownRefl(A, x);
      for i := 0 to |params|
        invariant Valid() && Grown(A, State(), x, false)
        invariant ChildKindsFrom(State(), x, n0, DefaultArgKinds(params[..i]))
      {
        DefaultArgKindsStep(params, i);
        ghost var B := State();
        CreateDefaultArgScopeFor(params[i], x, o, n0, DefaultArgKinds(params[..i]));
        GrownTrans(A, B, State(), x, x, false, false);
      }
      assert params[..|params|] == params;
      r := x;
    }

    /** One parameter's turn in the parameters expansion: a default-argument scope if it has a default. */
    method CreateDefaultArgScopeFor(param: Param, x: nat, ghost o: Node, ghost n0: nat, ghost ks: seq<ScopeKind>)
      requires Valid() && Live(State(), x) && ChildKindsFrom(State(), x, n0, ks)
      requires (o.AbstractFunctionDecl? || o.SubscriptDecl?) && param in ParamsOf(o)
      modifies this, scopedNodes
      ensures Valid() && Grown(old(State()), State(), x, false)
      ensures ChildKindsFrom(State(), x, n0,
                             ks + (if param.defaultValue.Some? then [DefaultArgumentInitializerScope(param)] else []))
      decreases o, 39, 0
    {
      if param.defaultValue.Some? {
        ghost var B := State();
        var k := DefaultArgumentInitializerScope(param);
        var c := CreateSubtree(x, k);
        AttachExtendsChildKinds(B, State(), x, k, c, n0, ks);
      } else {
        GrownRefl(State(), x);
        assert ks + [] == ks;
      }
    }

    /** ConditionalClauseScope: the clause's expression, then a pattern-use scope for a pattern binding. */
    method ExpandConditionalClause(x: nat, s: Node, i: nat, endLoc: Loc) returns (r: nat)
      requires Valid() && Live(State(), x)
      requires (s.IfStmt? || s.WhileStmt? || s.GuardStmt?) && i < |s.cond|
      modifies this, scopedNodes
      ensures Valid() && Grown(old(State()), State(), x, false) && NewPoint(old(State()), State(), r, x)
      ensures s.cond[i].PatternBinding? ==>
                r != x && LastChildKind(State(), x, ConditionalClausePatternUseScope(s, i, endLoc))
                && scopes[x].children[|scopes[x].children| - 1] == r
      ensures !s.cond[i].PatternBinding? ==> r == x
      decreases s, 30, 0
    {
      ghost var A := State();
      match s.cond[i]
      case Availability =>
        r := x;
      case Boolean(e) =>
        VisitExpr(e, x);
        r := x;
      case PatternBinding(_, init) =>
        VisitExpr(init, x);
        ghost var B := State();
        r := CreateSubtree(x, ConditionalClausePatternUseScope(s, i, endLoc));
        ChainStep(A, B, State(), x, x, r);
    }

    /**
     * GuardStmtScope: the condition scopes threaded from the guard scope, the
     * body under the guard scope itself (from `M` on), and a diversion scope
     * for what follows, whose lookup parent is the point the conditions reached.
     */
    method ExpandGuard(x: nat, s: Node)
      returns (r: nat, ghost states: seq<ArenaState>, ghost points: seq<nat>, ghost M: ArenaState, ghost bodyPoint: nat)
      requires Valid() && Live(State(), x) && s.GuardStmt?
      modifies this, scopedNodes
      ensures Valid() && Grown(old(State()), State(), x, false) && NewPoint(old(State()), State(), r, x)
      ensures Threaded(ConditionalClauseActions(s, s.body.info.start), states, points)
      ensures states[0] == old(State()) && points[0] == x
      ensures ThreadedStep(ScopeForAction(s.body), states[|states| - 1], M, x, bodyPoint)
      ensures Attached(M, State(), x, LookupParentDiversionScope(points[|points| - 1], s), r)
      ensures r < |scopes| && scopes[r].parent == Some(x) && LastChildKind(State(), x, scopes[r].kind)
              && scopes[r].kind == LookupParentDiversionScope(points[|points| - 1], s)
      ensures NewPoint(old(State()), State(), scopes[r].kind.lookupParent, x)
      decreases s, 60, 0
    {
      ghost var A := State();
      var conditionLookupParent;
      conditionLookupParent, states, points := CreateNestedConditionalClauseScopes(x, s, s.body.info.start);
      ghost var B := State();
      var bodyPoint' := AddScopeFor(s.body, x);
      M, bodyPoint := State(), bodyPoint';
      SideStep(A, B, State(), x, x, conditionLookupParent);
      r := CreateDiversionScope(x, conditionLookupParent, s);
      SideStep(A, M, State(), x, x, conditionLookupParent);
      ChainStep(A, M, State(), x, x, r);
    }

    /** A lookup-parent diversion scope for `origin`, the new last child of `p` and the insertion point. */
    method CreateDiversionScope(p: nat, lookupParent: nat, origin: Node) returns (r: nat)
      requires Valid() && Live(State(), p)
      modifies this, scopedNodes
      ensures Valid() && Grown(old(State()), State(), p, false) && NewPoint(old(State()), State(), r, p)
      ensures r < |scopes| && scopes[r].parent == Some(p)
              && scopes[r].kind == LookupParentDiversionScope(lookupParent, origin)
              && LastChildKind(State(), p, scopes[r].kind)
      ensures Attached(old(State()), State(), p, LookupParentDiversionScope(lookupParent, origin), r)
      decreases origin, 6, 0
    {
      r := CreateSubtree(p, LookupParentDiversionScope(lookupParent, origin));
    }

    /**
     * BraceStmtScope: the elements, stably sorted by end location, threaded
     * through addScopesToTree from the brace scope.
     */
    method ExpandBrace(x: nat, s: Node)
      returns (r: nat, ghost sorted: seq<Node>, ghost states: seq<ArenaState>, ghost points: seq<nat>)
      requires Valid() && Live(State(), x) && s.BraceStmt?
      modifies this, scopedNodes
      ensures Valid() && Grown(old(State()), State(), x, false) && NewPoint(old(State()), State(), r, x)
      ensures SortedByKey(sorted, EndKey) && multiset(sorted) == multiset(s.elements)
      ensures forall v :: WithKey(sorted, EndKey, v) == WithKey(s.elements, EndKey, v)
      ensures Threaded(ScopeForActions(sorted), states, points)
      ensures states[0] == old(State()) && states[|sorted|] == State() && points[0] == x && points[|sorted|] == r
      decreases s, 60, 0
    {
      var elements := StableSortByKey(s.elements, EndKey);
      forall i | 0 <= i < |elements|
        ensures elements[i] < s
      {
        assert elements[i] in multiset(s.elements);
      }
      sorted := elements;
      r, states, points := AddScopesToTree(x, elements, s);
    }

    /** TopLevelCodeScope: a brace scope for the body, which becomes the insertion point. */
    method ExpandTopLevelCode(x: nat, d: Node) returns (r: nat)
      requires Valid() && Live(State(), x) && d.TopLevelCodeDecl?
      modifies this, scopedNodes
      ensures Valid() && Grown(old(State()), State(), x, false) && NewPoint(old(State()), State(), r, x)
      ensures !(d.body.BraceStmt? && IsLocalizable(d.body)) ==> State() == old(State()) && r == x
      ensures d.body.BraceStmt? && IsLocalizable(d.body) ==>
                (d.body.info.id !in old(scopedNodes.pointers) <==> |scopes| > old(|scopes|))
                && (d.body.info.id !in old(scopedNodes.pointers) ==> LastChildKind(State(), x, BraceStmtScope(d.body)))
      decreases d, 60, 0
    {
      if !(d.body.BraceStmt? && IsLocalizable(d.body)) {
        r := x;
        return;
      }
      var s := CreateSubtreeIfUnique(x, BraceStmtScope(d.body));
      r := s.GetOr(x);
    }

    /** PatternEntryInitializerScope: the closures in the initializer. */
    method ExpandPatternEntryInitializer(x: nat, d: Node, i: nat) returns (r: nat)
      requires Valid() && Live(State(), x)
      requires d.PatternBindingDecl? && i < |d.patternList| && d.patternList[i].initAsWritten.Some?
      modifies this, scopedNodes
      ensures Valid() && Grown(old(State()), State(), x, false) && r == x
      ensures ChildKindsIn(State(), x, old(|scopes[x].children|), ClosureScopeKinds(d.patternList[i].initAsWritten.value))
      ensures Scoped(State(), ClosureScopeKinds(d.patternList[i].initAsWritten.value))
      decreases d, 40, 0
    {
      VisitExpr(d.patternList[i].initAsWritten.value, x);
      r := x;
    }

    /** PatternEntryDeclScope: an initializer scope, then a scope per variable with accessors. */
    method ExpandPatternEntry(x: nat, d: Node, i: nat, vis: DeclVisibilityKind)
      requires Valid() && Live(State(), x) && d.PatternBindingDecl? && i < |d.patternList|
      modifies this, scopedNodes
      ensures Valid() && Grown(old(State()), State(), x, false)
      ensures var init := d.patternList[i].initAsWritten;
              init.Some? && IsLocalizable(init.value) ==>
                ChildKindsAt(State(), x, old(|scopes[x].children|), [PatternEntryInitializerScope(d, i, vis)])
      ensures ChildKindsIn(State(), x, old(|scopes[x].children|), InitializerKinds(d, i, vis) + VarScopeKinds(d, i))
      ensures Scoped(State(), VarScopeKinds(d, i))
      decreases d, 60, 0
    {
      ghost var A := State();
      ghost var n0 := |scopes[x].children|;
      var entry := d.patternList[i];
      ghost var ks: seq<ScopeKind> := [];
      if entry.initAsWritten.Some? && IsLocalizable(entry.initAsWritten.value) {
        var k := PatternEntryInitializerScope(d, i, vis);
        var c := CreateSubtree(x, k);
        AttachExtendsChildKinds(A, State(), x, k, c, n0, []);
        ks := [k];
      } else {
        GrownRefl(A, x);
      }
      ghost var B := State();
      assert ChildKindsFrom(B, x, n0, ks);
      assert ChildKindsIn(B, x, n0, InitializerKinds(d, i, vis));
      CreateVarDeclScopes(x, d, i);
      GrownKeepsChildKinds(B, State(), x, n0, ks, false);
      GrownJoinsChildKindsIn(B, State(), x, n0, InitializerKinds(d, i, vis), VarScopeKinds(d, i), false);
      GrownTrans(A, B, State(), x, x, false, false);
    }

    /** The initializer scope PatternEntryDeclScope creates for entry `i` of `d`, if any. */
    ghost function InitializerKinds(d: Node, i: nat, vis: DeclVisibilityKind): set<ScopeKind>
      requires d.PatternBindingDecl? && i < |d.patternList|
    {
      var init := d.patternList[i].initAsWritten;
      if init.Some? && IsLocalizable(init.value) then {PatternEntryInitializerScope(d, i, vis)} else {}
    }

    /** The variable loop of PatternEntryDeclScope: a scope per variable of entry `i` that has accessors. */
    method CreateVarDeclScopes(x: nat, d: Node, i: nat)
      requires Valid() && Live(State(), x) && d.PatternBindingDecl? && i < |d.patternList|
      modifies this, scopedNodes
      ensures Valid() && Grown(old(State()), State(), x, false)
      ensures ChildKindsIn(State(), x, old(|scopes[x].children|), VarScopeKinds(d, i))
      ensures Scoped(State(), VarScopeKinds(d, i))
      decreases d, 59, 0
    {
      ghost var B := State();
      ghost var n0 := |scopes[x].children|;
      var entry := d.patternList[i];
      GrownRefl(B, x);
      for j := 0 to |entry.vars|
        invariant Valid() && Grown(B, State(), x, false)
        invariant ChildKindsIn(State(), x, n0, VarScopeKinds(d, i))
        invariant forall j' :: 0 <= j' < j && entry.vars[j'].VarDecl? && |entry.vars[j'].accessors| > 0 ==>
                    entry.vars[j'].info.id in owner
      {
        var v := entry.vars[j];
        if v.VarDecl? && |v.accessors| > 0 {
          ghost var C := State();
          CreateVarDeclScope(x, d, i, v, n0);
          GrownTrans(B, C, State(), x, x, false, false);
        }
      }
      VarScopeKindsScoped(d, i, owner);
    }

    /** One turn of the variable loop: the scope of `v` under `x`, unless `v` already has one. */
    method CreateVarDeclScope(x: nat, d: Node, i: nat, v: Node, ghost n0: nat)
      requires Valid() && Live(State(), x) && d.PatternBindingDecl? && i < |d.patternList|
      requires v in d.patternList[i].vars && v.VarDecl? && |v.accessors| > 0
      requires ChildKindsIn(State(), x, n0, VarScopeKinds(d, i))
      modifies this, scopedNodes
      ensures Valid() && Grown(old(State()), State(), x, false)
      ensures ChildKindsIn(State(), x, n0, VarScopeKinds(d, i))
      ensures v.info.id in owner
      decreases d, 58, 0
    {
      ghost var C := State();
      var k := VarDeclScope(v);
      assert k in VarScopeKinds(d, i);
      var s := CreateSubtreeIfUnique(x, k);
      if s.Some? {
        AttachKeepsChildKindsIn(C, State(), x, k, s.value, n0, VarScopeKinds(d, i));
      }
    }

    /** When every variable of entry `i` that has accessors is in `owner`, every kind of VarScopeKinds is scoped there. */
    lemma VarScopeKindsScoped(d: Node, i: nat, own: map<int, nat>)
      requires d.PatternBindingDecl? && i < |d.patternList|
      requires forall j :: (0 <= j < |d.patternList[i].vars| && d.patternList[i].vars[j].VarDecl?
                            && |d.patternList[i].vars[j].accessors| > 0) ==> d.patternList[i].vars[j].info.id in own
      ensures forall k :: k in VarScopeKinds(d, i) && Referent(k).Some? ==> Referent(k).value in own
    {
      forall k | k in VarScopeKinds(d, i)
        ensures Referent(k).Some? && Referent(k).value in own
      {
        var v :| v in d.patternList[i].vars && v.VarDecl? && |v.accessors| > 0 && k == VarDeclScope(v);
        var j :| 0 <= j < |d.patternList[i].vars| && d.patternList[i].vars[j] == v;
      }
    }

    /** The variable scopes PatternEntryDeclScope may create for entry `i` of `d`. */
    ghost function VarScopeKinds(d: Node, i: nat): set<ScopeKind>
      requires d.PatternBindingDecl? && i < |d.patternList|
    {
      set v | v in d.patternList[i].vars && v.VarDecl? && |v.accessors| > 0 :: VarDeclScope(v)
    }

    // -------------------------------------------------------------------
    // Expansions that return the parent

    /**
     * AbstractFunctionDeclScope: a unique scope per specialize attribute, in
     * order of location, each under `x`; then, threaded from `x`, the generic
     * parameters and the parameters (not for an accessor) and the body.
     */
    method ExpandFunctionDecl(x: nat, d: Node)
      returns (ghost attrs: seq<SpecializeAttr>, ghost fan: seq<ArenaState>, ghost results: seq<nat>,
               ghost states: seq<ArenaState>, ghost points: seq<nat>)
      requires Valid() && Live(State(), x) && d.AbstractFunctionDecl?
      modifies this, scopedNodes
      ensures Valid() && Grown(old(State()), State(), x, false)
      ensures SortedByKey(attrs, AttrLocKey) && multiset(attrs) == multiset(d.specializeAttrs)
      ensures forall v :: WithKey(attrs, AttrLocKey, v) == WithKey(d.specializeAttrs, AttrLocKey, v)
      ensures Fanned(SpecializeActions(d, attrs), fan, results, x) && fan[0] == old(State())
      ensures Threaded(FunctionChainActions(d), states, points)
      ensures states[0] == fan[|attrs|] && states[|states| - 1] == State() && points[0] == x
      decreases d, 60, 0
    {
      ghost var A := State();
      attrs, fan, results := CreateSpecializeScopes(x, d);
      ghost var B := State();
      states, points := CreateFunctionChain(x, d);
      GrownTrans(A, B, State(), x, x, false, false);
    }

    /** The steps for the specialize attributes `attrs` of `d`: a unique scope for each. */
    ghost function SpecializeActions(d: Node, attrs: seq<SpecializeAttr>): (acts: seq<ScopeAction>)
      ensures |acts| == |attrs|
    {
      seq(|attrs|, i requires 0 <= i < |attrs| => CreateUnique(SpecializeAttributeScope(attrs[i], d)))
    }

    /** The steps threaded from a function's scope: its signature (not for an accessor), then its body. */
    ghost function FunctionChainActions(d: Node): seq<ScopeAction>
      requires d.AbstractFunctionDecl?
    {
      (if IsAccessor(d) then [] else SignatureActions(d))
      + (if d.hasBodySourceRange then [Create(AbstractFunctionBodyScope(d))] else [])
    }

    /** The generic parameters, then a parameters scope unless the function is implicit or has no parameter list. */
    ghost function SignatureActions(d: Node): seq<ScopeAction>
      requires d.AbstractFunctionDecl?
    {
      GenericParamActions(d, d.genericParams)
      + (if !d.info.implicit && IsValidLoc(d.paramsLoc) then [Create(AbstractFunctionParamsScope(d))] else [])
    }

    /** The specialize attributes of a function, stably sorted by location, each a unique scope under `x`. */
    method CreateSpecializeScopes(x: nat, d: Node)
      returns (ghost attrs: seq<SpecializeAttr>, ghost states: seq<ArenaState>, ghost results: seq<nat>)
      requires Valid() && Live(State(), x) && d.AbstractFunctionDecl?
      modifies this, scopedNodes
      ensures Valid() && Grown(old(State()), State(), x, false)
      ensures SortedByKey(attrs, AttrLocKey) && multiset(attrs) == multiset(d.specializeAttrs)
      ensures forall v :: WithKey(attrs, AttrLocKey, v) == WithKey(d.specializeAttrs, AttrLocKey, v)
      ensures Fanned(SpecializeActions(d, attrs), states, results, x)
      ensures states[0] == old(State()) && states[|attrs|] == State()
      decreases d, 50, 1
    {
      ghost var A := State();
      var sorted := StableSortByKey(d.specializeAttrs, AttrLocKey);
      attrs := sorted;
      ghost var acts := SpecializeActions(d, sorted);
      states, results := [A], [];
      for i := 0 to |sorted|
        invariant Valid() && Grown(A, State(), x, false)
        invariant Fanned(acts[..i], states, results, x) && states[0] == A && states[i] == State()
      {
        states, results := CreateSpecializeScope(x, d, sorted, i, A, states, results);
      }
      assert acts[..|sorted|] == acts;
    }

    /** One turn of the loop over the specialize attributes: a unique scope for `attrs[i]` under `x`. */
    method CreateSpecializeScope(x: nat, d: Node, attrs: seq<SpecializeAttr>, i: nat, ghost A: ArenaState,
                                 ghost states0: seq<ArenaState>, ghost results0: seq<nat>)
      returns (ghost states: seq<ArenaState>, ghost results: seq<nat>)
      requires Valid() && TreeOK(A) && Live(A, x) && d.AbstractFunctionDecl? && i < |attrs| && Grown(A, State(), x, false)
      requires Fanned(SpecializeActions(d, attrs)[..i], states0, results0, x) && states0[0] == A && states0[i] == State()
      modifies this, scopedNodes
      ensures Valid() && Grown(A, State(), x, false)
      ensures Fanned(SpecializeActions(d, attrs)[..i + 1], states, results, x) && states[0] == A && states[i + 1] == State()
      decreases d, 50, 0
    {
      ghost var B := State();
      var k := SpecializeAttributeScope(attrs[i], d);
      var c := CreateSubtreeIfUnique(x, k);
      GrownTrans(A, B, State(), x, x, false, false);
      StepPerformed(CreateUnique(k), B, State(), x, c);
      FannedNext(SpecializeActions(d, attrs), i, states0, results0, x, State(), c.GetOr(x));
      states, results := states0 + [State()], results0 + [c.GetOr(x)];
    }

    /** The signature and body scopes of a function, threaded from `x`. */
    method CreateFunctionChain(x: nat, d: Node) returns (ghost states: seq<ArenaState>, ghost points: seq<nat>)
      requires Valid() && Live(State(), x) && d.AbstractFunctionDecl?
      modifies this, scopedNodes
      ensures Valid() && Grown(old(State()), State(), x, false)
      ensures Threaded(FunctionChainActions(d), states, points)
      ensures states[0] == old(State()) && states[|states| - 1] == State() && points[0] == x
      decreases d, 50, 1
    {
      ghost var A := State();
      var leaf := x;
      ghost var acts: seq<ScopeAction> := [];
      states, points := [A], [x];
      if !IsAccessor(d) {
        leaf, states, points := CreateSignatureScopes(x, d);
        acts := SignatureActions(d);
      } else {
        GrownRefl(A, x);
      }
      if d.hasBodySourceRange {
        ghost var B := State();
        var k := AbstractFunctionBodyScope(d);
        var body := CreateSubtree(leaf, k);
        GrownTrans(A, B, State(), x, leaf, false, false);
        StepPerformed(Create(k), B, State(), leaf, Some(body));
        ThreadedExtend(acts, states, points, Create(k), State(), body);
        states, points := states + [State()], points + [body];
        acts := acts + [Create(k)];
      }
      assert acts == FunctionChainActions(d);
    }

    /** The generic parameter scopes of a function, then its parameters scope, threaded from `x`. */
    method CreateSignatureScopes(x: nat, d: Node)
      returns (leaf: nat, ghost states: seq<ArenaState>, ghost points: seq<nat>)
      requires Valid() && Live(State(), x) && d.AbstractFunctionDecl?
      modifies this, scopedNodes
      ensures Valid() && Grown(old(State()), State(), x, false) && NewPoint(old(State()), State(), leaf, x)
      ensures Threaded(SignatureActions(d), states, points)
      ensures states[0] == old(State()) && states[|states| - 1] == State()
      ensures points[0] == x && points[|points| - 1] == leaf
      decreases d, 50, 0
    {
      ghost var A := State();
      leaf, states, points := CreateGenericParamScopes(d, d.genericParams, x);
      if !d.info.implicit && IsValidLoc(d.paramsLoc) {
        leaf, states, points := CreateParamsScope(x, d, leaf, A, states, points);
      } else {
        assert SignatureActions(d) == GenericParamActions(d, d.genericParams);
      }
    }

    /** The parameters scope of a function under `q`, the deepest of its generic parameter scopes. */
    method CreateParamsScope(x: nat, d: Node, q: nat, ghost A: ArenaState,
                             ghost states0: seq<ArenaState>, ghost points0: seq<nat>)
      returns (leaf: nat, ghost states: seq<ArenaState>, ghost points: seq<nat>)
      requires Valid() && TreeOK(A) && Live(A, x) && d.AbstractFunctionDecl? && !d.info.implicit && IsValidLoc(d.paramsLoc)
      requires Grown(A, State(), x, false) && NewPoint(A, State(), q, x)
      requires Threaded(GenericParamActions(d, d.genericParams), states0, points0)
      requires states0[0] == A && states0[|states0| - 1] == State() && points0[0] == x && points0[|points0| - 1] == q
      modifies this, scopedNodes
      ensures Valid() && Grown(A, State(), x, false) && NewPoint(A, State(), leaf, x)
      ensures Threaded(SignatureActions(d), states, points)
      ensures states[0] == A && states[|states| - 1] == State() && points[0] == x && points[|points| - 1] == leaf
      decreases d, 49, 0
    {
      ghost var C := State();
      var k := AbstractFunctionParamsScope(d);
      leaf := CreateSubtree(q, k);
      ChainStep(A, C, State(), x, q, leaf);
      StepPerformed(Create(k), C, State(), q, Some(leaf));
      ThreadedExtend(GenericParamActions(d, d.genericParams), states0, points0, Create(k), State(), leaf);
      states, points := states0 + [State()], points0 + [leaf];
      assert SignatureActions(d) == GenericParamActions(d, d.genericParams) + [Create(k)];
    }

    /** AbstractFunctionBodyScope (expandBody): a brace scope for the body, if any. */
    method ExpandFunctionBody(x: nat, d: Node)
      requires Valid() && Live(State(), x) && d.AbstractFunctionDecl?
      modifies this, scopedNodes
      ensures Valid() && Grown(old(State()), State(), x, false)
      ensures d.funcBody.Some? && d.funcBody.value.BraceStmt? ==>
                ChildKindsIn(State(), x, old(|scopes[x].children|), {BraceStmtScope(d.funcBody.value)})
      ensures !(d.funcBody.Some? && d.funcBody.value.BraceStmt?) ==> State() == old(State())
      ensures d.funcBody.Some? && d.funcBody.value.BraceStmt? && IsLocalizable(d.funcBody.value) ==>
                d.funcBody.value.info.id in scopedNodes.pointers
                && (d.funcBody.value.info.id !in old(scopedNodes.pointers) ==>
                      LastChildKind(State(), x, BraceStmtScope(d.funcBody.value)))
      decreases d, 40, 0
    {
      if d.funcBody.Some? && d.funcBody.value.BraceStmt? {
        VisitBraceStmt(d.funcBody.value, x);
      }
    }

    /**
     * IfStmtScope: condition scopes threaded from `x`, `then` under the
     * innermost of them, and `else`, if any, under `x` itself.
     */
    method ExpandIf(x: nat, s: Node)
      returns (ghost states: seq<ArenaState>, ghost points: seq<nat>, ghost elseResult: nat)
      requires Valid() && Live(State(), x) && s.IfStmt?
      modifies this, scopedNodes
      ensures Valid() && Grown(old(State()), State(), x, false)
      ensures Threaded(ConditionalClauseActions(s, s.thenStmt.info.start) + [ScopeForAction(s.thenStmt)], states, points)
      ensures states[0] == old(State()) && points[0] == x
      ensures s.elseStmt.None? ==> states[|states| - 1] == State()
      ensures s.elseStmt.Some? ==> ThreadedStep(ScopeForAction(s.elseStmt.value), states[|states| - 1], State(), x, elseResult)
      decreases s, 60, 0
    {
      ghost var A := State();
      states, points := CreateThenScopes(x, s);
      elseResult := x;
      if s.elseStmt.Some? {
        ghost var C := State();
        elseResult := CreateElseScope(x, s);
        GrownTrans(A, C, State(), x, x, false, false);
      }
    }

    /** The condition scopes of an if, threaded from `x`, and its `then` branch under the innermost. */
    method CreateThenScopes(x: nat, s: Node) returns (ghost states: seq<ArenaState>, ghost points: seq<nat>)
      requires Valid() && Live(State(), x) && s.IfStmt?
      modifies this, scopedNodes
      ensures Valid() && Grown(old(State()), State(), x, false)
      ensures Threaded(ConditionalClauseActions(s, s.thenStmt.info.start) + [ScopeForAction(s.thenStmt)], states, points)
      ensures states[0] == old(State()) && states[|states| - 1] == State() && points[0] == x
      decreases s, 59, 1
    {
      ghost var A := State();
      var ip; ghost var cs, cp;
      ip, cs, cp := CreateNestedConditionalClauseScopes(x, s, s.thenStmt.info.start);
      ghost var B := State();
      var q := AddScopeFor(s.thenStmt, ip);
      GrownTrans(A, B, State(), x, ip, false, false);
      ThreadedExtend(ConditionalClauseActions(s, s.thenStmt.info.start), cs, cp, ScopeForAction(s.thenStmt), State(), q);
      states, points := cs + [State()], cp + [q];
    }

    /** The `else` branch of an if, under `x`; returns the point its scope returned. */
    method CreateElseScope(x: nat, s: Node) returns (ghost q: nat)
      requires Valid() && Live(State(), x) && s.IfStmt? && s.elseStmt.Some?
      modifies this, scopedNodes
      ensures Valid() && Grown(old(State()), State(), x, false)
      ensures ThreadedStep(ScopeForAction(s.elseStmt.value), old(State()), State(), x, q)
      decreases s, 59, 0
    {
      ghost var A := State();
      q := AddScopeFor(s.elseStmt.value, x);
    }

    /** WhileStmtScope: condition scopes threaded from `x`, the body under the innermost of them. */
    method ExpandWhile(x: nat, s: Node) returns (ghost states: seq<ArenaState>, ghost points: seq<nat>)
      requires Valid() && Live(State(), x) && s.WhileStmt?
      modifies this, scopedNodes
      ensures Valid() && Grown(old(State()), State(), x, false)
      ensures Threaded(ConditionalClauseActions(s, s.body.info.start) + [ScopeForAction(s.body)], states, points)
      ensures states[0] == old(State()) && states[|states| - 1] == State() && points[0] == x
      decreases s, 60, 0
    {
      ghost var A := State();
      var ip; ghost var cs, cp;
      ip, cs, cp := CreateNestedConditionalClauseScopes(x, s, s.body.info.start);
      ghost var B := State();
      var q := AddScopeFor(s.body, ip);
      GrownTrans(A, B, State(), x, ip, false, false);
      ThreadedExtend(ConditionalClauseActions(s, s.body.info.start), cs, cp, ScopeForAction(s.body), State(), q);
      states, points := cs + [State()], cp + [q];
    }

    /** RepeatWhileScope: the body, then the closures in the condition, both under `x`. */
    method ExpandRepeatWhile(x: nat, s: Node) returns (ghost states: seq<ArenaState>, ghost results: seq<nat>)
      requires Valid() && Live(State(), x) && s.RepeatWhileStmt?
      modifies this, scopedNodes
      ensures Valid() && Grown(old(State()), State(), x, false)
      ensures Fanned(RepeatWhileActions(s), states, results, x) && states[0] == old(State()) && states[2] == State()
      decreases s, 60, 0
    {
      ghost var A := State();
      var r := AddScopeFor(s.body, x);
      FannedExtend([], [A], [], x, ScopeForAction(s.body), State(), r);
      ghost var B := State();
      VisitExpr(s.condExpr, x);
      GrownTrans(A, B, State(), x, x, false, false);
      StepPerformed(KeepPoint(ClosureScopeKinds(s.condExpr)), B, State(), x, Some(x));
      FannedExtend([ScopeForAction(s.body)], [A, B], [r], x, KeepPoint(ClosureScopeKinds(s.condExpr)), State(), x);
      states, results := [A, B, State()], [r, x];
    }

    /** DoCatchStmtScope: the body, then a unique scope per catch clause, all under `x`. */
    method ExpandDoCatch(x: nat, s: Node) returns (ghost states: seq<ArenaState>, ghost results: seq<nat>)
      requires Valid() && Live(State(), x) && s.DoCatchStmt?
      modifies this, scopedNodes
      ensures Valid() && Grown(old(State()), State(), x, false)
      ensures Fanned(DoCatchActions(s), states, results, x) && states[0] == old(State()) && states[|states| - 1] == State()
      decreases s, 60, 0
    {
      ghost var A := State();
      ghost var acts := DoCatchActions(s);
      var r := AddScopeFor(s.body, x);
      FannedNext(acts, 0, [A], [], x, State(), r);
      states, results := [A, State()], [r];
      for i := 0 to |s.catches|
        invariant Valid() && Grown(A, State(), x, false)
        invariant Fanned(acts[..i + 1], states, results, x) && states[0] == A && states[i + 1] == State()
      {
        states, results := CreateCatchScope(x, s, i, A, states, results);
      }
      assert acts[..|s.catches| + 1] == acts;
    }

    /** One turn of the loop of a do-catch's expansion: a unique scope for catch clause `i`, if it is one. */
    method CreateCatchScope(x: nat, s: Node, i: nat, ghost A: ArenaState,
                            ghost states0: seq<ArenaState>, ghost results0: seq<nat>)
      returns (ghost states: seq<ArenaState>, ghost results: seq<nat>)
      requires Valid() && TreeOK(A) && Live(A, x) && s.DoCatchStmt? && i < |s.catches| && Grown(A, State(), x, false)
      requires Fanned(DoCatchActions(s)[..i + 1], states0, results0, x) && states0[0] == A && states0[i + 1] == State()
      modifies this, scopedNodes
      ensures Valid() && Grown(A, State(), x, false)
      ensures Fanned(DoCatchActions(s)[..i + 2], states, results, x) && states[0] == A && states[i + 2] == State()
      decreases s, 59, 0
    {
      ghost var B := State();
      var c: Option<nat> := Some(x);
      if s.catches[i].CatchStmt? {
        c := CreateSubtreeIfUnique(x, CatchStmtScope(s.catches[i]));
        GrownTrans(A, B, State(), x, x, false, false);
      }
      StepPerformed(DoCatchActions(s)[i + 1], B, State(), x, c);
      FannedNext(DoCatchActions(s), i + 1, states0, results0, x, State(), c.GetOr(x));
      states, results := states0 + [State()], results0 + [c.GetOr(x)];
    }

    /** SwitchStmtScope: the closures in the subject, then a unique scope per explicit case, all under `x`. */
    method ExpandSwitch(x: nat, s: Node) returns (ghost states: seq<ArenaState>, ghost results: seq<nat>)
      requires Valid() && Live(State(), x) && s.SwitchStmt?
      modifies this, scopedNodes
      ensures Valid() && Grown(old(State()), State(), x, false)
      ensures Fanned(SwitchActions(s), states, results, x) && states[0] == old(State()) && states[|states| - 1] == State()
      ensures ChildKindsIn(State(), x, old(|scopes[x].children|), ClosureScopeKinds(s.subject) + CaseScopeKinds(s))
      decreases s, 60, 0
    {
      ghost var A := State();
      ghost var n0 := |scopes[x].children|;
      ghost var ks := ClosureScopeKinds(s.subject) + CaseScopeKinds(s);
      ghost var acts := SwitchActions(s);
      VisitExpr(s.subject, x);
      StepPerformed(acts[0], A, State(), x, Some(x));
      FannedNext(acts, 0, [A], [], x, State(), x);
      states, results := [A, State()], [x];
      for i := 0 to |s.cases|
        invariant Valid() && Grown(A, State(), x, false) && ChildKindsIn(State(), x, n0, ks)
        invariant Fanned(acts[..i + 1], states, results, x) && states[0] == A && states[i + 1] == State()
      {
        states, results := CreateCaseScope(x, s, i, A, n0, states, results);
      }
      assert acts[..|s.cases| + 1] == acts;
    }

    /** One turn of the loop of a switch's expansion: a unique scope for case `i` unless it is implicit. */
    method CreateCaseScope(x: nat, s: Node, i: nat, ghost A: ArenaState, ghost n0: nat,
                           ghost states0: seq<ArenaState>, ghost results0: seq<nat>)
      returns (ghost states: seq<ArenaState>, ghost results: seq<nat>)
      requires Valid() && Live(A, x) && s.SwitchStmt? && i < |s.cases| && Grown(A, State(), x, false)
      requires ChildKindsIn(State(), x, n0, ClosureScopeKinds(s.subject) + CaseScopeKinds(s))
      requires Fanned(SwitchActions(s)[..i + 1], states0, results0, x) && states0[0] == A && states0[i + 1] == State()
      modifies this, scopedNodes
      ensures Valid() && Grown(A, State(), x, false)
      ensures ChildKindsIn(State(), x, n0, ClosureScopeKinds(s.subject) + CaseScopeKinds(s))
      ensures Fanned(SwitchActions(s)[..i + 2], states, results, x) && states[0] == A && states[i + 2] == State()
      decreases s, 59, 0
    {
      ghost var B := State();
      ghost var ks := ClosureScopeKinds(s.subject) + CaseScopeKinds(s);
      var c: Option<nat> := Some(x);
      if s.cases[i].CaseStmt? && !s.cases[i].info.implicit {
        var k := CaseStmtScope(s.cases[i]);
        assert k in ks;
        c := CreateSubtreeIfUnique(x, k);
        if c.Some? {
          AttachKeepsChildKindsIn(B, State(), x, k, c.value, n0, ks);
        }
        GrownTrans(A, B, State(), x, x, false, false);
      }
      StepPerformed(SwitchActions(s)[i + 1], B, State(), x, c);
      FannedNext(SwitchActions(s), i + 1, states0, results0, x, State(), c.GetOr(x));
      states, results := states0 + [State()], results0 + [c.GetOr(x)];
    }

    /** The steps of a switch's expansion, each under its scope: the closures in the subject, then each case. */
    ghost function SwitchActions(s: Node): (acts: seq<ScopeAction>)
      requires s.SwitchStmt?
      ensures |acts| == |s.cases| + 1
    {
      [KeepPoint(ClosureScopeKinds(s.subject))]
      + seq(|s.cases|, i requires 0 <= i < |s.cases| =>
              if s.cases[i].CaseStmt? && !s.cases[i].info.implicit then CreateUnique(CaseStmtScope(s.cases[i])) else Ignore)
    }

    /** The case scopes a switch may create: one per explicit case. */
    ghost function CaseScopeKinds(s: Node): set<ScopeKind>
      requires s.SwitchStmt?
    {
      set c | c in s.cases && c.CaseStmt? && !c.info.implicit :: CaseStmtScope(c)
    }

    /** ForEachStmtScope: the closures in the sequence, then the pattern scope unless the body is implicit, all under `x`. */
    method ExpandForEach(x: nat, s: Node) returns (ghost states: seq<ArenaState>, ghost results: seq<nat>)
      requires Valid() && Live(State(), x) && s.ForEachStmt?
      modifies this, scopedNodes
      ensures Valid() && Grown(old(State()), State(), x, false)
      ensures Fanned(ForEachActions(s), states, results, x) && states[0] == old(State()) && states[2] == State()
      ensures !s.body.info.implicit ==> LastChildKind(State(), x, ForEachPatternScope(s))
      ensures ChildKindsIn(State(), x, old(|scopes[x].children|), ClosureScopeKinds(s.sequence) + {ForEachPatternScope(s)})
      decreases s, 60, 0
    {
      ghost var A := State();
      ghost var n0 := |scopes[x].children|;
      ghost var acts := ForEachActions(s);
      VisitExpr(s.sequence, x);
      ghost var B := State();
      StepPerformed(acts[0], A, B, x, Some(x));
      var c := x;
      if !s.body.info.implicit {
        var k := ForEachPatternScope(s);
        c := CreateSubtree(x, k);
        AttachKeepsChildKindsIn(B, State(), x, k, c, n0, ClosureScopeKinds(s.sequence) + {k});
        GrownTrans(A, B, State(), x, x, false, false);
      }
      StepPerformed(acts[1], B, State(), x, Some(c));
      states, results := [A, B, State()], [x, c];
    }

    /** The steps of a for-each's expansion, each under its scope: the closures in the sequence, then the pattern. */
    ghost function ForEachActions(s: Node): (acts: seq<ScopeAction>)
      requires s.ForEachStmt?
    {
      [KeepPoint(ClosureScopeKinds(s.sequence)), if s.body.info.implicit then Ignore else Create(ForEachPatternScope(s))]
    }

    /**
     * ForEachPatternScope: the closures in the `where` clause, then the body,
     * both under `x`; the body's brace scope is the youngest child when it is
     * localizable and was not scoped before.
     */
    method ExpandForEachPattern(x: nat, s: Node) returns (ghost states: seq<ArenaState>, ghost results: seq<nat>)
      requires Valid() && Live(State(), x) && s.ForEachStmt?
      modifies this, scopedNodes
      ensures Valid() && Grown(old(State()), State(), x, false)
      ensures Fanned(ForEachPatternActions(s), states, results, x) && states[0] == old(State()) && states[2] == State()
      ensures s.body.BraceStmt? && IsLocalizable(s.body) && s.body.info.id !in states[1].owner ==>
                LastChildKind(State(), x, BraceStmtScope(s.body))
      ensures ChildKindsIn(State(), x, old(|scopes[x].children|), WhereClosureKinds(s) + {BraceStmtScope(s.body)})
      decreases s, 40, 0
    {
      ghost var A := State();
      ghost var n0 := |scopes[x].children|;
      ghost var acts := ForEachPatternActions(s);
      if s.whereExpr.Some? {
        VisitExpr(s.whereExpr.value, x);
      } else {
        GrownRefl(A, x);
      }
      assert ChildKindsIn(State(), x, n0, WhereClosureKinds(s));
      ghost var B := State();
      StepPerformed(acts[0], A, B, x, Some(x));
      if s.body.BraceStmt? {
        VisitBraceStmt(s.body, x);
        GrownJoinsChildKindsIn(B, State(), x, n0, WhereClosureKinds(s), {BraceStmtScope(s.body)}, false);
        GrownTrans(A, B, State(), x, x, false, false);
      }
      StepPerformed(acts[1], B, State(), x, Some(x));
      states, results := [A, B, State()], [x, x];
    }

    /** The steps of a for-each pattern's expansion, each under its scope: the `where` clause's closures, then the body. */
    ghost function ForEachPatternActions(s: Node): (acts: seq<ScopeAction>)
      requires s.ForEachStmt?
    {
      [if s.whereExpr.Some? then KeepPoint(ClosureScopeKinds(s.whereExpr.value)) else Ignore,
       if s.body.BraceStmt? then BraceAction(s.body) else Ignore]
    }

    /** What the visitor does with a brace statement: the brace scope when it is localizable, the point kept. */
    ghost function BraceAction(bs: Node): ScopeAction
    {
      KeepPoint(if IsLocalizable(bs) then {BraceStmtScope(bs)} else {})
    }

    /** The whole-closure scopes the `where` clause of a for-each may create. */
    ghost function WhereClosureKinds(s: Node): set<ScopeKind>
      requires s.ForEachStmt?
    {
      if s.whereExpr.Some? then ClosureScopeKinds(s.whereExpr.value) else {}
    }

    /** CatchStmtScope: the closures in the guard, then the body, all under `x`. */
    method ExpandCatch(x: nat, s: Node) returns (ghost states: seq<ArenaState>, ghost results: seq<nat>)
      requires Valid() && Live(State(), x) && s.CatchStmt?
      modifies this, scopedNodes
      ensures Valid() && Grown(old(State()), State(), x, false)
      ensures Fanned(CatchActions(s), states, results, x) && states[0] == old(State()) && states[|states| - 1] == State()
      decreases s, 60, 0
    {
      ghost var A := State();
      ghost var pre: seq<ScopeAction> := [];
      states, results := [A], [];
      if s.guardExpr.Some? {
        VisitExpr(s.guardExpr.value, x);
        pre := [KeepPoint(ClosureScopeKinds(s.guardExpr.value))];
        StepPerformed(pre[0], A, State(), x, Some(x));
        FannedExtend([], [A], [], x, pre[0], State(), x);
        states, results := [A, State()], [x];
      } else {
        GrownRefl(A, x);
      }
      ghost var B := State();
      var r := AddScopeFor(s.body, x);
      GrownTrans(A, B, State(), x, x, false, false);
      FannedExtend(pre, states, results, x, ScopeForAction(s.body), State(), r);
      states, results := states + [State()], results + [r];
    }

    /** CaseStmtScope: the closures in each label's guard, then the body, all under `x`. */
    method ExpandCase(x: nat, s: Node) returns (ghost states: seq<ArenaState>, ghost results: seq<nat>)
      requires Valid() && Live(State(), x) && s.CaseStmt?
      modifies this, scopedNodes
      ensures Valid() && Grown(old(State()), State(), x, false)
      ensures Fanned(CaseActions(s), states, results, x) && states[0] == old(State()) && states[|states| - 1] == State()
      decreases s, 60, 0
    {
      ghost var A := State();
      ghost var acts := LabelGuardActions(s);
      states, results := [A], [];
      for i := 0 to |s.labelItems|
        invariant Valid() && Grown(A, State(), x, false)
        invariant Fanned(acts[..i], states, results, x) && states[0] == A && states[i] == State()
      {
        states, results := VisitLabelGuard(x, s, i, A, states, results);
      }
      assert acts[..|s.labelItems|] == acts;
      ghost var B := State();
      var r := AddScopeFor(s.body, x);
      GrownTrans(A, B, State(), x, x, false, false);
      FannedExtend(acts, states, results, x, ScopeForAction(s.body), State(), r);
      states, results := states + [State()], results + [r];
    }

    /** One turn of the loop of a case's expansion: the closures in the guard of label item `i`, if any. */
    method VisitLabelGuard(x: nat, s: Node, i: nat, ghost A: ArenaState,
                           ghost states0: seq<ArenaState>, ghost results0: seq<nat>)
      returns (ghost states: seq<ArenaState>, ghost results: seq<nat>)
      requires Valid() && TreeOK(A) && Live(A, x) && s.CaseStmt? && i < |s.labelItems| && Grown(A, State(), x, false)
      requires Fanned(LabelGuardActions(s)[..i], states0, results0, x) && states0[0] == A && states0[i] == State()
      modifies this, scopedNodes
      ensures Valid() && Grown(A, State(), x, false)
      ensures Fanned(LabelGuardActions(s)[..i + 1], states, results, x) && states[0] == A && states[i + 1] == State()
      decreases s, 59, 0
    {
      ghost var B := State();
      if s.labelItems[i].guardExpr.Some? {
        VisitExpr(s.labelItems[i].guardExpr.value, x);
        GrownTrans(A, B, State(), x, x, false, false);
      }
      StepPerformed(LabelGuardActions(s)[i], B, State(), x, Some(x));
      FannedNext(LabelGuardActions(s), i, states0, results0, x, State(), x);
      states, results := states0 + [State()], results0 + [x];
    }

    /** VarDeclScope: its accessors. */
    method ExpandVarDecl(x: nat, d: Node)
      requires Valid() && Live(State(), x) && scopes[x].kind == VarDeclScope(d) && d.VarDecl?
      modifies this, scopedNodes
      ensures Valid() && Grown(old(State()), State(), x, false)
      ensures ChildKindsIn(State(), x, old(|scopes[x].children|), AccessorScopeKinds(d, Some(d.info.id)))
      ensures Scoped(State(), AccessorScopeKinds(d, Some(d.info.id)))
      decreases d, 60, 0
    {
      AddChildrenForAllLocalizableAccessors(d, x);
    }

    /**
     * SubscriptDeclScope: generic parameters and then the indices, threaded
     * from `x`; the accessors of the enclosing storage `storage` below the indices.
     */
    method ExpandSubscript(x: nat, d: Node)
      returns (ghost states: seq<ArenaState>, ghost points: seq<nat>, ghost storage: Option<int>)
      requires Valid() && Live(State(), x) && d.SubscriptDecl?
      modifies this, scopedNodes
      ensures Valid() && Grown(old(State()), State(), x, false)
      ensures Threaded(GenericParamActions(d, d.genericParams) + [Create(AbstractFunctionParamsScope(d))], states, points)
      ensures states[0] == old(State()) && points[0] == x
      ensures points[|points| - 1] < |states[|states| - 1].scopes|
      ensures ChildKindsIn(State(), points[|points| - 1], |states[|states| - 1].scopes[points[|points| - 1]].children|,
                           AccessorScopeKinds(d, storage))
      decreases d, 60, 0
    {
      ghost var A := State();
      var leaf;
      leaf, states, points := CreateGenericParamScopes(d, d.genericParams, x);
      ghost var B := State();
      var k := AbstractFunctionParamsScope(d);
      var params := CreateSubtree(leaf, k);
      ChainStep(A, B, State(), x, leaf, params);
      StepPerformed(Create(k), B, State(), leaf, Some(params));
      ThreadedExtend(GenericParamActions(d, d.genericParams), states, points, Create(k), State(), params);
      states, points := states + [State()], points + [params];
      ghost var C := State();
      storage := EnclosingStorage(params);
      AddChildrenForAllLocalizableAccessors(d, params);
      GrownTrans(A, C, State(), x, params, false, false);
    }

    /** WholeClosureScope: the capture list, the parameters when there is an `in`, the body. */
    method ExpandWholeClosure(x: nat, f: Node)
      requires Valid() && Live(State(), x) && ClosureOf(f).ClosureExpr?
      modifies this, scopedNodes
      ensures Valid() && Grown(old(State()), State(), x, false)
      ensures !IsValidLoc(ClosureOf(f).inLoc) ==> LastChildKind(State(), x, ClosureBodyScope(f))
      ensures IsValidLoc(ClosureOf(f).inLoc) ==>
                LastChildKind(State(), x, ClosureParametersScope(f))
                && LastChildKind(State(), scopes[x].children[|scopes[x].children| - 1], ClosureBodyScope(f))
      ensures f.CaptureListExpr? ==> f.info.id in scopedNodes.pointers
      ensures ChildKindsFrom(State(), x, old(|scopes[x].children|), ClosureChildKinds(f, old(scopedNodes.pointers)))
      decreases f, 60, 0
    {
      if IsValidLoc(ClosureOf(f).inLoc) {
        ExpandClosureWithParameters(x, f);
      } else {
        ExpandClosureWithoutParameters(x, f);
      }
    }

    /** ExpandWholeClosure for a closure with an `in` location. */
    method ExpandClosureWithParameters(x: nat, f: Node)
      requires Valid() && Live(State(), x) && ClosureOf(f).ClosureExpr? && IsValidLoc(ClosureOf(f).inLoc)
      modifies this, scopedNodes
      ensures Valid() && Grown(old(State()), State(), x, false)
      ensures LastChildKind(State(), x, ClosureParametersScope(f))
              && LastChildKind(State(), scopes[x].children[|scopes[x].children| - 1], ClosureBodyScope(f))
      ensures f.CaptureListExpr? ==> f.info.id in scopedNodes.pointers
      ensures ChildKindsFrom(State(), x, old(|scopes[x].children|), ClosureChildKinds(f, old(scopedNodes.pointers)))
      decreases f, 59, 5
    {
      ghost var A := State();
      ghost var n0 := |scopes[x].children|;
      ghost var ks := CreateCaptureListScope(x, f);
      ghost var B := State();
      CreateClosureParametersAndBody(x, f, n0, ks);
      assert ks + [ClosureParametersScope(f)] == ClosureChildKinds(f, A.owner.Keys);
      GrownTrans(A, B, State(), x, x, false, false);
    }

    /** ExpandWholeClosure for a closure without an `in` location. */
    method ExpandClosureWithoutParameters(x: nat, f: Node)
      requires Valid() && Live(State(), x) && ClosureOf(f).ClosureExpr? && !IsValidLoc(ClosureOf(f).inLoc)
      modifies this, scopedNodes
      ensures Valid() && Grown(old(State()), State(), x, false)
      ensures LastChildKind(State(), x, ClosureBodyScope(f))
      ensures f.CaptureListExpr? ==> f.info.id in scopedNodes.pointers
      ensures ChildKindsFrom(State(), x, old(|scopes[x].children|), ClosureChildKinds(f, old(scopedNodes.pointers)))
      decreases f, 59, 5
    {
      ghost var A := State();
      ghost var n0 := |scopes[x].children|;
      ghost var ks := CreateCaptureListScope(x, f);
      ghost var B := State();
      CreateClosureBody(x, f, n0, ks);
      GrownTrans(A, B, State(), x, x, false, false);
    }

    /** The closure's body scope directly under `x`, the closure having no `in` location. */
    method CreateClosureBody(x: nat, f: Node, ghost from: nat, ghost ks: seq<ScopeKind>)
      requires Valid() && Live(State(), x) && ClosureOf(f).ClosureExpr? && ChildKindsFrom(State(), x, from, ks)
      modifies this, scopedNodes
      ensures Valid() && Grown(old(State()), State(), x, false)
      ensures LastChildKind(State(), x, ClosureBodyScope(f))
      ensures ChildKindsFrom(State(), x, from, ks + [ClosureBodyScope(f)])
      decreases f, 50, 0
    {
      ghost var A := State();
      var body := CreateSubtree(x, ClosureBodyScope(f));
      AttachExtendsChildKinds(A, State(), x, ClosureBodyScope(f), body, from, ks);
    }

    /**
     * The kinds of the new children a whole closure scope gets: a capture-list
     * scope when the closure has a capture list not yet in `pointers`, then its
     * parameters scope when the closure has an `in` location, or else its body scope.
     */
    ghost function ClosureChildKinds(f: Node, pointers: set<int>): seq<ScopeKind>
      requires ClosureOf(f).ClosureExpr?
    {
      (if f.CaptureListExpr? && f.info.id !in pointers then [CaptureListScope(f)] else [])
      + [if IsValidLoc(ClosureOf(f).inLoc) then ClosureParametersScope(f) else ClosureBodyScope(f)]
    }

    /** The capture-list scope of closure `f` under `x`, when it has a capture list not scoped yet. */
    method CreateCaptureListScope(x: nat, f: Node) returns (ghost ks: seq<ScopeKind>)
      requires Valid() && Live(State(), x) && ClosureOf(f).ClosureExpr?
      modifies this, scopedNodes
      ensures Valid() && Grown(old(State()), State(), x, false)
      ensures ks == (if f.CaptureListExpr? && f.info.id !in old(scopedNodes.pointers) then [CaptureListScope(f)] else [])
      ensures f.CaptureListExpr? ==> f.info.id in scopedNodes.pointers
      ensures ChildKindsFrom(State(), x, old(|scopes[x].children|), ks)
      decreases f, 59, 0
    {
      ghost var A := State();
      ghost var n0 := |scopes[x].children|;
      ks := [];
      if f.CaptureListExpr? {
        ghost var pointers := scopedNodes.pointers;
        var cl := CreateSubtreeMustBeUnique(x, CaptureListScope(f));
        if f.info.id !in pointers {
          AttachExtendsChildKinds(A, State(), x, CaptureListScope(f), cl, n0, []);
          ks := [CaptureListScope(f)];
        }
      } else {
        GrownRefl(A, x);
      }
    }

    /** A parameters scope under `x`, and the closure's body scope under it. */
    method CreateClosureParametersAndBody(x: nat, f: Node, ghost from: nat, ghost ks: seq<ScopeKind>)
      requires Valid() && Live(State(), x) && ClosureOf(f).ClosureExpr? && ChildKindsFrom(State(), x, from, ks)
      modifies this, scopedNodes
      ensures Valid() && Grown(old(State()), State(), x, false)
      ensures LastChildKind(State(), x, ClosureParametersScope(f))
              && LastChildKind(State(), scopes[x].children[|scopes[x].children| - 1], ClosureBodyScope(f))
      ensures ChildKindsFrom(State(), x, from, ks + [ClosureParametersScope(f)])
      decreases f, 50, 0
    {
      ghost var A := State();
      var params := CreateSubtree(x, ClosureParametersScope(f));
      ghost var C := State();
      assert LastChildKind(C, x, ClosureParametersScope(f));
      AttachExtendsChildKinds(A, C, x, ClosureParametersScope(f), params, from, ks);
      var body := CreateSubtree(params, ClosureBodyScope(f));
      GrownKeepsLastChild(C, State(), params, x, ClosureParametersScope(f), false);
      GrownAsideKeepsChildKinds(C, State(), params, x, from, ks + [ClosureParametersScope(f)], false);
      GrownTrans(A, C, State(), x, params, false, false);
    }

    /** CaptureListScope: the closures in every capture initializer. */
    method ExpandCaptureList(x: nat, e: Node)
      requires Valid() && Live(State(), x) && e.CaptureListExpr?
      modifies this, scopedNodes
      ensures Valid() && Grown(old(State()), State(), x, false)
      ensures ChildKindsIn(State(), x, old(|scopes[x].children|), CaptureClosureKinds(e))
      ensures Scoped(State(), CaptureClosureKinds(e))
      decreases e, 40, 0
    {
      ghost var A := State();
      ghost var n0 := |scopes[x].children|;
      ghost var ks := CaptureClosureKinds(e);
      GrownRefl(A, x);
      for i := 0 to |e.captureList|
        invariant Valid() && Grown(A, State(), x, false) && ChildKindsIn(State(), x, n0, ks)
        invariant EntriesScoped(State(), e, i)
      {
        ghost var B := State();
        AddCaptureEntryClosures(x, e, i, n0);
        GrownTrans(A, B, State(), x, x, false, false);
        EntriesScopedNext(B, State(), x, e, i);
      }
      EntriesScopedAll(State(), e);
    }

    /** The closures of the first `n` capture entries of `e` are scoped in `A`. */
    ghost predicate EntriesScoped(A: ArenaState, e: Node, n: nat)
      requires e.CaptureListExpr? && n <= |e.captureList|
    {
      forall i :: 0 <= i < n ==> Scoped(A, EntryClosureKinds(e.captureList[i]))
    }

    /** Growth keeps the entries scoped so far, and entry `n` scoped after it makes one more. */
    lemma EntriesScopedNext(A: ArenaState, B: ArenaState, x: nat, e: Node, n: nat)
      requires e.CaptureListExpr? && n < |e.captureList| && EntriesScoped(A, e, n) && Grown(A, B, x, false)
      requires Scoped(B, EntryClosureKinds(e.captureList[n]))
      ensures EntriesScoped(B, e, n + 1)
    {
      forall i | 0 <= i < n
        ensures Scoped(B, EntryClosureKinds(e.captureList[i]))
      {
        ScopedGrown(A, B, x, false, EntryClosureKinds(e.captureList[i]));
      }
    }

    /** With every entry's closures scoped, all the closure kinds of the capture list are. */
    lemma EntriesScopedAll(A: ArenaState, e: Node)
      requires e.CaptureListExpr? && EntriesScoped(A, e, |e.captureList|)
      ensures Scoped(A, CaptureClosureKinds(e))
    {
      forall k | k in CaptureClosureKinds(e) && Referent(k).Some?
        ensures Referent(k).value in A.owner
      {
        var ce, init, c :| ce in e.captureList && init in ce.inits && c in ClosuresIn(init) && ClosureOf(c).ClosureExpr?
                           && k == WholeClosureScope(c);
        var i :| 0 <= i < |e.captureList| && e.captureList[i] == ce;
        assert k in EntryClosureKinds(e.captureList[i]);
      }
    }

    /** One entry of the capture list: the closures in each of its initializers, under `x`. */
    method AddCaptureEntryClosures(x: nat, e: Node, i: nat, ghost n0: nat)
      requires Valid() && Live(State(), x) && e.CaptureListExpr? && i < |e.captureList|
      requires ChildKindsIn(State(), x, n0, CaptureClosureKinds(e))
      modifies this, scopedNodes
      ensures Valid() && Grown(old(State()), State(), x, false)
      ensures ChildKindsIn(State(), x, n0, CaptureClosureKinds(e))
      ensures Scoped(State(), EntryClosureKinds(e.captureList[i]))
      decreases e, 39, 0
    {
      ghost var A := State();
      ghost var ks := CaptureClosureKinds(e);
      ghost var done: set<ScopeKind> := {};
      var ce := e.captureList[i];
      GrownRefl(A, x);
      for j := 0 to |ce.inits|
        invariant Valid() && Grown(A, State(), x, false) && ChildKindsIn(State(), x, n0, ks) && Scoped(State(), done)
        invariant forall j' :: 0 <= j' < j ==> ClosureScopeKinds(ce.inits[j']) <= done
      {
        ghost var B := State();
        var init := ce.inits[j];
        AddChildrenForCapturesAndClosuresIn(init, x);
        assert ClosureScopeKinds(init) <= ks by {
          assert ce in e.captureList && init in ce.inits;
        }
        GrownJoinsChildKindsIn(B, State(), x, n0, ks, ClosureScopeKinds(init), false);
        assert ks + ClosureScopeKinds(init) == ks;
        GrownTrans(A, B, State(), x, x, false, false);
        ScopedGrown(B, State(), x, false, done);
        done := done + ClosureScopeKinds(init);
      }
      forall k | k in EntryClosureKinds(ce)
        ensures k in done
      {
        var init, c :| init in ce.inits && c in ClosuresIn(init) && ClosureOf(c).ClosureExpr? && k == WholeClosureScope(c);
        var j :| 0 <= j < |ce.inits| && ce.inits[j] == init;
        assert k in ClosureScopeKinds(ce.inits[j]);
      }
    }

    /** The whole-closure scopes for the closures in the initializers of capture entry `ce`. */
    ghost function EntryClosureKinds(ce: CaptureListEntry): set<ScopeKind>
    {
      set init, c | init in ce.inits && c in ClosuresIn(init) && ClosureOf(c).ClosureExpr? :: WholeClosureScope(c)
    }

    /** The whole-closure scopes the capture initializers of `e` may create. */
    ghost function CaptureClosureKinds(e: Node): set<ScopeKind>
      requires e.CaptureListExpr?
    {
      set ce, init, c | ce in e.captureList && init in ce.inits && c in ClosuresIn(init) && ClosureOf(c).ClosureExpr? ::
        WholeClosureScope(c)
    }

    /** ClosureBodyScope: a brace scope for the closure's body. */
    method ExpandClosureBody(x: nat, f: Node)
      requires Valid() && Live(State(), x) && ClosureOf(f).ClosureExpr?
      modifies this, scopedNodes
      ensures Valid() && Grown(old(State()), State(), x, false)
      ensures ChildKindsIn(State(), x, old(|scopes[x].children|), {BraceStmtScope(ClosureOf(f).body)})
      ensures IsLocalizable(ClosureOf(f).body) && ClosureOf(f).body.BraceStmt?
              && ClosureOf(f).body.info.id !in old(scopedNodes.pointers) ==>
                LastChildKind(State(), x, BraceStmtScope(ClosureOf(f).body))
      decreases f, 40, 0
    {
      ghost var A := State();
      var body := if f.CaptureListExpr? then f.closure.body else f.body;
      if IsLocalizable(body) && body.BraceStmt? {
        var k := BraceStmtScope(body);
        var ignored := CreateSubtreeMustBeUnique(x, k);
        if Referent(k).value !in A.owner.Keys {
          AttachKeepsChildKindsIn(A, State(), x, k, |A.scopes|, |A.scopes[x].children|, {k});
        }
      }
    }

    /** DefaultArgumentInitializerScope: the closures in the default value. */
    method ExpandDefaultArgument(x: nat, param: Param)
      requires Valid() && Live(State(), x) && param.defaultValue.Some?
      modifies this, scopedNodes
      ensures Valid() && Grown(old(State()), State(), x, false)
      ensures ChildKindsIn(State(), x, old(|scopes[x].children|), ClosureScopeKinds(param.defaultValue.value))
      ensures Scoped(State(), ClosureScopeKinds(param.defaultValue.value))
      decreases param.defaultValue.value, 95, 0
    {
      VisitExpr(param.defaultValue.value, x);
    }

    /** AttachedPropertyWrapperScope: the closures in each custom attribute's argument. */
    method ExpandAttachedPropertyWrapper(x: nat, v: Node)
      requires Valid() && Live(State(), x) && v.VarDecl?
      modifies this, scopedNodes
      ensures Valid() && Grown(old(State()), State(), x, false)
      ensures ChildKindsIn(State(), x, old(|scopes[x].children|), WrapperClosureKinds(v))
      ensures Scoped(State(), WrapperClosureKinds(v))
      decreases v, 60, 0
    {
      ghost var A := State();
      ghost var n0 := |scopes[x].children|;
      ghost var ks := WrapperClosureKinds(v);
      GrownRefl(A, x);
      for i := 0 to |v.customAttrArgs|
        invariant Valid() && Grown(A, State(), x, false) && ChildKindsIn(State(), x, n0, ks)
        invariant ArgsScoped(State(), v, i)
      {
        ghost var B := State();
        VisitWrapperArg(x, v, i, n0);
        ArgsScopedNext(B, State(), x, v, i);
        GrownTrans(A, B, State(), x, x, false, false);
      }
      ArgsScopedAll(State(), v);
    }

    /** Custom attribute argument `i` of `v`, if present: the closures in it, under `x`. */
    method VisitWrapperArg(x: nat, v: Node, i: nat, ghost n0: nat)
      requires Valid() && Live(State(), x) && v.VarDecl? && i < |v.customAttrArgs|
      requires ChildKindsIn(State(), x, n0, WrapperClosureKinds(v))
      modifies this, scopedNodes
      ensures Valid() && Grown(old(State()), State(), x, false)
      ensures ChildKindsIn(State(), x, n0, WrapperClosureKinds(v))
      ensures Scoped(State(), ArgClosureKinds(v.customAttrArgs[i]))
      decreases v, 59, 0
    {
      ghost var B := State();
      ghost var ks := WrapperClosureKinds(v);
      if v.customAttrArgs[i].Some? {
        var arg := v.customAttrArgs[i].value;
        VisitExpr(arg, x);
        assert ClosureScopeKinds(arg) <= ks by {
          assert v.customAttrArgs[i] in v.customAttrArgs;
        }
        GrownJoinsChildKindsIn(B, State(), x, n0, ks, ClosureScopeKinds(arg), false);
        assert ks + ClosureScopeKinds(arg) == ks;
      } else {
        GrownRefl(B, x);
      }
    }

    /** The whole-closure scopes an optional argument may create. */
    ghost function ArgClosureKinds(arg: Option<Node>): set<ScopeKind>
    {
      if arg.Some? then ClosureScopeKinds(arg.value) else {}
    }

    /** The closures of the first `m` custom attribute arguments of `v` are scoped in `A`. */
    ghost predicate ArgsScoped(A: ArenaState, v: Node, m: nat)
      requires v.VarDecl? && m <= |v.customAttrArgs|
    {
      forall j :: 0 <= j < m ==> Scoped(A, ArgClosureKinds(v.customAttrArgs[j]))
    }

    /** Growth keeps the arguments scoped so far, and argument `m` scoped after it makes one more. */
    lemma ArgsScopedNext(A: ArenaState, B: ArenaState, x: nat, v: Node, m: nat)
      requires v.VarDecl? && m < |v.customAttrArgs| && ArgsScoped(A, v, m) && Grown(A, B, x, false)
      requires Scoped(B, ArgClosureKinds(v.customAttrArgs[m]))
      ensures ArgsScoped(B, v, m + 1)
    {
      forall j | 0 <= j < m
        ensures Scoped(B, ArgClosureKinds(v.customAttrArgs[j]))
      {
        ScopedGrown(A, B, x, false, ArgClosureKinds(v.customAttrArgs[j]));
      }
    }

    /** With every argument's closures scoped, all the closure kinds of the wrapper arguments are. */
    lemma ArgsScopedAll(A: ArenaState, v: Node)
      requires v.VarDecl? && ArgsScoped(A, v, |v.customAttrArgs|)
      ensures Scoped(A, WrapperClosureKinds(v))
    {
      forall k | k in WrapperClosureKinds(v) && Referent(k).Some?
        ensures Referent(k).value in A.owner
      {
        var arg, c :| arg in v.customAttrArgs && arg.Some? && c in ClosuresIn(arg.value) && ClosureOf(c).ClosureExpr?
                      && k == WholeClosureScope(c);
        var i :| 0 <= i < |v.customAttrArgs| && v.customAttrArgs[i] == arg;
        assert k in ArgClosureKinds(v.customAttrArgs[i]);
      }
    }

    /** The whole-closure scopes the custom attribute arguments of `v` may create. */
    ghost function WrapperClosureKinds(v: Node): set<ScopeKind>
      requires v.VarDecl?
    {
      set arg, c | arg in v.customAttrArgs && arg.Some? && c in ClosuresIn(arg.value) && ClosureOf(c).ClosureExpr? ::
        WholeClosureScope(c)
    }

    /**
     * The whole portion of a type or extension: generic parameters, then a
     * where-clause portion and a body portion below the deepest of them;
     * nothing for a nominal type or extension without a body.
     */
    method ExpandWholePortion(x: nat, d: Node)
      returns (ghost deepest: nat, ghost states: seq<ArenaState>, ghost points: seq<nat>)
      requires Valid() && Live(State(), x) && d.TypeDecl?
      modifies this, scopedNodes
      ensures Valid() && Grown(old(State()), State(), x, false)
      ensures IsIterableTypeDecl(d) && !d.hasBody ==> State() == old(State())
      ensures !(IsIterableTypeDecl(d) && !d.hasBody) && d.genericParams.None? && IsIterableTypeDecl(d) ==>
                LastChildKind(State(), x, GenericTypeOrExtensionScope(BodyPortion, d))
      ensures !(IsIterableTypeDecl(d) && !d.hasBody) ==>
                Threaded(GenericParamActions(d, d.genericParams), states, points)
                && states[0] == old(State()) && points[0] == x && points[|points| - 1] == deepest
                && deepest < |states[|states| - 1].scopes|
                && ChildKindsFrom(State(), deepest, |states[|states| - 1].scopes[deepest].children|, PortionKinds(d))
      decreases d, 60, 0
    {
      ghost var A := State();
      if IsIterableTypeDecl(d) && !d.hasBody {
        deepest, states, points := x, [A], [x];
        return;
      }
      var leaf;
      leaf, states, points := CreateGenericParamScopes(d, d.genericParams, x);
      deepest := leaf;
      ghost var B := State();
      CreateWhereAndBodyPortions(leaf, d);
      GrownTrans(A, B, State(), x, leaf, false, false);
    }

    /** The rest of the whole portion's expansion: where-clause and body portions under the deepest generic scope. */
    method CreateWhereAndBodyPortions(deepest: nat, d: Node)
      requires Valid() && Live(State(), deepest) && d.TypeDecl?
      modifies this, scopedNodes
      ensures Valid() && Grown(old(State()), State(), deepest, false)
      ensures ChildKindsFrom(State(), deepest, old(|scopes[deepest].children|), PortionKinds(d))
      ensures IsIterableTypeDecl(d) ==> LastChildKind(State(), deepest, GenericTypeOrExtensionScope(BodyPortion, d))
      decreases d, 59, 0
    {
      ghost var A := State();
      ghost var n0 := |scopes[deepest].children|;
      ghost var ks := AttachPortionIf(d.hasTrailingWhereClause && d.tkind != OpaqueTypeDecl, deepest,
                                      GenericTypeOrExtensionScope(WherePortion, d), n0, []);
      assert ks == PortionKinds(d)[..|ks|];
      ghost var B := State();
      ks := AttachPortionIf(IsIterableTypeDecl(d), deepest, GenericTypeOrExtensionScope(BodyPortion, d), n0, ks);
      GrownTrans(A, B, State(), deepest, deepest, false, false);
      assert ks == PortionKinds(d);
    }

    /** When `create` holds, a portion scope of kind `k` as the next child of `deepest`, after the children of kinds `ks0`. */
    method AttachPortionIf(create: bool, deepest: nat, k: ScopeKind, ghost n0: nat, ghost ks0: seq<ScopeKind>)
      returns (ghost ks: seq<ScopeKind>)
      requires Valid() && Live(State(), deepest) && k.GenericTypeOrExtensionScope? && !k.portion.WholePortion?
      requires k.decl.TypeDecl? && ChildKindsFrom(State(), deepest, n0, ks0)
      modifies this, scopedNodes
      ensures Valid() && Grown(old(State()), State(), deepest, false)
      ensures Live(State(), deepest)
      ensures ks == ks0 + (if create then [k] else []) && ChildKindsFrom(State(), deepest, n0, ks)
      ensures !create ==> State() == old(State())
      ensures create ==> LastChildKind(State(), deepest, k)
      decreases k.decl, 58, 0
    {
      ghost var A := State();
      if create {
        var ignored := CreateSubtree(deepest, k);
        AttachExtendsChildKinds(A, State(), deepest, k, ignored, n0, ks0);
        AttachedIsLastChild(A, State(), deepest, k, ignored);
        ks := ks0 + [k];
      } else {
        GrownRefl(A, deepest);
        ks := ks0;
      }
    }

    /**
     * The body portion of a nominal type or extension: a scope for each of its
     * localizable members, in source order, each under `x`.
     */
    method ExpandBodyPortion(x: nat, d: Node)
      returns (ghost members: seq<Node>, ghost states: seq<ArenaState>, ghost results: seq<nat>)
      requires Valid() && Live(State(), x) && d.TypeDecl?
      modifies this, scopedNodes
      ensures Valid() && Grown(old(State()), State(), x, false)
      ensures !IsIterableTypeDecl(d) ==> State() == old(State())
      ensures IsIterableTypeDecl(d) ==>
                multiset(members) == multiset(Localizable(d.members))
                && (forall i, j :: 0 <= i < j < |members| ==> MemberSortKey(members[i]) <= MemberSortKey(members[j]))
                && Fanned(ScopeForActions(members), states, results, x)
                && states[0] == old(State()) && states[|members|] == State()
      decreases d, 40, 0
    {
      ghost var A := State();
      members, states, results := [], [A], [];
      if IsIterableTypeDecl(d) {
        var sorted := GetMembersInSourceOrder(d.members);
        members := sorted;
        ghost var acts := ScopeForActions(sorted);
        for i := 0 to |sorted|
          invariant Valid() && Grown(A, State(), x, false)
          invariant Fanned(acts[..i], states, results, x) && states[0] == A && states[i] == State()
        {
          states, results := CreateMemberScope(x, sorted, i, A, states, results);
        }
        assert acts[..|sorted|] == acts;
      }
    }

    /** One turn of the loop of the body portion's expansion: a scope for member `i` under `x`. */
    method CreateMemberScope(x: nat, members: seq<Node>, i: nat, ghost A: ArenaState,
                             ghost states0: seq<ArenaState>, ghost results0: seq<nat>)
      returns (ghost states: seq<ArenaState>, ghost results: seq<nat>)
      requires Valid() && TreeOK(A) && Live(A, x) && i < |members| && Grown(A, State(), x, false)
      requires Fanned(ScopeForActions(members)[..i], states0, results0, x) && states0[0] == A && states0[i] == State()
      modifies this, scopedNodes
      ensures Valid() && Grown(A, State(), x, false)
      ensures Fanned(ScopeForActions(members)[..i + 1], states, results, x) && states[0] == A && states[i + 1] == State()
      decreases members[i], 101, 0
    {
      ghost var B := State();
      var r := AddScopeFor(members[i], x);
      GrownTrans(A, B, State(), x, x, false, false);
      FannedNext(ScopeForActions(members), i, states0, results0, x, State(), r);
      states, results := states0 + [State()], results0 + [r];
    }

    // -------------------------------------------------------------------
    // Creation helpers

    /**
     * createNestedConditionalClauseScopes: one clause scope per condition
     * element, each created under the point the previous one returned (its
     * own scope, or the lookup parent below it), so that the trace of
     * `ConditionalClauseActions` is followed; the first is the last child of `x`.
     */
    method CreateNestedConditionalClauseScopes(x: nat, s: Node, afterConds: Loc)
      returns (r: nat, ghost states: seq<ArenaState>, ghost points: seq<nat>)
      requires Valid() && Live(State(), x) && (s.IfStmt? || s.WhileStmt? || s.GuardStmt?)
      modifies this, scopedNodes
      ensures Valid() && Grown(old(State()), State(), x, false) && NewPoint(old(State()), State(), r, x)
      ensures Threaded(ConditionalClauseActions(s, afterConds), states, points)
      ensures states[0] == old(State()) && states[|states| - 1] == State()
      ensures points[0] == x && points[|points| - 1] == r
      ensures |s.cond| == 0 ==> State() == old(State()) && r == x
      ensures |s.cond| > 0 ==> r != x && LastChildKind(State(), x, ConditionalClauseScope(s, 0, afterConds))
      decreases s, 50, 1
    {
      ghost var A := State();
      ghost var acts := ConditionalClauseActions(s, afterConds);
      r := x;
      states, points := [A], [x];
      GrownRefl(A, x);
      for i := 0 to |s.cond|
        invariant Valid() && Grown(A, State(), x, false) && NewPoint(A, State(), r, x)
        invariant i <= |s.cond| && ClauseChainSoFar(x, s, afterConds, i, r, A, states, points)
      {
        r, states, points := CreateConditionalClauseLink(x, s, afterConds, i, r, A, states, points);
      }
      assert acts[..|s.cond|] == acts;
    }

    /** The state of the loop of createNestedConditionalClauseScopes after `i` clauses. */
    ghost predicate ClauseChainSoFar(x: nat, s: Node, afterConds: Loc, i: nat, r: nat, A: ArenaState,
                                     states: seq<ArenaState>, points: seq<nat>)
      requires (s.IfStmt? || s.WhileStmt? || s.GuardStmt?) && i <= |s.cond|
      reads this
    {
      (i > 0 ==> r != x && LastChildKind(State(), x, ConditionalClauseScope(s, 0, afterConds)))
      && Threaded(ConditionalClauseActions(s, afterConds)[..i], states, points)
      && |states| == i + 1 && |points| == i + 1
      && states[0] == A && states[i] == State() && points[0] == x && points[i] == r
    }

    /** One turn of the loop of createNestedConditionalClauseScopes: clause `i` under `r0`. */
    method CreateConditionalClauseLink(x: nat, s: Node, afterConds: Loc, i: nat, r0: nat, ghost A: ArenaState,
                                       ghost states0: seq<ArenaState>, ghost points0: seq<nat>)
      returns (r: nat, ghost states: seq<ArenaState>, ghost points: seq<nat>)
      requires Valid() && TreeOK(A) && Live(A, x) && (s.IfStmt? || s.WhileStmt? || s.GuardStmt?) && i < |s.cond|
      requires Grown(A, State(), x, false) && NewPoint(A, State(), r0, x)
      requires i > 0 ==> r0 != x && LastChildKind(State(), x, ConditionalClauseScope(s, 0, afterConds))
      requires Threaded(ConditionalClauseActions(s, afterConds)[..i], states0, points0)
      requires states0[0] == A && states0[i] == State() && points0[0] == x && points0[i] == r0
      modifies this, scopedNodes
      ensures Valid() && Grown(A, State(), x, false) && NewPoint(A, State(), r, x)
      ensures r != x && LastChildKind(State(), x, ConditionalClauseScope(s, 0, afterConds))
      ensures Threaded(ConditionalClauseActions(s, afterConds)[..i + 1], states, points)
      ensures states[0] == A && states[i + 1] == State() && points[0] == x && points[i + 1] == r
      decreases s, 50, 0
    {
      ghost var B := State();
      var k := ConditionalClauseScope(s, i, afterConds);
      r := CreateSubtree(r0, k);
      if i > 0 {
        GrownKeepsLastChild(B, State(), r0, x, ConditionalClauseScope(s, 0, afterConds), false);
      } else {
        AttachedIsLastChild(B, State(), x, k, r);
      }
      ChainStep(A, B, State(), x, r0, r);
      StepPerformed(Create(k), B, State(), r0, Some(r));
      ThreadedNext(ConditionalClauseActions(s, afterConds), i, states0, points0, State(), r);
      states, points := states0 + [State()], points0 + [r];
    }

    /**
     * createGenericParamScopes: a unique scope per generic parameter, each
     * under the point the previous one left, so that every new one is a child
     * of the last one created (of `p` for the first); returns the deepest.
     */
    method CreateGenericParamScopes(decl: Node, generics: Option<GenericParamList>, p: nat)
      returns (r: nat, ghost states: seq<ArenaState>, ghost points: seq<nat>)
      requires Valid() && Live(State(), p)
      modifies this, scopedNodes
      ensures Valid() && Grown(old(State()), State(), p, false) && NewPoint(old(State()), State(), r, p)
      ensures Threaded(GenericParamActions(decl, generics), states, points)
      ensures states[0] == old(State()) && states[|states| - 1] == State()
      ensures points[0] == p && points[|points| - 1] == r
      ensures generics.None? ==> State() == old(State()) && r == p
      ensures r != p ==> generics.Some? && r < |scopes| && scopes[r].kind.GenericParamScope?
                         && scopes[r].kind.holder == decl && scopes[r].kind.paramList == generics.value
      ensures generics.Some? && |generics.value.params| > 0 && generics.value.params[0] !in old(scopedNodes.pointers) ==>
                r != p && LastChildKind(State(), p, GenericParamScope(decl, generics.value, 0))
      ensures generics.Some? ==> forall i :: 0 <= i < |generics.value.params| ==>
                generics.value.params[i] in scopedNodes.pointers
      decreases decl, 30, 1
    {
      if generics.None? {
        r := p;
        states, points := [State()], [p];
        return;
      }
      r, states, points := CreateGenericParamChain(decl, generics.value, p);
    }

    /** The state of the loop of createGenericParamScopes after `i` parameters. */
    ghost predicate ChainSoFar(decl: Node, g: GenericParamList, p: nat, i: nat, r: nat, A: ArenaState,
                               states: seq<ArenaState>, points: seq<nat>)
      requires i <= |g.params|
      reads this, scopedNodes
    {
      (r != p ==> r < |scopes| && scopes[r].kind.GenericParamScope?
                  && scopes[r].kind.holder == decl && scopes[r].kind.paramList == g)
      && (i > 0 && g.params[0] !in A.owner.Keys ==> r != p && LastChildKind(State(), p, GenericParamScope(decl, g, 0)))
      && (forall i' :: 0 <= i' < i ==> g.params[i'] in scopedNodes.pointers)
      && Threaded(GenericParamActions(decl, Some(g))[..i], states, points)
      && |states| == i + 1 && |points| == i + 1
      && states[0] == A && states[i] == State() && points[0] == p && points[i] == r
    }

    /** The loop of createGenericParamScopes: each parameter's scope under the point the previous one left. */
    method CreateGenericParamChain(decl: Node, g: GenericParamList, p: nat)
      returns (r: nat, ghost states: seq<ArenaState>, ghost points: seq<nat>)
      requires Valid() && Live(State(), p)
      modifies this, scopedNodes
      ensures Valid() && Grown(old(State()), State(), p, false) && NewPoint(old(State()), State(), r, p)
      ensures Threaded(GenericParamActions(decl, Some(g)), states, points)
      ensures states[0] == old(State()) && states[|states| - 1] == State()
      ensures points[0] == p && points[|points| - 1] == r
      ensures r != p ==> r < |scopes| && scopes[r].kind.GenericParamScope?
                         && scopes[r].kind.holder == decl && scopes[r].kind.paramList == g
      ensures |g.params| > 0 && g.params[0] !in old(scopedNodes.pointers) ==>
                r != p && LastChildKind(State(), p, GenericParamScope(decl, g, 0))
      ensures forall i :: 0 <= i < |g.params| ==> g.params[i] in scopedNodes.pointers
      decreases decl, 30, 0
    {
      ghost var A := State();
      ghost var acts := GenericParamActions(decl, Some(g));
      r := p;
      states, points := [A], [p];
      GrownRefl(A, p);
      for i := 0 to |g.params|
        invariant Valid() && Grown(A, State(), p, false) && NewPoint(A, State(), r, p)
        invariant i <= |g.params| && ChainSoFar(decl, g, p, i, r, A, states, points)
      {
        r, states, points := CreateGenericParamLink(decl, g, p, i, r, A, states, points);
      }
      assert acts[..|g.params|] == acts;
    }

    /**
     * One turn of the loop of createGenericParamScopes: a unique scope for
     * parameter `i`, a child of `r0`, the point the last one left; the point
     * moves to it when it is new and stays at `r0` for a duplicate.
     */
    method CreateGenericParamLink(decl: Node, g: GenericParamList, p: nat, i: nat, r0: nat,
                                  ghost A: ArenaState,
                                  ghost states0: seq<ArenaState>, ghost points0: seq<nat>)
      returns (r: nat, ghost states: seq<ArenaState>, ghost points: seq<nat>)
      requires Valid() && TreeOK(A) && Live(A, p) && i < |g.params|
      requires Grown(A, State(), p, false) && NewPoint(A, State(), r0, p)
      requires r0 != p ==> r0 < |scopes| && scopes[r0].kind.GenericParamScope?
                           && scopes[r0].kind.holder == decl && scopes[r0].kind.paramList == g
      requires i > 0 && g.params[0] !in A.owner.Keys ==> r0 != p && LastChildKind(State(), p, GenericParamScope(decl, g, 0))
      requires forall i' :: 0 <= i' < i ==> g.params[i'] in scopedNodes.pointers
      requires Threaded(GenericParamActions(decl, Some(g))[..i], states0, points0)
      requires states0[0] == A && states0[i] == State() && points0[0] == p && points0[i] == r0
      modifies this, scopedNodes
      ensures Valid() && Grown(A, State(), p, false) && NewPoint(A, State(), r, p)
      ensures Threaded(GenericParamActions(decl, Some(g))[..i + 1], states, points)
      ensures states[0] == A && states[i + 1] == State() && points[0] == p && points[i + 1] == r
      ensures r != p ==> r < |scopes| && scopes[r].kind.GenericParamScope?
                         && scopes[r].kind.holder == decl && scopes[r].kind.paramList == g
      ensures g.params[0] !in A.owner.Keys ==> r != p && LastChildKind(State(), p, GenericParamScope(decl, g, 0))
      ensures forall i' :: 0 <= i' < i + 1 ==> g.params[i'] in scopedNodes.pointers
      decreases decl, 29, 0
    {
      ghost var B := State();
      ghost var P := scopedNodes.pointers;
      var k := GenericParamScope(decl, g, i);
      var s := CreateSubtreeIfUnique(r0, k);
      GrownKeepsReferents(B, State(), P, scopedNodes.pointers, r0, false);
      if i == 0 && s.Some? {
        AttachedIsLastChild(B, State(), p, k, s.value);
      } else if i > 0 && g.params[0] !in A.owner.Keys {
        GrownKeepsLastChild(B, State(), r0, p, GenericParamScope(decl, g, 0), false);
      }
      r := s.GetOr(r0);
      StepPerformed(CreateUnique(k), B, State(), r0, s);
      ChainStep(A, B, State(), p, r0, r);
      ThreadedNext(GenericParamActions(decl, Some(g)), i, states0, points0, State(), r);
      states, points := states0 + [State()], points0 + [r];
    }

    /**
     * addChildrenForAllLocalizableAccessors: a scope for each explicit,
     * localizable accessor whose storage is the one enclosing `p`.
     */
    method AddChildrenForAllLocalizableAccessors(asd: Node, p: nat)
      requires Valid() && Live(State(), p) && (asd.VarDecl? || asd.SubscriptDecl?)
      modifies this, scopedNodes
      ensures Valid() && Grown(old(State()), State(), p, false)
      ensures ChildKindsIn(State(), p, old(|scopes[p].children|), AccessorScopeKinds(asd, old(EnclosingStorage(p))))
      ensures forall i :: 0 <= i < |AccessorsOf(asd)| && AccessorScoped(AccessorsOf(asd)[i], old(EnclosingStorage(p))) ==>
                AccessorsOf(asd)[i].info.id in scopedNodes.pointers
      ensures Scoped(State(), AccessorScopeKinds(asd, old(EnclosingStorage(p))))
      decreases asd, 30, 1
    {
      // Adding scopes below `p` leaves `p` and its ancestors, hence its enclosing storage, as they were.
      var storage := EnclosingStorage(p);
      AddAccessorScopes(asd, p, storage);
      forall k | k in AccessorScopeKinds(asd, storage)
        ensures Referent(k).Some? && Referent(k).value in owner
      {
        var a :| a in AccessorsOf(asd) && AccessorScoped(a, storage) && k == AbstractFunctionDeclScope(a);
        var i :| 0 <= i < |AccessorsOf(asd)| && AccessorsOf(asd)[i] == a;
      }
    }

    /** The loop of addChildrenForAllLocalizableAccessors, for the enclosing storage `storage` of `p`. */
    method AddAccessorScopes(asd: Node, p: nat, storage: Option<int>)
      requires Valid() && Live(State(), p) && (asd.VarDecl? || asd.SubscriptDecl?)
      modifies this, scopedNodes
      ensures Valid() && Grown(old(State()), State(), p, false)
      ensures ChildKindsIn(State(), p, old(|scopes[p].children|), AccessorScopeKinds(asd, storage))
      ensures forall i :: 0 <= i < |AccessorsOf(asd)| && AccessorScoped(AccessorsOf(asd)[i], storage) ==>
                AccessorsOf(asd)[i].info.id in scopedNodes.pointers
      decreases asd, 30, 0
    {
      ghost var A := State();
      ghost var n0 := |scopes[p].children|;
      ghost var ks := AccessorScopeKinds(asd, storage);
      for i := 0 to |asd.accessors|
        invariant Valid() && Grown(A, State(), p, false)
        invariant ChildKindsIn(State(), p, n0, ks)
        invariant forall i' :: 0 <= i' < i && AccessorScoped(asd.accessors[i'], storage) ==>
                    asd.accessors[i'].info.id in scopedNodes.pointers
      {
        ghost var B := State();
        AddAccessorScope(asd, p, storage, i, n0);
        GrownTrans(A, B, State(), p, p, false, false);
      }
      assert AccessorsOf(asd) == asd.accessors;
    }

    /** One turn of addChildrenForAllLocalizableAccessors: a scope for accessor `i` if it qualifies. */
    method AddAccessorScope(asd: Node, p: nat, storage: Option<int>, i: nat, ghost n0: nat)
      requires Valid() && Live(State(), p) && (asd.VarDecl? || asd.SubscriptDecl?) && i < |asd.accessors|
      requires ChildKindsIn(State(), p, n0, AccessorScopeKinds(asd, storage))
      requires forall i' :: 0 <= i' < i && AccessorScoped(asd.accessors[i'], storage) ==>
                 asd.accessors[i'].info.id in scopedNodes.pointers
      modifies this, scopedNodes
      ensures Valid() && Grown(old(State()), State(), p, false)
      ensures ChildKindsIn(State(), p, n0, AccessorScopeKinds(asd, storage))
      ensures forall i' :: 0 <= i' <= i && AccessorScoped(asd.accessors[i'], storage) ==>
                asd.accessors[i'].info.id in scopedNodes.pointers
      decreases asd, 29, 0
    {
      var accessor := asd.accessors[i];
      if AccessorScoped(accessor, storage) {
        ghost var B := State();
        ghost var P := scopedNodes.pointers;
        var k := AbstractFunctionDeclScope(accessor);
        assert AccessorsOf(asd) == asd.accessors;
        assert k in AccessorScopeKinds(asd, storage);
        var s := CreateSubtreeIfUnique(p, k);
        GrownKeepsReferents(B, State(), P, scopedNodes.pointers, p, false);
        if s.Some? {
          AttachKeepsChildKindsIn(B, State(), p, k, s.value, n0, AccessorScopeKinds(asd, storage));
        }
      } else {
        GrownRefl(State(), p);
      }
    }

    /** The function scopes created for the explicit, localizable accessors of `asd` whose storage is `storage`. */
    ghost function AccessorScopeKinds(asd: Node, storage: Option<int>): set<ScopeKind>
    {
      set a | a in AccessorsOf(asd) && AccessorScoped(a, storage) :: AbstractFunctionDeclScope(a)
    }

    /** An explicit, localizable accessor of the storage `storage`. */
    predicate AccessorScoped(a: Node, storage: Option<int>)
    {
      !a.info.implicit && IsLocalizable(a) && IsAccessor(a) && storage == Some(a.fkind.storage)
    }

    /**
     * getEnclosingAbstractStorageDecl: a variable or subscript scope names its
     * storage; specialize-attribute, function, parameter and generic-parameter
     * scopes ask their parent; every other scope has none.
     */
    function EnclosingStorage(i: nat): (s: Option<int>)
      requires TreeOK(State()) && i < |scopes|
      reads this
      ensures s.Some? ==>
                exists j :: 0 <= j < |scopes| && (j == i || Under(State(), i, j)) && NamesStorage(scopes[j].kind, s.value)
      ensures (scopes[i].kind.VarDeclScope? || scopes[i].kind.SubscriptDeclScope?) ==>
                s == Some(scopes[i].kind.decl.info.id)
      decreases depth[i]
    {
      var k := scopes[i].kind;
      if k.VarDeclScope? || k.SubscriptDeclScope? then Some(k.decl.info.id)
      else if (k.SpecializeAttributeScope? || k.AbstractFunctionDeclScope? || k.AbstractFunctionParamsScope?
               || k.GenericParamScope?) && scopes[i].parent.Some?
      then
        assert ParentOK(State(), i);
        ChildUnder(State(), i, scopes[i].parent.value);
        UnderAncestors(State(), i, scopes[i].parent.value);
        EnclosingStorage(scopes[i].parent.value)
      else None
    }

    /** createAttachedPropertyWrapperScope: a scope per variable of the first pattern with a property wrapper. */
    method CreateAttachedPropertyWrapperScope(pbd: Node, p: nat)
      requires Valid() && Live(State(), p) && pbd.PatternBindingDecl?
      modifies this, scopedNodes
      ensures Valid() && Grown(old(State()), State(), p, false)
      ensures ChildKindsFrom(State(), p, old(|scopes[p].children|),
                             if |pbd.patternList| == 0 then [] else WrapperKinds(pbd.patternList[0].vars))
      decreases pbd, 85, 0
    {
      ghost var A := State();
      ghost var n0 := |scopes[p].children|;
      if |pbd.patternList| == 0 {
        GrownRefl(A, p);
        return;
      }
      var vars := pbd.patternList[0].vars;
      assert vars[..0] == [];
      GrownRefl(A, p);
      for j := 0 to |vars|
        invariant Valid() && Grown(A, State(), p, false)
        invariant ChildKindsFrom(State(), p, n0, WrapperKinds(vars[..j]))
      {
        WrapperKindsStep(vars, j);
        ghost var B := State();
        CreateWrapperScopeFor(vars[j], p, n0, WrapperKinds(vars[..j]));
        GrownTrans(A, B, State(), p, p, false, false);
      }
      assert vars[..|vars|] == vars;
    }

    /** One variable's turn in createAttachedPropertyWrapperScope: a wrapper scope if it has a wrapper. */
    method CreateWrapperScopeFor(v: Node, p: nat, ghost n0: nat, ghost ks: seq<ScopeKind>)
      requires Valid() && Live(State(), p) && ChildKindsFrom(State(), p, n0, ks)
      modifies this, scopedNodes
      ensures Valid() && Grown(old(State()), State(), p, false)
      ensures ChildKindsFrom(State(), p, n0,
                             ks + (if v.VarDecl? && v.hasAttachedPropertyWrapper then [AttachedPropertyWrapperScope(v)] else []))
      decreases v, 90, 0
    {
      if v.VarDecl? && v.hasAttachedPropertyWrapper {
        ghost var B := State();
        var k := AttachedPropertyWrapperScope(v);
        var r := CreateSubtree(p, k);
        AttachExtendsChildKinds(B, State(), p, k, r, n0, ks);
      } else {
        GrownRefl(State(), p);
        assert ks + [] == ks;
      }
    }

    /** addChildrenForCapturesAndClosuresIn: a whole-closure scope per outermost closure found in `e`. */
    method AddChildrenForCapturesAndClosuresIn(e: Node, p: nat)
      requires Valid() && Live(State(), p)
      modifies this, scopedNodes
      ensures Valid() && Grown(old(State()), State(), p, false)
      ensures ChildKindsIn(State(), p, old(|scopes[p].children|), ClosureScopeKinds(e))
      ensures forall c :: c in ClosuresIn(e) && ClosureOf(c).ClosureExpr? ==> ClosureOf(c).info.id in scopedNodes.pointers
      ensures Scoped(State(), ClosureScopeKinds(e))
      decreases e, 70, 0
    {
      ghost var A := State();
      ghost var n0 := |scopes[p].children|;
      var found := ClosuresIn(e);
      for i := 0 to |found|
        invariant Valid() && Grown(A, State(), p, false)
        invariant ChildKindsIn(State(), p, n0, ClosureScopeKinds(e))
        invariant forall i' :: 0 <= i' < i && ClosureOf(found[i']).ClosureExpr? ==>
                    ClosureOf(found[i']).info.id in scopedNodes.pointers
      {
        ghost var B := State();
        AddWholeClosureScope(e, found, i, p, n0);
        GrownTrans(A, B, State(), p, p, false, false);
      }
      forall c | c in found && ClosureOf(c).ClosureExpr?
        ensures ClosureOf(c).info.id in scopedNodes.pointers
      {
        var i :| 0 <= i < |found| && found[i] == c;
      }
      ClosureKindsScoped(e, State());
    }

    /** Every closure found in `e` that is scoped makes every kind in ClosureScopeKinds(e) scoped. */
    lemma ClosureKindsScoped(e: Node, A: ArenaState)
      requires forall c :: c in ClosuresIn(e) && ClosureOf(c).ClosureExpr? ==> ClosureOf(c).info.id in A.owner
      ensures Scoped(A, ClosureScopeKinds(e))
    {
      forall k | k in ClosureScopeKinds(e)
        ensures Referent(k).Some? && Referent(k).value in A.owner
      {
        var c :| c in ClosuresIn(e) && ClosureOf(c).ClosureExpr? && k == WholeClosureScope(c);
      }
    }

    /** One turn of addChildrenForCapturesAndClosuresIn: a whole-closure scope for `found[i]` if it is a closure. */
    method AddWholeClosureScope(e: Node, found: seq<Node>, i: nat, p: nat, ghost n0: nat)
      requires Valid() && Live(State(), p) && found == ClosuresIn(e) && i < |found|
      requires ChildKindsIn(State(), p, n0, ClosureScopeKinds(e))
      requires forall i' :: 0 <= i' < i && ClosureOf(found[i']).ClosureExpr? ==>
                 ClosureOf(found[i']).info.id in scopedNodes.pointers
      modifies this, scopedNodes
      ensures Valid() && Grown(old(State()), State(), p, false)
      ensures ChildKindsIn(State(), p, n0, ClosureScopeKinds(e))
      ensures forall i' :: 0 <= i' <= i && ClosureOf(found[i']).ClosureExpr? ==>
                ClosureOf(found[i']).info.id in scopedNodes.pointers
      decreases e, 69, 0
    {
      if ClosureOf(found[i]).ClosureExpr? {
        ghost var B := State();
        var k := WholeClosureScope(found[i]);
        var s := CreateSubtreeIfUnique(p, k);
        if s.Some? {
          AttachKeepsChildKindsIn(B, State(), p, k, s.value, n0, ClosureScopeKinds(e));
        }
      } else {
        GrownRefl(State(), p);
      }
    }

    /** The whole-closure scopes `addChildrenForCapturesAndClosuresIn` creates for `e`, unless they exist. */
    ghost function ClosureScopeKinds(e: Node): set<ScopeKind>
    {
      set c | c in ClosuresIn(e) && ClosureOf(c).ClosureExpr? :: WholeClosureScope(c)
    }

    // -------------------------------------------------------------------
    // Visiting AST nodes

    /**
     * The visitor's tables: the node classes it ignores, those it gives a
     * unique scope of their own, and those that only add the closure (or
     * brace, or deferred function) scopes found in them.
     */
    ghost function VisitActionOf(n: Node): ScopeAction
      decreases n, 2
    {
      match n
      case IgnoredDecl(_, _) => Ignore
      case VarDecl(_, _, _, _, _) => Ignore
      case AbstractFunctionDecl(_, fkind, _, _, _, _, _, _, _) =>
        if fkind.AccessorDecl? then Ignore else CreateUnique(AbstractFunctionDeclScope(n))
      case SubscriptDecl(_, _, _, _) => CreateUnique(SubscriptDeclScope(n))
      case PatternBindingDecl(_, _) => Binding(n)
      case EnumElementDecl(_, raw) => if raw.Some? then KeepPoint(ClosureScopeKinds(raw.value)) else Ignore
      case IfConfigDecl(_, _) => IfConfig(n, IfConfigClauseSteps(n))
      case TopLevelCodeDecl(_, _) => CreateUnique(TopLevelCodeScope(n))
      case TypeDecl(_, _, _, _, _, _) => CreateUnique(GenericTypeOrExtensionScope(WholePortion, n))
      case BraceStmt(_, _) => BraceAction(n)
      case IfStmt(_, _, _, _) => CreateUnique(IfStmtScope(n))
      case GuardStmt(_, _, _) => CreateUnique(GuardStmtScope(n))
      case WhileStmt(_, _, _) => CreateUnique(WhileStmtScope(n))
      case RepeatWhileStmt(_, _, _) => CreateUnique(RepeatWhileScope(n))
      case DoStmt(_, body) => ScopeForAction(body)
      case DoCatchStmt(_, _, _) => CreateUnique(DoCatchStmtScope(n))
      case CatchStmt(_, _, _) => CreateUnique(CatchStmtScope(n))
      case SwitchStmt(_, _, _) => CreateUnique(SwitchStmtScope(n))
      case CaseStmt(_, _, _) => CreateUnique(CaseStmtScope(n))
      case ForEachStmt(_, _, _, _) => CreateUnique(ForEachStmtScope(n))
      case SimpleStmt(_, _) => Ignore
      case YieldStmt(_, _) => KeepPoint(YieldClosureKinds(n))
      case DeferStmt(_, tempDecl) =>
        if tempDecl.AbstractFunctionDecl? then KeepPoint({AbstractFunctionDeclScope(tempDecl)}) else Ignore
      case ReturnStmt(_, result) => if result.Some? then KeepPoint(ClosureScopeKinds(result.value)) else Ignore
      case ThrowStmt(_, subExpr) => KeepPoint(ClosureScopeKinds(subExpr))
      case PoundAssertStmt(_, condition) => KeepPoint(ClosureScopeKinds(condition))
      case ClosureExpr(_, _, _) => KeepPoint(ClosureScopeKinds(n))
      case CaptureListExpr(_, _, _) => KeepPoint(ClosureScopeKinds(n))
      case OtherExpr(_, _) => KeepPoint(ClosureScopeKinds(n))
    }

    /** The steps of every clause of `#if` `icd`, in order. */
    ghost function IfConfigClauseSteps(icd: Node): (steps: seq<ClauseSteps>)
      requires icd.IfConfigDecl?
      ensures |steps| == |icd.clauses|
      decreases icd, 1
    {
      seq(|icd.clauses|, i requires 0 <= i < |icd.clauses| => ClauseSteps(ClauseActions(icd, i)))
    }

    /**
     * The steps of clause `i` of `#if` `icd`: the closures in its condition
     * (nothing without one), then createScopeFor's action on each element.
     */
    ghost function ClauseActions(icd: Node, i: nat): (acts: seq<ScopeAction>)
      requires icd.IfConfigDecl? && i < |icd.clauses|
      ensures |acts| == |icd.clauses[i].elements| + 1
      decreases icd, 0
    {
      var c := icd.clauses[i];
      [ConditionAction(c)] + seq(|c.elements|, j requires 0 <= j < |c.elements| => ScopeForAction(c.elements[j]))
    }

    /** The step for the condition of an `#if` clause: the closures in it, or nothing without one. */
    ghost function ConditionAction(c: IfConfigClause): ScopeAction
    {
      if c.cond.Some? then KeepPoint(ClosureScopeKinds(c.cond.value)) else Ignore
    }

    /** What createScopeFor does with `n`: nothing for an implicit declaration, otherwise the visitor's action. */
    ghost function ScopeForAction(n: Node): ScopeAction
      decreases n, 3
    {
      if ShouldCreateScope(n) then VisitActionOf(n) else Ignore
    }

    /** createScopeFor's action on each of `nodes`, in order. */
    ghost function ScopeForActions(nodes: seq<Node>): (acts: seq<ScopeAction>)
      ensures |acts| == |nodes|
    {
      seq(|nodes|, i requires 0 <= i < |nodes| => ScopeForAction(nodes[i]))
    }

    /** The steps of a repeat-while's expansion, each under its scope: the body, then the closures in the condition. */
    ghost function RepeatWhileActions(s: Node): (acts: seq<ScopeAction>)
      requires s.RepeatWhileStmt?
    {
      [ScopeForAction(s.body), KeepPoint(ClosureScopeKinds(s.condExpr))]
    }

    /** The steps of a catch clause's expansion: the closures in its guard, if any, then the body. */
    ghost function CatchActions(s: Node): (acts: seq<ScopeAction>)
      requires s.CatchStmt?
    {
      (if s.guardExpr.Some? then [KeepPoint(ClosureScopeKinds(s.guardExpr.value))] else []) + [ScopeForAction(s.body)]
    }

    /** The steps of a case's expansion: the closures in each label's guard (nothing for no guard), then the body. */
    ghost function CaseActions(s: Node): (acts: seq<ScopeAction>)
      requires s.CaseStmt?
    {
      LabelGuardActions(s) + [ScopeForAction(s.body)]
    }

    /** One step per label item of a case: the closures in its guard, or nothing. */
    ghost function LabelGuardActions(s: Node): (acts: seq<ScopeAction>)
      requires s.CaseStmt?
      ensures |acts| == |s.labelItems|
    {
      seq(|s.labelItems|, i requires 0 <= i < |s.labelItems| =>
            if s.labelItems[i].guardExpr.Some? then KeepPoint(ClosureScopeKinds(s.labelItems[i].guardExpr.value))
            else Ignore)
    }

    /** The steps of a do-catch's expansion: the body, then a unique scope per catch clause (nothing for another node). */
    ghost function DoCatchActions(s: Node): (acts: seq<ScopeAction>)
      requires s.DoCatchStmt?
      ensures |acts| == |s.catches| + 1
    {
      [ScopeForAction(s.body)]
      + seq(|s.catches|, i requires 0 <= i < |s.catches| =>
              if s.catches[i].CatchStmt? then CreateUnique(CatchStmtScope(s.catches[i])) else Ignore)
    }

    /** createScopeFor: nothing for an implicit declaration, otherwise the visitor's result. */
    method CreateScopeFor(n: Node, p: nat) returns (r: Option<nat>)
      requires Valid() && Live(State(), p)
      modifies this, scopedNodes
      ensures Valid() && Grown(old(State()), State(), p, false) && NewPoint(old(State()), State(), r.GetOr(p), p)
      ensures !ShouldCreateScope(n) ==> State() == old(State()) && r == Some(p)
      ensures Performed(old(State()), State(), p, ScopeForAction(n), r, old(scopedNodes.pointers))
      decreases n, 100, 0
    {
      if !ShouldCreateScope(n) {
        r := Some(p);
        return;
      }
      r := Visit(n, p);
    }

    /**
     * `createScopeFor(n, p).getPtrOr(p)`, as the folds and expanders use it:
     * the insertion point after scoping `n`, which stays `p` for a duplicate.
     */
    method AddScopeFor(n: Node, p: nat) returns (q: nat)
      requires Valid() && Live(State(), p)
      modifies this, scopedNodes
      ensures Valid() && Grown(old(State()), State(), p, false) && NewPoint(old(State()), State(), q, p)
      ensures ThreadedStep(ScopeForAction(n), old(State()), State(), p, q)
      decreases n, 100, 1
    {
      ghost var A := State();
      var r := CreateScopeFor(n, p);
      StepPerformed(ScopeForAction(n), A, State(), p, r);
      q := r.GetOr(p);
    }

    /** visitExpr: a whole-closure scope for each closure in the expression, under `p`. */
    method VisitExpr(e: Node, p: nat)
      requires Valid() && Live(State(), p)
      modifies this, scopedNodes
      ensures Valid() && Grown(old(State()), State(), p, false)
      ensures ChildKindsIn(State(), p, old(|scopes[p].children|), ClosureScopeKinds(e))
      ensures forall c :: c in ClosuresIn(e) && ClosureOf(c).ClosureExpr? ==> ClosureOf(c).info.id in scopedNodes.pointers
      ensures Scoped(State(), ClosureScopeKinds(e))
      ensures KeptPoint(old(State()), State(), p, ClosureScopeKinds(e))
      decreases e, 80, 0
    {
      AddChildrenForCapturesAndClosuresIn(e, p);
    }

    /** visitBraceStmt: a brace scope when the statement is localizable; the result is dropped. */
    method VisitBraceStmt(bs: Node, p: nat)
      requires Valid() && Live(State(), p) && bs.BraceStmt?
      modifies this, scopedNodes
      ensures Valid() && Grown(old(State()), State(), p, false)
      ensures ChildKindsIn(State(), p, old(|scopes[p].children|), {BraceStmtScope(bs)})
      ensures IsLocalizable(bs) && bs.info.id !in old(scopedNodes.pointers) ==> LastChildKind(State(), p, BraceStmtScope(bs))
      ensures !IsLocalizable(bs) || bs.info.id in old(scopedNodes.pointers) ==> State() == old(State())
      ensures IsLocalizable(bs) ==> bs.info.id in scopedNodes.pointers
      ensures KeptPoint(old(State()), State(), p, if IsLocalizable(bs) then {BraceStmtScope(bs)} else {})
      decreases bs, 96, 0
    {
      ghost var A := State();
      if IsLocalizable(bs) {
        var s := CreateSubtreeIfUnique(p, BraceStmtScope(bs));
        if s.Some? {
          AttachKeepsChildKindsIn(A, State(), p, BraceStmtScope(bs), s.value, |A.scopes[p].children|, {BraceStmtScope(bs)});
        }
      }
    }

    /**
     * ASTVisitorForScopeCreation::visit: the scope each kind of node creates
     * under `p`, and the insertion point for the nodes that follow it (null
     * when a unique scope turned out to be a duplicate).  Every expression
     * only contributes the closures in it.
     */
    method Visit(n: Node, p: nat) returns (r: Option<nat>)
      requires Valid() && Live(State(), p)
      modifies this, scopedNodes
      ensures Valid() && Grown(old(State()), State(), p, false) && NewPoint(old(State()), State(), r.GetOr(p), p)
      ensures Performed(old(State()), State(), p, VisitActionOf(n), r, old(scopedNodes.pointers))
      decreases n, 98, 1
    {
      if IsDecl(n) {
        r := VisitDecl(n, p);
      } else if IsStmt(n) {
        r := VisitStmt(n, p);
      } else {
        VisitExpr(n, p);
        r := Some(p);
      }
    }

    /** The visitor's declaration cases. */
    method VisitDecl(n: Node, p: nat) returns (r: Option<nat>)
      requires Valid() && Live(State(), p) && IsDecl(n)
      modifies this, scopedNodes
      ensures Valid() && Grown(old(State()), State(), p, false) && NewPoint(old(State()), State(), r.GetOr(p), p)
      ensures Performed(old(State()), State(), p, VisitActionOf(n), r, old(scopedNodes.pointers))
      decreases n, 98, 0
    {
      ghost var A := State();
      r := Some(p);
      if (n.AbstractFunctionDecl? && !IsAccessor(n)) || n.SubscriptDecl? || n.TopLevelCodeDecl? || n.TypeDecl? {
        r := VisitScopeDecl(n, p);
      } else if n.PatternBindingDecl? {
        r := VisitBindingDecl(n, p);
      } else if n.IfConfigDecl? {
        r := VisitIfConfig(n, p);
      } else if n.EnumElementDecl? && n.rawValueExpr.Some? {
        VisitExpr(n.rawValueExpr.value, p);
      } else {
        // ignored declarations, variables (scoped from their pattern binding),
        // accessors (scoped from their storage) and enum elements without a raw value
        GrownRefl(A, p);
      }
    }

    /** The declarations the visitor gives a unique scope of their own. */
    method VisitScopeDecl(n: Node, p: nat) returns (r: Option<nat>)
      requires Valid() && Live(State(), p)
      requires (n.AbstractFunctionDecl? && !IsAccessor(n)) || n.SubscriptDecl? || n.TopLevelCodeDecl? || n.TypeDecl?
      modifies this, scopedNodes
      ensures Valid() && Grown(old(State()), State(), p, false) && NewPoint(old(State()), State(), r.GetOr(p), p)
      ensures Performed(old(State()), State(), p, VisitActionOf(n), r, old(scopedNodes.pointers))
      decreases n, 97, 2
    {
      var k :=
        if n.AbstractFunctionDecl? then AbstractFunctionDeclScope(n)
        else if n.SubscriptDecl? then SubscriptDeclScope(n)
        else if n.TopLevelCodeDecl? then TopLevelCodeScope(n)
        else GenericTypeOrExtensionScope(WholePortion, n);
      assert VisitActionOf(n) == CreateUnique(k);
      r := CreateSubtreeIfUnique(p, k);
    }

    /** The pattern-binding case of the visitor. */
    method VisitBindingDecl(n: Node, p: nat) returns (r: Option<nat>)
      requires Valid() && Live(State(), p) && n.PatternBindingDecl?
      modifies this, scopedNodes
      ensures Valid() && Grown(old(State()), State(), p, false) && NewPoint(old(State()), State(), r.GetOr(p), p)
      ensures Performed(old(State()), State(), p, Binding(n), r, old(scopedNodes.pointers))
      decreases n, 97, 2
    {
      var ip := VisitPatternBindingDecl(n, p);
      r := Some(ip);
    }

    /** The `#if` case of the visitor. */
    method VisitIfConfig(n: Node, p: nat) returns (r: Option<nat>)
      requires Valid() && Live(State(), p) && n.IfConfigDecl?
      modifies this, scopedNodes
      ensures Valid() && Grown(old(State()), State(), p, false) && NewPoint(old(State()), State(), r.GetOr(p), p)
      ensures Performed(old(State()), State(), p, IfConfig(n, IfConfigClauseSteps(n)), r, old(scopedNodes.pointers))
      decreases n, 97, 2
    {
      var ip; ghost var ends, cs, cp;
      ip, ends, cs, cp := VisitIfConfigDecl(n, p);
      r := Some(ip);
    }

    /** The visitor's statement cases: those that open a scope of their own. */
    method VisitStmt(n: Node, p: nat) returns (r: Option<nat>)
      requires Valid() && Live(State(), p) && IsStmt(n)
      modifies this, scopedNodes
      ensures Valid() && Grown(old(State()), State(), p, false) && NewPoint(old(State()), State(), r.GetOr(p), p)
      ensures Performed(old(State()), State(), p, VisitActionOf(n), r, old(scopedNodes.pointers))
      decreases n, 98, 0
    {
      if n.IfStmt? || n.GuardStmt? || n.WhileStmt? || n.RepeatWhileStmt? || n.DoCatchStmt?
         || n.CatchStmt? || n.SwitchStmt? || n.CaseStmt? || n.ForEachStmt? {
        var k :=
          if n.IfStmt? then IfStmtScope(n)
          else if n.GuardStmt? then GuardStmtScope(n)
          else if n.WhileStmt? then WhileStmtScope(n)
          else if n.RepeatWhileStmt? then RepeatWhileScope(n)
          else if n.DoCatchStmt? then DoCatchStmtScope(n)
          else if n.CatchStmt? then CatchStmtScope(n)
          else if n.SwitchStmt? then SwitchStmtScope(n)
          else if n.CaseStmt? then CaseStmtScope(n)
          else ForEachStmtScope(n);
        r := CreateSubtreeIfUnique(p, k);
      } else {
        r := VisitPlainStmt(n, p);
      }
    }

    /** The visitor's other statement cases: braces, `do`, and statements that only hold expressions. */
    method VisitPlainStmt(n: Node, p: nat) returns (r: Option<nat>)
      requires Valid() && Live(State(), p) && IsStmt(n)
      requires !(n.IfStmt? || n.GuardStmt? || n.WhileStmt? || n.RepeatWhileStmt? || n.DoCatchStmt?
                 || n.CatchStmt? || n.SwitchStmt? || n.CaseStmt? || n.ForEachStmt?)
      modifies this, scopedNodes
      ensures Valid() && Grown(old(State()), State(), p, false) && NewPoint(old(State()), State(), r.GetOr(p), p)
      ensures Performed(old(State()), State(), p, VisitActionOf(n), r, old(scopedNodes.pointers))
      decreases n, 97, 3
    {
      ghost var A := State();
      r := Some(p);
      match n {
      case BraceStmt(_, _) => r := VisitBrace(n, p);
      case DoStmt(_, _) => r := VisitDoStmt(n, p);
      case SimpleStmt(_, _) =>
        GrownRefl(A, p);
      case DeferStmt(_, tempDecl) => r := VisitDeferStmt(n, p);
      case YieldStmt(_, _) => r := VisitYield(n, p);
      case ReturnStmt(_, _) => r := VisitReturnStmt(n, p);
      case ThrowStmt(_, _) => r := VisitThrowStmt(n, p);
      case PoundAssertStmt(_, _) => r := VisitPoundAssertStmt(n, p);
      case _ => assert false;
      }
    }

    /** The defer case of the visitor: a unique scope for the deferred body's function, if any. */
    method VisitDeferStmt(n: Node, p: nat) returns (r: Option<nat>)
      requires Valid() && Live(State(), p) && n.DeferStmt?
      modifies this, scopedNodes
      ensures Valid() && Grown(old(State()), State(), p, false) && NewPoint(old(State()), State(), r.GetOr(p), p)
      ensures Performed(old(State()), State(), p, if n.tempDecl.AbstractFunctionDecl? then KeepPoint({AbstractFunctionDeclScope(n.tempDecl)}) else Ignore, r, old(scopedNodes.pointers))
      decreases n, 97, 2
    {
      ghost var A := State();
      r := Some(p);
      if n.tempDecl.AbstractFunctionDecl? {
        var ignored := CreateSubtreeIfUnique(p, AbstractFunctionDeclScope(n.tempDecl));
      } else {
        GrownRefl(A, p);
      }
    }

    /** The brace case of the visitor: the brace scope, with the point kept. */
    method VisitBrace(n: Node, p: nat) returns (r: Option<nat>)
      requires Valid() && Live(State(), p) && n.BraceStmt?
      modifies this, scopedNodes
      ensures Valid() && Grown(old(State()), State(), p, false) && NewPoint(old(State()), State(), r.GetOr(p), p)
      ensures Performed(old(State()), State(), p, BraceAction(n), r, old(scopedNodes.pointers))
      decreases n, 97, 2
    {
      VisitBraceStmt(n, p);
      r := Some(p);
    }

    /** The do case of the visitor: its body is scoped as if it stood alone. */
    method VisitDoStmt(n: Node, p: nat) returns (r: Option<nat>)
      requires Valid() && Live(State(), p) && n.DoStmt?
      modifies this, scopedNodes
      ensures Valid() && Grown(old(State()), State(), p, false) && NewPoint(old(State()), State(), r.GetOr(p), p)
      ensures Performed(old(State()), State(), p, ScopeForAction(n.body), r, old(scopedNodes.pointers))
      decreases n, 97, 2
    {
      r := CreateScopeFor(n.body, p);
    }

    /** The yield case of the visitor: the closures in its results. */
    method VisitYield(n: Node, p: nat) returns (r: Option<nat>)
      requires Valid() && Live(State(), p) && n.YieldStmt?
      modifies this, scopedNodes
      ensures Valid() && Grown(old(State()), State(), p, false) && NewPoint(old(State()), State(), r.GetOr(p), p)
      ensures Performed(old(State()), State(), p, KeepPoint(YieldClosureKinds(n)), r, old(scopedNodes.pointers))
      decreases n, 97, 2
    {
      VisitYieldResults(n, p);
      r := Some(p);
    }

    /** The return case of the visitor: the closures in the result, if any. */
    method VisitReturnStmt(n: Node, p: nat) returns (r: Option<nat>)
      requires Valid() && Live(State(), p) && n.ReturnStmt?
      modifies this, scopedNodes
      ensures Valid() && Grown(old(State()), State(), p, false) && NewPoint(old(State()), State(), r.GetOr(p), p)
      ensures Performed(old(State()), State(), p, if n.result.Some? then KeepPoint(ClosureScopeKinds(n.result.value)) else Ignore, r, old(scopedNodes.pointers))
      decreases n, 97, 2
    {
      ghost var A := State();
      r := Some(p);
      if n.result.Some? {
        VisitExpr(n.result.value, p);
      } else {
        GrownRefl(A, p);
      }
    }

    /** The throw case of the visitor: the closures in the thrown expression. */
    method VisitThrowStmt(n: Node, p: nat) returns (r: Option<nat>)
      requires Valid() && Live(State(), p) && n.ThrowStmt?
      modifies this, scopedNodes
      ensures Valid() && Grown(old(State()), State(), p, false) && NewPoint(old(State()), State(), r.GetOr(p), p)
      ensures Performed(old(State()), State(), p, KeepPoint(ClosureScopeKinds(n.subExpr)), r, old(scopedNodes.pointers))
      decreases n, 97, 2
    {
      VisitExpr(n.subExpr, p);
      r := Some(p);
    }

    /** The `#assert` case of the visitor: the closures in the condition. */
    method VisitPoundAssertStmt(n: Node, p: nat) returns (r: Option<nat>)
      requires Valid() && Live(State(), p) && n.PoundAssertStmt?
      modifies this, scopedNodes
      ensures Valid() && Grown(old(State()), State(), p, false) && NewPoint(old(State()), State(), r.GetOr(p), p)
      ensures Performed(old(State()), State(), p, KeepPoint(ClosureScopeKinds(n.condition)), r, old(scopedNodes.pointers))
      decreases n, 97, 2
    {
      VisitExpr(n.condition, p);
      r := Some(p);
    }

    /** The yield case of the visitor: the closures in each result, in order. */
    method VisitYieldResults(n: Node, p: nat)
      requires Valid() && Live(State(), p) && n.YieldStmt?
      modifies this, scopedNodes
      ensures Valid() && Grown(old(State()), State(), p, false)
      ensures ChildKindsIn(State(), p, old(|scopes[p].children|), YieldClosureKinds(n))
      ensures Scoped(State(), YieldClosureKinds(n))
      ensures KeptPoint(old(State()), State(), p, YieldClosureKinds(n))
      decreases n, 97, 0
    {
      ghost var A := State();
      ghost var n0 := |scopes[p].children|;
      ghost var ks := YieldClosureKinds(n);
      GrownRefl(A, p);
      for i := 0 to |n.results|
        invariant Valid() && Grown(A, State(), p, false) && ChildKindsIn(State(), p, n0, ks)
        invariant ResultsScoped(State(), n, i)
      {
        ghost var B := State();
        VisitYieldResult(n, i, p, n0);
        ResultsScopedNext(B, State(), p, n, i);
        GrownTrans(A, B, State(), p, p, false, false);
      }
      ResultsScopedAll(State(), n);
    }

    /** The closures of result `i` of yield statement `n`, under `p`. */
    method VisitYieldResult(n: Node, i: nat, p: nat, ghost n0: nat)
      requires Valid() && Live(State(), p) && n.YieldStmt? && i < |n.results|
      requires ChildKindsIn(State(), p, n0, YieldClosureKinds(n))
      modifies this, scopedNodes
      ensures Valid() && Grown(old(State()), State(), p, false)
      ensures ChildKindsIn(State(), p, n0, YieldClosureKinds(n))
      ensures Scoped(State(), ClosureScopeKinds(n.results[i]))
      decreases n, 96, 0
    {
      ghost var B := State();
      ghost var ks := YieldClosureKinds(n);
      VisitExpr(n.results[i], p);
      assert ClosureScopeKinds(n.results[i]) <= ks by {
        assert n.results[i] in n.results;
      }
      GrownJoinsChildKindsIn(B, State(), p, n0, ks, ClosureScopeKinds(n.results[i]), false);
      assert ks + ClosureScopeKinds(n.results[i]) == ks;
    }

    /** The closures of the first `m` results of yield statement `n` are scoped in `A`. */
    ghost predicate ResultsScoped(A: ArenaState, n: Node, m: nat)
      requires n.YieldStmt? && m <= |n.results|
    {
      forall j :: 0 <= j < m ==> Scoped(A, ClosureScopeKinds(n.results[j]))
    }

    /** Growth keeps the results scoped so far, and result `m` scoped after it makes one more. */
    lemma ResultsScopedNext(A: ArenaState, B: ArenaState, p: nat, n: Node, m: nat)
      requires n.YieldStmt? && m < |n.results| && ResultsScoped(A, n, m) && Grown(A, B, p, false)
      requires Scoped(B, ClosureScopeKinds(n.results[m]))
      ensures ResultsScoped(B, n, m + 1)
    {
      forall j | 0 <= j < m
        ensures Scoped(B, ClosureScopeKinds(n.results[j]))
      {
        ScopedGrown(A, B, p, false, ClosureScopeKinds(n.results[j]));
      }
    }

    /** With every result's closures scoped, all the closure kinds of the yield statement are. */
    lemma ResultsScopedAll(A: ArenaState, n: Node)
      requires n.YieldStmt? && ResultsScoped(A, n, |n.results|)
      ensures Scoped(A, YieldClosureKinds(n))
    {
      forall k | k in YieldClosureKinds(n) && Referent(k).Some?
        ensures Referent(k).value in A.owner
      {
        var e, c :| e in n.results && c in ClosuresIn(e) && ClosureOf(c).ClosureExpr? && k == WholeClosureScope(c);
        var j :| 0 <= j < |n.results| && n.results[j] == e;
        assert k in ClosureScopeKinds(n.results[j]);
      }
    }

    /** The whole-closure scopes the results of a yield statement may create. */
    ghost function YieldClosureKinds(n: Node): set<ScopeKind>
      requires n.YieldStmt?
    {
      set e, c | e in n.results && c in ClosuresIn(e) && ClosureOf(c).ClosureExpr? :: WholeClosureScope(c)
    }

    /**
     * visitPatternBindingDecl: property-wrapper scopes, then a pattern-entry
     * scope per entry not seen before, in index order, all of them children
     * of `p` because each entry's expansion returns its parent; the result
     * is `p` in a type declaration and the threaded point, again `p`, elsewhere.
     */
    method VisitPatternBindingDecl(pbd: Node, p: nat) returns (r: nat)
      requires Valid() && Live(State(), p) && pbd.PatternBindingDecl?
      modifies this, scopedNodes
      ensures Valid() && Grown(old(State()), State(), p, false) && r == p
      ensures BindingScoped(old(State()), State(), p, pbd)
      decreases pbd, 90, 0
    {
      ghost var A := State();
      CreateAttachedPropertyWrapperScope(pbd, p);
      ghost var S1 := State();
      ghost var w := if |pbd.patternList| == 0 then [] else WrapperKinds(pbd.patternList[0].vars);
      var isInTypeDecl := IsATypeDeclScope(scopes[p].kind);
      var vis := if isInTypeDecl then MemberOfCurrentNominal else LocalVariable;
      var insertionPoint := CreatePatternEntryScopes(pbd, p, vis);
      GrownTrans(A, S1, State(), p, p, false, false);
      GrownKeepsChildKinds(S1, State(), p, old(|scopes[p].children|), w, false);
      r := if isInTypeDecl then p else insertionPoint;
    }

    /** The entry loop of visitPatternBindingDecl, threading the insertion point from `p`. */
    method CreatePatternEntryScopes(pbd: Node, p: nat, vis: DeclVisibilityKind) returns (insertionPoint: nat)
      requires Valid() && Live(State(), p) && pbd.PatternBindingDecl?
      modifies this, scopedNodes
      ensures Valid() && Grown(old(State()), State(), p, false) && insertionPoint == p
      ensures EntryChildren(State(), p, old(|scopes[p].children|), pbd, vis)
      ensures forall i :: 0 <= i < |pbd.patternList| ==> pbd.patternList[i].patternId in scopedNodes.pointers
      decreases pbd, 88, 0
    {
      ghost var A := State();
      ghost var n1 := |scopes[p].children|;
      insertionPoint := p;
      ghost var entries: seq<ScopeKind> := [];
      for i := 0 to |pbd.patternList|
        invariant Valid() && Grown(A, State(), p, false) && insertionPoint == p
        invariant ChildKindsFrom(State(), p, n1, entries)
        invariant EntryKinds(entries, pbd, vis) && forall j :: 0 <= j < |entries| ==> EntryIndex(entries[j]) < i
        invariant forall i' :: 0 <= i' < i ==> pbd.patternList[i'].patternId in scopedNodes.pointers
      {
        ghost var B := State();
        insertionPoint, entries := CreatePatternEntryScope(pbd, insertionPoint, vis, i, n1, entries);
        GrownTrans(A, B, State(), p, p, false, false);
      }
      EntryChildrenOfKinds(State(), p, n1, entries, pbd, vis);
    }

    /**
     * One turn of the entry loop: a pattern-entry scope for entry `i` under
     * `p`, unless one exists; the expansion returns its parent, so the
     * insertion point threaded on is `p` again.
     */
    method CreatePatternEntryScope(pbd: Node, p: nat, vis: DeclVisibilityKind, i: nat,
                                   ghost n1: nat, ghost entries: seq<ScopeKind>)
      returns (insertionPoint: nat, ghost entries': seq<ScopeKind>)
      requires Valid() && Live(State(), p) && pbd.PatternBindingDecl? && i < |pbd.patternList|
      requires ChildKindsFrom(State(), p, n1, entries)
      requires EntryKinds(entries, pbd, vis) && forall j :: 0 <= j < |entries| ==> EntryIndex(entries[j]) < i
      requires forall i' :: 0 <= i' < i ==> pbd.patternList[i'].patternId in scopedNodes.pointers
      modifies this, scopedNodes
      ensures Valid() && Grown(old(State()), State(), p, false) && insertionPoint == p
      ensures ChildKindsFrom(State(), p, n1, entries')
      ensures EntryKinds(entries', pbd, vis) && forall j :: 0 <= j < |entries'| ==> EntryIndex(entries'[j]) < i + 1
      ensures forall i' :: 0 <= i' <= i ==> pbd.patternList[i'].patternId in scopedNodes.pointers
      decreases pbd, 87, 0
    {
      ghost var B := State();
      var k := PatternEntryDeclScope(pbd, i, vis);
      var s := CreateSubtreeIfUnique(p, k);
      insertionPoint := s.GetOr(p);
      entries' := entries;
      if s.Some? {
        AttachExtendsChildKinds(B, State(), p, k, s.value, n1, entries);
        entries' := entries + [k];
      }
    }

    /**
     * visitIfConfigDecl: each clause threaded from `p`, then a diversion
     * scope, the new insertion point, whose lookup parent is the point the
     * active clause reached (`p` when no clause is active).
     */
    method VisitIfConfigDecl(icd: Node, p: nat)
      returns (r: nat, ghost ends: seq<ArenaState>, ghost cs: seq<seq<ArenaState>>, ghost cp: seq<seq<nat>>)
      requires Valid() && Live(State(), p) && icd.IfConfigDecl?
      modifies this, scopedNodes
      ensures Valid() && Grown(old(State()), State(), p, false) && NewPoint(old(State()), State(), r, p)
      ensures |cs| == |icd.clauses| && |cp| == |icd.clauses|
      ensures forall i :: 0 <= i < |icd.clauses| ==>
                |cp[i]| == |icd.clauses[i].elements| + 2 && Threaded(ClauseActions(icd, i), cs[i], cp[i]) && cp[i][0] == p
      ensures r < |scopes| && scopes[r].parent == Some(p) && LastChildKind(State(), p, scopes[r].kind)
      ensures var k := LastActiveClause(icd.clauses, |icd.clauses|);
              scopes[r].kind == LookupParentDiversionScope(if k < 0 then p else cp[k][|cp[k]| - 1], icd)
      ensures NewPoint(old(State()), State(), scopes[r].kind.lookupParent, p)
      ensures IfConfigTrace(old(State()), State(), p, IfConfig(icd, IfConfigClauseSteps(icd)), ends, cs, cp, r)
      decreases icd, 90, 0
    {
      ghost var A := State();
      ghost var a := IfConfig(icd, IfConfigClauseSteps(icd));
      var activeClauseLookupParent;
      activeClauseLookupParent, ends, cs, cp := VisitIfConfigClauses(icd, p);
      ghost var E := State();
      r := CreateDiversionScope(p, activeClauseLookupParent, icd);
      SideStep(A, E, State(), p, p, activeClauseLookupParent);
      ChainStep(A, E, State(), p, p, r);
      ClausesThreadedEach(A, p, a, |icd.clauses|, ends, cs, cp);
      forall i | 0 <= i < |icd.clauses|
        ensures |cp[i]| == |icd.clauses[i].elements| + 2 && Threaded(ClauseActions(icd, i), cs[i], cp[i]) && cp[i][0] == p
      {
        assert a.clauses == IfConfigClauseSteps(icd);
        assert a.clauses[i].steps == ClauseActions(icd, i);
      }
    }

    /** The loop of visitIfConfigDecl: every clause threaded from `p`, and the lookup parent the active one chose. */
    method VisitIfConfigClauses(icd: Node, p: nat)
      returns (lookupParent: nat, ghost ends: seq<ArenaState>, ghost cs: seq<seq<ArenaState>>, ghost cp: seq<seq<nat>>)
      requires Valid() && Live(State(), p) && icd.IfConfigDecl?
      modifies this, scopedNodes
      ensures Valid() && Grown(old(State()), State(), p, false) && NewPoint(old(State()), State(), lookupParent, p)
      ensures IfConfigSoFar(icd, p, |icd.clauses|, lookupParent, old(State()), ends, cs, cp)
      decreases icd, 89, 3
    {
      ghost var A := State();
      lookupParent := p;
      ends, cs, cp := [A], [], [];
      GrownRefl(A, p);
      for i := 0 to |icd.clauses|
        invariant Valid() && Grown(A, State(), p, false) && NewPoint(A, State(), lookupParent, p)
        invariant IfConfigSoFar(icd, p, i, lookupParent, A, ends, cs, cp)
      {
        lookupParent, ends, cs, cp := VisitIfConfigClause(icd, i, p, lookupParent, A, ends, cs, cp);
      }
    }

    /** The loop of visitIfConfigDecl after `i` clauses: their trace from `A`, and the lookup parent chosen so far. */
    ghost predicate IfConfigSoFar(icd: Node, p: nat, i: nat, lookupParent: nat, A: ArenaState,
                                  ends: seq<ArenaState>, cs: seq<seq<ArenaState>>, cp: seq<seq<nat>>)
      requires icd.IfConfigDecl? && i <= |icd.clauses|
      reads this, scopedNodes
    {
      var a := IfConfig(icd, IfConfigClauseSteps(icd));
      |a.clauses| == |icd.clauses| && ClausesThreaded(A, p, a, i, ends, cs, cp) && ends[i] == State()
      && var k := LastActiveClause(icd.clauses, i);
         lookupParent == if k < 0 then p else cp[k][|cp[k]| - 1]
    }

    /** One turn of visitIfConfigDecl's loop: clause `i`, and the lookup parent it sets when it is active. */
    method VisitIfConfigClause(icd: Node, i: nat, p: nat, lookupParent: nat, ghost A: ArenaState,
                               ghost ends: seq<ArenaState>, ghost cs: seq<seq<ArenaState>>, ghost cp: seq<seq<nat>>)
      returns (lookupParent': nat, ghost ends': seq<ArenaState>, ghost cs': seq<seq<ArenaState>>, ghost cp': seq<seq<nat>>)
      requires Valid() && Live(State(), p) && icd.IfConfigDecl? && i < |icd.clauses|
      requires Grown(A, State(), p, false) && NewPoint(A, State(), lookupParent, p)
      requires IfConfigSoFar(icd, p, i, lookupParent, A, ends, cs, cp)
      modifies this, scopedNodes
      ensures Valid() && Grown(A, State(), p, false) && NewPoint(A, State(), lookupParent', p)
      ensures IfConfigSoFar(icd, p, i + 1, lookupParent', A, ends', cs', cp')
      decreases icd, 89, 2
    {
      ghost var a := IfConfig(icd, IfConfigClauseSteps(icd));
      ghost var C := State();
      var insertionPointForThisClause; ghost var states, points;
      insertionPointForThisClause, states, points := VisitClause(icd, i, p);
      SideStep(A, C, State(), p, p, lookupParent);
      assert a.clauses == IfConfigClauseSteps(icd);
      assert a.clauses[i].steps == ClauseActions(icd, i);
      ClausesThreadedNext(A, p, a, i, ends, cs, cp, states, points);
      ends', cs', cp' := ends + [State()], cs + [states], cp + [points];
      lookupParent' := lookupParent;
      if icd.clauses[i].isActive {
        lookupParent' := insertionPointForThisClause;
        ChainStep(A, C, State(), p, p, lookupParent');
      }
      assert forall k :: 0 <= k < i ==> cp'[k] == cp[k];
    }

    /** One clause of visitIfConfigDecl: the closures in its condition under `p`, then its elements threaded from `p`. */
    method VisitClause(icd: Node, i: nat, p: nat)
      returns (insertionPoint: nat, ghost states: seq<ArenaState>, ghost points: seq<nat>)
      requires Valid() && Live(State(), p) && icd.IfConfigDecl? && i < |icd.clauses|
      modifies this, scopedNodes
      ensures Valid() && Grown(old(State()), State(), p, false) && NewPoint(old(State()), State(), insertionPoint, p)
      ensures Threaded(ClauseActions(icd, i), states, points)
      ensures states[0] == old(State()) && states[|states| - 1] == State()
      ensures points[0] == p && points[|points| - 1] == insertionPoint
      decreases icd, 89, 1
    {
      ghost var A := State();
      VisitCondition(icd.clauses[i], p);
      ghost var B := State();
      ghost var st, pt;
      insertionPoint, st, pt := AddClauseElements(icd, i, p);
      ChainStep(A, B, State(), p, p, insertionPoint);
      ThreadedPrepend(ConditionAction(icd.clauses[i]), ScopeForActions(icd.clauses[i].elements), A, st, p, pt);
      states, points := [A] + st, [p] + pt;
      assert ClauseActions(icd, i) == [ConditionAction(icd.clauses[i])] + ScopeForActions(icd.clauses[i].elements);
    }

    /** The closures in the condition of an `#if` clause, if it has one, under `p`. */
    method VisitCondition(c: IfConfigClause, p: nat)
      requires Valid() && Live(State(), p)
      modifies this, scopedNodes
      ensures Valid() && Grown(old(State()), State(), p, false)
      ensures ThreadedStep(ConditionAction(c), old(State()), State(), p, p)
      decreases c, 0
    {
      ghost var A := State();
      if c.cond.Some? {
        VisitExpr(c.cond.value, p);
      } else {
        GrownRefl(A, p);
      }
      StepPerformed(ConditionAction(c), A, State(), p, Some(p));
    }

    /**
     * The elements of clause `i` of `icd`, each given to createScopeFor under
     * the insertion point the previous one left, starting from `p`.
     */
    method AddClauseElements(icd: Node, i: nat, p: nat)
      returns (insertionPoint: nat, ghost states: seq<ArenaState>, ghost points: seq<nat>)
      requires Valid() && Live(State(), p) && icd.IfConfigDecl? && i < |icd.clauses|
      modifies this, scopedNodes
      ensures Valid() && Grown(old(State()), State(), p, false) && NewPoint(old(State()), State(), insertionPoint, p)
      ensures Threaded(ScopeForActions(icd.clauses[i].elements), states, points)
      ensures states[0] == old(State()) && states[|states| - 1] == State()
      ensures points[0] == p && points[|points| - 1] == insertionPoint
      decreases icd, 89, 0
    {
      ghost var C := State();
      ghost var elements := icd.clauses[i].elements;
      ghost var acts := ScopeForActions(elements);
      insertionPoint := p;
      states, points := [C], [p];
      for j := 0 to |icd.clauses[i].elements|
        invariant Valid() && Grown(C, State(), p, false) && NewPoint(C, State(), insertionPoint, p)
        invariant Threaded(acts[..j], states, points)
        invariant states[0] == C && states[j] == State() && points[0] == p && points[j] == insertionPoint
      {
        ghost var D := State();
        var q := insertionPoint;
        insertionPoint := AddScopeFor(icd.clauses[i].elements[j], insertionPoint);
        ChainStep(C, D, State(), p, q, insertionPoint);
        ThreadedNext(acts, j, states, points, State(), insertionPoint);
        states, points := states + [State()], points + [insertionPoint];
      }
      assert acts[..|elements|] == acts;
    }

    /**
     * addScopesToTree: each node not handled by its pattern binding or its
     * storage is given a scope by createScopeFor under the current insertion
     * point, which a non-null result replaces.  The nodes handled elsewhere
     * are skipped, which leaves the tree and the point as createScopeFor's
     * action on them (Ignore) would.
     */
    method AddScopesToTree(p: nat, nodes: seq<Node>, ghost within: Node)
      returns (ip: nat, ghost states: seq<ArenaState>, ghost points: seq<nat>)
      requires Valid() && Live(State(), p)
      requires forall i :: 0 <= i < |nodes| ==> nodes[i] < within
      modifies this, scopedNodes
      ensures Valid() && Grown(old(State()), State(), p, false) && NewPoint(old(State()), State(), ip, p)
      ensures Threaded(ScopeForActions(nodes), states, points)
      ensures states[0] == old(State()) && states[|nodes|] == State() && points[0] == p && points[|nodes|] == ip
      decreases within, 50, 0
    {
      ghost var A := State();
      ghost var acts := ScopeForActions(nodes);
      ip := p;
      states, points := [A], [p];
      for i := 0 to |nodes|
        invariant Valid() && Grown(A, State(), p, false) && NewPoint(A, State(), ip, p)
        invariant Threaded(acts[..i], states, points)
        invariant states[0] == A && states[i] == State() && points[0] == p && points[i] == ip
      {
        ghost var B := State();
        var q := ip;
        if ShouldThisNodeBeScopedWhenEncountered(nodes[i]) {
          ip := AddScopeFor(nodes[i], ip);
          ChainStep(A, B, State(), p, q, ip);
        } else {
          assert VisitActionOf(nodes[i]) == Ignore;
          assert acts[i] == Ignore;
          StepPerformed(acts[i], B, B, q, Some(q));
        }
        ThreadedNext(acts, i, states, points, State(), ip);
        states, points := states + [State()], points + [ip];
      }
      assert acts[..|nodes|] == acts;
    }

    // -------------------------------------------------------------------
    // Reexpansion

    /**
     * The scope whose youngest children rescueScopesToReuse takes: the scope
     * itself, or for a function-body or top-level-code scope its first child,
     * none when it has no children.
     */
    function ReuseHolder(x: nat): (h: Option<nat>)
      requires TreeOK(State()) && x < |scopes|
      reads this
      ensures !DelegatesReuse(scopes[x].kind) ==> h == Some(x)
      ensures DelegatesReuse(scopes[x].kind) ==>
                (h.Some? <==> scopes[x].children != []) && (h.Some? ==> h.value == scopes[x].children[0])
      ensures h.Some? ==> h.value < |scopes| && (h.value == x || scopes[h.value].parent == Some(x))
    {
      if !DelegatesReuse(scopes[x].kind) then Some(x)
      else if scopes[x].children == [] then None
      else
        assert ChildrenOK(State(), x);
        Some(scopes[x].children[0])
    }

    /** The children added to the reuse holder of `x` since it was last expanded. */
    ghost function YoungestBelow(x: nat): seq<nat>
      requires TreeOK(State()) && x < |scopes|
      reads this
    {
      var h := ReuseHolder(x);
      if h.None? then []
      else
        var s := scopes[h.value];
        if s.childrenCountWhenLastExpanded <= |s.children| then s.children[s.childrenCountWhenLastExpanded..] else []
    }

    /**
     * rescueScopesToReuse: the children the reuse holder of `x` gained since it
     * was last expanded are taken off and returned, detached but not disowned.
     */
    method RescueScopesToReuse(x: nat) returns (rescued: seq<nat>)
      requires Valid() && Live(State(), x)
      requires ReuseHolder(x).Some? ==>
                 scopes[ReuseHolder(x).value].childrenCountWhenLastExpanded <= |scopes[ReuseHolder(x).value].children|
      modifies this
      ensures Valid() && rescued == old(YoungestBelow(x))
      ensures |scopes| == old(|scopes|) && depth == old(depth) && disowned == old(disowned) && owner == old(owner)
      ensures scopes[x].kind == old(scopes[x].kind) && scopes[x].parent == old(scopes[x].parent)
      ensures scopes[x].snapshot == old(scopes[x].snapshot)
      ensures forall i :: 0 <= i < |rescued| ==>
                rescued[i] < |scopes| && rescued[i] !in disowned && scopes[rescued[i]].parent.None?
                && depth[rescued[i]] == depth[x] + (if DelegatesReuse(scopes[x].kind) then 2 else 1)
      ensures forall i, j :: 0 <= i < j < |rescued| ==> rescued[i] != rescued[j]
    {
      ghost var S0 := State();
      var h := ReuseHolder(x);
      rescued := [];
      if h.Some? {
        var hs := scopes[h.value];
        assert ChildrenOK(S0, h.value);
        if h.value != x {
          assert ParentOK(S0, h.value);
        }
        var m := hs.childrenCountWhenLastExpanded;
        RecentChildren(S0, x, h.value, m, if DelegatesReuse(scopes[x].kind) then 2 else 1);
        rescued := RescueYoungestChildren(h.value, |hs.children| - m);
        assert rescued == hs.children[m..];
      }
    }

    /**
     * addReusedScopes: the rescued scopes become the last children of `x`, or,
     * for a scope reusing through its body, of its first child; with no first
     * child they stay detached.
     */
    method AddReusedScopesFor(x: nat, rescued: seq<nat>)
      requires Valid() && Live(State(), x)
      requires forall i :: 0 <= i < |rescued| ==>
                 rescued[i] < |scopes| && rescued[i] !in disowned && scopes[rescued[i]].parent.None?
                 && depth[rescued[i]] == depth[x] + (if DelegatesReuse(scopes[x].kind) then 2 else 1)
      requires forall i, j :: 0 <= i < j < |rescued| ==> rescued[i] != rescued[j]
      modifies this
      ensures Valid() && disowned == old(disowned) && |scopes| == old(|scopes|) && depth == old(depth)
      ensures scopes[x].kind == old(scopes[x].kind) && scopes[x].parent == old(scopes[x].parent)
      ensures scopes[x].snapshot == old(scopes[x].snapshot)
      ensures scopes[x].childrenCountWhenLastExpanded == old(scopes[x].childrenCountWhenLastExpanded)
      ensures !DelegatesReuse(scopes[x].kind) ==> scopes[x].children == old(scopes[x].children) + rescued
      ensures DelegatesReuse(scopes[x].kind) ==> scopes[x].children == old(scopes[x].children)
      ensures DelegatesReuse(scopes[x].kind) && rescued != [] && scopes[x].children != [] ==>
                scopes[x].children[0] < |scopes|
                && scopes[scopes[x].children[0]].children
                   == old(scopes[scopes[x].children[0]].children) + rescued
    {
      var target := x;
      if DelegatesReuse(scopes[x].kind) {
        if rescued == [] || scopes[x].children == [] {
          return;
        }
        target := scopes[x].children[0];
        assert ChildrenOK(State(), x) && ParentOK(State(), target);
      }
      assert forall i :: 0 <= i < |rescued| ==> rescued[i] != x;
      AddReusedScopes(target, rescued);
    }

    /**
     * reexpand: rescue the children added since the last expansion, disown
     * everything else below `x`, expand `x` afresh, and give the rescued
     * scopes back, after the new children.
     */
    method Reexpand(x: nat)
      requires Valid() && Live(State(), x)
      requires InsertionPointRuleOf(scopes[x].kind) == ReturnsParent ==> scopes[x].parent.Some?
      requires ReuseHolder(x).Some? ==>
                 scopes[ReuseHolder(x).value].childrenCountWhenLastExpanded <= |scopes[ReuseHolder(x).value].children|
      modifies this, scopedNodes
      ensures Valid() && x < |scopes| && x !in disowned
      ensures scopes[x].kind == old(scopes[x].kind) && scopes[x].parent == old(scopes[x].parent)
      ensures scopes[x].snapshot == BeCurrent(old(scopes[x].kind), old(scopes[x].snapshot))
      ensures !scopes[x].kind.PatternEntryDeclScope? ==> IsCurrent(scopes[x].kind, scopes[x].snapshot)
      ensures forall i :: 0 <= i < |old(YoungestBelow(x))| ==> old(YoungestBelow(x))[i] !in disowned
      ensures !DelegatesReuse(scopes[x].kind) ==>
                scopes[x].childrenCountWhenLastExpanded <= |scopes[x].children|
                && scopes[x].children[scopes[x].childrenCountWhenLastExpanded..] == old(YoungestBelow(x))
      ensures DelegatesReuse(scopes[x].kind) && old(YoungestBelow(x)) != [] && scopes[x].children != [] ==>
                scopes[x].children[0] < |scopes|
                && |old(YoungestBelow(x))| <= |scopes[scopes[x].children[0]].children|
                && scopes[scopes[x].children[0]].children[|scopes[scopes[x].children[0]].children| - |old(YoungestBelow(x))|..]
                   == old(YoungestBelow(x))
    {
      ghost var Y := YoungestBelow(x);
      var rescued := RescueScopesToReuse(x);
      assert rescued == Y;
      ghost var S1 := State();
      ghost var S2 := ExpandAfresh(x);
      DetachedSurvive(S1, S2, State(), x, rescued);
      ghost var ch3 := scopes[x].children;
      ghost var firstCh := if ch3 != [] && ch3[0] < |scopes| then scopes[ch3[0]].children else [];
      AddReusedScopesFor(x, rescued);
      assert !DelegatesReuse(scopes[x].kind) ==> scopes[x].children[|ch3|..] == rescued;
      if DelegatesReuse(scopes[x].kind) && rescued != [] && ch3 != [] {
        var f := ch3[0];
        assert scopes[f].children == firstCh + rescued;
        assert scopes[f].children[|scopes[f].children| - |rescued|..] == rescued;
      }
    }

    /** The middle of reexpand: everything below `x` is disowned, then `x` is expanded and made current. */
    method ExpandAfresh(x: nat) returns (ghost S2: ArenaState)
      requires Valid() && Live(State(), x)
      requires InsertionPointRuleOf(scopes[x].kind) == ReturnsParent ==> scopes[x].parent.Some?
      modifies this, scopedNodes
      ensures Valid() && x < |scopes| && x !in disowned
      ensures DisownedBelow(old(State()), S2, x) && Grown(S2, State(), x, true)
      ensures scopes[x].kind == old(scopes[x].kind) && scopes[x].parent == old(scopes[x].parent)
      ensures scopes[x].snapshot == BeCurrent(old(scopes[x].kind), old(scopes[x].snapshot))
      ensures !scopes[x].kind.PatternEntryDeclScope? ==> IsCurrent(scopes[x].kind, scopes[x].snapshot)
      ensures scopes[x].childrenCountWhenLastExpanded == |scopes[x].children|
    {
      ghost var S1 := State();
      DisownDescendants(x);
      S2 := State();
      UnderIrreflexive(S1, x);
      var _ := ExpandAndBeCurrent(x);
    }

    /** reexpandIfObsolete: a scope whose snapshot no longer matches its AST is rebuilt; a current one is left alone. */
    method ReexpandIfObsolete(x: nat)
      requires Valid() && Live(State(), x)
      requires InsertionPointRuleOf(scopes[x].kind) == ReturnsParent ==> scopes[x].parent.Some?
      requires ReuseHolder(x).Some? ==>
                 scopes[ReuseHolder(x).value].childrenCountWhenLastExpanded <= |scopes[ReuseHolder(x).value].children|
      modifies this, scopedNodes
      ensures Valid() && x < |scopes| && scopes[x].kind == old(scopes[x].kind)
      ensures old(IsCurrent(scopes[x].kind, scopes[x].snapshot)) ==>
                State() == old(State()) && scopedNodes.pointers == old(scopedNodes.pointers)
      ensures !scopes[x].kind.PatternEntryDeclScope? ==> IsCurrent(scopes[x].kind, scopes[x].snapshot)
    {
      if !IsCurrent(scopes[x].kind, scopes[x].snapshot) {
        Reexpand(x);
      }
    }

    /**
     * The AST entity a scope points to was edited in place: from now on the
     * scope sees `live` through the same pointer.  Nothing else changes, so
     * the recorded snapshot may no longer be current.
     */
    method SeeEdit(x: nat, live: Node)
      requires Valid() && x < |scopes| && CanSee(scopes[x].kind, live)
      requires WellFormed(Refreshed(scopes[x].kind, live))
      modifies this
      ensures Valid()
      ensures scopes == old(scopes)[x := old(scopes[x]).(kind := Refreshed(old(scopes[x].kind), live))]
      ensures depth == old(depth) && disowned == old(disowned) && owner == old(owner)
    {
      KindReplaced(State(), x, Refreshed(scopes[x].kind, live), scopedNodes.pointers);
      scopes := scopes[x := scopes[x].(kind := Refreshed(scopes[x].kind, live))];
    }
  }

  /**
   * ASTSourceFileScope's own state: the scope creator, the insertion point
   * for the next top-level declarations, and how many of the file's
   * declarations have already been given scopes.
   */
  class SourceFileScope {
    const creator: ScopeCreator
    var insertionPoint: nat
    var numberOfDeclsAlreadySeen: nat

    ghost predicate Valid()
      reads this, creator, creator.scopedNodes
    {
      creator.Valid() && Live(creator.State(), insertionPoint)
    }

    /** createScopeTree: a fresh creator whose root is this scope, then the file's declarations added. */
    constructor CreateScopeTree(decls: seq<Node>)
      ensures Valid() && fresh(creator) && fresh(creator.scopedNodes)
      ensures numberOfDeclsAlreadySeen == |decls|
      ensures creator.scopes[0].kind == ASTSourceFileScope && creator.scopes[0].parent.None?
      ensures forall i :: 1 <= i < |creator.scopes| ==> Under(creator.State(), i, 0) || i in creator.disowned
    {
      creator := new ScopeCreator();
      insertionPoint := 0;
      numberOfDeclsAlreadySeen := 0;
      new;
      ghost var states, points;
      states, points := AddNewDeclsToTree(decls);
    }

    /**
     * addNewDeclsToTree: only the declarations not seen yet, in order, get
     * scopes threaded from the saved insertion point, which is then updated;
     * with none new nothing changes.
     */
    method AddNewDeclsToTree(decls: seq<Node>) returns (ghost states: seq<ArenaState>, ghost points: seq<nat>)
      requires Valid() && numberOfDeclsAlreadySeen <= |decls|
      modifies this, creator, creator.scopedNodes
      ensures Valid() && numberOfDeclsAlreadySeen == |decls|
      ensures Grown(old(creator.State()), creator.State(), old(insertionPoint), false)
      ensures NewPoint(old(creator.State()), creator.State(), insertionPoint, old(insertionPoint))
      ensures Threaded(creator.ScopeForActions(decls[old(numberOfDeclsAlreadySeen)..]), states, points)
      ensures states[0] == old(creator.State()) && states[|states| - 1] == creator.State()
      ensures points[0] == old(insertionPoint) && points[|points| - 1] == insertionPoint
      ensures old(numberOfDeclsAlreadySeen) == |decls| ==>
                creator.State() == old(creator.State()) && insertionPoint == old(insertionPoint)
    {
      var newDecls := decls[numberOfDeclsAlreadySeen..];
      if newDecls == [] {
        GrownRefl(creator.State(), insertionPoint);
        states, points := [creator.State()], [insertionPoint];
        return;
      }
      ghost var within := BraceStmt(Info(0, 0, 0, true), newDecls);
      assert forall i :: 0 <= i < |newDecls| ==> newDecls[i] in within.elements;
      insertionPoint, states, points := creator.AddScopesToTree(insertionPoint, newDecls, within);
      numberOfDeclsAlreadySeen := |decls|;
    }
  }
}

/**
 * Scope kinds and the per-scope record of the scope tree: which AST entity a
 * scope describes, the identity it is deduplicated by (its referent), how its
 * expansion chooses the next insertion point, and the currency snapshot that
 * tells whether it must be re-expanded after an edit.
 */
module Scopes {
  import opened Wrappers
  import opened Syntax

  /** Which part of a type or extension declaration a GenericTypeOrExtensionScope covers. */
  datatype Portion = WholePortion | WherePortion | BodyPortion

  datatype DeclVisibilityKind = MemberOfCurrentNominal | LocalVariable

  /**
   * One constructor per scope class.  Where the source keeps a pointer to a
   * part of a node (a condition element, a pattern entry, a parameter list),
   * the kind keeps the node and an index into it.
   */
  datatype ScopeKind =
    | ASTSourceFileScope
    | AbstractFunctionDeclScope(decl: Node)
    | AbstractFunctionParamsScope(owner: Node)
      /** MethodBodyScope when `decl.isAMethod`, otherwise PureFunctionBodyScope. */
    | AbstractFunctionBodyScope(decl: Node)
    | SpecializeAttributeScope(attr: SpecializeAttr, decl: Node)
    | GenericParamScope(holder: Node, paramList: GenericParamList, index: nat)
    | ConditionalClauseScope(stmt: Node, index: nat, endLoc: Loc)
    | ConditionalClausePatternUseScope(stmt: Node, index: nat, endLoc: Loc)
    | GuardStmtScope(stmt: Node)
    | IfStmtScope(stmt: Node)
    | WhileStmtScope(stmt: Node)
    | RepeatWhileScope(stmt: Node)
    | DoCatchStmtScope(stmt: Node)
    | SwitchStmtScope(stmt: Node)
    | ForEachStmtScope(stmt: Node)
    | ForEachPatternScope(stmt: Node)
    | CatchStmtScope(stmt: Node)
    | CaseStmtScope(stmt: Node)
    | BraceStmtScope(stmt: Node)
    | PatternEntryDeclScope(decl: Node, index: nat, vis: DeclVisibilityKind)
    | PatternEntryInitializerScope(decl: Node, index: nat, vis: DeclVisibilityKind)
    | VarDeclScope(decl: Node)
    | AttachedPropertyWrapperScope(decl: Node)
      /** NominalTypeScope, ExtensionScope, TypeAliasScope or OpaqueTypeScope, by `decl.tkind`. */
    | GenericTypeOrExtensionScope(portion: Portion, decl: Node)
    | TopLevelCodeScope(decl: Node)
    | SubscriptDeclScope(decl: Node)
      /** `found` is the closure, or the capture list wrapping it. */
    | WholeClosureScope(found: Node)
    | CaptureListScope(expr: Node)
    | ClosureParametersScope(found: Node)
    | ClosureBodyScope(found: Node)
    | DefaultArgumentInitializerScope(param: Param)
      /** The lookup parent and the node whose end location ends the scope. */
    | LookupParentDiversionScope(lookupParent: nat, origin: Node)

  /**
   * The fields `beCurrent` writes: a body identity (function bodies, top-level
   * code, closures), a member count (type bodies), or an initializer identity
   * and variable count (pattern entries).
   */
  datatype Snapshot =
    | NoSnapshot
    | BodyWhenLastExpanded(body: Option<int>)
    | ExplicitMemberCountWhenLastExpanded(count: nat)
    | PatternWhenLastExpanded(init: Option<int>, varCount: nat)

  /** A node of the scope tree; `parent` and `children` are handles into the arena. */
  datatype Scope = Scope(kind: ScopeKind, parent: Option<nat>, children: seq<nat>,
                         childrenCountWhenLastExpanded: nat, snapshot: Snapshot)

  /** How `expandSpecifically` picks the insertion point it returns. */
  datatype InsertionPointRule = ReturnsSelf | ReturnsParent | ReturnsDescendant

  /** A node that no expansion ever descends into; the measure of the root scope. */
  const NoNode: Node := SimpleStmt(Info(0, 0, 0, true), BreakStmt)

  // ---------------------------------------------------------------------
  // Node classification used by the builder

  /**
   * ScopeCreator::shouldCreateScope for a non-null node: expressions and
   * statements always, declarations unless implicit.
   */
  predicate ShouldCreateScope(n: Node)
  {
    IsExpr(n) || IsStmt(n) || !n.info.implicit
  }

  /** PatternEntryDeclScope::isHandledSpecially: variables and accessors are scoped by their pattern. */
  predicate IsHandledSpecially(n: Node)
  {
    n.VarDecl? || IsAccessor(n)
  }

  /** ScopeCreator::shouldThisNodeBeScopedWhenEncountered. */
  predicate ShouldThisNodeBeScopedWhenEncountered(n: Node)
  {
    !IsHandledSpecially(n)
  }

  /** ASTScopeImpl::isATypeDeclScope: the scope's declaration is a nominal type or an extension. */
  predicate IsATypeDeclScope(k: ScopeKind)
  {
    k.GenericTypeOrExtensionScope? && IsIterableTypeDecl(k.decl)
  }

  /**
   * The node a kind holds has the shape its scope class is constructed from
   * (an IfStmtScope holds an `if`, a pattern-entry index is in range, ...).
   */
  predicate WellFormed(k: ScopeKind)
  {
    match k
    case AbstractFunctionDeclScope(d) => d.AbstractFunctionDecl?
    case AbstractFunctionParamsScope(o) => o.AbstractFunctionDecl? || o.SubscriptDecl?
    case AbstractFunctionBodyScope(d) => d.AbstractFunctionDecl?
    case GenericParamScope(_, pl, i) => i < |pl.params|
    case ConditionalClauseScope(s, i, _) => (s.IfStmt? || s.WhileStmt? || s.GuardStmt?) && i < |s.cond|
    case GuardStmtScope(s) => s.GuardStmt?
    case IfStmtScope(s) => s.IfStmt?
    case WhileStmtScope(s) => s.WhileStmt?
    case RepeatWhileScope(s) => s.RepeatWhileStmt?
    case DoCatchStmtScope(s) => s.DoCatchStmt?
    case SwitchStmtScope(s) => s.SwitchStmt?
    case ForEachStmtScope(s) => s.ForEachStmt?
    case ForEachPatternScope(s) => s.ForEachStmt?
    case CatchStmtScope(s) => s.CatchStmt?
    case CaseStmtScope(s) => s.CaseStmt?
    case BraceStmtScope(s) => s.BraceStmt?
    case PatternEntryDeclScope(d, i, _) => d.PatternBindingDecl? && i < |d.patternList|
    case PatternEntryInitializerScope(d, i, _) =>
      d.PatternBindingDecl? && i < |d.patternList| && d.patternList[i].initAsWritten.Some?
    case VarDeclScope(d) => d.VarDecl?
    case AttachedPropertyWrapperScope(d) => d.VarDecl?
    case GenericTypeOrExtensionScope(_, d) => d.TypeDecl?
    case TopLevelCodeScope(d) => d.TopLevelCodeDecl?
    case SubscriptDeclScope(d) => d.SubscriptDecl?
    case WholeClosureScope(f) => ClosureOf(f).ClosureExpr?
    case CaptureListScope(e) => e.CaptureListExpr?
    case ClosureParametersScope(f) => ClosureOf(f).ClosureExpr?
    case ClosureBodyScope(f) => ClosureOf(f).ClosureExpr?
    case DefaultArgumentInitializerScope(p) => p.defaultValue.Some?
    case _ => true
  }

  // ---------------------------------------------------------------------
  // Referents

  /** The identity a scope is deduplicated by (getReferrent), or None for scopes that are never checked. */
  function Referent(k: ScopeKind): Option<int>
  {
    match k
    case AbstractFunctionDeclScope(d) => Some(d.info.id)
    case PatternEntryDeclScope(d, i, _) =>
      if d.PatternBindingDecl? && i < |d.patternList| then Some(d.patternList[i].patternId) else None
    case TopLevelCodeScope(d) => Some(d.info.id)
    case SubscriptDeclScope(d) => Some(d.info.id)
    case VarDeclScope(d) => Some(d.info.id)
    case GenericParamScope(_, pl, i) => if i < |pl.params| then Some(pl.params[i]) else None
    case GuardStmtScope(s) => Some(s.info.id)
    case IfStmtScope(s) => Some(s.info.id)
    case WhileStmtScope(s) => Some(s.info.id)
    case RepeatWhileScope(s) => Some(s.info.id)
    case DoCatchStmtScope(s) => Some(s.info.id)
    case SwitchStmtScope(s) => Some(s.info.id)
    case ForEachStmtScope(s) => Some(s.info.id)
    case CatchStmtScope(s) => Some(s.info.id)
    case CaseStmtScope(s) => Some(s.info.id)
    case BraceStmtScope(s) => Some(s.info.id)
    case CaptureListScope(e) => Some(e.info.id)
    case WholeClosureScope(found) => Some(ClosureOf(found).info.id)
    case SpecializeAttributeScope(a, _) => Some(a.id)
    case GenericTypeOrExtensionScope(portion, d) => if portion == WholePortion then Some(d.info.id) else None
    case _ => None
  }

  /** The referent of a kind as a set: empty for kinds that are never checked. */
  function RefSet(k: ScopeKind): (r: set<int>)
    ensures Referent(k).Some? ==> r == {Referent(k).value}
    ensures Referent(k).None? ==> r == {}
  {
    if Referent(k).Some? then {Referent(k).value} else {}
  }

  // ---------------------------------------------------------------------
  // Insertion-point rules (CREATES_NEW_INSERTION_POINT, NO_NEW_INSERTION_POINT, NO_EXPANSION)

  /** The kinds whose expansion creates children, grouped by what they scope. */
  predicate IsDeclKind(k: ScopeKind)
  {
    k.AbstractFunctionDeclScope? || k.AbstractFunctionParamsScope? || k.AbstractFunctionBodyScope?
    || k.PatternEntryDeclScope? || k.PatternEntryInitializerScope? || k.VarDeclScope?
    || k.AttachedPropertyWrapperScope? || k.GenericTypeOrExtensionScope? || k.TopLevelCodeScope?
    || k.SubscriptDeclScope? || k.DefaultArgumentInitializerScope?
  }

  predicate IsStmtKind(k: ScopeKind)
  {
    k.ConditionalClauseScope? || k.GuardStmtScope? || k.IfStmtScope? || k.WhileStmtScope?
    || k.RepeatWhileScope? || k.DoCatchStmtScope? || k.SwitchStmtScope? || k.ForEachStmtScope?
    || k.ForEachPatternScope? || k.CatchStmtScope? || k.CaseStmtScope? || k.BraceStmtScope?
  }

  predicate IsClosureKind(k: ScopeKind)
  {
    k.WholeClosureScope? || k.CaptureListScope? || k.ClosureBodyScope?
  }

  function InsertionPointRuleOf(k: ScopeKind): InsertionPointRule
  {
    match k
    case ASTSourceFileScope => ReturnsSelf
    case GenericParamScope(_, _, _) => ReturnsSelf
    case ClosureParametersScope(_) => ReturnsSelf
    case SpecializeAttributeScope(_, _) => ReturnsSelf
    case ConditionalClausePatternUseScope(_, _, _) => ReturnsSelf
    case LookupParentDiversionScope(_, _) => ReturnsSelf
    case AbstractFunctionParamsScope(_) => ReturnsSelf
    case PatternEntryInitializerScope(_, _, _) => ReturnsSelf
    case ConditionalClauseScope(_, _, _) => ReturnsDescendant
    case GuardStmtScope(_) => ReturnsDescendant
    case BraceStmtScope(_) => ReturnsDescendant
    case TopLevelCodeScope(_) => ReturnsDescendant
    case _ => ReturnsParent
  }

  // ---------------------------------------------------------------------
  // Currency

  /** The snapshot fields as a freshly constructed scope holds them. */
  function InitialSnapshot(k: ScopeKind): Snapshot
  {
    match k
    case AbstractFunctionBodyScope(_) => BodyWhenLastExpanded(None)
    case TopLevelCodeScope(_) => BodyWhenLastExpanded(None)
    case WholeClosureScope(_) => BodyWhenLastExpanded(None)
    case GenericTypeOrExtensionScope(BodyPortion, d) =>
      if IsIterableTypeDecl(d) then ExplicitMemberCountWhenLastExpanded(0) else NoSnapshot
    case PatternEntryDeclScope(_, _, _) => PatternWhenLastExpanded(None, 0)
    case _ => NoSnapshot
  }

  /** The entry a pattern-entry scope describes, when its index is in range. */
  function PatternEntryOf(d: Node, i: nat): Option<PatternEntry>
  {
    if d.PatternBindingDecl? && i < |d.patternList| then Some(d.patternList[i]) else None
  }

  function InitIdOf(e: PatternEntry): Option<int>
  {
    if e.initAsWritten.Some? then Some(e.initAsWritten.value.info.id) else None
  }

  /** isCurrent: does the snapshot still match the AST the scope now sees? */
  predicate IsCurrent(k: ScopeKind, s: Snapshot)
  {
    match k
    case AbstractFunctionBodyScope(d) => s == BodyWhenLastExpanded(BodyIdOf(d))
    case TopLevelCodeScope(d) =>
      d.TopLevelCodeDecl? ==> s == BodyWhenLastExpanded(Some(d.body.info.id))
    case WholeClosureScope(found) =>
      ClosureOf(found).ClosureExpr? ==>
        s == BodyWhenLastExpanded(Some(ClosureOf(found).body.info.id))
    case GenericTypeOrExtensionScope(BodyPortion, d) =>
      IsIterableTypeDecl(d) ==> s == ExplicitMemberCountWhenLastExpanded(ExplicitMemberCount(d.members))
    case PatternEntryDeclScope(d, i, _) =>
      PatternEntryOf(d, i).Some? ==>
        s.PatternWhenLastExpanded?
        && s.init == InitIdOf(PatternEntryOf(d, i).value)
        && s.varCount == |PatternEntryOf(d, i).value.vars|
    case _ => true
  }

  /**
   * beCurrent: the snapshot recorded after expanding.  A pattern entry records
   * a variable count of 0 whatever its pattern binds, exactly as the source
   * does (see PatternEntryNeverCurrent).
   */
  function BeCurrent(k: ScopeKind, s: Snapshot): (r: Snapshot)
    ensures !k.PatternEntryDeclScope? ==> IsCurrent(k, r)
    ensures k.PatternEntryDeclScope? && PatternEntryOf(k.decl, k.index).Some? ==>
              (IsCurrent(k, r) <==> |PatternEntryOf(k.decl, k.index).value.vars| == 0)
  {
    match k
    case AbstractFunctionBodyScope(d) => BodyWhenLastExpanded(BodyIdOf(d))
    case TopLevelCodeScope(d) =>
      if d.TopLevelCodeDecl? then BodyWhenLastExpanded(Some(d.body.info.id)) else s
    case WholeClosureScope(found) =>
      if ClosureOf(found).ClosureExpr? then BodyWhenLastExpanded(Some(ClosureOf(found).body.info.id)) else s
    case GenericTypeOrExtensionScope(BodyPortion, d) =>
      if IsIterableTypeDecl(d) then ExplicitMemberCountWhenLastExpanded(ExplicitMemberCount(d.members)) else s
    case PatternEntryDeclScope(d, i, _) =>
      if PatternEntryOf(d, i).Some? then PatternWhenLastExpanded(InitIdOf(PatternEntryOf(d, i).value), 0)
      else s
    case _ => s
  }

  /**
   * The consequence of beCurrent storing 0: a pattern entry that binds a
   * variable is never current, so reexpandIfObsolete always rebuilds it.
   */
  lemma PatternEntryNeverCurrent(d: Node, i: nat, vis: DeclVisibilityKind, s: Snapshot)
    requires PatternEntryOf(d, i).Some? && |PatternEntryOf(d, i).value.vars| > 0
    ensures !IsCurrent(PatternEntryDeclScope(d, i, vis), BeCurrent(PatternEntryDeclScope(d, i, vis), s))
  {
  }

  /** The kinds whose snapshot an edit of the AST can invalidate. */
  predicate TracksCurrency(k: ScopeKind)
  {
    k.AbstractFunctionBodyScope? || k.TopLevelCodeScope? || k.WholeClosureScope?
    || k.PatternEntryDeclScope? || (k.GenericTypeOrExtensionScope? && k.portion == BodyPortion)
  }

  lemma UntrackedAlwaysCurrent(k: ScopeKind, s: Snapshot)
    requires !TracksCurrency(k)
    ensures IsCurrent(k, s)
  {
  }

  // ---------------------------------------------------------------------
  // Seeing an edited AST

  /**
   * The kind as it reads after the entity it points to was edited: the scope
   * holds the same pointer, so it now sees `live`, which has the same identity.
   * Kinds that track currency are refreshed; `live` must have the same shape
   * and leave the referent unchanged.
   */
  predicate CanSee(k: ScopeKind, live: Node)
  {
    match k
    case AbstractFunctionBodyScope(d) =>
      live.AbstractFunctionDecl? && d.AbstractFunctionDecl? && live.info.id == d.info.id
    case TopLevelCodeScope(d) => live.TopLevelCodeDecl? && live.info.id == d.info.id
    case WholeClosureScope(found) =>
      live.info.id == found.info.id && ClosureOf(live).info.id == ClosureOf(found).info.id
      && (live.CaptureListExpr? <==> found.CaptureListExpr?)
    case PatternEntryDeclScope(d, i, _) =>
      live.PatternBindingDecl? && live.info.id == d.info.id && PatternEntryOf(d, i).Some?
      && i < |live.patternList| && live.patternList[i].patternId == d.patternList[i].patternId
    case GenericTypeOrExtensionScope(BodyPortion, d) =>
      live.TypeDecl? && d.TypeDecl? && live.info.id == d.info.id && live.tkind == d.tkind
    case _ => false
  }

  function Refreshed(k: ScopeKind, live: Node): (r: ScopeKind)
    requires CanSee(k, live)
    ensures Referent(r) == Referent(k)
    ensures TracksCurrency(r)
  {
    match k
    case AbstractFunctionBodyScope(_) => AbstractFunctionBodyScope(live)
    case TopLevelCodeScope(_) => TopLevelCodeScope(live)
    case WholeClosureScope(_) => WholeClosureScope(live)
    case PatternEntryDeclScope(_, i, vis) => PatternEntryDeclScope(live, i, vis)
    case GenericTypeOrExtensionScope(p, _) => GenericTypeOrExtensionScope(p, live)
  }

  /** A variable or subscript scope, for the storage declaration with identity `id`. */
  predicate NamesStorage(k: ScopeKind, id: int)
  {
    (k.VarDeclScope? || k.SubscriptDeclScope?) && k.decl.info.id == id
  }

  /** `k` is the scope of one entry of the pattern binding `d`, with visibility `vis`. */
  predicate EntryOf(k: ScopeKind, d: Node, vis: DeclVisibilityKind)
  {
    k.PatternEntryDeclScope? && k.decl == d && k.vis == vis
  }

  /** The entry index of a pattern-entry scope; 0 for other kinds. */
  function EntryIndex(k: ScopeKind): nat
  {
    if k.PatternEntryDeclScope? then k.index else 0
  }

  /** `ks` are entry scopes of `d` with visibility `vis`, in strictly increasing index order. */
  predicate EntryKinds(ks: seq<ScopeKind>, d: Node, vis: DeclVisibilityKind)
  {
    (forall j :: 0 <= j < |ks| ==> EntryOf(ks[j], d, vis))
    && (forall j, j' :: 0 <= j < j' < |ks| ==> EntryIndex(ks[j]) < EntryIndex(ks[j']))
  }

  /** The property-wrapper scopes created for the variables `vars` of a binding's first pattern, in order. */
  function WrapperKinds(vars: seq<Node>): (ks: seq<ScopeKind>)
    ensures |ks| <= |vars|
    ensures forall j :: 0 <= j < |ks| ==>
              ks[j].AttachedPropertyWrapperScope? && ks[j].decl in vars
              && ks[j].decl.VarDecl? && ks[j].decl.hasAttachedPropertyWrapper
  {
    if vars == [] then []
    else
      var last := vars[|vars| - 1];
      var front := WrapperKinds(vars[..|vars| - 1]);
      assert forall j :: 0 <= j < |front| ==> front[j].decl in vars;
      front + (if last.VarDecl? && last.hasAttachedPropertyWrapper then [AttachedPropertyWrapperScope(last)] else [])
  }

  /** The default-argument scopes created for the parameters that have a default value, in order. */
  function DefaultArgKinds(params: seq<Param>): (ks: seq<ScopeKind>)
    ensures |ks| <= |params|
    ensures forall j :: 0 <= j < |ks| ==>
              ks[j].DefaultArgumentInitializerScope? && ks[j].param in params && ks[j].param.defaultValue.Some?
  {
    if params == [] then []
    else
      var last := params[|params| - 1];
      var front := DefaultArgKinds(params[..|params| - 1]);
      assert forall j :: 0 <= j < |front| ==> front[j].param in params;
      front + (if last.defaultValue.Some? then [DefaultArgumentInitializerScope(last)] else [])
  }

  /** One more variable adds its wrapper scope, if it has a wrapper, after those of the variables before it. */
  lemma WrapperKindsStep(vars: seq<Node>, j: nat)
    requires j < |vars|
    ensures WrapperKinds(vars[..j + 1]) == WrapperKinds(vars[..j])
              + (if vars[j].VarDecl? && vars[j].hasAttachedPropertyWrapper then [AttachedPropertyWrapperScope(vars[j])] else [])
  {
    assert vars[..j + 1][..j] == vars[..j];
  }

  /** One more parameter adds its default-argument scope, if it has a default, after those before it. */
  lemma DefaultArgKindsStep(params: seq<Param>, i: nat)
    requires i < |params|
    ensures DefaultArgKinds(params[..i + 1]) == DefaultArgKinds(params[..i])
              + (if params[i].defaultValue.Some? then [DefaultArgumentInitializerScope(params[i])] else [])
  {
    assert params[..i + 1][..i] == params[..i];
  }

  /** Function-body and top-level-code scopes rescue and reuse through their first child (the body's brace scope). */
  predicate DelegatesReuse(k: ScopeKind)
  {
    k.AbstractFunctionBodyScope? || k.TopLevelCodeScope?
  }

  // ---------------------------------------------------------------------
  // Termination measure of the expansion recursion

  /** The AST node bounding everything the expansion of a scope of this kind visits. */
  function KindNode(k: ScopeKind): Node
  {
    match k
    case ASTSourceFileScope => NoNode
    case AbstractFunctionDeclScope(d) => d
    case AbstractFunctionParamsScope(o) => o
    case AbstractFunctionBodyScope(d) => d
    case SpecializeAttributeScope(_, d) => d
    case GenericParamScope(h, _, _) => h
    case ConditionalClauseScope(s, _, _) => s
    case ConditionalClausePatternUseScope(s, _, _) => s
    case GuardStmtScope(s) => s
    case IfStmtScope(s) => s
    case WhileStmtScope(s) => s
    case RepeatWhileScope(s) => s
    case DoCatchStmtScope(s) => s
    case SwitchStmtScope(s) => s
    case ForEachStmtScope(s) => s
    case ForEachPatternScope(s) => s
    case CatchStmtScope(s) => s
    case CaseStmtScope(s) => s
    case BraceStmtScope(s) => s
    case PatternEntryDeclScope(d, _, _) => d
    case PatternEntryInitializerScope(d, _, _) => d
    case VarDeclScope(d) => d
    case AttachedPropertyWrapperScope(d) => d
    case GenericTypeOrExtensionScope(_, d) => d
    case TopLevelCodeScope(d) => d
    case SubscriptDeclScope(d) => d
    case WholeClosureScope(f) => f
    case CaptureListScope(e) => e
    case ClosureParametersScope(f) => f
    case ClosureBodyScope(f) => f
    case DefaultArgumentInitializerScope(p) => if p.defaultValue.Some? then p.defaultValue.value else NoNode
    case LookupParentDiversionScope(_, o) => o
  }

  /** Orders kinds that share their KindNode: a scope only creates same-node scopes of lower rank. */
  function KindRank(k: ScopeKind): nat
  {
    match k
    case ASTSourceFileScope => 0
    case LookupParentDiversionScope(_, _) => 5
    case SpecializeAttributeScope(_, _) => 10
    case GenericParamScope(_, _, _) => 10
    case ConditionalClausePatternUseScope(_, _, _) => 10
    case ClosureParametersScope(_) => 10
    case ConditionalClauseScope(_, _, _) => 30
    case AbstractFunctionParamsScope(_) => 40
    case AbstractFunctionBodyScope(_) => 40
    case ForEachPatternScope(_) => 40
    case PatternEntryInitializerScope(_, _, _) => 40
    case CaptureListScope(_) => 40
    case ClosureBodyScope(_) => 40
    case GenericTypeOrExtensionScope(portion, _) => if portion == WholePortion then 60 else 40
    case DefaultArgumentInitializerScope(_) => 95
    case _ => 60
  }
}

# Swift AST scope-tree creation, modelled in Dafny

The Swift compiler answers unqualified name lookup through a tree of *scopes*.
The root scope covers a source file. Below it sit scopes for type declarations,
functions, parameters and bodies, pattern bindings, conditional clauses, guards,
closures, and the other constructs that introduce names. The tree is built by
the scope creator (`lib/AST/ASTScopeCreation.cpp`). It does three things:

- It visits AST nodes and creates one scope per node that needs one.
- It *expands* each new scope at once, which creates that scope's children.
- It threads an *insertion point* through lists of nodes. A node that follows
  a `guard`, a pattern binding or an `#if` block is placed below the scope
  that makes the earlier names visible to it.

This project models that builder.

## What the model covers

**The tree.** The scope tree is an arena. Class `ScopeTree.ScopeCreator`
holds `scopes: seq<Scope>`, addressed by index; index 0 is the source-file
scope. Each `Scope` records:

- its kind (`Scopes.ScopeKind`, one constructor per scope class, holding the
  AST node the scope is for);
- its parent and its ordered list of children;
- the children count recorded at its last expansion;
- its currency snapshot.

Ghost fields record each scope's depth, the scopes that were disowned, and
which scope owns each referent in the dedup set. From these the invariants
below are stated:

- `Forest.TreeOK`: parents and children agree.
- `Forest.KindsOK`: every kind is well formed.
- `Forest.DedupOK`: the dedup set is exactly the referents of the live scopes,
  and no two live scopes share a referent.

**The dedup set.** `NodeSets.NodeSet` is the set of AST pointers that already
have a scope. A scope with no referent is never reported present, and
inserting one always succeeds. There are three ways to create a scope:

- `createSubtree` never consults the set.
- `createSubtreeIfUnique` creates nothing for a duplicate.
- `createSubtreeMustBeUnique` treats a duplicate as impossible.

**Expansion.** Each scope class has its own `expand…` operation. By the
insertion-point rule of its class, an expansion returns one of three things:

- the scope itself (classes that never expand);
- its parent (classes that create no new insertion point);
- a new scope at or below it (classes that create one).

The model follows the code in two places that are easy to misread:

- The pattern-entry scope returns its parent (`lib/AST/ASTScopeCreation.cpp:799`).
  Successive entries of one pattern binding are therefore siblings.
- The whole portion of a type or extension also returns its parent (line 1079).

Every expansion and creation helper is proved to do the following:

- keep the invariants;
- grow the tree only below the scope it was given, leaving every other scope
  unchanged (`Forest.Grown`);
- return an insertion point that follows its class's rule.

Many also state which kinds of children they add, in which order, and which
child comes last.

**Incremental rebuilding.** Each scope can decide whether it is still current:

- `beCurrent` records a snapshot.
- `isCurrent` compares the snapshot with the AST.
- `reexpandIfObsolete` rebuilds an obsolete scope.

The rebuild, `reexpand`, runs four steps in this order:

1. It rescues the children added since the last expansion.
2. It disowns everything else below the scope: each disowned scope is
   detached and its referent leaves the dedup set.
3. It expands the scope afresh and records a new snapshot.
4. It re-attaches the rescued children after the new ones.

Function-body and top-level-code scopes delegate the rescue and the re-attach
to their first child. `ScopeCreator.SeeEdit` stands for an edit of the AST:
the scope now sees the edited node through the same pointer, so its snapshot
may go stale.

The snapshot is refreshed before the re-attach: `expandAndBeCurrent` runs
before `addReusedScopes` (lines 1287-1292).

**Source order.** Type members are sorted by start location. The comparator
of the code is not a strict weak ordering (see "## Findings"), so the model
sorts by `SourceOrder.MemberSortKey` instead: twice the start location, plus
one for anything but a pattern binding. At one start location every pattern
binding therefore goes first, and in particular before the variables it binds;
members with equal keys keep their given order. Brace elements are stably
sorted by end location, and `@_specialize` attributes by location.

**What a visit does.** `ScopeTree.ScopeCreator.VisitActionOf` is the visitor
table: for each node class it names one `ScopeAction`. `Performed` says what
each action did to the tree and which insertion point it returned:

- `Ignore`: nothing changed and the point stays.
- `Create(k)` and `CreateUnique(k)` (`Attached`): a new scope of kind `k` is
  appended as the youngest child of the point, and the result is the point
  its expansion returned by the rule of `k`; for `CreateUnique`, a referent
  already in the dedup set changes nothing and yields null.
- `KeepPoint(ks)` (`KeptPoint`): the point stays, every new child of the point
  has a kind in `ks`, and every referent of `ks` is in the dedup set
  afterwards. For the closures of an expression this says that each of them
  has a whole-closure scope, made now or before.
- `Binding(pbd)` (`BindingScoped`): the property-wrapper scopes of the first
  entry's variables, then one scope per entry in index order, with member
  visibility under a type scope and local visibility elsewhere; every entry's
  pattern is in the dedup set afterwards; the point stays.
- `IfConfig(icd, clauses)` (`IfConfigDone`): every clause threaded from the
  point, each through its own steps (the closures in its condition, then
  createScopeFor's action on each element); then a diversion scope under the
  point whose lookup parent is the point the last active clause reached, or
  the original point when no clause is active (`LastActiveClause`).

**Traces.** A loop that threads the insertion point through nodes is specified
by `Threaded`: a sequence of tree states and points in which step `i` performed
action `i` under point `i` and left point `i + 1`. A loop that puts every node
under one scope is specified by `Fanned`: each step ran under that scope.
Brace statements, `#if` clauses, conditional clauses, guards, generic
parameter lists, the function chain of generic, parameter and body scopes,
and the statement expanders of if, while, repeat-while, do-catch, switch,
for-each, catch and case are stated this way.

The expanders of pattern entries, initializers, variables, capture lists,
default arguments and property-wrapper arguments add children that are not
threaded steps. For these the model states which kinds the new children may
have (`ChildKindsIn`) and that every referent those kinds name is in the
dedup set afterwards (`Scoped`), so each closure or accessor that calls for a
scope has one. The whole closure states the exact list of its new children
(`ClosureChildKinds`).

**The `beCurrent` defect, kept as written.** `PatternEntryDeclScope::beCurrent`
counts the variables of its pattern but stores 0 as the count (lines
1441-1447). `Scopes.BeCurrent` keeps that behaviour. `Scopes.PatternEntryNeverCurrent`
proves the consequence: a pattern entry that binds at least one variable is
never current, so `reexpandIfObsolete` always rebuilds it.

**Enclosing storage.** Variable and subscript scopes override
`getEnclosingAbstractStorageDecl` in a header that is not part of this model.
They are modelled as returning their own declaration. The other overrides are
at lines 1173-1192.

## Model

| member | source | states |
|---|---|---|
| NodeSets.NodeSet.constructor | lib/AST/ASTScopeCreation.cpp:120-123 | the dedup set starts empty |
| NodeSets.NodeSet.Contains | lib/AST/ASTScopeCreation.cpp:82-86 | present exactly when the scope has a referent and it is in the set |
| NodeSets.NodeSet.Insert | lib/AST/ASTScopeCreation.cpp:87-91 | returns true exactly when the scope has no referent or its referent was absent; afterwards the referent is in the set and nothing else was added |
| NodeSets.NodeSet.Erase | lib/AST/ASTScopeCreation.cpp:92-95 | removes exactly the scope's referent |
| Scopes.BeCurrent | lib/AST/ASTScopeCreation.cpp:1403-1462 | after beCurrent every kind except a pattern entry is current; a pattern entry is current exactly when its pattern binds no variable |
| Scopes.PatternEntryNeverCurrent | lib/AST/ASTScopeCreation.cpp:1441-1455 | a pattern entry that binds a variable is never current after beCurrent |
| Scopes.UntrackedAlwaysCurrent | lib/AST/ASTScopeCreation.cpp:1403-1404 | a kind without its own snapshot is always current |
| Scopes.Refreshed | lib/AST/ASTScopeCreation.cpp:1376-1398 | a scope that sees an edited entity keeps its referent and still tracks currency |
| Scopes.WrapperKinds | lib/AST/ASTScopeCreation.cpp:286-300 | at most one property-wrapper scope per variable of the first pattern, each for a variable that has a wrapper |
| Scopes.DefaultArgKinds | lib/AST/ASTScopeCreation.cpp:766-777 | at most one default-argument scope per parameter, each for a parameter of the list that has a default value |
| SourceOrder.WithKeyAppend | lib/AST/ASTScopeCreation.cpp:848-859 | the elements with one key, taken from a concatenation, are those of each part in order |
| SourceOrder.WithKeyNone | lib/AST/ASTScopeCreation.cpp:848-859 | no element with a key that does not occur |
| SourceOrder.InsertByKey | lib/AST/ASTScopeCreation.cpp:848-859 | insertion keeps the list sorted, adds exactly the element, and keeps equal keys in arrival order |
| SourceOrder.SortedInsertion | lib/AST/ASTScopeCreation.cpp:848-859 | inserting at the first greater key keeps the list sorted |
| SourceOrder.WithKeyInsertion | lib/AST/ASTScopeCreation.cpp:848-859 | inserting at the first greater key keeps equal-key elements in order |
| SourceOrder.StableSortByKey | lib/AST/ASTScopeCreation.cpp:330-336 | the result is sorted by key, a permutation of the input, stable on equal keys, and the input itself when already sorted |
| SourceOrder.AsWrittenComparatorIsReflexive | lib/AST/ASTScopeCreation.cpp:1339-1343 | the member comparator as written says every member comes before itself |
| SourceOrder.AsWrittenComparatorIsNotAsymmetric | lib/AST/ASTScopeCreation.cpp:1339-1343 | two unrelated members at one location each come before the other |
| SourceOrder.Localizable | lib/AST/ASTScopeCreation.cpp:1327-1330 | only members with a valid location, all taken from the list |
| SourceOrder.MemberSortKey | lib/AST/ASTScopeCreation.cpp:1333-1349 | the corrected ordering as a key: its half is the start location, and it is even exactly for a pattern binding, so at one start every pattern binding sorts before the other members |
| SourceOrder.MemberSortKeyOrder | lib/AST/ASTScopeCreation.cpp:1333-1349 | an earlier start sorts first, a key no greater never has a later start, and a pattern binding sorts before a variable it binds at the same start |
| SourceOrder.IsSortedByKey | lib/AST/ASTScopeCreation.cpp:1353 | std::is_sorted: true exactly when every pair of elements is in key order |
| SourceOrder.AdjacentSorted | lib/AST/ASTScopeCreation.cpp:1353 | neighbours in key order put every pair in key order |
| SourceOrder.GetMembersInSourceOrder | lib/AST/ASTScopeCreation.cpp:1325-1357 | a permutation of the localizable members, all taken from the list, with start locations and corrected keys non-decreasing and members of equal key in their given order; when no variable starts before its own pattern binding, no variable comes before its binding; the list itself when already in order |
| SourceOrder.FilterLocalizable | lib/AST/ASTScopeCreation.cpp:1325-1328 | exactly the localizable members, in their given order |
| Closures.ClosuresIn | lib/AST/ASTScopeCreation.cpp:1199-1242 | only closures and capture lists, each the expression or inside it; a closure or capture list yields itself; a declaration or a non-brace statement yields nothing |
| Closures.ClosuresInAll | lib/AST/ASTScopeCreation.cpp:1199-1242 | only closures and capture lists, each inside one of the nodes; see ClosuresInAllExact for completeness |
| Closures.ClosuresInExact | lib/AST/ASTScopeCreation.cpp:1199-1242 | a node is found in an expression exactly when it is an outermost closure or capture list of it, reached through operands and statements without entering another closure or a declaration |
| Closures.ClosuresInAllExact | lib/AST/ASTScopeCreation.cpp:1199-1242 | a node is found in a list exactly when it is an outermost closure or capture list of one of the nodes |
| Closures.OperandClosureFound | lib/AST/ASTScopeCreation.cpp:1215-1225 | a closure that is an operand of an expression is found in it |
| Closures.ElementClosureFound | lib/AST/ASTScopeCreation.cpp:1215-1230 | a closure in a list of nodes is found |
| Forest.UnderDepth | lib/AST/ASTScopeCreation.cpp:667-679 | a descendant is deeper than its ancestor |
| Forest.UnderTrans | lib/AST/ASTScopeCreation.cpp:667-679 | the descendant relation is transitive |
| Forest.UnderAncestors | lib/AST/ASTScopeCreation.cpp:667-679 | every ancestor of an ancestor is an ancestor |
| Forest.ChildUnder | lib/AST/ASTScopeCreation.cpp:667-679 | a child is a descendant |
| Forest.UnderGrown | lib/AST/ASTScopeCreation.cpp:667-679 | growing the tree keeps every descendant relation |
| Forest.GrownRefl | lib/AST/ASTScopeCreation.cpp:713-725 | no change is a growth |
| Forest.GrownTrans | lib/AST/ASTScopeCreation.cpp:220-251 | growth below a scope, then below it or a new scope, is growth below it |
| Forest.AttachStep | lib/AST/ASTScopeCreation.cpp:247-251 | creating, attaching and expanding a scope grows its parent, and the point returned is new or the parent |
| Forest.ChainStep | lib/AST/ASTScopeCreation.cpp:135-145 | threading a new insertion point through two steps gives a new point |
| Forest.SideStep | lib/AST/ASTScopeCreation.cpp:1067-1080 | growth below an intermediate point keeps a current new point |
| Forest.RefreshStep | lib/AST/ASTScopeCreation.cpp:703-707 | refreshing the snapshot after expansion keeps the growth and the insertion point |
| Forest.TopIsChild | lib/AST/ASTScopeCreation.cpp:686-693 | the top of a descendant's path is a child |
| Forest.TopOfChild | lib/AST/ASTScopeCreation.cpp:686-693 | every scope under a child has that child as its top |
| Forest.UnderSameBelow | lib/AST/ASTScopeCreation.cpp:686-693 | cutting parents elsewhere keeps the scopes below a child |
| Forest.GrownKeepsReferents | lib/AST/ASTScopeCreation.cpp:82-95 | growth only adds referents to the dedup set |
| Forest.AttachKeepsChildKindsIn | lib/AST/ASTScopeCreation.cpp:667-679 | attaching a child of an allowed kind keeps all new children of allowed kinds |
| Forest.AttachedIsLastChild | lib/AST/ASTScopeCreation.cpp:667-679 | the scope just attached is the youngest child |
| Forest.GrownKeepsLastChild | lib/AST/ASTScopeCreation.cpp:220-251 | growth below another scope keeps a scope's youngest child |
| Forest.EntryChildrenOfKinds | lib/AST/ASTScopeCreation.cpp:546-568 | entry scopes of increasing index are entry children |
| Forest.GrownKeepsChildKinds | lib/AST/ASTScopeCreation.cpp:667-679 | growth keeps the kinds of existing children |
| Forest.AttachExtendsChildKinds | lib/AST/ASTScopeCreation.cpp:667-679 | attaching a child extends the list of child kinds by its kind |
| Forest.GrownJoinsChildKindsIn | lib/AST/ASTScopeCreation.cpp:667-679 | children of allowed kinds, then growth adding children of other allowed kinds, are of the union |
| Teardown.PartlyDisownedStart | lib/AST/ASTScopeCreation.cpp:686-693 | before the loop no child has been disowned |
| Teardown.PartlyDisownedEnd | lib/AST/ASTScopeCreation.cpp:686-693 | after the last child, everything below the scope is disowned |
| Teardown.UntouchedBelow | lib/AST/ASTScopeCreation.cpp:686-693 | below the next child nothing has been touched yet |
| Teardown.DoneNext | lib/AST/ASTScopeCreation.cpp:686-693 | after the next child, exactly that child's subtree is added to what is done |
| Teardown.DisownStep | lib/AST/ASTScopeCreation.cpp:686-693 | one turn of the teardown loop disowns one more child and its subtree |
| Teardown.DisownErasesReferents | lib/AST/ASTScopeCreation.cpp:686-693 | after the teardown no former descendant's referent is in the dedup set, and the referents left are those of the scopes not below |
| Teardown.UnderIrreflexive | lib/AST/ASTScopeCreation.cpp:686-693 | no scope is below itself |
| Plumbing.KindsKept | lib/AST/ASTScopeCreation.cpp:667-693 | an edit that keeps kinds, owners and disowned scopes keeps the kind and dedup invariants |
| Plumbing.ShapeKept | lib/AST/ASTScopeCreation.cpp:1514-1516 | an edit that keeps kinds, parents and children keeps all invariants |
| Plumbing.KindReplaced | lib/AST/ASTScopeCreation.cpp:1376-1398 | replacing a kind by one with the same referent keeps all invariants |
| Plumbing.DetachedSurvive | lib/AST/ASTScopeCreation.cpp:1287-1292 | scopes detached before a rebuild come through it unchanged and not disowned |
| Plumbing.AttachKeepsTree | lib/AST/ASTScopeCreation.cpp:667-679 | appending an orphan keeps the tree and puts it last |
| Plumbing.DetachKeepsTree | lib/AST/ASTScopeCreation.cpp:1501-1512 | taking a child out of the list keeps the tree and detaches exactly that child |
| Plumbing.DetachParents | lib/AST/ASTScopeCreation.cpp:1508-1510 | after a child is taken out, every scope with a parent is still listed by that parent |
| Plumbing.DetachChildren | lib/AST/ASTScopeCreation.cpp:1508-1510 | after a child is taken out, every child list still points back at its owner, without repeats |
| Plumbing.DetachedListOK | lib/AST/ASTScopeCreation.cpp:1508-1510 | the shortened child list keeps its order, its back pointers and its distinctness |
| ScopeTree.ScopeCreator.constructor | lib/AST/ASTScopeCreation.cpp:120-123 | a creator with the source-file scope alone and an empty dedup set |
| ScopeTree.ScopeCreator.Allocate | lib/AST/ASTScopeCreation.cpp:247-251 | a new detached scope of the given kind with the initial snapshot, owning its referent |
| Plumbing.AppendKeepsTree | lib/AST/ASTScopeCreation.cpp:247-249 | appending a detached scope keeps the tree invariant |
| Plumbing.AppendKeepsDedup | lib/AST/ASTScopeCreation.cpp:247-249 | the new scope becomes the owner of its pending referent, and the dedup invariant holds with nothing pending |
| ScopeTree.ScopeCreator.AllocateChild | lib/AST/ASTScopeCreation.cpp:247-249 | a new childless scope of the kind, live, appended as the last child of the parent |
| ScopeTree.ScopeCreator.AddChild | lib/AST/ASTScopeCreation.cpp:667-679 | the orphan becomes the last child, earlier children unchanged |
| ScopeTree.ScopeCreator.RemoveChildAt | lib/AST/ASTScopeCreation.cpp:681-693 | exactly the chosen child is removed from the list and emancipated |
| ScopeTree.ScopeCreator.DisownDetached | lib/AST/ASTScopeCreation.cpp:686-693 | the scope is marked disowned and its referent leaves the dedup set |
| ScopeTree.ScopeCreator.DisownDescendants | lib/AST/ASTScopeCreation.cpp:686-693 | the scope is left childless, everything below it is disowned and detached, nothing else changes |
| ScopeTree.ScopeCreator.DisownFirstChild | lib/AST/ASTScopeCreation.cpp:687-691 | one turn of the loop: one more child and everything below it are disowned |
| ScopeTree.ScopeCreator.RescueYoungestChildren | lib/AST/ASTScopeCreation.cpp:1501-1512 | the last `count` children are removed and returned in order, emancipated, referents kept |
| ScopeTree.ScopeCreator.RescueLastChild | lib/AST/ASTScopeCreation.cpp:1508-1511 | one turn of the loop: the last remaining child is removed and emancipated, everything else kept |
| ScopeTree.ScopeCreator.AddReusedScopes | lib/AST/ASTScopeCreation.cpp:1468-1472 | the rescued scopes become the last children, in order, and nothing else changes |
| ScopeTree.ScopeCreator.AddReusedScope | lib/AST/ASTScopeCreation.cpp:1470-1471 | one turn of the loop: the next rescued scope becomes the last child, the later ones untouched |
| ScopeTree.ScopeCreator.CreateSubtreeImpl | lib/AST/ASTScopeCreation.cpp:247-251 | a scope of the kind is appended to the parent and expanded; the point returned follows its rule |
| ScopeTree.ScopeCreator.CreateSubtree | lib/AST/ASTScopeCreation.cpp:220-224 | always creates and attaches the scope |
| ScopeTree.ScopeCreator.CreateSubtreeIfUnique | lib/AST/ASTScopeCreation.cpp:225-238 | creates the scope exactly when its referent is new; a duplicate changes nothing and yields null |
| ScopeTree.ScopeCreator.CreateSubtreeMustBeUnique | lib/AST/ASTScopeCreation.cpp:239-246 | a new referent creates the scope; a duplicate changes nothing and yields the parent |
| ScopeTree.ScopeCreator.ExpandAndBeCurrent | lib/AST/ASTScopeCreation.cpp:703-707 | expands by the kind's rule, then records the snapshot of beCurrent and the children count |
| ScopeTree.ScopeCreator.ExpandSpecifically | lib/AST/ASTScopeCreation.cpp:712-761 | the insertion point follows the kind's rule: itself, its parent, or a new scope below it |
| ScopeTree.ScopeCreator.ExpandDeclScope | lib/AST/ASTScopeCreation.cpp:712-761 | declaration kinds expand by their rule |
| ScopeTree.ScopeCreator.ExpandFunctionOrEntryScope | lib/AST/ASTScopeCreation.cpp:712-761 | function, parameter, body, pattern-entry and initializer kinds expand by their rule |
| ScopeTree.ScopeCreator.ExpandOtherDeclScope | lib/AST/ASTScopeCreation.cpp:712-761 | the other declaration kinds expand by their rule |
| ScopeTree.ScopeCreator.ExpandStmtScope | lib/AST/ASTScopeCreation.cpp:712-761 | statement kinds expand by their rule |
| ScopeTree.ScopeCreator.ExpandConditionalStmtScope | lib/AST/ASTScopeCreation.cpp:712-761 | conditional-clause, guard, if, while, repeat-while and do-catch kinds expand by their rule |
| ScopeTree.ScopeCreator.ExpandOtherStmtScope | lib/AST/ASTScopeCreation.cpp:712-761 | the other statement kinds expand by their rule |
| ScopeTree.ScopeCreator.ExpandClosureScope | lib/AST/ASTScopeCreation.cpp:712-761 | closure kinds expand by their rule |
| ScopeTree.ScopeCreator.ExpandFunctionParams | lib/AST/ASTScopeCreation.cpp:766-777 | the new children are exactly one default-argument scope per defaulted parameter, in order; returns the scope |
| ScopeTree.ScopeCreator.CreateDefaultArgScopeFor | lib/AST/ASTScopeCreation.cpp:772-775 | one parameter: a default-argument scope is appended exactly when it has a default value |
| Scopes.DefaultArgKindsStep | lib/AST/ASTScopeCreation.cpp:772-775 | the default-argument kinds of one more parameter extend the list by that parameter's scope, if any |
| ScopeTree.ScopeCreator.ExpandConditionalClause | lib/AST/ASTScopeCreation.cpp:811-827 | a pattern binding adds a pattern-use scope as last child and returns it; otherwise returns the clause |
| ScopeTree.ScopeCreator.ExpandGuard | lib/AST/ASTScopeCreation.cpp:829-840 | the clause scopes threaded from the guard scope; then, from the state they leave, the body's step under the guard scope itself; then a new lookup-parent diversion scope, the youngest child of the guard scope and the point returned, whose lookup parent is the point the last clause reached |
| ScopeTree.ScopeCreator.ExpandBrace | lib/AST/ASTScopeCreation.cpp:848-859 | the elements stably sorted by end location (a permutation, equal ends in their given order) and threaded from the brace scope, one step per element |
| ScopeTree.ScopeCreator.ExpandTopLevelCode | lib/AST/ASTScopeCreation.cpp:861-870 | a brace scope for a localizable body, created exactly when new, becomes the last child; otherwise nothing changes |
| ScopeTree.ScopeCreator.ExpandPatternEntryInitializer | lib/AST/ASTScopeCreation.cpp:803-809 | returns the initializer scope; every new child is a whole-closure scope of a closure in the initializer, and every such closure ends up in the dedup set |
| ScopeTree.ScopeCreator.ExpandPatternEntry | lib/AST/ASTScopeCreation.cpp:779-800 | a localizable initializer gives an initializer scope as the first new child; every new child is that scope or the scope of one of the entry's variables with accessors, and every such variable ends up in the dedup set |
| ScopeTree.ScopeCreator.CreateVarDeclScopes | lib/AST/ASTScopeCreation.cpp:795-797 | every new child is the scope of one of the entry's variables with accessors, and every such variable ends up in the dedup set |
| ScopeTree.ScopeCreator.CreateVarDeclScope | lib/AST/ASTScopeCreation.cpp:796 | one variable with accessors: it ends up in the dedup set, and every new child stays one of the entry's variable scopes |
| ScopeTree.ScopeCreator.VarScopeKindsScoped | lib/AST/ASTScopeCreation.cpp:795-797 | the entry's variables with accessors all in the dedup set put every referent of its variable scopes there |
| ScopeTree.ScopeCreator.ExpandFunctionDecl | lib/AST/ASTScopeCreation.cpp:880-909 | a unique scope per `@_specialize` attribute, stably sorted by location, each under the function scope; then, threaded from it, the generic parameter scopes and the parameters scope (not for an accessor, and the latter only for an explicit function with a parameter list) and the body scope when the body has a range |
| ScopeTree.ScopeCreator.CreateSpecializeScopes | lib/AST/ASTScopeCreation.cpp:882-887 | the attributes sorted by location, a permutation of the function's, stable on equal locations, and a unique scope for each under the function scope, in that order |
| ScopeTree.ScopeCreator.CreateSpecializeScope | lib/AST/ASTScopeCreation.cpp:884-886 | one turn of the loop: a unique scope for the next attribute under the function scope |
| ScopeTree.ScopeCreator.CreateFunctionChain | lib/AST/ASTScopeCreation.cpp:891-907 | the signature scopes (not for an accessor), then the body scope under the point they leave, threaded from the function scope |
| ScopeTree.ScopeCreator.CreateSignatureScopes | lib/AST/ASTScopeCreation.cpp:893-898 | the generic parameter scopes, then the parameters scope under the deepest of them for an explicit function with a parameter list; returns the new deepest point |
| ScopeTree.ScopeCreator.CreateParamsScope | lib/AST/ASTScopeCreation.cpp:895-898 | the parameters scope as a fresh child of the deepest generic scope, extending the generic trace by that one step |
| ScopeTree.ScopeCreator.ExpandFunctionBody | lib/AST/ASTScopeCreation.cpp:911-914 | for a brace body, every new child is that body's brace scope; a localizable body ends up in the dedup set and, when it was new, its scope is the last child; any other body changes nothing |
| ScopeTree.ScopeCreator.ExpandIf | lib/AST/ASTScopeCreation.cpp:916-926 | the clause scopes threaded from the if scope, the `then` branch's step under the innermost clause, and the `else` branch's step, if any, under the if scope itself |
| ScopeTree.ScopeCreator.CreateThenScopes | lib/AST/ASTScopeCreation.cpp:918-922 | the clause scopes threaded from the if scope, then the `then` branch's step under the innermost |
| ScopeTree.ScopeCreator.CreateElseScope | lib/AST/ASTScopeCreation.cpp:924-925 | the `else` branch's step under the if scope |
| ScopeTree.ScopeCreator.ExpandWhile | lib/AST/ASTScopeCreation.cpp:928-933 | the clause scopes threaded from the while scope, then the body's step under the innermost clause |
| ScopeTree.ScopeCreator.ExpandRepeatWhile | lib/AST/ASTScopeCreation.cpp:935-939 | the body's step, then the condition's closures with every one of them in the dedup set afterwards, both under the repeat scope |
| ScopeTree.ScopeCreator.ExpandDoCatch | lib/AST/ASTScopeCreation.cpp:941-949 | the body's step, then a unique scope per catch clause in order, all under the do-catch scope |
| ScopeTree.ScopeCreator.CreateCatchScope | lib/AST/ASTScopeCreation.cpp:945-948 | one turn of the loop: a unique scope for the next catch clause under the do-catch scope |
| ScopeTree.ScopeCreator.ExpandSwitch | lib/AST/ASTScopeCreation.cpp:951-960 | one step per child in source order, all under the switch scope: the subject's closures, then a unique case scope for each explicit case and nothing for an implicit one; every new child is of one of those kinds |
| ScopeTree.ScopeCreator.CreateCaseScope | lib/AST/ASTScopeCreation.cpp:956-959 | one turn of the loop: the next case's step under the switch scope |
| ScopeTree.ScopeCreator.ExpandForEach | lib/AST/ASTScopeCreation.cpp:962-974 | two steps under the for-each scope: the sequence's closures, with every one in the dedup set afterwards, then a pattern scope for a body that is not implicit, which comes last |
| ScopeTree.ScopeCreator.ExpandForEachPattern | lib/AST/ASTScopeCreation.cpp:976-981 | two steps under the pattern scope: the where clause's closures, then the body's brace scope; a localizable body new at its step gives the last child; every new child is of one of those kinds |
| ScopeTree.ScopeCreator.ExpandCatch | lib/AST/ASTScopeCreation.cpp:983-988 | the guard's closures, with every one in the dedup set afterwards, then the body's step, all under the catch scope |
| ScopeTree.ScopeCreator.ExpandCase | lib/AST/ASTScopeCreation.cpp:990-998 | per label item in order, its guard's closures with every one in the dedup set afterwards, then the body's step, all under the case scope |
| ScopeTree.ScopeCreator.VisitLabelGuard | lib/AST/ASTScopeCreation.cpp:992-994 | one turn of the loop: the next guard's closures, with every one in the dedup set afterwards; nothing without a guard |
| ScopeTree.ScopeCreator.ExpandVarDecl | lib/AST/ASTScopeCreation.cpp:1000-1003 | every new child is a function scope for an explicit localizable accessor of the variable's storage, and every such accessor ends up in the dedup set |
| ScopeTree.ScopeCreator.ExpandSubscript | lib/AST/ASTScopeCreation.cpp:1005-1012 | the generic parameter scopes, then the indices scope, threaded from the subscript scope; below the indices only function scopes for the accessors of the storage found there |
| ScopeTree.ScopeCreator.ExpandWholeClosure | lib/AST/ASTScopeCreation.cpp:1015-1025 | the new children are exactly, in order, a capture-list scope when the capture list is new, then a parameters scope when there is an `in` and the body scope otherwise; the parameters scope, when made, is last with the body scope as its last child; the capture list ends up in the dedup set |
| ScopeTree.ScopeCreator.ExpandClosureWithParameters | lib/AST/ASTScopeCreation.cpp:1017-1024 | with an `in`: the capture-list scope when new, then the parameters scope, last, with the body scope as its last child |
| ScopeTree.ScopeCreator.ExpandClosureWithoutParameters | lib/AST/ASTScopeCreation.cpp:1017-1024 | without an `in`: the capture-list scope when new, then the body scope, last |
| ScopeTree.ScopeCreator.CreateCaptureListScope | lib/AST/ASTScopeCreation.cpp:1017-1018 | the capture-list scope is the one new child exactly when the capture list is new; afterwards it is in the dedup set |
| ScopeTree.ScopeCreator.CreateClosureBody | lib/AST/ASTScopeCreation.cpp:1023-1024 | the body scope is appended as the last child, extending the list of new child kinds |
| ScopeTree.ScopeCreator.CreateClosureParametersAndBody | lib/AST/ASTScopeCreation.cpp:1020-1023 | a parameters scope as last child, with the body scope as its last child |
| ScopeTree.ScopeCreator.ExpandCaptureList | lib/AST/ASTScopeCreation.cpp:1027-1038 | every new child is a whole-closure scope of a closure in a capture initializer, and every such closure ends up in the dedup set |
| ScopeTree.ScopeCreator.AddCaptureEntryClosures | lib/AST/ASTScopeCreation.cpp:1031-1036 | one capture entry: its initializers' closures end up in the dedup set, every new child staying a closure scope of the capture list |
| ScopeTree.ScopeCreator.EntriesScopedNext | lib/AST/ASTScopeCreation.cpp:1030-1037 | the closures of the first entries in the dedup set, and then those of the next, give the closures of one more entry |
| ScopeTree.ScopeCreator.EntriesScopedAll | lib/AST/ASTScopeCreation.cpp:1030-1037 | the closures of every entry in the dedup set put every closure of the capture list there |
| ScopeTree.ScopeCreator.ExpandClosureBody | lib/AST/ASTScopeCreation.cpp:1040-1046 | every new child is the body's brace scope, and a localizable brace body that was new gets its scope as the last child |
| ScopeTree.ScopeCreator.ExpandDefaultArgument | lib/AST/ASTScopeCreation.cpp:1048-1054 | every new child is a whole-closure scope of a closure in the default value, and every such closure ends up in the dedup set |
| ScopeTree.ScopeCreator.ExpandAttachedPropertyWrapper | lib/AST/ASTScopeCreation.cpp:1056-1063 | every new child is a whole-closure scope of a closure in a custom attribute argument, and every such closure ends up in the dedup set |
| ScopeTree.ScopeCreator.VisitWrapperArg | lib/AST/ASTScopeCreation.cpp:1060-1061 | one argument: its closures end up in the dedup set, every new child staying a closure scope of the arguments |
| ScopeTree.ScopeCreator.ArgsScopedNext | lib/AST/ASTScopeCreation.cpp:1059-1062 | the closures of the first arguments in the dedup set, and then those of the next, give the closures of one more argument |
| ScopeTree.ScopeCreator.ArgsScopedAll | lib/AST/ASTScopeCreation.cpp:1059-1062 | the closures of every argument in the dedup set put every closure of the attributes there |
| ScopeTree.ScopeCreator.ExpandWholePortion | lib/AST/ASTScopeCreation.cpp:1067-1080 | an iterable type without a body is left alone; otherwise the generic parameter scopes threaded from the scope, and below the deepest of them exactly a where portion (for a trailing where clause, not for an opaque type) and then a body portion (for an iterable type) as the new children; a non-generic iterable type gets its body portion as last child |
| ScopeTree.ScopeCreator.CreateWhereAndBodyPortions | lib/AST/ASTScopeCreation.cpp:1076-1078 | the new children of the deepest generic scope are exactly the where portion, when there is a trailing where clause and the type is not opaque, then the body portion of an iterable type, which is last |
| ScopeTree.ScopeCreator.AttachPortionIf | lib/AST/ASTScopeCreation.cpp:1076-1078 | when asked, one more portion scope as the youngest child, extending the list of new child kinds; otherwise nothing changes |
| ScopeTree.ScopeCreator.ExpandBodyPortion | lib/AST/ASTScopeCreation.cpp:1082-1087 | for an iterable type, one step per member in source order (a permutation of the localizable members, sorted by the corrected key), each under the body portion |
| ScopeTree.ScopeCreator.CreateMemberScope | lib/AST/ASTScopeCreation.cpp:1084-1086 | one turn of the loop: the next member's step under the body portion |
| ScopeTree.ScopeCreator.CreateNestedConditionalClauseScopes | lib/AST/ASTScopeCreation.cpp:1138-1147 | one clause scope per condition element, each created under the point the previous one returned; no conditions change nothing, otherwise the first is the youngest child and the point returned is new |
| ScopeTree.ScopeCreator.CreateConditionalClauseLink | lib/AST/ASTScopeCreation.cpp:1141-1144 | one turn of the loop: the next clause scope under the last point, which moves to the point it returns |
| ScopeTree.ScopeCreator.CreateGenericParamScopes | lib/AST/ASTScopeCreation.cpp:307-317 | no generic list changes nothing; otherwise a unique scope per parameter, each created under the point the previous one left, which is the deepest returned; a new first parameter gives its scope as last child; every parameter ends up in the dedup set |
| ScopeTree.ScopeCreator.CreateGenericParamChain | lib/AST/ASTScopeCreation.cpp:310-316 | the loop: the trace of one unique-scope step per parameter, each under the point the previous one left; the last point is returned |
| ScopeTree.ScopeCreator.CreateGenericParamLink | lib/AST/ASTScopeCreation.cpp:312-314 | one turn of the loop: the next parameter's scope under the last point, which moves to it when it is new and stays for a duplicate |
| ScopeTree.ScopeCreator.AddChildrenForAllLocalizableAccessors | lib/AST/ASTScopeCreation.cpp:651-662 | only function scopes for explicit localizable accessors of the enclosing storage are added, and each such accessor ends up in the dedup set |
| ScopeTree.ScopeCreator.AddAccessorScopes | lib/AST/ASTScopeCreation.cpp:653-661 | the same for a given storage |
| ScopeTree.ScopeCreator.AddAccessorScope | lib/AST/ASTScopeCreation.cpp:653-660 | one turn of the loop: a function scope for the accessor only when it qualifies, and its referent is then in the dedup set |
| ScopeTree.ScopeCreator.EnclosingStorage | lib/AST/ASTScopeCreation.cpp:1173-1192 | a variable or subscript scope names its own storage; a found storage belongs to an ancestor-or-self variable or subscript scope |
| ScopeTree.ScopeCreator.CreateAttachedPropertyWrapperScope | lib/AST/ASTScopeCreation.cpp:294-300 | the new children are exactly the wrapper scopes of the first pattern's variables, in order |
| ScopeTree.ScopeCreator.CreateWrapperScopeFor | lib/AST/ASTScopeCreation.cpp:296-298 | one variable: a wrapper scope is appended exactly when it has an attached property wrapper |
| Scopes.WrapperKindsStep | lib/AST/ASTScopeCreation.cpp:296-298 | the wrapper kinds of one more variable extend the list by that variable's scope, if any |
| ScopeTree.ScopeCreator.AddChildrenForCapturesAndClosuresIn | lib/AST/ASTScopeCreation.cpp:267-280 | only whole-closure scopes for the closures found are added, and every closure found ends up in the dedup set |
| ScopeTree.ScopeCreator.AddWholeClosureScope | lib/AST/ASTScopeCreation.cpp:269-273 | one closure found: only its whole-closure scope can be added, and its closure is then in the dedup set |
| ScopeTree.ScopeCreator.ClosureKindsScoped | lib/AST/ASTScopeCreation.cpp:267-280 | every closure found in the dedup set puts every whole-closure referent of the expression there |
| ScopeTree.ScopeCreator.CreateScopeFor | lib/AST/ASTScopeCreation.cpp:639-648 | an implicit node changes nothing; otherwise the visitor's growth and point |
| ScopeTree.ScopeCreator.VisitExpr | lib/AST/ASTScopeCreation.cpp:625-632 | only whole-closure scopes for the expression's closures are added, and every such closure ends up in the dedup set |
| ScopeTree.ScopeCreator.VisitBraceStmt | lib/AST/ASTScopeCreation.cpp:539-545 | the point is kept; a localizable brace ends up in the dedup set and its scope, when new, is the one new child, last; otherwise nothing changes |
| ScopeTree.ScopeCreator.Visit | lib/AST/ASTScopeCreation.cpp:418-632 | the action the visitor table gives the node's class was performed: nothing for an ignored node; a unique scope of the chosen kind as the youngest child, followed by the point, or null for a duplicate; a kept point with only children of the given kinds, each referent in the dedup set afterwards; for a pattern binding, its wrapper scopes then its entry scopes under the kept point; for an `#if`, every clause threaded from the point, then a diversion scope whose lookup parent is where the last active clause ended |
| ScopeTree.ScopeCreator.VisitDecl | lib/AST/ASTScopeCreation.cpp:420-602 | the same for declarations: ignored classes, variables and accessors change nothing; functions, subscripts, top-level code and types get a unique scope; pattern bindings and `#if` blocks get their own handling; an enum element's raw value adds only closure scopes |
| ScopeTree.ScopeCreator.VisitStmt | lib/AST/ASTScopeCreation.cpp:449-623 | the same for statements: conditional, loop, switch, case, catch and do-catch statements get a unique scope of their kind; the others as for plain statements |
| ScopeTree.ScopeCreator.VisitPlainStmt | lib/AST/ASTScopeCreation.cpp:510-623 | the same for braces, `do`, `yield`, `defer`, `return`, `throw` and `#assert`: a localizable brace gets a unique scope and the point is kept; `do` performs its body's step; the others keep the point and add only the scopes of their closures or deferred function, each ending up in the dedup set |
| ScopeTree.ScopeCreator.VisitScopeDecl | lib/AST/ASTScopeCreation.cpp:458-518 | a function that is not an accessor, a subscript, top-level code or a type: a unique scope of its kind, null for a duplicate |
| ScopeTree.ScopeCreator.VisitBindingDecl | lib/AST/ASTScopeCreation.cpp:546-568 | the pattern-binding action: wrapper scopes, then entry scopes, all under the kept point |
| ScopeTree.ScopeCreator.VisitIfConfig | lib/AST/ASTScopeCreation.cpp:578-603 | the `#if` action: every clause threaded from the point, then the diversion scope |
| ScopeTree.ScopeCreator.VisitDeferStmt | lib/AST/ASTScopeCreation.cpp:533-537 | for a deferred function, only its function scope under the kept point, with the function in the dedup set afterwards; nothing otherwise |
| ScopeTree.ScopeCreator.VisitBrace | lib/AST/ASTScopeCreation.cpp:539-544 | a localizable brace gets its unique scope under the kept point; otherwise nothing changes |
| ScopeTree.ScopeCreator.VisitDoStmt | lib/AST/ASTScopeCreation.cpp:510-513 | the body's step under the point |
| ScopeTree.ScopeCreator.VisitYield | lib/AST/ASTScopeCreation.cpp:526-531 | the kept point with only closure scopes of the yielded expressions, every such closure in the dedup set afterwards |
| ScopeTree.ScopeCreator.VisitReturnStmt | lib/AST/ASTScopeCreation.cpp:605-610 | the kept point with only the result's closure scopes, every such closure in the dedup set afterwards; nothing without a result |
| ScopeTree.ScopeCreator.VisitThrowStmt | lib/AST/ASTScopeCreation.cpp:612-616 | the kept point with only the thrown expression's closure scopes, every such closure in the dedup set afterwards |
| ScopeTree.ScopeCreator.VisitPoundAssertStmt | lib/AST/ASTScopeCreation.cpp:618-623 | the kept point with only the condition's closure scopes, every such closure in the dedup set afterwards |
| ScopeTree.ScopeCreator.VisitYieldResults | lib/AST/ASTScopeCreation.cpp:526-531 | the point is kept, every new child is a whole-closure scope of a closure in the yielded expressions, and every such closure ends up in the dedup set |
| ScopeTree.ScopeCreator.VisitYieldResult | lib/AST/ASTScopeCreation.cpp:528-529 | one yielded expression: its closures end up in the dedup set, every new child staying a closure scope of the yield |
| ScopeTree.ScopeCreator.ResultsScopedNext | lib/AST/ASTScopeCreation.cpp:528-529 | the closures of the first results in the dedup set, and then those of the next, give the closures of one more result |
| ScopeTree.ScopeCreator.ResultsScopedAll | lib/AST/ASTScopeCreation.cpp:528-529 | the closures of every result in the dedup set put every closure of the yield there |
| ScopeTree.ScopeCreator.VisitPatternBindingDecl | lib/AST/ASTScopeCreation.cpp:546-568 | wrapper scopes first, then entry scopes in index order, all children of the point, which is returned |
| ScopeTree.ScopeCreator.CreatePatternEntryScopes | lib/AST/ASTScopeCreation.cpp:557-564 | entry scopes in index order as children of the point; every entry's pattern ends up in the dedup set |
| ScopeTree.ScopeCreator.CreatePatternEntryScope | lib/AST/ASTScopeCreation.cpp:558-562 | one entry: an entry scope is appended unless one exists, and the insertion point threaded on is the point again |
| ScopeTree.ScopeCreator.VisitIfConfigDecl | lib/AST/ASTScopeCreation.cpp:578-603 | each clause threaded from the point: its condition's closures, then one step per element under the point the previous element left; then a new diversion scope, the youngest child and the point returned, whose lookup parent is where the last active clause ended, or the point itself when none is active |
| ScopeTree.ScopeCreator.VisitIfConfigClauses | lib/AST/ASTScopeCreation.cpp:581-599 | the loop: every clause threaded from the point, the lookup parent being where the last active clause so far ended |
| ScopeTree.ScopeCreator.VisitIfConfigClause | lib/AST/ASTScopeCreation.cpp:583-598 | one turn of the loop: the next clause threaded from the point; an active clause moves the lookup parent to where it ended |
| ScopeTree.ScopeCreator.VisitClause | lib/AST/ASTScopeCreation.cpp:584-593 | one clause: its condition's closures under the point, then each element's step under the point the previous one left |
| ScopeTree.ScopeCreator.VisitCondition | lib/AST/ASTScopeCreation.cpp:584-585 | the condition's closures under the kept point, every one in the dedup set afterwards; nothing without a condition |
| ScopeTree.LastActiveClause | lib/AST/ASTScopeCreation.cpp:594-598 | the index of the last active clause among the first n, every later one inactive; -1 exactly when none is active |
| ScopeTree.ClausesThreadedNext | lib/AST/ASTScopeCreation.cpp:583-599 | the clauses threaded so far, then the next one threaded from the point, are one more threaded clause |
| ScopeTree.ScopeCreator.AddClauseElements | lib/AST/ASTScopeCreation.cpp:583-597 | the clause's elements threaded from the point, one step each; the result is the point or a new scope below it |
| ScopeTree.ScopeCreator.CreateDiversionScope | lib/AST/ASTScopeCreation.cpp:600-601 | a diversion scope with the given lookup parent, the youngest child and the new insertion point |
| ScopeTree.ScopeCreator.AddScopesToTree | lib/AST/ASTScopeCreation.cpp:135-145 | the point threads through the nodes: each node's step ran under the point the previous one left, an ignored node changing nothing and a null result keeping the point |
| ScopeTree.ScopeCreator.AddScopeFor | lib/AST/ASTScopeCreation.cpp:139-140 | one node's step: createScopeFor's action under the point, which moves to its result or stays for null |
| ScopeTree.ThreadedPrepend | lib/AST/ASTScopeCreation.cpp:584-593 | a step, then a trace from where it ended, is a trace |
| ScopeTree.StepPerformed | lib/AST/ASTScopeCreation.cpp:135-145 | a performed step is a threaded step whose point is its result, or the old point for null |
| ScopeTree.ThreadedExtend | lib/AST/ASTScopeCreation.cpp:135-145 | a trace followed by one more step from its last state and point is a trace |
| ScopeTree.ThreadedNext | lib/AST/ASTScopeCreation.cpp:135-145 | the trace of the first steps followed by the next one is the trace of one more step |
| ScopeTree.FannedExtend | lib/AST/ASTScopeCreation.cpp:941-949 | steps all under one scope followed by one more under it are steps all under it |
| ScopeTree.FannedNext | lib/AST/ASTScopeCreation.cpp:1082-1087 | the steps of a prefix under one scope followed by the next one are the steps of the longer prefix |
| ScopeTree.ScopeCreator.ReuseHolder | lib/AST/ASTScopeCreation.cpp:1464-1499 | the scope itself, or the first child for a delegating kind |
| ScopeTree.ScopeCreator.RescueScopesToReuse | lib/AST/ASTScopeCreation.cpp:1464-1492 | exactly the children added since the last expansion, detached, not disowned, distinct |
| Forest.RecentChildren | lib/AST/ASTScopeCreation.cpp:1464-1467 | the children added since the last expansion are live, distinct from the scope, and one or two levels below it |
| ScopeTree.ScopeCreator.AddReusedScopesFor | lib/AST/ASTScopeCreation.cpp:1468-1499 | the rescued scopes follow the scope's children, or its first child's for a delegating kind |
| ScopeTree.ScopeCreator.Reexpand | lib/AST/ASTScopeCreation.cpp:1287-1292 | kind and parent kept, snapshot refreshed, rescued scopes survive and end the scope's children; for a function-body or top-level-code scope they end its first child's children instead |
| ScopeTree.ScopeCreator.ExpandAfresh | lib/AST/ASTScopeCreation.cpp:1289-1290 | everything below the scope is disowned, then the scope is expanded afresh with kind and parent kept and snapshot refreshed |
| ScopeTree.ScopeCreator.ReexpandIfObsolete | lib/AST/ASTScopeCreation.cpp:1282-1285 | a current scope is left alone; afterwards every kind but a pattern entry is current |
| ScopeTree.ScopeCreator.SeeEdit | lib/AST/ASTScopeCreation.cpp:1376-1398 | only the scope's kind changes, to see the edited node |
| ScopeTree.SourceFileScope.CreateScopeTree | lib/AST/ASTScopeCreation.cpp:383-387 | a fresh tree rooted at the source-file scope, with every declaration seen and every live scope below the root |
| ScopeTree.SourceFileScope.AddNewDeclsToTree | lib/AST/ASTScopeCreation.cpp:389-399 | only the declarations not seen before are threaded from the saved point, one step each, and the point moves to where they leave it; with none new nothing changes |

## Left out

- Source ranges, their widening for ignored nodes, and all source-location arithmetic except the start and end keys used for ordering.
- Allocation in the `ASTContext`, cleanup registration in `addChild`, `print` and `dump`.
- `createGenericParamsIfMissing` for protocols: generic parameter lists are part of the input.
- The `MustBeUnique` abort: a duplicate is modelled as creating nothing and returning the parent, because it is an `llvm_unreachable` deep in the recursion.
- In the reuse delegation of function-body and top-level-code scopes, the source calls `front()` on the children even when there are none. The model leaves the rescued scopes detached in that case.
- The reuse delegation is modelled one level deep: the first child uses the base behaviour, since it is always a brace scope.
- The `std::sort` of `@_specialize` attributes is modelled as a stable sort.
- IfConfigDecl: with more than one active clause, the model follows a release build, where the last active clause wins. The debug-build assertion is not a precondition.
- createAttachedPropertyWrapperScope reads the first pattern without checking that the pattern list is non-empty. The model creates no wrapper scope for an empty list instead of requiring a non-empty one.
- The model does not assume that AST identities are distinct.
- AddChildrenForAllLocalizableAccessors computes the enclosing storage once per call, not once per accessor. Adding children below the scope does not change that storage.
- The header declaring the scope classes and the other lookup files are not part of this model.
- ExpandSubscript: the storage whose accessors get scopes below the indices scope is the enclosing storage found there, not shown to be the subscript itself.
- GetMembersInSourceOrder: the debug assertion that a pattern binding precedes its variables is not checked; the ordering ensures take it as a hypothesis.

## Findings

| source | as written | input that shows it | evidently intended | confidence | as-written member | corrected member |
|---|---|---|---|---|---|---|
| lib/AST/ASTScopeCreation.cpp:1339-1343 | at equal start locations, the member comparator returns "d1 first" unless d1 is a variable of d2, so it returns true for (d, d), and for two unrelated members at one location it returns true both ways; this is not a strict weak ordering, which `std::is_sorted` and `std::stable_sort` require | two unrelated declarations that start at the same location, e.g. two members expanded from one macro or attribute | order by start location and, at equal starts, every pattern binding before the other members, a strict weak ordering under which a pattern binding still precedes its own variables | not executed | SourceOrder.AsWrittenComparatorIsNotAsymmetric | SourceOrder.MemberSortKeyOrder |

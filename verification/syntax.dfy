/**
 * The parsed, immutable Swift AST that the scope-tree builder reads.
 *
 * Declarations, statements and expressions share one datatype `Node` (the
 * builder's `ASTNode` is a union of the three).  Every node carries an `Info`:
 * an integer identity (its pointer), its start and end locations and its
 * `implicit` flag.  A location is a natural number; 0 is the invalid location
 * and valid locations compare as their buffer order.  Patterns, types,
 * parameter lists and attributes that the builder never descends into are not
 * represented inside expressions.
 */
module Syntax {
  import opened Wrappers

  /** A source location; 0 is the invalid location. */
  type Loc = nat

  predicate IsValidLoc(l: Loc) { l != 0 }

  datatype Info = Info(id: int, start: Loc, end: Loc, implicit: bool)

  /** Declarations the builder ignores (only widening a source range). */
  datatype IgnoredDeclKind =
    | ImportDecl | EnumCaseDecl | PrecedenceGroupDecl | InfixOperatorDecl
    | PrefixOperatorDecl | PostfixOperatorDecl | GenericTypeParamDecl
    | AssociatedTypeDecl | ModuleDecl | ParamDecl | PoundDiagnosticDecl
    | MissingMemberDecl

  /** Statements that contain nothing to scope. */
  datatype SimpleStmtKind = BreakStmt | ContinueStmt | FallthroughStmt | FailStmt

  /** The concrete classes of AbstractFunctionDecl; an accessor names its storage. */
  datatype FunctionKind = FuncDecl | ConstructorDecl | DestructorDecl | AccessorDecl(storage: int)

  /** Generic type declarations and extensions. */
  datatype TypeDeclKind =
    | StructDecl | ClassDecl | EnumDecl | ProtocolDecl | ExtensionDecl
    | TypeAliasDecl | OpaqueTypeDecl

  /** A generic parameter list: the identity of each parameter, in order. */
  datatype GenericParamList = GenericParamList(params: seq<int>)

  datatype SpecializeAttr = SpecializeAttr(id: int, loc: Loc)

  /** A function or subscript parameter and its default-argument expression. */
  datatype Param = Param(id: int, defaultValue: Option<Node>)

  /** One `pattern = init` entry of a pattern binding; `vars` are the variables the pattern binds. */
  datatype PatternEntry = PatternEntry(patternId: int, vars: seq<Node>, initAsWritten: Option<Node>)

  /** One element of an `if`/`while`/`guard` condition. */
  datatype StmtConditionElement =
    | Availability
    | Boolean(expr: Node)
    | PatternBinding(patternId: int, initializer: Node)

  /** One clause of `#if … #elseif … #else … #endif`. */
  datatype IfConfigClause = IfConfigClause(cond: Option<Node>, elements: seq<Node>, isActive: bool)

  /** One capture-list entry and the initializers of its pattern entries. */
  datatype CaptureListEntry = CaptureListEntry(inits: seq<Node>)

  datatype CaseLabelItem = CaseLabelItem(guardExpr: Option<Node>)

  datatype Node =
    // declarations
    | IgnoredDecl(info: Info, ignored: IgnoredDeclKind)
    | VarDecl(info: Info, parentPatternBinding: Option<int>, accessors: seq<Node>,
              customAttrArgs: seq<Option<Node>>, hasAttachedPropertyWrapper: bool)
    | AbstractFunctionDecl(info: Info, fkind: FunctionKind, genericParams: Option<GenericParamList>,
                           params: seq<Param>, paramsLoc: Loc, funcBody: Option<Node>,
                           hasBodySourceRange: bool, isAMethod: bool,
                           specializeAttrs: seq<SpecializeAttr>)
    | SubscriptDecl(info: Info, genericParams: Option<GenericParamList>, indices: seq<Param>,
                    accessors: seq<Node>)
    | PatternBindingDecl(info: Info, patternList: seq<PatternEntry>)
    | EnumElementDecl(info: Info, rawValueExpr: Option<Node>)
    | IfConfigDecl(info: Info, clauses: seq<IfConfigClause>)
    | TopLevelCodeDecl(info: Info, body: Node)
    | TypeDecl(info: Info, tkind: TypeDeclKind, genericParams: Option<GenericParamList>,
               hasTrailingWhereClause: bool, hasBody: bool, members: seq<Node>)
    // statements
    | BraceStmt(info: Info, elements: seq<Node>)
    | IfStmt(info: Info, cond: seq<StmtConditionElement>, thenStmt: Node, elseStmt: Option<Node>)
    | GuardStmt(info: Info, cond: seq<StmtConditionElement>, body: Node)
    | WhileStmt(info: Info, cond: seq<StmtConditionElement>, body: Node)
    | RepeatWhileStmt(info: Info, body: Node, condExpr: Node)
    | DoStmt(info: Info, body: Node)
    | DoCatchStmt(info: Info, body: Node, catches: seq<Node>)
    | CatchStmt(info: Info, guardExpr: Option<Node>, body: Node)
    | SwitchStmt(info: Info, subject: Node, cases: seq<Node>)
    | CaseStmt(info: Info, labelItems: seq<CaseLabelItem>, body: Node)
    | ForEachStmt(info: Info, sequence: Node, whereExpr: Option<Node>, body: Node)
    | SimpleStmt(info: Info, simple: SimpleStmtKind)
    | YieldStmt(info: Info, results: seq<Node>)
    | DeferStmt(info: Info, tempDecl: Node)
    | ReturnStmt(info: Info, result: Option<Node>)
    | ThrowStmt(info: Info, subExpr: Node)
    | PoundAssertStmt(info: Info, condition: Node)
    // expressions
    | ClosureExpr(info: Info, inLoc: Loc, body: Node)
    | CaptureListExpr(info: Info, captureList: seq<CaptureListEntry>, closure: Node)
    | OtherExpr(info: Info, subNodes: seq<Node>)

  predicate IsExpr(n: Node) {
    n.ClosureExpr? || n.CaptureListExpr? || n.OtherExpr?
  }

  predicate IsDecl(n: Node) {
    n.IgnoredDecl? || n.VarDecl? || n.AbstractFunctionDecl? || n.SubscriptDecl?
    || n.PatternBindingDecl? || n.EnumElementDecl? || n.IfConfigDecl?
    || n.TopLevelCodeDecl? || n.TypeDecl?
  }

  predicate IsStmt(n: Node) {
    !IsExpr(n) && !IsDecl(n)
  }

  predicate IsAccessor(n: Node) {
    n.AbstractFunctionDecl? && n.fkind.AccessorDecl?
  }

  /** isLocalizable: the element has a valid start location. */
  predicate IsLocalizable(n: Node) {
    IsValidLoc(n.info.start)
  }

  /** NominalTypeDecl or ExtensionDecl: the declarations whose bodies hold members. */
  predicate IsIterableTypeDecl(n: Node) {
    n.TypeDecl? && n.tkind in {StructDecl, ClassDecl, EnumDecl, ProtocolDecl, ExtensionDecl}
  }

  /** The explicit (non-implicit) members of a type or extension, as counted by the AST. */
  function ExplicitMemberCount(members: seq<Node>): nat
  {
    if members == [] then 0
    else ExplicitMemberCount(members[..|members| - 1])
         + (if members[|members| - 1].info.implicit then 0 else 1)
  }

  /** The parameters of a function (its parameter list) or of a subscript (its indices). */
  function ParamsOf(owner: Node): seq<Param>
  {
    match owner
    case AbstractFunctionDecl(_, _, _, params, _, _, _, _, _) => params
    case SubscriptDecl(_, _, indices, _) => indices
    case _ => []
  }

  /** The accessors of a storage declaration. */
  function AccessorsOf(storage: Node): seq<Node>
  {
    match storage
    case VarDecl(_, _, accessors, _, _) => accessors
    case SubscriptDecl(_, _, _, accessors) => accessors
    case _ => []
  }

  /** The generic parameter list of a declaration, if it has one. */
  function GenericParamsOf(d: Node): Option<GenericParamList>
  {
    match d
    case AbstractFunctionDecl(_, _, g, _, _, _, _, _, _) => g
    case SubscriptDecl(_, g, _, _) => g
    case TypeDecl(_, _, g, _, _, _) => g
    case _ => None
  }

  /** The closure a found expression denotes: itself, or the closure of a capture list. */
  function ClosureOf(found: Node): Node
  {
    match found
    case CaptureListExpr(_, _, closure) => closure
    case _ => found
  }

  /** The identity of a function's body, or None when it has none. */
  function BodyIdOf(decl: Node): Option<int>
  {
    if decl.AbstractFunctionDecl? && decl.funcBody.Some? then Some(decl.funcBody.value.info.id) else None
  }
}

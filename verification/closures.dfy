/**
 * ScopeCreator::forEachClosureIn as a function: the outermost closures and
 * capture lists of an expression, in walk order.  The walk stops at a closure
 * or a capture list, descends through every other expression and through
 * brace statements, and skips declarations and all other statements.
 */
module Closures {
  import opened Syntax

  /** The closures (or capture lists wrapping them) found in `e`, each `e` itself or inside `e`. */
  function ClosuresIn(e: Node): (found: seq<Node>)
    ensures forall i :: 0 <= i < |found| ==>
              (found[i].ClosureExpr? || found[i].CaptureListExpr?) && (found[i] == e || found[i] < e)
    ensures (e.ClosureExpr? || e.CaptureListExpr?) ==> found == [e]
    ensures (IsDecl(e) || (IsStmt(e) && !e.BraceStmt?)) ==> found == []
  {
    match e
    case ClosureExpr(_, _, _) => [e]
    case CaptureListExpr(_, _, _) => [e]
    case OtherExpr(_, subNodes) => ClosuresInAll(subNodes)
    case BraceStmt(_, elements) => ClosuresInAll(elements)
    case _ => []
  }

  /** The closures found in each node of `nodes`, concatenated in order. */
  function ClosuresInAll(nodes: seq<Node>): (found: seq<Node>)
    ensures forall i :: 0 <= i < |found| ==>
              (found[i].ClosureExpr? || found[i].CaptureListExpr?)
              && exists j :: 0 <= j < |nodes| && (found[i] == nodes[j] || found[i] < nodes[j])
  {
    if nodes == [] then []
    else
      var front := ClosuresInAll(nodes[..|nodes| - 1]);
      var last := ClosuresIn(nodes[|nodes| - 1]);
      assert forall j :: 0 <= j < |nodes| - 1 ==> nodes[..|nodes| - 1][j] == nodes[j];
      front + last
  }

  /** A closure that is a direct operand of an expression is found in it. */
  lemma {:induction false} OperandClosureFound(e: Node, i: nat)
    requires e.OtherExpr? && i < |e.subNodes|
    requires e.subNodes[i].ClosureExpr? || e.subNodes[i].CaptureListExpr?
    ensures e.subNodes[i] in ClosuresIn(e)
  {
    ElementClosureFound(e.subNodes, i);
  }

  lemma {:induction false} ElementClosureFound(nodes: seq<Node>, i: nat)
    requires i < |nodes| && (nodes[i].ClosureExpr? || nodes[i].CaptureListExpr?)
    ensures nodes[i] in ClosuresInAll(nodes)
    decreases |nodes|
  {
    var init := nodes[..|nodes| - 1];
    if i < |nodes| - 1 {
      ElementClosureFound(init, i);
      assert nodes[i] == init[i];
    }
  }
  /**
   * `c` is a closure or capture list that the walk reaches from `n`: `n`
   * itself when `n` is one, or reached from an operand of an expression or an
   * element of a brace statement, never from inside a closure, a capture
   * list, a declaration or another statement.
   */
  ghost predicate Outermost(c: Node, n: Node)
  {
    match n
    case ClosureExpr(_, _, _) => c == n
    case CaptureListExpr(_, _, _) => c == n
    case OtherExpr(_, subNodes) => exists i :: 0 <= i < |subNodes| && Outermost(c, subNodes[i])
    case BraceStmt(_, elements) => exists i :: 0 <= i < |elements| && Outermost(c, elements[i])
    case _ => false
  }

  /** forEachClosureIn finds exactly the closures the walk reaches without entering a closure. */
  lemma {:induction false} ClosuresInExact(c: Node, e: Node)
    ensures c in ClosuresIn(e) <==> Outermost(c, e)
    decreases e, 1
  {
    match e
    case ClosureExpr(_, _, _) =>
    case CaptureListExpr(_, _, _) =>
    case OtherExpr(_, subNodes) =>
      ClosuresInAllExact(c, subNodes, e);
    case BraceStmt(_, elements) =>
      ClosuresInAllExact(c, elements, e);
    case _ =>
  }

  /** The closures found in a list are those the walk reaches from one of its nodes. */
  lemma {:induction false} ClosuresInAllExact(c: Node, nodes: seq<Node>, within: Node)
    requires forall j :: 0 <= j < |nodes| ==> nodes[j] < within
    ensures c in ClosuresInAll(nodes) <==> exists j :: 0 <= j < |nodes| && Outermost(c, nodes[j])
    decreases within, 0, |nodes|
  {
    if nodes != [] {
      var init := nodes[..|nodes| - 1];
      var last := nodes[|nodes| - 1];
      ClosuresInAllExact(c, init, within);
      ClosuresInExact(c, last);
      assert forall j :: 0 <= j < |init| ==> init[j] == nodes[j];
      if exists j :: 0 <= j < |nodes| && Outermost(c, nodes[j]) {
        var j :| 0 <= j < |nodes| && Outermost(c, nodes[j]);
        if j < |init| {
          assert Outermost(c, init[j]);
        }
      }
    }
  }
}

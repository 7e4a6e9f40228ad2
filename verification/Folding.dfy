/**
  * Folding keeps the meaning of every tree, and computes every closed expression of
  * integer and boolean literals.
  */
module Folding {
  import opened Common
  import opened Ast
  import opened Arithmetic
  import opened Tokens
  import opened Grammar
  import opened Builder
  import opened Machine
  import opened Semantics
  import opened IsoC

  /** Two expressions with one value and one effect, whatever the variables hold. */
  ghost predicate Same(e: Expr, f: Expr) {
    forall d :: IsoEval(e, d) == IsoEval(f, d)
  }

  /** The node that folding makes stands for the node that is made without it. */
  ghost predicate Stands(b: Node, u: Node) {
    match b
    case Node(k, l, e) => u.Node? && u.kind == k && u.lvalue == l && Same(e, u.expr) && (e.Var? <==> u.expr.Var?)
      && (e.Var? ==> e == u.expr) && (e.Lit? && k == Boolean ==> e.value == 0 || e.value == 1)
    case Refused => u.Refused?
    case Undefined => true
  }

  lemma SameUnary(op: UnaryOp, a: Expr, a': Expr)
    requires Same(a, a')
    ensures Same(Unary(op, a), Unary(op, a'))
  {
    hide IsoEval;
    forall d ensures IsoEval(Unary(op, a), d) == IsoEval(Unary(op, a'), d) {
      SameUnaryIn(op, a, a', d);
    }
  }

  lemma SameUnaryIn(op: UnaryOp, a: Expr, a': Expr, d: Data)
    requires IsoEval(a, d) == IsoEval(a', d)
    ensures IsoEval(Unary(op, a), d) == IsoEval(Unary(op, a'), d)
  {
    hide ApplyUnary;
  }

  lemma SameBinary(op: BinaryOp, a: Expr, a': Expr, b: Expr, b': Expr)
    requires Same(a, a') && Same(b, b')
    ensures Same(Binary(op, a, b), Binary(op, a', b'))
  {
    hide ApplyBinary;
    forall d ensures IsoEval(Binary(op, a, b), d) == IsoEval(Binary(op, a', b'), d) {
      assert IsoEval(a, d) == IsoEval(a', d);
      if IsoEval(a, d).Some? {
        assert IsoEval(b, IsoEval(a, d).value.1) == IsoEval(b', IsoEval(a, d).value.1);
      }
    }
  }

  lemma SameComma(a: Expr, a': Expr, b: Expr, b': Expr)
    requires Same(a, a') && Same(b, b')
    ensures Same(Comma(a, b), Comma(a', b'))
  {
  }

  lemma SameTernary(c: Expr, c': Expr, a: Expr, a': Expr, b: Expr, b': Expr)
    requires Same(c, c') && Same(a, a') && Same(b, b')
    ensures Same(Ternary(c, a, b), Ternary(c', a', b'))
  {
  }

  lemma SameAssign(op: AssignOp, x: int, a: Expr, a': Expr)
    requires Same(a, a')
    ensures Same(Assign(op, x, a), Assign(op, x, a'))
  {
    hide IsoEval;
    forall d ensures IsoEval(Assign(op, x, a), d) == IsoEval(Assign(op, x, a'), d) {
      SameAssignIn(op, x, a, a', d);
    }
  }

  lemma SameAssignIn(op: AssignOp, x: int, a: Expr, a': Expr, d: Data)
    requires IsoEval(a, d) == IsoEval(a', d)
    ensures IsoEval(Assign(op, x, a), d) == IsoEval(Assign(op, x, a'), d)
  {
    hide ApplyAssign;
  }

  /** A literal computed in the compiler is the value the operator would have at run time. */
  lemma FoldedUnary(op: UnaryOp, v: int, a: Expr)
    requires Same(Lit(v), a) && ApplyUnary(op, v).Some?
    ensures Same(Lit(ApplyUnary(op, v).value), Unary(op, a))
  {
    var r := ApplyUnary(op, v).value;
    forall d ensures IsoEval(Lit(r), d) == IsoEval(Unary(op, a), d) {
      assert IsoEval(Lit(v), d) == IsoEval(a, d);
    }
  }

  lemma FoldedBinary(op: BinaryOp, v: int, w: int, a: Expr, b: Expr)
    requires Same(Lit(v), a) && Same(Lit(w), b) && ApplyBinary(op, v, w).Some?
    ensures Same(Lit(ApplyBinary(op, v, w).value), Binary(op, a, b))
  {
    hide ApplyBinary, IsoEval;
    var r := ApplyBinary(op, v, w).value;
    forall d ensures IsoEval(Lit(r), d) == IsoEval(Binary(op, a, b), d) {
      FoldedBinaryIn(op, v, w, a, b, d);
    }
  }

  lemma FoldedBinaryIn(op: BinaryOp, v: int, w: int, a: Expr, b: Expr, d: Data)
    requires IsoEval(Lit(v), d) == IsoEval(a, d) && IsoEval(Lit(w), d) == IsoEval(b, d)
    requires ApplyBinary(op, v, w).Some?
    ensures IsoEval(Lit(ApplyBinary(op, v, w).value), d) == IsoEval(Binary(op, a, b), d)
  {
    hide ApplyBinary;
    LogicalValue(op, v, w);
  }

  lemma LogicalValue(op: BinaryOp, v: int, w: int)
    ensures op == LogAnd && v == 0 ==> ApplyBinary(op, v, w) == Some(0)
    ensures op == LogOr && v != 0 ==> ApplyBinary(op, v, w) == Some(1)
  {
  }

  lemma TestValue(op: BinaryOp, v: int, w: int)
    requires IsTest(op)
    ensures ApplyBinary(op, v, w) == Some(0) || ApplyBinary(op, v, w) == Some(1)
  {
  }

  lemma FoldUnaryStands(k: Kind, a: Node, u: Node, op: UnaryOp)
    requires a.Node? && u.Node? && Stands(a, u)
    requires a.kind == Boolean ==> op == LogNot
    requires k == (if op == LogNot then Boolean else if op == BitNot then Integer else a.kind)
    ensures Stands(MakeUnary(k, a, op, true), MakeUnary(k, u, op, false))
  {
    hide IsoEval, ApplyUnary, Same;
    if !a.expr.Lit? || a.kind == Character {
      SameUnary(op, a.expr, u.expr);
    } else {
      NegationValue(a.expr.value);
      if ApplyUnary(op, a.expr.value).Some? {
        FoldedUnary(op, a.expr.value, u.expr);
      }
    }
  }

  lemma NegationValue(v: int)
    ensures ApplyUnary(LogNot, v) == Some(Truth(v == 0))
  {
  }

  lemma FoldBinaryStands(a: Node, u: Node, b: Node, w: Node, op: BinaryOp)
    requires a.Node? && u.Node? && Stands(a, u) && b.Node? && w.Node? && Stands(b, w)
    ensures var k := if IsTest(op) then Boolean else Integer;
      Stands(MakeBinary(k, a, b, op, true), MakeBinary(k, u, w, op, false))
  {
    hide IsoEval, ApplyBinary, Same;
    if !a.expr.Lit? || !b.expr.Lit? || a.kind == Character {
      SameBinary(op, a.expr, u.expr, b.expr, w.expr);
    } else {
      if ApplyBinary(op, a.expr.value, b.expr.value).Some? {
        FoldedBinary(op, a.expr.value, b.expr.value, u.expr, w.expr);
      }
      if IsTest(op) {
        TestValue(op, a.expr.value, b.expr.value);
      }
    }
  }

  lemma UnaryStands(p: Prefix, a: Node, u: Node)
    requires a.Node? && u.Node? && Stands(a, u)
    ensures Stands(BuildUnary(p, a, true), BuildUnary(p, u, false))
  {
    hide IsoEval, MakeUnary, Same;
    match p
    case Negate => if IsInteger(a.kind) { FoldUnaryStands(a.kind, a, u, Minus); }
    case AbsOf => if IsInteger(a.kind) { FoldUnaryStands(a.kind, a, u, Abs); }
    case Complement => if IsInteger(a.kind) { FoldUnaryStands(Integer, a, u, BitNot); }
    case Invert => FoldUnaryStands(Boolean, a, u, LogNot);
    case _ => StepStands(a, u, StepOf(p));
  }

  lemma StepStands(a: Node, u: Node, op: StepOp)
    requires a.Node? && u.Node? && Stands(a, u)
    ensures Stands(BuildStep(a, op), BuildStep(u, op))
  {
  }

  lemma OperatorStands(op: Operator, a: Node, u: Node, b: Node, w: Node)
    requires a.Node? && u.Node? && Stands(a, u) && b.Node? && w.Node? && Stands(b, w)
    ensures Stands(BuildOperator(op, a, b, true), BuildOperator(op, u, w, false))
  {
    hide IsoEval, MakeBinary, Same;
    match op
    case Computes(o) => if Takes(o, a.kind, b.kind) { FoldBinaryStands(a, u, b, w, o); }
    case Assigns(o) =>
      if u.expr.Var? {
        SameAssign(o, u.expr.name, b.expr, w.expr);
      }
    case Sequences => SameComma(a.expr, u.expr, b.expr, w.expr);
  }

  lemma ConditionalStands(c: Node, v: Node, a: Node, u: Node, b: Node, w: Node)
    requires c.Node? && v.Node? && Stands(c, v)
    requires a.Node? && u.Node? && Stands(a, u) && b.Node? && w.Node? && Stands(b, w)
    ensures Stands(BuildConditional(c, a, b), BuildConditional(v, u, w))
  {
    hide IsoEval, Same;
    SameTernary(c.expr, v.expr, a.expr, u.expr, b.expr, w.expr);
  }

  lemma StandsShape(a: Node, u: Node)
    requires Stands(a, u)
    ensures (a.Node? ==> u.Node?) && (a.Refused? ==> u.Refused?)
  {
  }

  lemma OtherStands(u: Node)
    ensures Stands(Node.Undefined, u) && Stands(Node.Refused, Node.Refused)
  {
  }

  lemma LeafStands(k: Token, scope: map<nat, Variable>)
    ensures Stands(BuildLeaf(k, scope), BuildLeaf(k, scope))
  {
  }

  /** Nothing is computed without folding. */
  lemma {:induction false} NeverUndefined(t: Tree, scope: map<nat, Variable>)
    ensures !Build(t, scope, false).Undefined?
    decreases t
  {
    match t
    case PrefixTree(_, e) => NeverUndefined(e, scope);
    case PostfixTree(_, e) => NeverUndefined(e, scope);
    case BinaryTree(_, l, r) =>
      NeverUndefined(l, scope);
      NeverUndefined(r, scope);
    case TernaryTree(c, m, r) =>
      NeverUndefined(c, scope);
      NeverUndefined(m, scope);
      NeverUndefined(r, scope);
    case _ =>
  }

  /** With folding or without, the same trees are refused, and the others keep type, value and effects. */
  lemma {:induction false} FoldingKeeps(t: Tree, scope: map<nat, Variable>)
    ensures Stands(Build(t, scope, true), Build(t, scope, false))
    decreases t
  {
    hide Stands, BuildUnary, BuildStep, BuildOperator, BuildConditional;
    match t
    case Leaf(k) => LeafStands(k, scope);
    case PrefixTree(p, e) =>
      FoldingKeeps(e, scope);
      var a, u := Build(e, scope, true), Build(e, scope, false);
      StandsShape(a, u);
      OtherStands(Build(t, scope, false));
      if a.Node? {
        UnaryStands(p, a, u);
      }
    case PostfixTree(increments, e) =>
      FoldingKeeps(e, scope);
      var a, u := Build(e, scope, true), Build(e, scope, false);
      StandsShape(a, u);
      OtherStands(Build(t, scope, false));
      if a.Node? {
        StepStands(a, u, if increments then PostInc else PostDec);
      }
    case BinaryTree(op, l, r) =>
      FoldingKeeps(l, scope);
      FoldingKeeps(r, scope);
      var a, u := Build(l, scope, true), Build(l, scope, false);
      var b, w := Build(r, scope, true), Build(r, scope, false);
      StandsShape(a, u);
      StandsShape(b, w);
      NeverUndefined(l, scope);
      NeverUndefined(r, scope);
      OtherStands(Build(t, scope, false));
      if a.Node? && b.Node? {
        OperatorStands(op, a, u, b, w);
      }
    case TernaryTree(c, m, r) =>
      FoldingKeeps(c, scope);
      FoldingKeeps(m, scope);
      FoldingKeeps(r, scope);
      var a, u := Build(c, scope, true), Build(c, scope, false);
      var b, w := Build(m, scope, true), Build(m, scope, false);
      var d, x := Build(r, scope, true), Build(r, scope, false);
      StandsShape(a, u);
      StandsShape(b, w);
      StandsShape(d, x);
      NeverUndefined(c, scope);
      NeverUndefined(m, scope);
      NeverUndefined(r, scope);
      OtherStands(Build(t, scope, false));
      if a.Node? && b.Node? && d.Node? {
        ConditionalStands(a, u, b, w, d, x);
      }
    case _ => OtherStands(Node.Refused);
  }

  // ------------------------------------------------------------ closed expressions

  /** A literal of a number, a character or a truth value. */
  predicate IsValue(k: Token) {
    k.Literal? && (k.kind == IntegerText || k.kind == CharacterText || k.kind == BooleanText)
  }

  predicate IsComputation(p: Prefix) {
    p == Negate || p == AbsOf || p == Complement || p == Invert
  }

  /** Literals under the arithmetic, bitwise, comparison and logical operators. */
  predicate Closed(t: Tree) {
    match t
    case Leaf(k) => IsValue(k)
    case PrefixTree(p, e) => IsComputation(p) && Closed(e)
    case BinaryTree(op, l, r) => op.Computes? && Closed(l) && Closed(r)
    case _ => false
  }

  predicate IsCharacter(t: Tree) {
    t.Leaf? && t.token.Literal? && t.token.kind == CharacterText
  }

  /** No operator has a character literal as its operand, or as its left operand. */
  predicate NoLeftCharacter(t: Tree) {
    match t
    case PrefixTree(_, e) => !IsCharacter(e) && NoLeftCharacter(e)
    case BinaryTree(_, l, r) => !IsCharacter(l) && NoLeftCharacter(l) && NoLeftCharacter(r)
    case _ => true
  }

  /** The value of an expression whose parts are all computed, in the order of the tree. */
  function Eager(e: Expr): Option<int> {
    match e
    case Lit(v) => Some(v)
    case Unary(op, a) =>
      (match Eager(a)
       case None => None
       case Some(v) => ApplyUnary(op, v))
    case Binary(op, a, b) =>
      (match (Eager(a), Eager(b))
       case (Some(v), Some(w)) => ApplyBinary(op, v, w)
       case _ => None)
    case _ => None
  }

  /** Computing every part is no different from running the expression. */
  lemma {:induction false} EagerRuns(e: Expr, d: Data)
    requires Eager(e).Some?
    ensures IsoEval(e, d) == Some((Eager(e).value, d))
    decreases e
  {
    hide ApplyUnary, ApplyBinary;
    match e
    case Unary(_, a) => EagerRuns(a, d);
    case Binary(op, a, b) =>
      EagerRuns(a, d);
      EagerRuns(b, d);
      LogicalValue(op, Eager(a).value, Eager(b).value);
    case _ =>
  }

  /** What the builder makes of a closed tree, given what it makes without folding. */
  predicate Computes(b: Node, u: Node) {
    u.Node? ==>
      match Eager(u.expr)
      case Some(v) => b == Node(u.kind, false, Lit(v))
      case None => b.Undefined?
  }

  /** Folded results are numbers and truth values; only a literal is a character. */
  lemma {:induction false} CharactersAreLeaves(t: Tree, scope: map<nat, Variable>)
    requires Closed(t) && NoLeftCharacter(t)
    ensures var b := Build(t, scope, false); b.Node? && b.kind == Character ==> IsCharacter(t)
    decreases t
  {
    hide ApplyUnary, ApplyBinary;
    match t
    case PrefixTree(_, e) => CharactersAreLeaves(e, scope);
    case _ =>
  }

  lemma UnaryComputes(p: Prefix, b: Node, u: Node)
    requires u.Node? && Computes(b, u) && IsComputation(p) && u.kind != Character
    ensures Computes(if b.Node? then BuildUnary(p, b, true) else b, BuildUnary(p, u, false))
  {
    hide ApplyUnary;
    if b.Node? {
      NegationValue(b.expr.value);
    }
  }

  lemma BinaryComputes(op: BinaryOp, b: Node, u: Node, c: Node, w: Node)
    requires u.Node? && w.Node? && Computes(b, u) && Computes(c, w) && u.kind != Character
    requires !b.Refused? && !c.Refused?
    ensures Computes(if b.Node? && c.Node? then BuildComputes(op, b, c, true) else Both(b, c), BuildComputes(op, u, w, false))
  {
    hide ApplyBinary;
  }

  /** A closed tree becomes the literal of its value; when some part has none, the compiler cannot compute it. */
  lemma {:induction false} ClosedFolds(t: Tree, scope: map<nat, Variable>)
    requires Closed(t) && NoLeftCharacter(t)
    ensures Computes(Build(t, scope, true), Build(t, scope, false))
    decreases t
  {
    hide ApplyUnary, ApplyBinary, BuildUnary, BuildComputes;
    match t
    case Leaf(_) =>
    case PrefixTree(p, e) =>
      var b, u := Build(e, scope, true), Build(e, scope, false);
      if u.Node? {
        ClosedFolds(e, scope);
        CharactersAreLeaves(e, scope);
        UnaryComputes(p, b, u);
      }
    case BinaryTree(op, l, r) =>
      var b, u := Build(l, scope, true), Build(l, scope, false);
      var c, w := Build(r, scope, true), Build(r, scope, false);
      if u.Node? && w.Node? {
        ClosedFolds(l, scope);
        ClosedFolds(r, scope);
        CharactersAreLeaves(l, scope);
        BinaryComputes(op.op, b, u, c, w);
      }
  }

  /** A closed tree with a character literal on the left of an operator stays a tree. */
  lemma {:induction false} CharacterStays(t: Tree, scope: map<nat, Variable>)
    requires Closed(t) && Build(t, scope, true).Node?
    ensures Build(t, scope, true).expr.Lit? ==> NoLeftCharacter(t)
    decreases t
  {
    hide ApplyUnary, ApplyBinary;
    match t
    case Leaf(_) =>
    case PrefixTree(p, e) => CharacterStays(e, scope);
    case BinaryTree(op, l, r) =>
      CharacterStays(l, scope);
      CharacterStays(r, scope);
  }

  /**
    * A well-typed closed tree is accepted as a constant expression exactly when no
    * operator has a character literal on its left and every part has a value; the
    * constant is then the value that the expression has at run time.
    */
  lemma ConstantExactly(t: Tree, scope: map<nat, Variable>, d: Data)
    requires Closed(t) && Build(t, scope, false).Node?
    ensures var u := Build(t, scope, false);
      && (BuildConstant(t, scope).Node? <==> NoLeftCharacter(t) && Eager(u.expr).Some?)
      && (BuildConstant(t, scope).Node? ==> IsoEval(u.expr, d) == Some((BuildConstant(t, scope).expr.value, d)))
  {
    hide Build, IsoEval, Eager, NoLeftCharacter, Closed;
    if NoLeftCharacter(t) {
      ClosedFolds(t, scope);
      if Eager(Build(t, scope, false).expr).Some? {
        EagerRuns(Build(t, scope, false).expr, d);
      }
    } else if BuildConstant(t, scope).Node? {
      CharacterStays(t, scope);
      assert false;
    }
  }
}

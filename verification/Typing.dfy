/**
  * What the type checks of the builder are for: a boolean expression has the value 0
  * or 1, and a boolean variable never holds anything else.
  */
module Typing {
  import opened Common
  import opened Ast
  import opened Arithmetic
  import opened Machine
  import opened Tokens
  import opened Grammar
  import opened Builder
  import opened IsoC
  import Folding

  predicate IsBit(v: int) {
    v == 0 || v == 1
  }

  /** Different names have different places. */
  predicate Distinct(scope: map<nat, Variable>) {
    forall x, y :: x in scope && y in scope && scope[x].place == scope[y].place ==> x == y
  }

  /** Every boolean variable holds 0 or 1. */
  predicate BooleansHold(scope: map<nat, Variable>, d: Data) {
    forall x :: x in scope && scope[x].kind == Boolean ==> IsBit(Fetch(d, scope[x].place))
  }

  /** The evaluation of a node of some kind keeps the booleans, and its value is of its kind. */
  predicate Yields(k: Kind, scope: map<nat, Variable>, r: Option<(int, Data)>) {
    r.Some? ==> BooleansHold(scope, r.value.1) && (k == Boolean ==> IsBit(r.value.0))
  }

  ghost predicate Kept(k: Kind, e: Expr, scope: map<nat, Variable>) {
    forall d :: BooleansHold(scope, d) ==> Yields(k, scope, IsoEval(e, d))
  }

  /** A node is of its kind; an lvalue is a variable of the scope. */
  ghost predicate Typed(n: Node, scope: map<nat, Variable>) {
    n.Node? ==>
      && Kept(n.kind, n.expr, scope)
      && (n.lvalue ==> exists x :: x in scope && n.expr == Var(scope[x].place) && n.kind == scope[x].kind)
  }

  lemma Stored(scope: map<nat, Variable>, d: Data, x: nat, v: int)
    requires Distinct(scope) && BooleansHold(scope, d) && x in scope && (scope[x].kind == Boolean ==> IsBit(v))
    ensures BooleansHold(scope, d[scope[x].place := v])
  {
  }

  lemma KeptUnary(k: Kind, op: UnaryOp, a: Node, scope: map<nat, Variable>)
    requires a.Node? && Typed(a, scope) && (k == Boolean ==> op == LogNot)
    ensures Kept(k, Unary(op, a.expr), scope)
  {
    forall d | BooleansHold(scope, d) ensures Yields(k, scope, IsoEval(Unary(op, a.expr), d)) {
      UnaryAt(k, op, a, scope, d);
    }
  }

  lemma UnaryAt(k: Kind, op: UnaryOp, a: Node, scope: map<nat, Variable>, d: Data)
    requires a.Node? && Typed(a, scope) && (k == Boolean ==> op == LogNot) && BooleansHold(scope, d)
    ensures Yields(k, scope, IsoEval(Unary(op, a.expr), d))
  {
    hide ApplyUnary, BooleansHold;
    assert Yields(a.kind, scope, IsoEval(a.expr, d));
    if IsoEval(a.expr, d).Some? {
      Folding.NegationValue(IsoEval(a.expr, d).value.0);
    }
  }

  lemma KeptBinary(k: Kind, op: BinaryOp, a: Node, b: Node, scope: map<nat, Variable>)
    requires a.Node? && b.Node? && Typed(a, scope) && Typed(b, scope) && (k == Boolean ==> IsTest(op))
    ensures Kept(k, Binary(op, a.expr, b.expr), scope)
  {
    hide IsoEval;
    forall d | BooleansHold(scope, d) ensures Yields(k, scope, IsoEval(Binary(op, a.expr, b.expr), d)) {
      BinaryAt(k, op, a, b, scope, d);
    }
  }

  lemma BinaryAt(k: Kind, op: BinaryOp, a: Node, b: Node, scope: map<nat, Variable>, d: Data)
    requires a.Node? && b.Node? && Typed(a, scope) && Typed(b, scope) && (k == Boolean ==> IsTest(op))
    requires BooleansHold(scope, d)
    ensures Yields(k, scope, IsoEval(Binary(op, a.expr, b.expr), d))
  {
    hide ApplyBinary, BooleansHold;
    assert Yields(a.kind, scope, IsoEval(a.expr, d));
    if IsoEval(a.expr, d).Some? {
      var (v, d1) := IsoEval(a.expr, d).value;
      assert Yields(b.kind, scope, IsoEval(b.expr, d1));
      if IsoEval(b.expr, d1).Some? && IsTest(op) {
        Folding.TestValue(op, v, IsoEval(b.expr, d1).value.0);
      }
    }
  }

  lemma ComputedTyped(k: Kind, v: Option<int>, scope: map<nat, Variable>)
    requires k == Boolean && v.Some? ==> IsBit(v.value)
    ensures Typed(Computed(k, v), scope)
  {
  }

  lemma UnaryTyped(k: Kind, a: Node, op: UnaryOp, fold: bool, scope: map<nat, Variable>)
    requires a.Node? && Typed(a, scope) && (k == Boolean ==> op == LogNot)
    ensures Typed(MakeUnary(k, a, op, fold), scope)
  {
    hide IsoEval, ApplyUnary;
    KeptUnary(k, op, a, scope);
    if fold && a.expr.Lit? {
      Folding.NegationValue(a.expr.value);
      ComputedTyped(if op == LogNot then Boolean else Integer, ApplyUnary(op, a.expr.value), scope);
      ComputedTyped(Boolean, Some(Truth(a.expr.value == 0)), scope);
    }
  }

  lemma BinaryTyped(k: Kind, a: Node, b: Node, op: BinaryOp, fold: bool, scope: map<nat, Variable>)
    requires a.Node? && b.Node? && Typed(a, scope) && Typed(b, scope) && (k == Boolean ==> IsTest(op))
    ensures Typed(MakeBinary(k, a, b, op, fold), scope)
  {
    hide IsoEval, ApplyBinary;
    KeptBinary(k, op, a, b, scope);
    if fold && a.expr.Lit? && b.expr.Lit? {
      if IsTest(op) {
        Folding.TestValue(op, a.expr.value, b.expr.value);
      }
      ComputedTyped(if IsTest(op) then Boolean else Integer, ApplyBinary(op, a.expr.value, b.expr.value), scope);
    }
  }

  lemma StepTyped(a: Node, op: StepOp, scope: map<nat, Variable>)
    requires a.Node? && Typed(a, scope) && Distinct(scope)
    ensures Typed(BuildStep(a, op), scope)
  {
    var n := BuildStep(a, op);
    if n.Node? {
      var x :| x in scope && a.expr == Var(scope[x].place) && a.kind == scope[x].kind;
      forall d | BooleansHold(scope, d) ensures Yields(n.kind, scope, IsoEval(n.expr, d)) {
        var after := ApplyStep(op, Fetch(d, scope[x].place));
        if after.Some? {
          Stored(scope, d, x, after.value);
        }
      }
    }
  }

  lemma AssignTyped(op: AssignOp, a: Node, b: Node, scope: map<nat, Variable>)
    requires a.Node? && b.Node? && Typed(a, scope) && Typed(b, scope) && Distinct(scope)
    ensures Typed(BuildAssigns(op, a, b), scope)
  {
    var n := BuildAssigns(op, a, b);
    if n.Node? {
      var x :| x in scope && a.expr == Var(scope[x].place) && a.kind == scope[x].kind;
      forall d | BooleansHold(scope, d) ensures Yields(n.kind, scope, IsoEval(n.expr, d)) {
        AssignAt(op, x, b, scope, d);
      }
    }
  }

  /** Only a plain assignment reaches a boolean variable, and only from a boolean. */
  lemma AssignAt(op: AssignOp, x: nat, b: Node, scope: map<nat, Variable>, d: Data)
    requires b.Node? && Typed(b, scope) && Distinct(scope) && x in scope && BooleansHold(scope, d)
    requires scope[x].kind == Boolean ==> op == Set && b.kind == Boolean
    ensures Yields(scope[x].kind, scope, IsoEval(Assign(op, scope[x].place, b.expr), d))
  {
    hide ApplyAssign, BooleansHold;
    assert Yields(b.kind, scope, IsoEval(b.expr, d));
    if IsoEval(b.expr, d).Some? {
      var (v, d1) := IsoEval(b.expr, d).value;
      var r := ApplyAssign(op, Fetch(d1, scope[x].place), v);
      SetValue(op, Fetch(d1, scope[x].place), v);
      if r.Some? {
        Stored(scope, d1, x, r.value);
      }
    }
  }

  lemma SetValue(op: AssignOp, old_: int, v: int)
    ensures op == Set ==> ApplyAssign(op, old_, v) == Some(v)
  {
  }

  lemma CommaTyped(a: Node, b: Node, scope: map<nat, Variable>)
    requires a.Node? && b.Node? && Typed(a, scope) && Typed(b, scope)
    ensures Typed(Node(b.kind, false, Comma(a.expr, b.expr)), scope)
  {
    hide BooleansHold;
    forall d | BooleansHold(scope, d) ensures Yields(b.kind, scope, IsoEval(Comma(a.expr, b.expr), d)) {
      assert Yields(a.kind, scope, IsoEval(a.expr, d));
      if IsoEval(a.expr, d).Some? {
        assert Yields(b.kind, scope, IsoEval(b.expr, IsoEval(a.expr, d).value.1));
      }
    }
  }

  lemma ConditionalTyped(c: Node, a: Node, b: Node, scope: map<nat, Variable>)
    requires c.Node? && a.Node? && b.Node? && Typed(c, scope) && Typed(a, scope) && Typed(b, scope)
    ensures Typed(BuildConditional(c, a, b), scope)
  {
    hide BooleansHold;
    var n := BuildConditional(c, a, b);
    if n.Node? {
      forall d | BooleansHold(scope, d) ensures Yields(n.kind, scope, IsoEval(n.expr, d)) {
        assert Yields(c.kind, scope, IsoEval(c.expr, d));
        if IsoEval(c.expr, d).Some? {
          var d1 := IsoEval(c.expr, d).value.1;
          assert Yields(a.kind, scope, IsoEval(a.expr, d1)) && Yields(b.kind, scope, IsoEval(b.expr, d1));
        }
      }
    }
  }

  lemma PrefixTyped(p: Prefix, a: Node, fold: bool, scope: map<nat, Variable>)
    requires a.Node? && Typed(a, scope) && Distinct(scope)
    ensures Typed(BuildUnary(p, a, fold), scope)
  {
    hide MakeUnary, BuildStep, Typed;
    NothingTyped(scope);
    match p
    case PrefixInc => StepTyped(a, PreInc, scope);
    case PrefixDec => StepTyped(a, PreDec, scope);
    case Negate => if IsInteger(a.kind) { UnaryTyped(a.kind, a, Minus, fold, scope); }
    case AbsOf => if IsInteger(a.kind) { UnaryTyped(a.kind, a, Abs, fold, scope); }
    case Complement => UnaryTyped(Integer, a, BitNot, fold, scope);
    case Invert => UnaryTyped(Boolean, a, LogNot, fold, scope);
    case _ =>
  }

  lemma NothingTyped(scope: map<nat, Variable>)
    ensures Typed(Node.Refused, scope) && Typed(Node.Undefined, scope)
  {
  }

  lemma OperatorTyped(op: Operator, a: Node, b: Node, fold: bool, scope: map<nat, Variable>)
    requires a.Node? && b.Node? && Typed(a, scope) && Typed(b, scope) && Distinct(scope)
    ensures Typed(BuildOperator(op, a, b, fold), scope)
  {
    hide MakeBinary, BuildAssigns, Typed;
    NothingTyped(scope);
    match op
    case Computes(o) => BinaryTyped(if IsTest(o) then Boolean else Integer, a, b, o, fold, scope);
    case Assigns(o) => AssignTyped(o, a, b, scope);
    case Sequences => CommaTyped(a, b, scope);
  }

  lemma LeafTyped(k: Token, scope: map<nat, Variable>)
    ensures Typed(BuildLeaf(k, scope), scope)
  {
  }

  /**
    * Every tree that the builder accepts keeps boolean variables at 0 and 1, and has
    * the value 0 or 1 itself when its type is boolean; with folding and without.
    */
  lemma {:induction false} TypesKept(t: Tree, scope: map<nat, Variable>, fold: bool)
    requires Distinct(scope)
    ensures Typed(Build(t, scope, fold), scope)
    decreases t
  {
    hide Typed, BuildUnary, BuildStep, BuildOperator, BuildConditional, Distinct;
    NothingTyped(scope);
    match t
    case Leaf(k) => LeafTyped(k, scope);
    case PrefixTree(p, e) =>
      TypesKept(e, scope, fold);
      if Build(e, scope, fold).Node? {
        PrefixTyped(p, Build(e, scope, fold), fold, scope);
      }
    case PostfixTree(increments, e) =>
      TypesKept(e, scope, fold);
      if Build(e, scope, fold).Node? {
        StepTyped(Build(e, scope, fold), if increments then PostInc else PostDec, scope);
      }
    case BinaryTree(op, l, r) =>
      TypesKept(l, scope, fold);
      TypesKept(r, scope, fold);
      if Build(l, scope, fold).Node? && Build(r, scope, fold).Node? {
        OperatorTyped(op, Build(l, scope, fold), Build(r, scope, fold), fold, scope);
      }
    case TernaryTree(c, m, r) =>
      TypesKept(c, scope, fold);
      TypesKept(m, scope, fold);
      TypesKept(r, scope, fold);
      if Build(c, scope, fold).Node? && Build(m, scope, fold).Node? && Build(r, scope, fold).Node? {
        ConditionalTyped(Build(c, scope, fold), Build(m, scope, fold), Build(r, scope, fold), scope);
      }
    case _ =>
  }
}

/**
  * Trees with types.  The builder checks the operands of each operator and computes
  * operators on literals at once; without folding it only checks.
  */
module Builder {
  import opened Common
  import opened Ast
  import opened Arithmetic
  import opened Tokens
  import opened Grammar

  /** The classes of the types that the model has. */
  datatype Kind = Integer | Character | Boolean

  datatype Variable = Variable(kind: Kind, place: int)

  /**
    * What the builder makes.  Refused stands for an error that was reported, Undefined
    * for an operation on literals that the compiler itself cannot carry out (a
    * division by zero, an overflow, a bad shift).
    */
  datatype Node =
    | Refused
    | Undefined
    | Node(kind: Kind, lvalue: bool, expr: Expr)

  predicate IsInteger(k: Kind) {
    k == Integer || k == Character
  }

  /** A value computed from literals. */
  function Computed(k: Kind, v: Option<int>): Node {
    match v
    case Some(r) => Node(k, false, Lit(r))
    case None => Undefined
  }

  /** A unary operator on a literal; a boolean literal is negated whatever the operator. */
  function FoldUnary(k: Kind, a: Node, op: UnaryOp): Node
    requires a.Node?
  {
    if !a.expr.Lit? || a.kind == Character then Node(k, false, Unary(op, a.expr))
    else if a.kind == Boolean then Node(Boolean, false, Lit(Truth(a.expr.value == 0)))
    else Computed(if op == LogNot then Boolean else Integer, ApplyUnary(op, a.expr.value))
  }

  predicate IsTest(op: BinaryOp) {
    op == Lt || op == Gt || op == Le || op == Ge || op == Eq || op == Ne || op == LogAnd || op == LogOr
  }

  /** A binary operator on two literals; the class of the left one decides. */
  function FoldBinary(k: Kind, a: Node, b: Node, op: BinaryOp): Node
    requires a.Node? && b.Node?
  {
    if !a.expr.Lit? || !b.expr.Lit? || a.kind == Character then Node(k, false, Binary(op, a.expr, b.expr))
    else Computed(if IsTest(op) then Boolean else Integer, ApplyBinary(op, a.expr.value, b.expr.value))
  }

  function StepOf(p: Prefix): StepOp {
    if p == PrefixInc then PreInc else PreDec
  }

  function BuildStep(a: Node, op: StepOp): Node
    requires a.Node?
  {
    if a.lvalue && IsInteger(a.kind) && a.expr.Var? then Node(a.kind, false, Step(op, a.expr.name)) else Refused
  }

  /** Applies an operator without folding, or with it. */
  function MakeUnary(k: Kind, a: Node, op: UnaryOp, fold: bool): Node
    requires a.Node?
  {
    if fold then FoldUnary(k, a, op) else Node(k, false, Unary(op, a.expr))
  }

  function MakeBinary(k: Kind, a: Node, b: Node, op: BinaryOp, fold: bool): Node
    requires a.Node? && b.Node?
  {
    if fold then FoldBinary(k, a, b, op) else Node(k, false, Binary(op, a.expr, b.expr))
  }

  function BuildUnary(p: Prefix, a: Node, fold: bool): Node
    requires a.Node?
  {
    match p
    case PrefixInc => BuildStep(a, PreInc)
    case PrefixDec => BuildStep(a, PreDec)
    case Negate => if IsInteger(a.kind) then MakeUnary(a.kind, a, Minus, fold) else Refused
    case AbsOf => if IsInteger(a.kind) then MakeUnary(a.kind, a, Abs, fold) else Refused
    case Complement => if IsInteger(a.kind) then MakeUnary(Integer, a, BitNot, fold) else Refused
    case Invert => MakeUnary(Boolean, a, LogNot, fold)
    case _ => Refused
  }

  /** The operands that an operator takes. */
  predicate Takes(op: BinaryOp, k: Kind, m: Kind) {
    if op == LogAnd || op == LogOr then true
    else if op == Eq || op == Ne then (IsInteger(k) && IsInteger(m)) || k == m
    else IsInteger(k) && IsInteger(m)
  }

  function BuildComputes(op: BinaryOp, a: Node, b: Node, fold: bool): Node
    requires a.Node? && b.Node?
  {
    if Takes(op, a.kind, b.kind) then MakeBinary(if IsTest(op) then Boolean else Integer, a, b, op, fold) else Refused
  }

  function BuildAssigns(op: AssignOp, a: Node, b: Node): Node
    requires a.Node? && b.Node?
  {
    var integers := IsInteger(a.kind) && IsInteger(b.kind);
    if a.lvalue && a.expr.Var? && (integers || a.kind == b.kind) && (op == Set || integers) then
      Node(a.kind, false, Assign(op, a.expr.name, b.expr))
    else Refused
  }

  function BuildOperator(op: Operator, a: Node, b: Node, fold: bool): Node
    requires a.Node? && b.Node?
  {
    match op
    case Computes(o) => BuildComputes(o, a, b, fold)
    case Assigns(o) => BuildAssigns(o, a, b)
    case Sequences => Node(b.kind, false, Comma(a.expr, b.expr))
  }

  function BuildConditional(c: Node, a: Node, b: Node): Node
    requires c.Node? && a.Node? && b.Node?
  {
    if IsInteger(a.kind) && IsInteger(b.kind) then Node(Integer, false, Ternary(c.expr, a.expr, b.expr))
    else if a.kind == b.kind then Node(a.kind, false, Ternary(c.expr, a.expr, b.expr))
    else Refused
  }

  function BuildLeaf(t: Token, scope: map<nat, Variable>): Node {
    match t
    case Name(x) => if x in scope then Node(scope[x].kind, true, Var(scope[x].place)) else Refused
    case Literal(k, v) =>
      (match k
       case IntegerText => Node(Integer, false, Lit(v))
       case CharacterText => Node(Character, false, Lit(v))
       case BooleanText => Node(Boolean, false, Lit(if v != 0 then 1 else 0))
       case _ => Refused)
    case _ => Refused
  }

  /** Neither an operand that is broken nor one that the compiler failed to compute. */
  function Both(a: Node, b: Node): Node {
    if a.Undefined? || b.Undefined? then Undefined else Refused
  }

  /** Builds a tree of the parser from the leaves up. */
  function Build(t: Tree, scope: map<nat, Variable>, fold: bool): Node {
    match t
    case Leaf(k) => BuildLeaf(k, scope)
    case PrefixTree(p, e) =>
      var a := Build(e, scope, fold);
      if a.Node? then BuildUnary(p, a, fold) else a
    case PostfixTree(increments, e) =>
      var a := Build(e, scope, fold);
      if a.Node? then BuildStep(a, if increments then PostInc else PostDec) else a
    case BinaryTree(op, l, r) =>
      var a, b := Build(l, scope, fold), Build(r, scope, fold);
      if a.Node? && b.Node? then BuildOperator(op, a, b, fold) else Both(a, b)
    case TernaryTree(c, m, r) =>
      var a, b, d := Build(c, scope, fold), Build(m, scope, fold), Build(r, scope, fold);
      if a.Node? && b.Node? && d.Node? then BuildConditional(a, b, d)
      else if a.Undefined? then a else Both(b, d)
    case _ => Refused
  }

  /** A constant expression is one that came out as a literal. */
  function BuildConstant(t: Tree, scope: map<nat, Variable>): Node {
    var a := Build(t, scope, true);
    if a.Node? && !a.expr.Lit? then Refused else a
  }
}

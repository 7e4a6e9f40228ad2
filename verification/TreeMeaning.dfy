/**
  * What a tree of the parser means, said by the way its operators are written: sections
  * 6.5.2 to 6.5.17 of ISO/IEC 9899:2011, over the variables of a scope.
  */
module TreeMeaning {
  import opened Common
  import opened Ast
  import opened Arithmetic
  import opened Machine
  import opened Tokens
  import opened Grammar
  import opened Builder
  import opened IsoC
  import Notation
  import opened Folding

  /** The value of a prefix operator that has no effect. */
  function SignValue(sign: Token, v: int): Option<int> {
    if sign == Dash then Word(-v)
    else if sign == Tilde then Word(-v - 1)
    else if sign == Exclaim then Some(if v == 0 then 1 else 0)
    else if sign == AbsWord then Word(if v < 0 then -v else v)
    else None
  }

  function Decided(b: bool): Option<int> {
    Some(if b then 1 else 0)
  }

  /** The value of an operator with two operands that are both evaluated. */
  function SymbolValue(symbol: Token, v: int, w: int): Option<int> {
    if symbol == Star then Word(v * w)
    else if symbol == Slash then (if w == 0 then None else Word(Quotient(v, w)))
    else if symbol == Percent then (if w == 0 then None else Word(v - w * Quotient(v, w)))
    else if symbol == Plus then Word(v + w)
    else if symbol == Dash then Word(v - w)
    else if symbol == LessLess then (if 0 <= w < 64 && v >= 0 then Word(v * Power2(w)) else None)
    else if symbol == GreaterGreater then (if 0 <= w < 64 then Word(v / Power2(w)) else None)
    else if symbol == Less then Decided(v < w)
    else if symbol == Greater then Decided(v > w)
    else if symbol == LessEqual then Decided(v <= w)
    else if symbol == GreaterEqual then Decided(v >= w)
    else if symbol == EqualEqual then Decided(v == w)
    else if symbol == ExclaimEqual then Decided(v != w)
    else if symbol == Amp then Word(Bitwise(BothSet, v, w))
    else if symbol == Caret then Word(Bitwise(OneSet, v, w))
    else if symbol == Pipe then Word(Bitwise(AnySet, v, w))
    else None
  }

  /** The operator inside a compound assignment. */
  function InnerSymbol(symbol: Token): Option<Token> {
    if symbol == StarEqual then Some(Star)
    else if symbol == SlashEqual then Some(Slash)
    else if symbol == PercentEqual then Some(Percent)
    else if symbol == PlusEqual then Some(Plus)
    else if symbol == MinusEqual then Some(Dash)
    else if symbol == LessLessEqual then Some(LessLess)
    else if symbol == GreaterGreaterEqual then Some(GreaterGreater)
    else if symbol == AmpEqual then Some(Amp)
    else if symbol == CaretEqual then Some(Caret)
    else if symbol == PipeEqual then Some(Pipe)
    else None
  }

  /** The cell that an operand names. */
  function Target(t: Tree, scope: map<nat, Variable>): Option<int> {
    if t.Leaf? && t.token.Name? && t.token.ident in scope then Some(scope[t.token.ident].place) else None
  }

  function LeafValue(k: Token, scope: map<nat, Variable>, d: Data): Option<int> {
    match k
    case Name(x) => if x in scope then Some(Fetch(d, scope[x].place)) else None
    case Literal(kind, v) => Some(if kind == BooleanText && v != 0 then 1 else v)
    case _ => None
  }

  /** Adds 1 to a variable or takes 1 from it; the value is the one before or the one after. */
  function Stepped(x: int, increments: bool, before: bool, d: Data): Option<(int, Data)> {
    var v := Fetch(d, x);
    match Word(if increments then v + 1 else v - 1)
    case None => None
    case Some(r) => Some((if before then v else r, d[x := r]))
  }

  /** The value of a tree and the variables after it; None where an operation is undefined. */
  function Mean(t: Tree, scope: map<nat, Variable>, d: Data): Option<(int, Data)>
    decreases t, 1
  {
    match t
    case Leaf(k) =>
      (match LeafValue(k, scope, d)
       case None => None
       case Some(v) => Some((v, d)))
    case PrefixTree(p, e) =>
      var sign := PrefixToken(p);
      if sign == PlusPlus || sign == MinusMinus then
        match Target(e, scope)
        case None => None
        case Some(x) => Stepped(x, sign == PlusPlus, false, d)
      else
        (match Mean(e, scope, d)
         case None => None
         case Some((v, d1)) =>
           match SignValue(sign, v)
           case None => None
           case Some(r) => Some((r, d1)))
    case PostfixTree(increments, e) =>
      (match Target(e, scope)
       case None => None
       case Some(x) => Stepped(x, Notation.StepToken(increments) == PlusPlus, true, d))
    case BinaryTree(_, _, _) => MeanBinary(t, scope, d)
    case TernaryTree(c, m, r) =>
      (match Mean(c, scope, d)
       case None => None
       case Some((v, d1)) => if v != 0 then Mean(m, scope, d1) else Mean(r, scope, d1))
    case _ => None
  }

  function MeanBinary(t: Tree, scope: map<nat, Variable>, d: Data): Option<(int, Data)>
    requires t.BinaryTree?
    decreases t, 0
  {
    var (symbol, l, r) := (OperatorToken(t.op), t.left, t.right);
    if symbol == Equal || InnerSymbol(symbol).Some? then
      match (Target(l, scope), Mean(r, scope, d))
      case (Some(x), Some((w, d1))) =>
        (match if symbol == Equal then Some(w) else SymbolValue(InnerSymbol(symbol).value, Fetch(d1, x), w)
         case None => None
         case Some(v) => Some((v, d1[x := v])))
      case _ => None
    else
      match Mean(l, scope, d)
      case None => None
      case Some((v, d1)) =>
        if symbol == AmpAmp && v == 0 then Some((0, d1))
        else if symbol == PipePipe && v != 0 then Some((1, d1))
        else
          match Mean(r, scope, d1)
          case None => None
          case Some((w, d2)) =>
            if symbol == CommaSign then Some((w, d2))
            else if symbol == AmpAmp || symbol == PipePipe then Some((if w != 0 then 1 else 0, d2))
            else
              match SymbolValue(symbol, v, w)
              case None => None
              case Some(x) => Some((x, d2))
  }

  // ------------------------------------------------------------- operators are theirs

  lemma ArithmeticIs(op: BinaryOp, v: int, w: int)
    requires op == Mul || op == Div || op == Rem || op == Add || op == Sub || op == Shl || op == Shr
    ensures ApplyBinary(op, v, w) == SymbolValue(ComputesToken(op), v, w)
  {
    hide Quotient, Word, Power2;
  }

  lemma TestIs(op: BinaryOp, v: int, w: int)
    requires op == Lt || op == Gt || op == Le || op == Ge || op == Eq || op == Ne
    ensures ApplyBinary(op, v, w) == SymbolValue(ComputesToken(op), v, w)
  {
    hide Word, Bitwise;
  }

  lemma BitwiseIs(op: BinaryOp, v: int, w: int)
    requires op == And || op == Xor || op == Or
    ensures ApplyBinary(op, v, w) == SymbolValue(ComputesToken(op), v, w)
  {
    hide Word, Bitwise, Quotient, Power2;
  }

  lemma SymbolIs(op: BinaryOp, v: int, w: int)
    requires op != LogAnd && op != LogOr
    ensures ApplyBinary(op, v, w) == SymbolValue(ComputesToken(op), v, w)
  {
    hide ApplyBinary, SymbolValue, ComputesToken;
    if op == And || op == Xor || op == Or {
      BitwiseIs(op, v, w);
    } else if op == Lt || op == Gt || op == Le || op == Ge || op == Eq || op == Ne {
      TestIs(op, v, w);
    } else {
      ArithmeticIs(op, v, w);
    }
  }

  /** `&`, `^` and `|` work on every bit by itself. */
  lemma BitsOf(v: int, w: int, k: nat)
    ensures Bit(Bitwise(BothSet, v, w), k) <==> Bit(v, k) && Bit(w, k)
    ensures Bit(Bitwise(OneSet, v, w), k) <==> Bit(v, k) != Bit(w, k)
    ensures Bit(Bitwise(AnySet, v, w), k) <==> Bit(v, k) || Bit(w, k)
  {
    BitwiseBits(BothSet, v, w, k);
    BitwiseBits(OneSet, v, w, k);
    BitwiseBits(AnySet, v, w, k);
  }

  /** The operator inside a compound assignment is written as the assignment without its equals sign. */
  lemma InnerToken(op: AssignOp)
    ensures op == Set <==> AssignsToken(op) == Equal
    ensures op == Set ==> InnerSymbol(Equal) == None
    ensures op != Set ==> InnerSymbol(AssignsToken(op)) == Some(ComputesToken(InnerOp(op)))
  {
  }

  function InnerOp(op: AssignOp): BinaryOp {
    match op
    case Set => Add
    case MulSet => Mul
    case DivSet => Div
    case RemSet => Rem
    case AddSet => Add
    case SubSet => Sub
    case ShlSet => Shl
    case ShrSet => Shr
    case AndSet => And
    case XorSet => Xor
    case OrSet => Or
  }

  lemma InnerIs(op: AssignOp, v: int, w: int)
    ensures ApplyAssign(op, v, w) == if op == Set then Some(w) else SymbolValue(InnerSymbol(AssignsToken(op)).value, v, w)
  {
    hide ApplyBinary, SymbolValue, ComputesToken, InnerSymbol;
    InnerToken(op);
    if op != Set {
      SymbolIs(InnerOp(op), v, w);
    }
  }

  lemma SignIs(op: UnaryOp, v: int)
    ensures ApplyUnary(op, v) == SignValue(match op case Minus => Dash case BitNot => Tilde case LogNot => Exclaim case Abs => AbsWord, v)
  {
  }

  // ------------------------------------------------------------------ the builder

  /** Only a name is built to an lvalue, and its cell is the one it names. */
  lemma LvalueIs(t: Tree, scope: map<nat, Variable>)
    ensures var n := Build(t, scope, false); n.Node? && n.lvalue ==> Target(t, scope).Some? && n.expr == Var(Target(t, scope).value)
  {
    hide Takes;
  }

  /** What the builder makes of a tree evaluates to the meaning of the tree. */
  ghost predicate Means(n: Node, t: Tree, scope: map<nat, Variable>) {
    n.Node? ==> forall d :: IsoEval(n.expr, d) == Mean(t, scope, d)
  }

  lemma LeafMeans(k: Token, scope: map<nat, Variable>)
    ensures Means(BuildLeaf(k, scope), Leaf(k), scope)
  {
  }

  lemma StepMeans(t: Tree, e: Tree, op: StepOp, scope: map<nat, Variable>)
    requires Build(e, scope, false).Node?
    requires t == (match op
      case PreInc => PrefixTree(PrefixInc, e)
      case PreDec => PrefixTree(PrefixDec, e)
      case PostInc => PostfixTree(true, e)
      case PostDec => PostfixTree(false, e))
    ensures Means(BuildStep(Build(e, scope, false), op), t, scope)
  {
    hide Build;
    LvalueIs(e, scope);
  }

  lemma PrefixMeans(p: Prefix, e: Tree, scope: map<nat, Variable>)
    requires var a := Build(e, scope, false); a.Node? && Means(a, e, scope)
    ensures Means(BuildUnary(p, Build(e, scope, false), false), PrefixTree(p, e), scope)
  {
    hide Build, BuildStep, ApplyUnary, SignValue;
    var a := Build(e, scope, false);
    match p
    case PrefixInc => StepMeans(PrefixTree(p, e), e, PreInc, scope);
    case PrefixDec => StepMeans(PrefixTree(p, e), e, PreDec, scope);
    case Negate => UnaryMeans(Minus, p, e, scope);
    case AbsOf => UnaryMeans(Abs, p, e, scope);
    case Complement => UnaryMeans(BitNot, p, e, scope);
    case Invert => UnaryMeans(LogNot, p, e, scope);
    case _ =>
  }

  lemma UnaryMeans(op: UnaryOp, p: Prefix, e: Tree, scope: map<nat, Variable>)
    requires var a := Build(e, scope, false); a.Node? && Means(a, e, scope)
    requires p == match op case Minus => Negate case Abs => AbsOf case BitNot => Complement case LogNot => Invert
    ensures forall d :: IsoEval(Unary(op, Build(e, scope, false).expr), d) == Mean(PrefixTree(p, e), scope, d)
  {
    hide Build, ApplyUnary, SignValue;
    var a := Build(e, scope, false).expr;
    forall d ensures IsoEval(Unary(op, a), d) == Mean(PrefixTree(p, e), scope, d) {
      assert IsoEval(a, d) == Mean(e, scope, d);
      if Mean(e, scope, d).Some? {
        SignIs(op, Mean(e, scope, d).value.0);
      }
    }
  }

  /** The meaning of an operator whose operands are evaluated from left to right. */
  lemma ComputesShape(op: BinaryOp, l: Tree, r: Tree, scope: map<nat, Variable>, d: Data)
    ensures MeanBinary(BinaryTree(Computes(op), l, r), scope, d) ==
      if Mean(l, scope, d).None? then None
      else
        var (v, d1) := Mean(l, scope, d).value;
        if op == LogAnd && v == 0 then Some((0, d1))
        else if op == LogOr && v != 0 then Some((1, d1))
        else if Mean(r, scope, d1).None? then None
        else
          var (w, d2) := Mean(r, scope, d1).value;
          if op == LogAnd || op == LogOr then Some((if w != 0 then 1 else 0, d2))
          else if SymbolValue(ComputesToken(op), v, w).None? then None
          else Some((SymbolValue(ComputesToken(op), v, w).value, d2))
  {
    hide Mean, SymbolValue, ComputesToken, InnerSymbol;
    ComputesKind(op);
  }

  lemma ComputesMeans(op: BinaryOp, l: Tree, r: Tree, scope: map<nat, Variable>, d: Data)
    requires var (a, b) := (Build(l, scope, false), Build(r, scope, false));
      a.Node? && b.Node? && Means(a, l, scope) && Means(b, r, scope)
    ensures IsoEval(Binary(op, Build(l, scope, false).expr, Build(r, scope, false).expr), d)
      == MeanBinary(BinaryTree(Computes(op), l, r), scope, d)
  {
    hide Build, SymbolValue, Mean, MeanBinary, ApplyBinary, ComputesToken;
    var (a, b) := (Build(l, scope, false), Build(r, scope, false));
    ComputesShape(op, l, r, scope, d);
    assert IsoEval(a.expr, d) == Mean(l, scope, d);
    if Mean(l, scope, d).Some? {
      var (v, d1) := Mean(l, scope, d).value;
      assert IsoEval(b.expr, d1) == Mean(r, scope, d1);
      if Mean(r, scope, d1).Some? {
        LogicalIs(v, Mean(r, scope, d1).value.0);
        if op != LogAnd && op != LogOr {
          SymbolIs(op, v, Mean(r, scope, d1).value.0);
        }
      }
    }
  }

  lemma LogicalIs(v: int, w: int)
    ensures v != 0 ==> ApplyBinary(LogAnd, v, w) == Some(if w != 0 then 1 else 0)
    ensures v == 0 ==> ApplyBinary(LogOr, v, w) == Some(if w != 0 then 1 else 0)
  {
  }

  /** The token of an operator that computes is none of the others. */
  lemma ComputesKind(op: BinaryOp)
    ensures var k := ComputesToken(op);
      && k != Equal && InnerSymbol(k) == None && k != CommaSign
      && (k == AmpAmp <==> op == LogAnd) && (k == PipePipe <==> op == LogOr)
  {
  }

  lemma AssignsMeans(op: AssignOp, l: Tree, r: Tree, scope: map<nat, Variable>, d: Data)
    requires var (a, b) := (Build(l, scope, false), Build(r, scope, false));
      a.Node? && b.Node? && Means(b, r, scope) && a.lvalue
    ensures Build(l, scope, false).expr.Var?
    ensures IsoEval(Assign(op, Build(l, scope, false).expr.name, Build(r, scope, false).expr), d)
      == MeanBinary(BinaryTree(Assigns(op), l, r), scope, d)
  {
    hide Build, SymbolValue, ApplyAssign, InnerSymbol;
    var b := Build(r, scope, false);
    LvalueIs(l, scope);
    InnerToken(op);
    assert IsoEval(b.expr, d) == Mean(r, scope, d);
    if Mean(r, scope, d).Some? {
      var (w, d1) := Mean(r, scope, d).value;
      InnerIs(op, Fetch(d1, Target(l, scope).value), w);
    }
  }

  lemma OperatorMeans(op: Operator, l: Tree, r: Tree, scope: map<nat, Variable>)
    requires var (a, b) := (Build(l, scope, false), Build(r, scope, false));
      a.Node? && b.Node? && Means(a, l, scope) && Means(b, r, scope)
    ensures Means(BuildOperator(op, Build(l, scope, false), Build(r, scope, false), false), BinaryTree(op, l, r), scope)
  {
    hide Build, IsoEval, MeanBinary, Means;
    var (a, b) := (Build(l, scope, false), Build(r, scope, false));
    var n := BuildOperator(op, a, b, false);
    if n.Node? {
      forall d ensures IsoEval(n.expr, d) == Mean(BinaryTree(op, l, r), scope, d) {
        match op
        case Computes(o) => ComputesMeans(o, l, r, scope, d);
        case Assigns(o) => AssignsMeans(o, l, r, scope, d);
        case Sequences => CommaMeans(l, r, scope, d);
      }
    }
    MeansAll(n, BinaryTree(op, l, r), scope);
  }

  lemma MeansAll(n: Node, t: Tree, scope: map<nat, Variable>)
    requires n.Node? ==> forall d :: IsoEval(n.expr, d) == Mean(t, scope, d)
    ensures Means(n, t, scope)
  {
  }

  lemma CommaShape(l: Tree, r: Tree, scope: map<nat, Variable>, d: Data)
    ensures MeanBinary(BinaryTree(Sequences, l, r), scope, d) ==
      if Mean(l, scope, d).None? then None else Mean(r, scope, Mean(l, scope, d).value.1)
  {
    hide Mean, SymbolValue;
    assert InnerSymbol(CommaSign) == None;
  }

  lemma CommaMeans(l: Tree, r: Tree, scope: map<nat, Variable>, d: Data)
    requires var (a, b) := (Build(l, scope, false), Build(r, scope, false));
      a.Node? && b.Node? && Means(a, l, scope) && Means(b, r, scope)
    ensures IsoEval(Comma(Build(l, scope, false).expr, Build(r, scope, false).expr), d)
      == MeanBinary(BinaryTree(Sequences, l, r), scope, d)
  {
    hide Build, Mean, MeanBinary;
    CommaShape(l, r, scope, d);
    var (a, b) := (Build(l, scope, false), Build(r, scope, false));
    assert IsoEval(a.expr, d) == Mean(l, scope, d);
    if Mean(l, scope, d).Some? {
      assert IsoEval(b.expr, Mean(l, scope, d).value.1) == Mean(r, scope, Mean(l, scope, d).value.1);
    }
  }

  lemma ConditionalShape(c: Tree, m: Tree, r: Tree, scope: map<nat, Variable>, d: Data)
    ensures Mean(TernaryTree(c, m, r), scope, d) ==
      if Mean(c, scope, d).None? then None
      else Mean(if Mean(c, scope, d).value.0 != 0 then m else r, scope, Mean(c, scope, d).value.1)
  {
    hide MeanBinary;
  }

  lemma ConditionalMeans(c: Tree, m: Tree, r: Tree, scope: map<nat, Variable>)
    requires var (a, b, e) := (Build(c, scope, false), Build(m, scope, false), Build(r, scope, false));
      a.Node? && b.Node? && e.Node? && Means(a, c, scope) && Means(b, m, scope) && Means(e, r, scope)
    ensures Means(BuildConditional(Build(c, scope, false), Build(m, scope, false), Build(r, scope, false)), TernaryTree(c, m, r), scope)
  {
    hide Build, Mean;
    var (a, b, e) := (Build(c, scope, false), Build(m, scope, false), Build(r, scope, false));
    var n := BuildConditional(a, b, e);
    if n.Node? {
      forall d ensures IsoEval(n.expr, d) == Mean(TernaryTree(c, m, r), scope, d) {
        ConditionalShape(c, m, r, scope, d);
        assert IsoEval(a.expr, d) == Mean(c, scope, d);
        if Mean(c, scope, d).Some? {
          var d1 := Mean(c, scope, d).value.1;
          assert IsoEval(b.expr, d1) == Mean(m, scope, d1) && IsoEval(e.expr, d1) == Mean(r, scope, d1);
        }
      }
    }
  }

  lemma {:induction false} PlainMeans(t: Tree, scope: map<nat, Variable>)
    ensures Means(Build(t, scope, false), t, scope)
    decreases t
  {
    hide Means, BuildUnary, BuildStep, BuildOperator, BuildConditional;
    match t
    case Leaf(k) => LeafMeans(k, scope);
    case PrefixTree(p, e) =>
      PlainMeans(e, scope);
      if Build(e, scope, false).Node? {
        PrefixMeans(p, e, scope);
      } else {
        BrokenMeans(Build(t, scope, false), t, scope);
      }
    case PostfixTree(increments, e) =>
      PlainMeans(e, scope);
      if Build(e, scope, false).Node? {
        StepMeans(t, e, if increments then PostInc else PostDec, scope);
      } else {
        BrokenMeans(Build(t, scope, false), t, scope);
      }
    case BinaryTree(op, l, r) =>
      PlainMeans(l, scope);
      PlainMeans(r, scope);
      if Build(l, scope, false).Node? && Build(r, scope, false).Node? {
        OperatorMeans(op, l, r, scope);
      } else {
        BrokenMeans(Build(t, scope, false), t, scope);
      }
    case TernaryTree(c, m, r) =>
      PlainMeans(c, scope);
      PlainMeans(m, scope);
      PlainMeans(r, scope);
      if Build(c, scope, false).Node? && Build(m, scope, false).Node? && Build(r, scope, false).Node? {
        ConditionalMeans(c, m, r, scope);
      } else {
        BrokenMeans(Build(t, scope, false), t, scope);
      }
    case _ => BrokenMeans(Build(t, scope, false), t, scope);
  }

  lemma BrokenMeans(n: Node, t: Tree, scope: map<nat, Variable>)
    requires !n.Node?
    ensures Means(n, t, scope)
  {
  }

  /** With folding or without, what the builder makes has the meaning of the tree in every environment. */
  lemma BuildMeans(t: Tree, scope: map<nat, Variable>, fold: bool, d: Data)
    requires Build(t, scope, fold).Node?
    ensures IsoEval(Build(t, scope, fold).expr, d) == Mean(t, scope, d)
  {
    hide Build, IsoEval, Mean;
    PlainMeans(t, scope);
    FoldingKeeps(t, scope);
  }

  // ------------------------------------------------------------------------- types

  predicate Arithmetical(symbol: Token) {
    symbol in {Star, Slash, Percent, Plus, Dash, LessLess, GreaterGreater, Amp, Caret, Pipe}
  }

  /** The type of an operator over operands of two types; None where they do not go together. */
  function SymbolKind(symbol: Token, k: Kind, m: Kind): Option<Kind> {
    var integers := k != Boolean && m != Boolean;
    if symbol == CommaSign then Some(m)
    else if symbol == AmpAmp || symbol == PipePipe then Some(Boolean)
    else if symbol == EqualEqual || symbol == ExclaimEqual then (if integers || k == m then Some(Boolean) else None)
    else if !integers then (if symbol == Equal && k == m then Some(k) else None)
    else if symbol in {Less, Greater, LessEqual, GreaterEqual} then Some(Boolean)
    else if Arithmetical(symbol) then Some(Integer)
    else Some(k)
  }

  /** The type of a tree, and None for one that is not well-typed. */
  function TypeOf(t: Tree, scope: map<nat, Variable>): Option<Kind> {
    match t
    case Leaf(k) =>
      (match k
       case Name(x) => if x in scope then Some(scope[x].kind) else None
       case Literal(kind, _) =>
         if kind == IntegerText then Some(Integer)
         else if kind == CharacterText then Some(Character)
         else if kind == BooleanText then Some(Boolean)
         else None
       case _ => None)
    case PrefixTree(p, e) =>
      (match TypeOf(e, scope)
       case None => None
       case Some(k) =>
         var sign := PrefixToken(p);
         if sign == Exclaim then Some(Boolean)
         else if k == Boolean then None
         else if sign == Tilde then Some(Integer)
         else if sign == Dash || sign == AbsWord then Some(k)
         else if sign == PlusPlus || sign == MinusMinus then (if Target(e, scope).Some? then Some(k) else None)
         else None)
    case PostfixTree(_, e) =>
      (match TypeOf(e, scope)
       case None => None
       case Some(k) => if k != Boolean && Target(e, scope).Some? then Some(k) else None)
    case BinaryTree(op, l, r) =>
      (match (TypeOf(l, scope), TypeOf(r, scope))
       case (Some(k), Some(m)) => if op.Assigns? && Target(l, scope).None? then None else SymbolKind(OperatorToken(op), k, m)
       case _ => None)
    case TernaryTree(c, m, r) =>
      (match (TypeOf(c, scope), TypeOf(m, scope), TypeOf(r, scope))
       case (Some(_), Some(k), Some(n)) =>
         if k != Boolean && n != Boolean then Some(Integer) else if k == n then Some(k) else None
       case _ => None)
    case _ => None
  }

  /** The builder accepts a tree without folding, with a type and as an lvalue or not. */
  predicate Accepts(n: Node, k: Option<Kind>, named: bool) {
    match n
    case Node(kind, lvalue, e) => k == Some(kind) && lvalue == named && (named ==> e.Var?)
    case Refused => k == None
    case Undefined => false
  }

  lemma PrefixAccepts(p: Prefix, e: Tree, scope: map<nat, Variable>)
    requires var a := Build(e, scope, false); a.Node? && Accepts(a, TypeOf(e, scope), Target(e, scope).Some?)
    ensures Accepts(BuildUnary(p, Build(e, scope, false), false), TypeOf(PrefixTree(p, e), scope), false)
  {
    hide Build;
  }

  lemma ComputesAccepts(op: BinaryOp, a: Node, b: Node)
    requires a.Node? && b.Node?
    ensures Accepts(BuildComputes(op, a, b, false), SymbolKind(ComputesToken(op), a.kind, b.kind), false)
  {
  }

  lemma AssignsAccepts(op: AssignOp, a: Node, b: Node, named: bool)
    requires a.Node? && b.Node? && Accepts(a, Some(a.kind), named)
    ensures Accepts(BuildAssigns(op, a, b), if named then SymbolKind(AssignsToken(op), a.kind, b.kind) else None, false)
  {
  }

  lemma OperatorAccepts(op: Operator, l: Tree, r: Tree, scope: map<nat, Variable>)
    requires var (a, b) := (Build(l, scope, false), Build(r, scope, false));
      && a.Node? && Accepts(a, TypeOf(l, scope), Target(l, scope).Some?)
      && b.Node? && Accepts(b, TypeOf(r, scope), Target(r, scope).Some?)
    ensures Accepts(BuildOperator(op, Build(l, scope, false), Build(r, scope, false), false), TypeOf(BinaryTree(op, l, r), scope), false)
  {
    hide Build, BuildComputes, BuildAssigns, ComputesToken, AssignsToken;
    var (a, b) := (Build(l, scope, false), Build(r, scope, false));
    match op
    case Computes(o) => ComputesAccepts(o, a, b);
    case Assigns(o) => AssignsAccepts(o, a, b, Target(l, scope).Some?);
    case Sequences =>
  }

  /** The builder accepts exactly the well-typed trees, and gives them their types. */
  lemma {:induction false} TypesExactly(t: Tree, scope: map<nat, Variable>)
    ensures Accepts(Build(t, scope, false), TypeOf(t, scope), Target(t, scope).Some?)
    decreases t
  {
    hide BuildUnary, BuildOperator, SymbolKind, OperatorToken, PrefixToken;
    match t
    case Leaf(_) =>
    case PrefixTree(p, e) =>
      TypesExactly(e, scope);
      if Build(e, scope, false).Node? {
        PrefixAccepts(p, e, scope);
      }
    case PostfixTree(_, e) => TypesExactly(e, scope);
    case BinaryTree(op, l, r) =>
      TypesExactly(l, scope);
      TypesExactly(r, scope);
      if Build(l, scope, false).Node? && Build(r, scope, false).Node? {
        OperatorAccepts(op, l, r, scope);
      }
    case TernaryTree(c, m, r) =>
      TypesExactly(c, scope);
      TypesExactly(m, scope);
      TypesExactly(r, scope);
    case _ =>
  }

  /** With folding a tree that is refused is not well-typed, and one that is built has its type. */
  lemma FoldedTypes(t: Tree, scope: map<nat, Variable>)
    ensures var n := Build(t, scope, true);
      (n.Refused? ==> TypeOf(t, scope) == None) && (n.Node? ==> TypeOf(t, scope) == Some(n.kind))
  {
    hide Build, TypeOf;
    TypesExactly(t, scope);
    FoldingKeeps(t, scope);
  }
}

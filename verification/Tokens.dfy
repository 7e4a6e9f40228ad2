/**
  * Tokens of expressions and the precedence of operators.
  */
module Tokens {
  import opened Ast

  datatype LiteralKind = IntegerText | CharacterText | BooleanText | FloatingText | StringText | NullText

  datatype Token =
    | Eof
    | Name(ident: nat)
    | Literal(kind: LiteralKind, value: int)
    | LParen | RParen | LSquare | RSquare | LBrace | RBrace
    | Colon | Semicolon | Question | Period | Arrow
    | PlusPlus | MinusMinus | Tilde | Exclaim | AbsWord | UpbWord
    | Plus | Dash | Star | Slash | Percent | Caret | Pipe | Amp
    | Less | Greater | PipePipe | AmpAmp | EqualEqual | ExclaimEqual | LessEqual | GreaterEqual
    | LessLess | GreaterGreater | CommaSign
    | Equal | StarEqual | SlashEqual | PercentEqual | PlusEqual | MinusEqual
    | LessLessEqual | GreaterGreaterEqual | AmpEqual | CaretEqual | PipeEqual
    | Other(code: int)

  /** Operators with two operands, as the tree names them. */
  datatype Operator = Computes(op: BinaryOp) | Assigns(aop: AssignOp) | Sequences

  /** Prefix operators. */
  datatype Prefix = PrefixInc | PrefixDec | Address | Indirection | Negate | Complement | Invert | AbsOf | UpbOf

  const PREC_UNKNOWN: nat := 0
  const PREC_COMMA: nat := 1
  const PREC_ASSIGNMENT: nat := 2
  const PREC_CONDITIONAL: nat := 3
  const PREC_LOGICAL_OR: nat := 4
  const PREC_LOGICAL_AND: nat := 5
  const PREC_OR: nat := 6
  const PREC_XOR: nat := 7
  const PREC_AND: nat := 8
  const PREC_EQUALITY: nat := 9
  const PREC_RELATIONAL: nat := 10
  const PREC_SHIFT: nat := 11
  const PREC_ADDITIVE: nat := 12
  const PREC_MULTIPLICATIVE: nat := 13

  function Precedence(t: Token): nat {
    match t
    case CommaSign => PREC_COMMA
    case Equal => PREC_ASSIGNMENT
    case StarEqual => PREC_ASSIGNMENT
    case SlashEqual => PREC_ASSIGNMENT
    case PercentEqual => PREC_ASSIGNMENT
    case PlusEqual => PREC_ASSIGNMENT
    case MinusEqual => PREC_ASSIGNMENT
    case LessLessEqual => PREC_ASSIGNMENT
    case GreaterGreaterEqual => PREC_ASSIGNMENT
    case AmpEqual => PREC_ASSIGNMENT
    case CaretEqual => PREC_ASSIGNMENT
    case PipeEqual => PREC_ASSIGNMENT
    case Question => PREC_CONDITIONAL
    case PipePipe => PREC_LOGICAL_OR
    case AmpAmp => PREC_LOGICAL_AND
    case Pipe => PREC_OR
    case Caret => PREC_XOR
    case Amp => PREC_AND
    case EqualEqual => PREC_EQUALITY
    case ExclaimEqual => PREC_EQUALITY
    case GreaterEqual => PREC_RELATIONAL
    case LessEqual => PREC_RELATIONAL
    case Greater => PREC_RELATIONAL
    case Less => PREC_RELATIONAL
    case LessLess => PREC_SHIFT
    case GreaterGreater => PREC_SHIFT
    case Plus => PREC_ADDITIVE
    case Dash => PREC_ADDITIVE
    case Star => PREC_MULTIPLICATIVE
    case Slash => PREC_MULTIPLICATIVE
    case Percent => PREC_MULTIPLICATIVE
    case _ => PREC_UNKNOWN
  }

  function TokenToBinary(t: Token): Operator
    requires Precedence(t) != PREC_UNKNOWN && t != Question
  {
    match t
    case Plus => Computes(Add)
    case Dash => Computes(Sub)
    case Star => Computes(Mul)
    case Slash => Computes(Div)
    case Percent => Computes(Rem)
    case Caret => Computes(Xor)
    case Pipe => Computes(Or)
    case Amp => Computes(And)
    case Equal => Assigns(Set)
    case Less => Computes(Lt)
    case Greater => Computes(Gt)
    case PlusEqual => Assigns(AddSet)
    case MinusEqual => Assigns(SubSet)
    case StarEqual => Assigns(MulSet)
    case SlashEqual => Assigns(DivSet)
    case PercentEqual => Assigns(RemSet)
    case ExclaimEqual => Computes(Ne)
    case CaretEqual => Assigns(XorSet)
    case PipeEqual => Assigns(OrSet)
    case PipePipe => Computes(LogOr)
    case AmpEqual => Assigns(AndSet)
    case AmpAmp => Computes(LogAnd)
    case EqualEqual => Computes(Eq)
    case LessEqual => Computes(Le)
    case LessLess => Computes(Shl)
    case GreaterEqual => Computes(Ge)
    case GreaterGreater => Computes(Shr)
    case LessLessEqual => Assigns(ShlSet)
    case GreaterGreaterEqual => Assigns(ShrSet)
    case CommaSign => Sequences
  }

  predicate IsPrefix(t: Token) {
    t in {PlusPlus, MinusMinus, Amp, Star, Dash, Tilde, Exclaim, AbsWord, UpbWord}
  }

  function TokenToUnary(t: Token): Prefix
    requires IsPrefix(t)
  {
    match t
    case PlusPlus => PrefixInc
    case MinusMinus => PrefixDec
    case Amp => Address
    case Star => Indirection
    case Dash => Negate
    case Tilde => Complement
    case Exclaim => Invert
    case AbsWord => AbsOf
    case UpbWord => UpbOf
  }

  /** Tokens that continue a postfix expression. */
  predicate IsPostfix(t: Token) {
    t in {LSquare, LParen, Period, Arrow, PlusPlus, MinusMinus}
  }

  predicate RightAssociative(prec: nat) {
    prec == PREC_CONDITIONAL || prec == PREC_ASSIGNMENT
  }

  // ---------------------------------------------------------------- spelling

  function ComputesToken(b: BinaryOp): (t: Token)
    ensures Precedence(t) >= PREC_LOGICAL_OR
  {
    match b
    case Mul => Star
    case Div => Slash
    case Rem => Percent
    case Add => Plus
    case Sub => Dash
    case Shl => LessLess
    case Shr => GreaterGreater
    case Lt => Less
    case Gt => Greater
    case Le => LessEqual
    case Ge => GreaterEqual
    case Eq => EqualEqual
    case Ne => ExclaimEqual
    case And => Amp
    case Xor => Caret
    case Or => Pipe
    case LogAnd => AmpAmp
    case LogOr => PipePipe
  }

  function AssignsToken(a: AssignOp): (t: Token)
    ensures Precedence(t) == PREC_ASSIGNMENT
  {
    match a
    case Set => Equal
    case MulSet => StarEqual
    case DivSet => SlashEqual
    case RemSet => PercentEqual
    case AddSet => PlusEqual
    case SubSet => MinusEqual
    case ShlSet => LessLessEqual
    case ShrSet => GreaterGreaterEqual
    case AndSet => AmpEqual
    case XorSet => CaretEqual
    case OrSet => PipeEqual
  }

  /** The token of an operator. */
  function OperatorToken(op: Operator): (t: Token)
    ensures Precedence(t) != PREC_UNKNOWN && t != Question
  {
    match op
    case Sequences => CommaSign
    case Computes(b) => ComputesToken(b)
    case Assigns(a) => AssignsToken(a)
  }

  /** The parser reads an operator back from its token. */
  lemma OperatorOfToken(op: Operator)
    ensures TokenToBinary(OperatorToken(op)) == op
  {
    match op
    case Sequences =>
    case Computes(b) => ComputesOfToken(b);
    case Assigns(a) =>
  }

  lemma ComputesOfToken(b: BinaryOp)
    ensures ComputesToken(b) != Question && TokenToBinary(ComputesToken(b)) == Computes(b)
  {
  }

  function PrefixToken(p: Prefix): (t: Token)
    ensures IsPrefix(t) && TokenToUnary(t) == p
  {
    match p
    case PrefixInc => PlusPlus
    case PrefixDec => MinusMinus
    case Address => Amp
    case Indirection => Star
    case Negate => Dash
    case Complement => Tilde
    case Invert => Exclaim
    case AbsOf => AbsWord
    case UpbOf => UpbWord
  }

  lemma AssignsTokenUnique(t: Token)
    requires Precedence(t) == PREC_ASSIGNMENT
    ensures TokenToBinary(t).Assigns? && AssignsToken(TokenToBinary(t).aop) == t
  {
  }

  lemma LooseTokenUnique(t: Token)
    requires PREC_LOGICAL_OR <= Precedence(t) <= PREC_EQUALITY
    ensures TokenToBinary(t).Computes? && ComputesToken(TokenToBinary(t).op) == t
  {
  }

  lemma TightTokenUnique(t: Token)
    requires PREC_RELATIONAL <= Precedence(t)
    ensures TokenToBinary(t).Computes? && ComputesToken(TokenToBinary(t).op) == t
  {
  }

  /** No two tokens stand for the same operator. */
  lemma OperatorTokenUnique(t: Token)
    requires Precedence(t) != PREC_UNKNOWN && t != Question
    ensures OperatorToken(TokenToBinary(t)) == t
  {
    var p := Precedence(t);
    if p == PREC_ASSIGNMENT {
      AssignsTokenUnique(t);
    } else if PREC_LOGICAL_OR <= p <= PREC_EQUALITY {
      LooseTokenUnique(t);
    } else if PREC_RELATIONAL <= p {
      TightTokenUnique(t);
    }
  }

  lemma PrefixTokenUnique(t: Token)
    requires IsPrefix(t)
    ensures PrefixToken(TokenToUnary(t)) == t
  {
  }

  lemma QuestionIs(t: Token)
    ensures Precedence(t) == PREC_CONDITIONAL <==> t == Question
  {
  }

  lemma OperatorsDoNotContinue(t: Token)
    requires IsPostfix(t)
    ensures Precedence(t) == PREC_UNKNOWN
  {
  }
}

/**
  * Integer operators of the language, on the 64-bit words that hold its values.
  * An operation that ISO/IEC 9899:2011 leaves undefined has no result.
  */
module Arithmetic {
  import opened Common
  import opened Ast

  const WORD_MIN: int := -0x8000_0000_0000_0000
  const WORD_MAX: int := 0x7fff_ffff_ffff_ffff

  /** A result that fits the word; overflow is undefined. */
  function Word(v: int): Option<int> {
    if WORD_MIN <= v <= WORD_MAX then Some(v) else None
  }

  function Truth(b: bool): int {
    if b then 1 else 0
  }

  function Magnitude(v: int): nat {
    if v < 0 then -v else v
  }

  /** Division that truncates toward zero. */
  function Quotient(a: int, b: int): int
    requires b != 0
  {
    var q := Magnitude(a) / Magnitude(b);
    if (a < 0) == (b < 0) then q else -q
  }

  function Remainder(a: int, b: int): int
    requires b != 0
  {
    a - b * Quotient(a, b)
  }

  function Power2(n: nat): nat
    ensures Power2(n) > 0
  {
    if n == 0 then 1 else 2 * Power2(n - 1)
  }

  /** A bitwise operator on two's complement integers, given by its truth table. */
  function Bitwise(table: (bool, bool) -> bool, a: int, b: int): int
    decreases Magnitude(a) + Magnitude(b)
  {
    var bit := Truth(table(a % 2 == 1, b % 2 == 1));
    if (a == 0 || a == -1) && (b == 0 || b == -1) then
      -bit
    else
      2 * Bitwise(table, a / 2, b / 2) + bit
  }

  predicate BothSet(p: bool, q: bool) {
    p && q
  }

  predicate OneSet(p: bool, q: bool) {
    p != q
  }

  predicate AnySet(p: bool, q: bool) {
    p || q
  }

  /** A bit of a two's complement integer. */
  function Bit(v: int, k: nat): bool
    decreases k
  {
    if k == 0 then v % 2 == 1 else Bit(v / 2, k - 1)
  }

  lemma {:induction false} SameBits(v: int, k: nat)
    requires v == 0 || v == -1
    ensures Bit(v, k) == (v == -1)
    decreases k
  {
    if k > 0 {
      SameBits(v / 2, k - 1);
    }
  }

  /** A bitwise operator works on every bit by itself (sections 6.5.10 to 6.5.12). */
  lemma {:induction false} BitwiseBits(table: (bool, bool) -> bool, a: int, b: int, k: nat)
    ensures Bit(Bitwise(table, a, b), k) == table(Bit(a, k), Bit(b, k))
    decreases k
  {
    var r := Bitwise(table, a, b);
    if (a == 0 || a == -1) && (b == 0 || b == -1) {
      SameBits(a, k);
      SameBits(b, k);
      SameBits(r, k);
    } else if k > 0 {
      var bit := Truth(table(a % 2 == 1, b % 2 == 1));
      assert r == 2 * Bitwise(table, a / 2, b / 2) + bit;
      assert r / 2 == Bitwise(table, a / 2, b / 2);
      BitwiseBits(table, a / 2, b / 2, k - 1);
    }
  }

  /** Division truncates, and the remainder has the sign of the dividend (section 6.5.5). */
  lemma TruncatingDivision(a: int, b: int)
    requires b != 0
    ensures a == b * Quotient(a, b) + Remainder(a, b)
    ensures Magnitude(Remainder(a, b)) < Magnitude(b)
    ensures Remainder(a, b) == 0 || (Remainder(a, b) < 0) == (a < 0)
  {
    var m: int, n: int := Magnitude(a), Magnitude(b);
    var q: int := m / n;
    assert m == q * n + m % n;
    assert Quotient(a, b) == if (a < 0) == (b < 0) then q else -q;
    assert b * Quotient(a, b) == if a < 0 then -(q * n) else q * n by {
      SignedProduct(a, b, q);
    }
  }

  lemma SignedProduct(a: int, b: int, q: int)
    requires b != 0
    ensures b * (if (a < 0) == (b < 0) then q else -q) == if a < 0 then -(q * Magnitude(b)) else q * Magnitude(b)
  {
  }

  function ApplyUnary(op: UnaryOp, v: int): Option<int> {
    match op
    case Minus => Word(-v)
    case BitNot => Word(-v - 1)
    case LogNot => Some(Truth(v == 0))
    case Abs => Word(if v >= 0 then v else -v)
  }

  function ApplyBinary(op: BinaryOp, a: int, b: int): Option<int> {
    match op
    case Mul => Word(a * b)
    case Div => if b == 0 then None else Word(Quotient(a, b))
    case Rem => if b == 0 then None else Word(Remainder(a, b))
    case Add => Word(a + b)
    case Sub => Word(a - b)
    case Shl => if 0 <= b < 64 && 0 <= a then Word(a * Power2(b)) else None
    case Shr => if 0 <= b < 64 then Word(a / Power2(b)) else None
    case Lt => Some(Truth(a < b))
    case Gt => Some(Truth(a > b))
    case Le => Some(Truth(a <= b))
    case Ge => Some(Truth(a >= b))
    case Eq => Some(Truth(a == b))
    case Ne => Some(Truth(a != b))
    case And => Word(Bitwise(BothSet, a, b))
    case Xor => Word(Bitwise(OneSet, a, b))
    case Or => Word(Bitwise(AnySet, a, b))
    case LogAnd => Some(Truth(a != 0 && b != 0))
    case LogOr => Some(Truth(a != 0 || b != 0))
  }

  /** The value an assignment stores, given the old value and the right operand. */
  function ApplyAssign(op: AssignOp, old_: int, v: int): Option<int> {
    match op
    case Set => Some(v)
    case MulSet => ApplyBinary(Mul, old_, v)
    case DivSet => ApplyBinary(Div, old_, v)
    case RemSet => ApplyBinary(Rem, old_, v)
    case AddSet => ApplyBinary(Add, old_, v)
    case SubSet => ApplyBinary(Sub, old_, v)
    case ShlSet => ApplyBinary(Shl, old_, v)
    case ShrSet => ApplyBinary(Shr, old_, v)
    case AndSet => ApplyBinary(And, old_, v)
    case XorSet => ApplyBinary(Xor, old_, v)
    case OrSet => ApplyBinary(Or, old_, v)
  }

  /** The value a step stores. */
  function ApplyStep(op: StepOp, v: int): Option<int> {
    if op == PostInc || op == PreInc then Word(v + 1) else Word(v - 1)
  }

  predicate IsPostfix(op: StepOp) {
    op == PostInc || op == PostDec
  }
}

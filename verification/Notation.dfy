/**
  * The operator grammar, stated without a parser.
  *
  * A concrete tree is a tree that also has the parentheses of the source.  Fits says
  * which concrete trees the grammar allows at a level of precedence, Spell gives the
  * tokens of one, and Abstract forgets the parentheses.
  */
module Notation {
  import opened Ast
  import opened Tokens
  import opened Grammar

  const UNARY_LEVEL: nat := 14
  const POSTFIX_LEVEL: nat := 15

  /** The levels of sections 6.5.5 to 6.5.17 of ISO/IEC 9899:2011. */
  function OperatorLevel(op: Operator): (p: nat)
    ensures PREC_UNKNOWN < p < UNARY_LEVEL && p != PREC_CONDITIONAL
  {
    match op
    case Sequences => PREC_COMMA
    case Assigns(_) => PREC_ASSIGNMENT
    case Computes(b) =>
      if b == LogOr then PREC_LOGICAL_OR
      else if b == LogAnd then PREC_LOGICAL_AND
      else if b == Or then PREC_OR
      else if b == Xor then PREC_XOR
      else if b == And then PREC_AND
      else if b == Eq || b == Ne then PREC_EQUALITY
      else if b == Lt || b == Gt || b == Le || b == Ge then PREC_RELATIONAL
      else if b == Shl || b == Shr then PREC_SHIFT
      else if b == Add || b == Sub then PREC_ADDITIVE
      else PREC_MULTIPLICATIVE
  }

  /** The precedence table of the parser has the levels of the standard. */
  lemma LevelOfToken(op: Operator)
    ensures Precedence(OperatorToken(op)) == OperatorLevel(op)
  {
  }

  /** Assignments and conditional expressions group from the right. */
  predicate GroupsRight(p: nat) {
    p == PREC_ASSIGNMENT || p == PREC_CONDITIONAL
  }

  /** How tightly the root of a tree binds. */
  function Level(c: Tree): (p: nat)
    ensures p > PREC_UNKNOWN
  {
    match c
    case BinaryTree(op, _, _) => OperatorLevel(op)
    case TernaryTree(_, _, _) => PREC_CONDITIONAL
    case PrefixTree(_, _) => UNARY_LEVEL
    case _ => POSTFIX_LEVEL
  }

  function LeftLevel(p: nat): nat {
    if GroupsRight(p) then p + 1 else p
  }

  function RightLevel(p: nat): nat {
    if GroupsRight(p) then p else p + 1
  }

  /**
    * A concrete tree may stand where the grammar asks for a level.  Braces may only
    * come first in the right operand of an operator (braces is then true), or be a
    * whole item.
    */
  predicate Fits(c: Tree, level: nat, braces: bool)
    decreases c, 0
  {
    match c
    case Broken => false
    case Leaf(t) => t.Name? || t.Literal?
    case Group(e) => Fits(e, PREC_COMMA, false)
    case PrefixTree(_, e) => level <= UNARY_LEVEL && Fits(e, UNARY_LEVEL, false)
    case PostfixTree(_, e) => Fits(e, POSTFIX_LEVEL, false)
    case Subscript(b, i) => Fits(b, POSTFIX_LEVEL, false) && Fits(i, PREC_COMMA, false)
    case Call(f, args) => Fits(f, POSTFIX_LEVEL, false) && FitsAll(args)
    case Member(b, _, _) => Fits(b, POSTFIX_LEVEL, false)
    case BinaryTree(op, l, r) =>
      var p := OperatorLevel(op);
      level <= p && Fits(l, LeftLevel(p), braces) && Fits(r, RightLevel(p), true)
    case TernaryTree(t, m, r) =>
      level <= PREC_CONDITIONAL && Fits(t, PREC_LOGICAL_OR, braces) && FitsItem(m) && Fits(r, PREC_CONDITIONAL, true)
    case Braces(items) => braces && items != [] && FitsAll(items)
  }

  /** An item of a list: an assignment expression or a list in braces. */
  predicate FitsItem(c: Tree)
    decreases c, 1
  {
    if c.Braces? then Fits(c, PREC_ASSIGNMENT, true) else Fits(c, PREC_ASSIGNMENT, false)
  }

  predicate FitsAll(cs: seq<Tree>)
    decreases cs
  {
    cs == [] || (FitsItem(cs[0]) && FitsAll(cs[1..]))
  }

  function StepToken(increments: bool): Token {
    if increments then PlusPlus else MinusMinus
  }

  /** The tokens of a concrete tree, before the tokens that follow. */
  function Spell(c: Tree, rest: seq<Token>): (ts: seq<Token>) {
    match c
    case Broken => rest
    case Leaf(t) => [t] + rest
    case Group(e) => [LParen] + Spell(e, [RParen] + rest)
    case PrefixTree(p, e) => [PrefixToken(p)] + Spell(e, rest)
    case PostfixTree(increments, e) => Spell(e, [StepToken(increments)] + rest)
    case Subscript(b, i) => Spell(b, [LSquare] + Spell(i, [RSquare] + rest))
    case Call(f, args) => Spell(f, [LParen] + SpellAll(args, [RParen] + rest))
    case Member(b, arrow, name) => Spell(b, [if arrow then Arrow else Period, Name(name)] + rest)
    case BinaryTree(op, l, r) => Spell(l, [OperatorToken(op)] + Spell(r, rest))
    case TernaryTree(t, m, r) => Spell(t, [Question] + Spell(m, [Colon] + Spell(r, rest)))
    case Braces(items) => [LBrace] + SpellAll(items, [RBrace] + rest)
  }

  function SpellAll(cs: seq<Tree>, rest: seq<Token>): (ts: seq<Token>) {
    if cs == [] then rest
    else if |cs| == 1 then Spell(cs[0], rest)
    else Spell(cs[0], [CommaSign] + SpellAll(cs[1..], rest))
  }

  /** The tree without its parentheses. */
  function Abstract(c: Tree): (t: Tree)
  {
    match c
    case Broken => c
    case Leaf(_) => c
    case Group(e) => Abstract(e)
    case PrefixTree(p, e) => PrefixTree(p, Abstract(e))
    case PostfixTree(increments, e) => PostfixTree(increments, Abstract(e))
    case Subscript(b, i) => Subscript(Abstract(b), Abstract(i))
    case Call(f, args) => Call(Abstract(f), AbstractAll(args))
    case Member(b, arrow, name) => Member(Abstract(b), arrow, name)
    case BinaryTree(op, l, r) => BinaryTree(op, Abstract(l), Abstract(r))
    case TernaryTree(t, m, r) => TernaryTree(Abstract(t), Abstract(m), Abstract(r))
    case Braces(items) => Braces(AbstractAll(items))
  }

  function AbstractAll(cs: seq<Tree>): (ts: seq<Tree>)
    ensures |ts| == |cs|
  {
    if cs == [] then [] else [Abstract(cs[0])] + AbstractAll(cs[1..])
  }

  /** The last operand is a list in braces, which no postfix operator continues. */
  predicate Closed(c: Tree) {
    match c
    case BinaryTree(_, _, r) => Closed(r)
    case TernaryTree(_, _, r) => Closed(r)
    case Braces(_) => true
    case _ => false
  }

  /** The tokens that follow do not continue a concrete tree. */
  predicate Stops(c: Tree, rest: seq<Token>) {
    var q := Precedence(Peek(rest));
    (IsPostfix(Peek(rest)) ==> Closed(c)) && (q < Level(c) || (q == Level(c) && !GroupsRight(q)))
  }

  // --------------------------------------------------------------- basic facts

  lemma FitsBelow(c: Tree, low: nat, high: nat, braces: bool)
    requires Fits(c, high, braces) && low <= high
    ensures Fits(c, low, braces)
  {
  }

  lemma FitsWider(c: Tree, level: nat, braces: bool)
    requires Fits(c, level, false)
    ensures Fits(c, level, braces)
  {
    match c
    case BinaryTree(op, l, r) => FitsWider(l, LeftLevel(OperatorLevel(op)), braces);
    case TernaryTree(t, m, r) => FitsWider(t, PREC_LOGICAL_OR, braces);
    case _ =>
  }

  lemma LevelOf(c: Tree, level: nat, braces: bool)
    requires Fits(c, level, braces) && level <= POSTFIX_LEVEL
    ensures level <= Level(c)
  {
  }

  lemma FitsAtLevel(c: Tree, low: nat, level: nat, braces: bool)
    requires Fits(c, low, braces) && level <= Level(c)
    ensures Fits(c, level, braces)
  {
  }

  lemma AbstractWhole(c: Tree, level: nat, braces: bool)
    requires Fits(c, level, braces)
    ensures !Abstract(c).Broken?
  {
  }

  /** A grammatical tree is not made of nothing, and begins an operand. */
  predicate Opens(t: Token) {
    t.Name? || t.Literal? || t == LParen || IsPrefix(t)
  }

  lemma FirstToken(c: Tree, level: nat, braces: bool, rest: seq<Token>)
    requires Fits(c, level, braces)
    ensures Opens(Peek(Spell(c, rest))) || (braces && Peek(Spell(c, rest)) == LBrace)
    decreases c
  {
    match c
    case Leaf(_) =>
    case Group(_) =>
    case PrefixTree(_, _) =>
    case PostfixTree(increments, e) => FirstToken(e, POSTFIX_LEVEL, false, [StepToken(increments)] + rest);
    case Subscript(b, i) => FirstToken(b, POSTFIX_LEVEL, false, [LSquare] + Spell(i, [RSquare] + rest));
    case Call(f, args) => FirstToken(f, POSTFIX_LEVEL, false, [LParen] + SpellAll(args, [RParen] + rest));
    case Member(b, arrow, name) =>
      FirstToken(b, POSTFIX_LEVEL, false, [if arrow then Arrow else Period, Name(name)] + rest);
    case BinaryTree(op, l, r) =>
      FirstToken(l, LeftLevel(OperatorLevel(op)), braces, [OperatorToken(op)] + Spell(r, rest));
    case TernaryTree(t, m, r) =>
      FirstToken(t, PREC_LOGICAL_OR, braces, [Question] + Spell(m, [Colon] + Spell(r, rest)));
    case Braces(_) =>
  }
}

/**
  * The parser reads every grammatical text: it gives back the tree, and leaves what
  * follows.
  */
module ParserReads {
  import opened Tokens
  import opened Grammar
  import opened Notation

  /** What stands before an operator: a unary expression, or braces where they are allowed. */
  function Start(ts: seq<Token>, braces: bool): Parsed {
    if braces then Operand(ts) else Unary(ts)
  }

  function ParseFrom(ts: seq<Token>, braces: bool, min: nat): Parsed
    requires min > PREC_UNKNOWN
  {
    var s := Start(ts, braces);
    Climb(s.tree, s.rest, s.fine, min)
  }

  /** The right operand is everything that binds tighter than the operator. */
  lemma RightOperandIs(ts: seq<Token>, prec: nat)
    requires PREC_UNKNOWN < prec
    ensures RightOperand(ts, prec) == ParseFrom(ts, true, RightLevel(prec))
  {
    hide Operand;
  }

  /** Climbing to a lower level goes through every higher one. */
  lemma {:induction false} ClimbSplit(lhs: Tree, ts: seq<Token>, fine: bool, high: nat, low: nat)
    requires PREC_UNKNOWN < low <= high
    ensures var p := Climb(lhs, ts, fine, high);
      Climb(lhs, ts, fine, low) == Climb(p.tree, p.rest, p.fine, low)
    decreases |ts|
  {
    hide Initializer, RightOperand, Precedence, TokenToBinary;
    var prec := Precedence(Peek(ts));
    if prec < high {
    } else if prec == PREC_CONDITIONAL {
      assert ts != [] by { EndHasNoPrecedence(ts); }
      var m := Initializer(ts[1..]);
      var colon := Peek(m.rest) == Colon;
      var r := RightOperand(if colon then m.rest[1..] else m.rest, prec);
      ClimbSplit(BuildTernary(lhs, m.tree, r.tree), r.rest, fine && m.fine && colon && r.fine, high, low);
    } else {
      assert ts != [] by { EndHasNoPrecedence(ts); }
      QuestionIs(ts[0]);
      var r := RightOperand(ts[1..], prec);
      ClimbSplit(BuildBinary(TokenToBinary(ts[0]), lhs, r.tree), r.rest, fine && r.fine, high, low);
    }
  }

  lemma ExpressionIs(ts: seq<Token>)
    ensures Expression(ts) == ParseFrom(ts, false, PREC_COMMA)
  {
    hide Unary, Climb;
    var u := Unary(ts);
    ClimbSplit(u.tree, u.rest, u.fine, PREC_ASSIGNMENT, PREC_COMMA);
  }

  // ------------------------------------------------------- one step of a routine

  lemma ClimbStops(lhs: Tree, ts: seq<Token>, min: nat)
    requires PREC_UNKNOWN < min && Precedence(Peek(ts)) < min
    ensures Climb(lhs, ts, true, min) == Parsed(lhs, ts, true)
  {
  }

  lemma ClimbBinary(lhs: Tree, op: Operator, ts: seq<Token>, min: nat)
    requires PREC_UNKNOWN < min <= OperatorLevel(op)
    ensures var r := ParseFrom(ts, true, RightLevel(OperatorLevel(op)));
      Climb(lhs, [OperatorToken(op)] + ts, true, min) == Climb(BuildBinary(op, lhs, r.tree), r.rest, r.fine, min)
  {
    hide Initializer, RightOperand, OperatorToken, TokenToBinary, Precedence, OperatorLevel;
    var all := [OperatorToken(op)] + ts;
    assert all[0] == OperatorToken(op) && all[1..] == ts;
    OperatorOfToken(op);
    LevelOfToken(op);
    RightOperandIs(ts, OperatorLevel(op));
  }

  lemma ClimbTernary(lhs: Tree, ts: seq<Token>, m: Tree, after: seq<Token>, min: nat)
    requires PREC_UNKNOWN < min <= PREC_CONDITIONAL
    requires Initializer(ts) == Parsed(m, [Colon] + after, true)
    ensures var r := ParseFrom(after, true, PREC_CONDITIONAL);
      Climb(lhs, [Question] + ts, true, min) == Climb(BuildTernary(lhs, m, r.tree), r.rest, r.fine, min)
  {
    hide Initializer, RightOperand, OperatorToken, TokenToBinary;
    var all := [Question] + ts;
    assert all[0] == Question && all[1..] == ts;
    assert ([Colon] + after)[1..] == after;
    RightOperandIs(after, PREC_CONDITIONAL);
  }

  lemma PrimaryLeaf(t: Token, rest: seq<Token>)
    requires t.Name? || t.Literal?
    ensures Primary([t] + rest) == Parsed(Leaf(t), rest, true)
  {
  }

  lemma PrimaryGroup(ts: seq<Token>, t: Tree, rest: seq<Token>)
    requires Expression(ts) == Parsed(t, [RParen] + rest, true)
    ensures Primary([LParen] + ts) == Parsed(t, rest, true)
  {
    hide Expression;
    assert ([LParen] + ts)[1..] == ts;
    assert ([RParen] + rest)[1..] == rest;
  }

  lemma PostfixOfPrimary(ts: seq<Token>, t: Tree, rest: seq<Token>)
    requires Primary(ts) == Parsed(t, rest, true)
    ensures Postfix(ts) == PostfixLoop(t, rest, true)
  {
    hide Primary, PostfixLoop;
  }

  lemma LoopStep(operand: Tree, increments: bool, rest: seq<Token>)
    ensures PostfixLoop(operand, [StepToken(increments)] + rest, true)
      == PostfixLoop(BuildPostfix(increments, operand), rest, true)
  {
    hide Expression, InitializerList, MemberStep, SkipUntil;
    assert ([StepToken(increments)] + rest)[1..] == rest;
  }

  lemma LoopSubscript(operand: Tree, ts: seq<Token>, t: Tree, rest: seq<Token>)
    requires Expression(ts) == Parsed(t, [RSquare] + rest, true)
    ensures PostfixLoop(operand, [LSquare] + ts, true) == PostfixLoop(BuildSubscript(operand, t), rest, true)
  {
    hide Expression, InitializerList, MemberStep, SkipUntil;
    assert ([LSquare] + ts)[1..] == ts;
    assert ([RSquare] + rest)[1..] == rest;
  }

  lemma LoopCallNone(operand: Tree, rest: seq<Token>)
    ensures PostfixLoop(operand, [LParen] + ([RParen] + rest), true) == PostfixLoop(BuildCall(operand, []), rest, true)
  {
    hide Expression, InitializerList, MemberStep, SkipUntil;
    var ts := [LParen] + ([RParen] + rest);
    assert ts[1..] == [RParen] + rest && ts[2..] == rest;
  }

  lemma LoopCall(operand: Tree, ts: seq<Token>, args: seq<Tree>, rest: seq<Token>)
    requires Peek(ts) != RParen
    requires InitializerList(ts) == ParsedList(args, [RParen] + rest, true)
    ensures PostfixLoop(operand, [LParen] + ts, true) == PostfixLoop(BuildCall(operand, args), rest, true)
  {
    hide Expression, InitializerList, MemberStep, SkipUntil;
    assert ([LParen] + ts)[1..] == ts;
    assert ([RParen] + rest)[1..] == rest;
  }

  lemma LoopMember(operand: Tree, arrow: bool, name: nat, rest: seq<Token>)
    ensures PostfixLoop(operand, [if arrow then Arrow else Period, Name(name)] + rest, true)
      == PostfixLoop(BuildMember(operand, arrow, name), rest, true)
  {
    hide Expression, InitializerList, SkipUntil;
    var ts := [if arrow then Arrow else Period, Name(name)] + rest;
    assert ts[1..] == [Name(name)] + rest && ts[2..] == rest;
  }

  lemma LoopEnds(operand: Tree, ts: seq<Token>)
    requires !IsPostfix(Peek(ts))
    ensures PostfixLoop(operand, ts, true) == Parsed(operand, ts, true)
  {
  }

  lemma UnaryStep(p: Prefix, ts: seq<Token>)
    ensures var u := Unary(ts);
      Unary([PrefixToken(p)] + ts) == Parsed(BuildPrefix(p, u.tree), u.rest, u.fine)
  {
    hide Postfix, PrefixToken, TokenToUnary;
    var all := [PrefixToken(p)] + ts;
    assert all[0] == PrefixToken(p) && all[1..] == ts;
  }

  lemma ListOne(ts: seq<Token>, t: Tree, rest: seq<Token>)
    requires Initializer(ts) == Parsed(t, rest, true) && Peek(rest) != CommaSign
    ensures InitializerList(ts) == ParsedList([t], rest, true)
  {
    hide Initializer;
  }

  lemma ListMore(ts: seq<Token>, t: Tree, after: seq<Token>, items: seq<Tree>, rest: seq<Token>)
    requires Initializer(ts) == Parsed(t, [CommaSign] + after, true)
    requires InitializerList(after) == ParsedList(items, rest, true)
    ensures InitializerList(ts) == ParsedList([t] + items, rest, true)
  {
    hide Initializer;
    assert ([CommaSign] + after)[1..] == after;
  }

  lemma InitializerBraces(ts: seq<Token>, items: seq<Tree>, rest: seq<Token>)
    requires Peek(ts) != RBrace && InitializerList(ts) == ParsedList(items, [RBrace] + rest, true)
    ensures Initializer([LBrace] + ts) == Parsed(Braces(items), rest, true)
  {
    hide InitializerList, Assignment, SkipUntil;
    assert ([LBrace] + ts)[1..] == ts;
    assert ([RBrace] + rest)[1..] == rest;
  }

  // ------------------------------------------------------------- reading a text

  /** An expression at any level, with the operators that follow still to be read. */
  lemma {:induction false} Reads(c: Tree, rest: seq<Token>, min: nat, braces: bool)
    requires PREC_UNKNOWN < min <= UNARY_LEVEL && Fits(c, min, braces) && Stops(c, rest)
    ensures ParseFrom(Spell(c, rest), braces, min) == Climb(Abstract(c), rest, true, min)
    decreases c, 3
  {
    hide Climb, Unary, Operand, OperatorLevel, Fits, ParseFrom;
    match c
    case BinaryTree(op, l, r) => ReadsBinary(c, rest, min, braces);
    case TernaryTree(t, m, r) => ReadsTernary(c, rest, min, braces);
    case _ => ReadsStart(c, rest, min, braces);
  }

  lemma {:induction false} ReadsBinary(c: Tree, rest: seq<Token>, min: nat, braces: bool)
    requires PREC_UNKNOWN < min <= UNARY_LEVEL && Fits(c, min, braces) && Stops(c, rest) && c.BinaryTree?
    ensures ParseFrom(Spell(c, rest), braces, min) == Climb(Abstract(c), rest, true, min)
    decreases c, 2
  {
    hide Climb, Unary, Operand, ParseFrom, Spell, Precedence, OperatorToken, OperatorLevel;
    var p := OperatorLevel(c.op);
    var tail := [OperatorToken(c.op)] + Spell(c.right, rest);
    assert Spell(c, rest) == Spell(c.left, tail) by { ShapeBinary(c, rest); }
    FitsBelow(c.left, min, LeftLevel(p), braces);
    OperatorStops(c.left, c.op, Spell(c.right, rest), braces);
    Reads(c.left, tail, min, braces);
    ClimbBinary(Abstract(c.left), c.op, Spell(c.right, rest), min);
    RightStops(c.right, rest, p);
    Reads(c.right, rest, RightLevel(p), true);
    ClimbStops(Abstract(c.right), rest, RightLevel(p));
    AbstractWhole(c.left, LeftLevel(p), braces);
    AbstractWhole(c.right, RightLevel(p), true);
  }

  lemma ShapeBinary(c: Tree, rest: seq<Token>)
    requires c.BinaryTree?
    ensures Spell(c, rest) == Spell(c.left, [OperatorToken(c.op)] + Spell(c.right, rest))
    ensures Abstract(c) == BinaryTree(c.op, Abstract(c.left), Abstract(c.right))
  {
  }

  /** An operator does not continue a left operand that the grammar allows before it. */
  lemma OperatorStops(l: Tree, op: Operator, after: seq<Token>, braces: bool)
    requires Fits(l, LeftLevel(OperatorLevel(op)), braces)
    ensures Stops(l, [OperatorToken(op)] + after)
  {
    hide OperatorLevel, OperatorToken, Precedence;
    LevelOfToken(op);
    LevelOf(l, LeftLevel(OperatorLevel(op)), braces);
    if IsPostfix(OperatorToken(op)) {
      OperatorsDoNotContinue(OperatorToken(op));
    }
  }

  /** What follows an operator expression does not continue its right operand. */
  lemma RightStops(r: Tree, rest: seq<Token>, p: nat)
    requires PREC_UNKNOWN < p < UNARY_LEVEL && Fits(r, RightLevel(p), true) && (IsPostfix(Peek(rest)) ==> Closed(r))
    requires var q := Precedence(Peek(rest)); q < p || (q == p && !GroupsRight(q))
    ensures Stops(r, rest) && Precedence(Peek(rest)) < RightLevel(p)
  {
    LevelOf(r, RightLevel(p), true);
  }

  lemma {:induction false} ReadsTernary(c: Tree, rest: seq<Token>, min: nat, braces: bool)
    requires PREC_UNKNOWN < min <= UNARY_LEVEL && Fits(c, min, braces) && Stops(c, rest) && c.TernaryTree?
    ensures ParseFrom(Spell(c, rest), braces, min) == Climb(Abstract(c), rest, true, min)
    decreases c, 2
  {
    hide Climb, Unary, Operand, ParseFrom, Spell, Precedence;
    var tail := Spell(c.right, rest);
    var middle := Spell(c.middle, [Colon] + tail);
    assert Spell(c, rest) == Spell(c.cond, [Question] + middle) by { ShapeTernary(c, rest); }
    FitsBelow(c.cond, min, PREC_LOGICAL_OR, braces);
    QuestionStops(c.cond, middle, braces);
    Reads(c.cond, [Question] + middle, min, braces);
    ColonEnds(tail);
    ReadsItem(c.middle, [Colon] + tail);
    ClimbTernary(Abstract(c.cond), middle, Abstract(c.middle), tail, min);
    RightStops(c.right, rest, PREC_CONDITIONAL);
    Reads(c.right, rest, PREC_CONDITIONAL, true);
    ClimbStops(Abstract(c.right), rest, PREC_CONDITIONAL);
    AbstractWhole(c.cond, PREC_LOGICAL_OR, braces);
    AbstractWhole(c.middle, PREC_ASSIGNMENT, c.middle.Braces?);
    AbstractWhole(c.right, PREC_CONDITIONAL, true);
  }

  lemma ShapeTernary(c: Tree, rest: seq<Token>)
    requires c.TernaryTree?
    ensures Spell(c, rest) == Spell(c.cond, [Question] + Spell(c.middle, [Colon] + Spell(c.right, rest)))
    ensures Abstract(c) == TernaryTree(Abstract(c.cond), Abstract(c.middle), Abstract(c.right))
  {
  }

  lemma QuestionStops(t: Tree, after: seq<Token>, braces: bool)
    requires Fits(t, PREC_LOGICAL_OR, braces)
    ensures Stops(t, [Question] + after)
  {
    LevelOf(t, PREC_LOGICAL_OR, braces);
  }

  /** A token that ends an item or a bracket. */
  predicate Ends(rest: seq<Token>) {
    !IsPostfix(Peek(rest)) && Precedence(Peek(rest)) <= PREC_COMMA
  }

  lemma ColonEnds(after: seq<Token>)
    ensures Ends([Colon] + after) && Ends([RParen] + after) && Ends([RSquare] + after)
    ensures Ends([RBrace] + after) && Ends([CommaSign] + after)
  {
  }

  lemma BracketStops(c: Tree, rest: seq<Token>)
    requires !IsPostfix(Peek(rest)) && Precedence(Peek(rest)) == PREC_UNKNOWN
    ensures Stops(c, rest)
  {
  }

  lemma {:induction false} ReadsStart(c: Tree, rest: seq<Token>, min: nat, braces: bool)
    requires PREC_UNKNOWN < min <= UNARY_LEVEL && Fits(c, min, braces) && Stops(c, rest)
    requires !c.BinaryTree? && !c.TernaryTree?
    ensures ParseFrom(Spell(c, rest), braces, min) == Climb(Abstract(c), rest, true, min)
    decreases c, 2
  {
    hide Climb, Unary, Initializer, Spell, Abstract;
    if c.Braces? {
      ReadsBraces(c, rest);
      BracesFirst(c, rest);
    } else {
      assert Fits(c, UNARY_LEVEL, false);
      ReadsUnary(c, rest);
      FirstToken(c, UNARY_LEVEL, false, rest);
    }
  }

  lemma BracesFit(c: Tree)
    requires FitsItem(c) && c.Braces?
    ensures c.items != [] && FitsAll(c.items)
  {
  }

  lemma BracesFirst(c: Tree, rest: seq<Token>)
    requires c.Braces?
    ensures Peek(Spell(c, rest)) == LBrace
  {
  }

  lemma {:induction false} ReadsUnary(c: Tree, rest: seq<Token>)
    requires Fits(c, UNARY_LEVEL, false) && !IsPostfix(Peek(rest))
    ensures Unary(Spell(c, rest)) == Parsed(Abstract(c), rest, true)
    decreases c, 1
  {
    hide Unary, Postfix, PostfixLoop, PrefixToken, OperatorLevel;
    if c.PrefixTree? {
      ReadsUnary(c.operand, rest);
      UnaryStep(c.prefix, Spell(c.operand, rest));
      AbstractWhole(c.operand, UNARY_LEVEL, false);
    } else {
      assert Fits(c, POSTFIX_LEVEL, false);
      ReadsPostfix(c, rest);
      LoopEnds(Abstract(c), rest);
      NoPrefix(c, rest);
      UnaryOfPostfix(Spell(c, rest));
    }
  }

  lemma UnaryOfPostfix(ts: seq<Token>)
    requires !IsPrefix(Peek(ts))
    ensures Unary(ts) == Postfix(ts)
  {
    hide Postfix;
  }

  lemma NoPrefix(c: Tree, rest: seq<Token>)
    requires Fits(c, POSTFIX_LEVEL, false)
    ensures !IsPrefix(Peek(Spell(c, rest)))
  {
    match c
    case Leaf(_) =>
    case Group(_) =>
    case PostfixTree(increments, e) => NoPrefix(e, [StepToken(increments)] + rest);
    case Subscript(b, i) => NoPrefix(b, [LSquare] + Spell(i, [RSquare] + rest));
    case Call(f, args) => NoPrefix(f, [LParen] + SpellAll(args, [RParen] + rest));
    case Member(b, arrow, name) => NoPrefix(b, [if arrow then Arrow else Period, Name(name)] + rest);
  }

  lemma {:induction false} ReadsPostfix(c: Tree, rest: seq<Token>)
    requires Fits(c, POSTFIX_LEVEL, false)
    ensures Postfix(Spell(c, rest)) == PostfixLoop(Abstract(c), rest, true)
    decreases c, 0
  {
    hide Postfix, PostfixLoop, Primary, Expression, Initializer, StepToken, Stops, OperatorLevel;
    match c
    case Leaf(t) =>
      PrimaryLeaf(t, rest);
      PostfixOfPrimary(Spell(c, rest), c, rest);
    case Group(e) =>
      ColonEnds(rest);
      BracketStops(e, [RParen] + rest);
      ReadsExpression(e, [RParen] + rest);
      PrimaryGroup(Spell(e, [RParen] + rest), Abstract(e), rest);
      PostfixOfPrimary(Spell(c, rest), Abstract(e), rest);
    case PostfixTree(increments, e) =>
      ReadsPostfix(e, [StepToken(increments)] + rest);
      LoopStep(Abstract(e), increments, rest);
      AbstractWhole(e, POSTFIX_LEVEL, false);
    case Subscript(b, i) => ReadsSubscript(c, rest);
    case Call(f, args) => ReadsCall(c, rest);
    case Member(b, arrow, name) =>
      ReadsPostfix(b, [if arrow then Arrow else Period, Name(name)] + rest);
      LoopMember(Abstract(b), arrow, name, rest);
      AbstractWhole(b, POSTFIX_LEVEL, false);
  }

  lemma {:induction false} ReadsSubscript(c: Tree, rest: seq<Token>)
    requires Fits(c, POSTFIX_LEVEL, false) && c.Subscript?
    ensures Postfix(Spell(c, rest)) == PostfixLoop(Abstract(c), rest, true)
    decreases c, -1
  {
    hide Postfix, PostfixLoop, Expression;
    var tail := [RSquare] + rest;
    ReadsPostfix(c.base, [LSquare] + Spell(c.index, tail));
    ColonEnds(rest);
    ReadsExpression(c.index, tail);
    LoopSubscript(Abstract(c.base), Spell(c.index, tail), Abstract(c.index), rest);
    AbstractWhole(c.base, POSTFIX_LEVEL, false);
    AbstractWhole(c.index, PREC_COMMA, false);
  }

  lemma {:induction false} ReadsCall(c: Tree, rest: seq<Token>)
    requires Fits(c, POSTFIX_LEVEL, false) && c.Call?
    ensures Postfix(Spell(c, rest)) == PostfixLoop(Abstract(c), rest, true)
    decreases c, -1
  {
    hide Postfix, PostfixLoop, InitializerList;
    var tail := [RParen] + rest;
    ReadsPostfix(c.callee, [LParen] + SpellAll(c.arguments, tail));
    AbstractWhole(c.callee, POSTFIX_LEVEL, false);
    if c.arguments == [] {
      LoopCallNone(Abstract(c.callee), rest);
    } else {
      ColonEnds(rest);
      ReadsItems(c.arguments, tail);
      FirstOfItems(c.arguments, tail);
      LoopCall(Abstract(c.callee), SpellAll(c.arguments, tail), AbstractAll(c.arguments), rest);
    }
  }

  lemma FirstOfItems(cs: seq<Tree>, rest: seq<Token>)
    requires cs != [] && FitsAll(cs)
    ensures Peek(SpellAll(cs, rest)) != RParen && Peek(SpellAll(cs, rest)) != RBrace
  {
    var c := cs[0];
    var after := if |cs| == 1 then rest else [CommaSign] + SpellAll(cs[1..], rest);
    FirstToken(c, PREC_ASSIGNMENT, c.Braces?, after);
  }

  /** A text at the level of the comma, before a token that is not an operator. */
  lemma {:induction false} ReadsExpression(c: Tree, rest: seq<Token>)
    requires Fits(c, PREC_COMMA, false) && Stops(c, rest) && Precedence(Peek(rest)) == PREC_UNKNOWN
    ensures Expression(Spell(c, rest)) == Parsed(Abstract(c), rest, true)
    decreases c, 4
  {
    hide Expression, ParseFrom, Climb, Fits, Spell, Abstract, IsPostfix, Precedence;
    ExpressionIs(Spell(c, rest));
    Reads(c, rest, PREC_COMMA, false);
    ClimbStops(Abstract(c), rest, PREC_COMMA);
  }

  lemma {:induction false} ReadsItem(c: Tree, rest: seq<Token>)
    requires FitsItem(c) && Ends(rest)
    ensures Initializer(Spell(c, rest)) == Parsed(Abstract(c), rest, true)
    decreases c, 4
  {
    hide Climb, Unary, Fits, Spell, Abstract, IsPostfix, Precedence;
    if c.Braces? {
      assert c.items != [] && FitsAll(c.items) by { BracesFit(c); }
      ReadsBraces(c, rest);
    } else {
      LevelOf(c, PREC_ASSIGNMENT, false);
      Reads(c, rest, PREC_ASSIGNMENT, false);
      ClimbStops(Abstract(c), rest, PREC_ASSIGNMENT);
      FirstToken(c, PREC_ASSIGNMENT, false, rest);
    }
  }

  lemma {:induction false} ReadsItems(cs: seq<Tree>, rest: seq<Token>)
    requires cs != [] && FitsAll(cs) && Ends(rest) && Peek(rest) != CommaSign
    ensures InitializerList(SpellAll(cs, rest)) == ParsedList(AbstractAll(cs), rest, true)
    decreases cs
  {
    hide InitializerList, Initializer, Spell, Abstract, Fits, IsPostfix, Precedence;
    if |cs| == 1 {
      ReadsItem(cs[0], rest);
      ListOne(Spell(cs[0], rest), Abstract(cs[0]), rest);
    } else {
      var after := SpellAll(cs[1..], rest);
      ColonEnds(after);
      ReadsItem(cs[0], [CommaSign] + after);
      ReadsItems(cs[1..], rest);
      ListMore(Spell(cs[0], [CommaSign] + after), Abstract(cs[0]), after, AbstractAll(cs[1..]), rest);
    }
  }

  lemma {:induction false} ReadsBraces(c: Tree, rest: seq<Token>)
    requires c.Braces? && c.items != [] && FitsAll(c.items)
    ensures Initializer(Spell(c, rest)) == Parsed(Abstract(c), rest, true)
    decreases c, 0
  {
    hide InitializerList, Initializer, IsPostfix, Precedence;
    var tail := [RBrace] + rest;
    ColonEnds(rest);
    ReadsItems(c.items, tail);
    FirstOfItems(c.items, tail);
    InitializerBraces(SpellAll(c.items, tail), AbstractAll(c.items), rest);
  }

  /** Assignment and conditional expressions, before a token that binds too loosely. */
  lemma {:induction false} ReadsAssignment(c: Tree, rest: seq<Token>)
    requires Fits(c, PREC_ASSIGNMENT, false) && Stops(c, rest) && Precedence(Peek(rest)) < PREC_ASSIGNMENT
    ensures Assignment(Spell(c, rest)) == Parsed(Abstract(c), rest, true)
  {
    hide Climb, Unary, Fits, Spell, Abstract, IsPostfix, Precedence;
    LevelOf(c, PREC_ASSIGNMENT, false);
    Reads(c, rest, PREC_ASSIGNMENT, false);
    ClimbStops(Abstract(c), rest, PREC_ASSIGNMENT);
  }

  lemma {:induction false} ReadsConditional(c: Tree, rest: seq<Token>)
    requires Fits(c, PREC_CONDITIONAL, false) && Stops(c, rest) && Precedence(Peek(rest)) < PREC_CONDITIONAL
    ensures Conditional(Spell(c, rest)) == Parsed(Abstract(c), rest, true)
  {
    hide Climb, Unary, Fits, Spell, Abstract, IsPostfix, Precedence;
    LevelOf(c, PREC_CONDITIONAL, false);
    Reads(c, rest, PREC_CONDITIONAL, false);
    ClimbStops(Abstract(c), rest, PREC_CONDITIONAL);
  }
}

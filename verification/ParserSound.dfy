/**
  * Whatever the parser accepts is grammatical: the tokens it takes are the spelling
  * of a concrete tree whose parentheses forgotten is the tree it gives.
  */
module ParserSound {
  import opened Tokens
  import opened Grammar
  import opened Notation
  import opened ParserReads

  /** A concrete tree accounts for a result of the parser on some tokens. */
  predicate Explains(c: Tree, level: nat, braces: bool, ts: seq<Token>, p: Parsed) {
    p.fine && Fits(c, level, braces) && Spell(c, p.rest) == ts && Abstract(c) == p.tree && Stops(c, p.rest)
  }

  predicate ExplainsAll(cs: seq<Tree>, ts: seq<Token>, p: ParsedList) {
    p.fine && cs != [] && FitsAll(cs) && SpellAll(cs, p.rest) == ts && AbstractAll(cs) == p.trees
  }

  lemma Split(ts: seq<Token>)
    requires ts != []
    ensures [ts[0]] + ts[1..] == ts
  {
  }

  lemma Split2(ts: seq<Token>)
    requires |ts| >= 2
    ensures [ts[0], ts[1]] + ts[2..] == ts && [ts[0]] + ([ts[1]] + ts[2..]) == ts
    ensures ts[1..][1..] == ts[2..]
  {
  }

  lemma {:induction false} PrimarySound(ts: seq<Token>) returns (c: Tree)
    requires Primary(ts).fine
    ensures var p := Primary(ts);
      Fits(c, POSTFIX_LEVEL, false) && Spell(c, p.rest) == ts && Abstract(c) == p.tree
    decreases |ts|, 2
  {
    hide Expression, Stops;
    if Peek(ts) == LParen {
      var e := ExpressionSound(ts[1..]);
      c := Group(e);
      Split(ts);
      Split(Expression(ts[1..]).rest);
    } else {
      c := Leaf(ts[0]);
    }
  }

  lemma {:induction false} PostfixSound(ts: seq<Token>) returns (c: Tree)
    requires Postfix(ts).fine
    ensures Explains(c, POSTFIX_LEVEL, false, ts, Postfix(ts))
    decreases |ts|, 3
  {
    hide Primary, PostfixLoop, Fits, Spell, Abstract;
    var p := Primary(ts);
    var b := PrimarySound(ts);
    c := LoopSound(b, p.rest, p.fine);
    NotPostfixStops(c, PostfixLoop(p.tree, p.rest, p.fine).rest);
  }

  lemma NotPostfixStops(c: Tree, rest: seq<Token>)
    requires Fits(c, UNARY_LEVEL, false) && !IsPostfix(Peek(rest))
    ensures Stops(c, rest)
  {
  }

  /** The postfix operators after an operand. */
  lemma {:induction false} LoopSound(b: Tree, ts: seq<Token>, fine: bool) returns (c: Tree)
    requires Fits(b, POSTFIX_LEVEL, false) && PostfixLoop(Abstract(b), ts, fine).fine
    ensures var p := PostfixLoop(Abstract(b), ts, fine);
      Fits(c, POSTFIX_LEVEL, false) && Spell(c, p.rest) == Spell(b, ts) && Abstract(c) == p.tree && !IsPostfix(Peek(p.rest))
    ensures Fits(c, UNARY_LEVEL, false)
    decreases |ts|, 0
  {
    hide Expression, InitializerList, SkipUntil, MemberStep, Spell, Abstract, Stops, OperatorLevel;
    FitsBelow(b, UNARY_LEVEL, POSTFIX_LEVEL, false);
    AbstractWhole(b, POSTFIX_LEVEL, false);
    match Peek(ts)
    case LSquare =>
      c := SubscriptSound(b, ts, fine);
    case LParen =>
      if Peek(ts[1..]) == RParen {
        JoinCallNone(b, ts);
        c := LoopSound(Call(b, []), ts[2..], fine);
      } else {
        c := CallSound(b, ts, fine);
      }
    case Period => c := MemberSound(b, ts, false, fine);
    case Arrow => c := MemberSound(b, ts, true, fine);
    case PlusPlus =>
      JoinStep(b, ts);
      c := LoopSound(PostfixTree(true, b), ts[1..], fine);
    case MinusMinus =>
      JoinStep(b, ts);
      c := LoopSound(PostfixTree(false, b), ts[1..], fine);
    case _ =>
      c := b;
  }

  lemma {:induction false} SubscriptSound(b: Tree, ts: seq<Token>, fine: bool) returns (c: Tree)
    requires Fits(b, POSTFIX_LEVEL, false) && PostfixLoop(Abstract(b), ts, fine).fine && Peek(ts) == LSquare
    ensures var p := PostfixLoop(Abstract(b), ts, fine);
      Fits(c, POSTFIX_LEVEL, false) && Spell(c, p.rest) == Spell(b, ts) && Abstract(c) == p.tree && !IsPostfix(Peek(p.rest))
    ensures Fits(c, UNARY_LEVEL, false)
    decreases |ts|, -1
  {
    hide Expression, InitializerList, SkipUntil, MemberStep, Spell, Abstract, Stops, OperatorLevel, IsPostfix;
    AbstractWhole(b, POSTFIX_LEVEL, false);
    var i := ExpressionSound(ts[1..]);
    var after := Expression(ts[1..]).rest;
    JoinSubscript(b, i, ts, after);
    c := LoopSound(Subscript(b, i), after[1..], fine && Expression(ts[1..]).fine);
  }

  lemma {:induction false} CallSound(b: Tree, ts: seq<Token>, fine: bool) returns (c: Tree)
    requires Fits(b, POSTFIX_LEVEL, false) && PostfixLoop(Abstract(b), ts, fine).fine
    requires Peek(ts) == LParen && Peek(ts[1..]) != RParen
    ensures var p := PostfixLoop(Abstract(b), ts, fine);
      Fits(c, POSTFIX_LEVEL, false) && Spell(c, p.rest) == Spell(b, ts) && Abstract(c) == p.tree && !IsPostfix(Peek(p.rest))
    ensures Fits(c, UNARY_LEVEL, false)
    decreases |ts|, -1
  {
    hide Expression, InitializerList, SkipUntil, MemberStep, Spell, Abstract, Stops, OperatorLevel, IsPostfix;
    AbstractWhole(b, POSTFIX_LEVEL, false);
    var args := ItemsSound(ts[1..]);
    var l := InitializerList(ts[1..]);
    JoinCall(b, args, ts, l.rest);
    c := LoopSound(Call(b, args), l.rest[1..], fine && l.fine);
  }

  lemma JoinSubscript(b: Tree, i: Tree, ts: seq<Token>, after: seq<Token>)
    requires Peek(ts) == LSquare && Peek(after) == RSquare && Spell(i, after) == ts[1..]
    requires !Abstract(b).Broken? && Fits(i, PREC_COMMA, false)
    ensures Spell(Subscript(b, i), after[1..]) == Spell(b, ts)
    ensures Abstract(Subscript(b, i)) == BuildSubscript(Abstract(b), Abstract(i))
  {
    Split(ts);
    Split(after);
    AbstractWhole(i, PREC_COMMA, false);
  }

  lemma JoinCallNone(b: Tree, ts: seq<Token>)
    requires Peek(ts) == LParen && Peek(ts[1..]) == RParen && !Abstract(b).Broken?
    ensures Spell(Call(b, []), ts[2..]) == Spell(b, ts)
    ensures Abstract(Call(b, [])) == BuildCall(Abstract(b), [])
  {
    Split2(ts);
  }

  lemma JoinCall(b: Tree, args: seq<Tree>, ts: seq<Token>, after: seq<Token>)
    requires Peek(ts) == LParen && Peek(after) == RParen && SpellAll(args, after) == ts[1..] && !Abstract(b).Broken?
    ensures Spell(Call(b, args), after[1..]) == Spell(b, ts)
    ensures Abstract(Call(b, args)) == BuildCall(Abstract(b), AbstractAll(args))
  {
    Split(ts);
    Split(after);
  }

  lemma JoinStep(b: Tree, ts: seq<Token>)
    requires ts != [] && ts[0] in {PlusPlus, MinusMinus} && !Abstract(b).Broken?
    ensures var up := ts[0] == PlusPlus;
      Spell(PostfixTree(up, b), ts[1..]) == Spell(b, ts) && Abstract(PostfixTree(up, b)) == BuildPostfix(up, Abstract(b))
  {
    Split(ts);
  }

  lemma {:induction false} MemberSound(b: Tree, ts: seq<Token>, arrow: bool, fine: bool) returns (c: Tree)
    requires ts != [] && ts[0] == (if arrow then Arrow else Period)
    requires Fits(b, POSTFIX_LEVEL, false) && MemberStep(Abstract(b), ts, arrow, fine).fine
    ensures var p := MemberStep(Abstract(b), ts, arrow, fine);
      Fits(c, POSTFIX_LEVEL, false) && Spell(c, p.rest) == Spell(b, ts) && Abstract(c) == p.tree && !IsPostfix(Peek(p.rest))
    ensures Fits(c, UNARY_LEVEL, false)
    decreases |ts| - 1, 8
  {
    hide PostfixLoop, Stops, OperatorLevel, Spell, Abstract;
    AbstractWhole(b, POSTFIX_LEVEL, false);
    var name := ts[1..][0].ident;
    JoinMember(b, ts, arrow, name);
    c := LoopSound(Member(b, arrow, name), ts[2..], fine);
  }

  lemma JoinMember(b: Tree, ts: seq<Token>, arrow: bool, name: nat)
    requires |ts| >= 2 && ts[0] == (if arrow then Arrow else Period) && ts[1] == Name(name) && !Abstract(b).Broken?
    ensures Spell(Member(b, arrow, name), ts[2..]) == Spell(b, ts)
    ensures Abstract(Member(b, arrow, name)) == BuildMember(Abstract(b), arrow, name)
  {
    Split2(ts);
  }

  lemma {:induction false} UnarySound(ts: seq<Token>) returns (c: Tree)
    requires Unary(ts).fine
    ensures Explains(c, UNARY_LEVEL, false, ts, Unary(ts))
    decreases |ts|, 4
  {
    hide Postfix, OperatorLevel, Stops;
    if IsPrefix(Peek(ts)) {
      var e := UnarySound(ts[1..]);
      var p := TokenToUnary(ts[0]);
      c := PrefixTree(p, e);
      AbstractWhole(e, UNARY_LEVEL, false);
      PrefixTokenUnique(ts[0]);
      Split(ts);
      PrefixStops(c, Unary(ts).rest);
    } else {
      c := PostfixSound(ts);
      FitsBelow(c, UNARY_LEVEL, POSTFIX_LEVEL, false);
    }
  }

  lemma PrefixStops(c: Tree, rest: seq<Token>)
    requires c.PrefixTree? && Fits(c.operand, UNARY_LEVEL, false) && Stops(c.operand, rest)
    ensures Stops(c, rest)
  {
  }

  lemma {:induction false} StartSound(ts: seq<Token>, braces: bool) returns (c: Tree)
    requires Start(ts, braces).fine
    ensures Explains(c, UNARY_LEVEL, braces, ts, Start(ts, braces))
    decreases |ts|, 7
  {
    hide Unary, Initializer, Spell, Abstract, Stops;
    if braces && Peek(ts) == LBrace {
      c := BracesSound(ts);
      BracesStop(c, Initializer(ts).rest);
    } else {
      c := UnarySound(ts);
      FitsWider(c, UNARY_LEVEL, braces);
    }
  }

  lemma BracesStop(c: Tree, rest: seq<Token>)
    requires c.Braces?
    ensures Stops(c, rest)
  {
  }

  /** An expression at any level. */
  lemma {:induction false} ParseSound(ts: seq<Token>, braces: bool, min: nat) returns (c: Tree)
    requires PREC_UNKNOWN < min <= UNARY_LEVEL && ParseFrom(ts, braces, min).fine
    ensures Explains(c, min, braces, ts, ParseFrom(ts, braces, min))
    ensures Precedence(Peek(ParseFrom(ts, braces, min).rest)) < min
    decreases |ts|, 8
  {
    hide Start, Climb, Fits, Spell, Abstract, Stops, Precedence;
    var s := Start(ts, braces);
    var b := StartSound(ts, braces);
    FitsBelow(b, min, UNARY_LEVEL, braces);
    assert |s.rest| <= |ts| by { StartShorter(ts, braces); }
    c := ClimbSound(b, s.rest, s.fine, min, braces);
  }

  lemma StartShorter(ts: seq<Token>, braces: bool)
    ensures |Start(ts, braces).rest| <= |ts|
  {
  }

  /** The operators after a left operand that has taken all it could. */
  lemma {:induction false} ClimbSound(l: Tree, ts: seq<Token>, fine: bool, min: nat, braces: bool) returns (c: Tree)
    requires PREC_UNKNOWN < min <= UNARY_LEVEL && Fits(l, min, braces) && Stops(l, ts)
    requires Climb(Abstract(l), ts, fine, min).fine
    ensures var p := Climb(Abstract(l), ts, fine, min);
      Fits(c, min, braces) && Spell(c, p.rest) == Spell(l, ts) && Abstract(c) == p.tree && Stops(c, p.rest)
    ensures Precedence(Peek(Climb(Abstract(l), ts, fine, min).rest)) < min
    decreases |ts|, 1
  {
    hide Initializer, RightOperand, Spell, Abstract, Stops, Fits, ParseFrom, TokenToBinary, Precedence;
    var prec := Precedence(Peek(ts));
    AbstractWhole(l, min, braces);
    if prec < min {
      c := l;
    } else {
      EndHasNoPrecedence(ts);
      QuestionIs(ts[0]);
      if prec == PREC_CONDITIONAL {
        var m := ItemSound(ts[1..]);
        var mp := Initializer(ts[1..]);
        assert Peek(mp.rest) == Colon;
        var after := mp.rest[1..];
        RightOperandIs(after, prec);
        var r := ParseSound(after, true, RightLevel(prec));
        var rp := RightOperand(after, prec);
        JoinTernary(l, m, r, ts, mp.rest, rp.rest, min, braces);
        c := ClimbSound(TernaryTree(l, m, r), rp.rest, fine && mp.fine && true && rp.fine, min, braces);
      } else {
        RightOperandIs(ts[1..], prec);
        PrecedenceBound(ts[0]);
        var r := ParseSound(ts[1..], true, RightLevel(prec));
        var rp := RightOperand(ts[1..], prec);
        JoinBinary(l, r, ts, rp.rest, min, braces);
        c := ClimbSound(BinaryTree(TokenToBinary(ts[0]), l, r), rp.rest, fine && rp.fine, min, braces);
      }
    }
  }

  lemma PrecedenceBound(t: Token)
    ensures Precedence(t) < UNARY_LEVEL
  {
  }

  lemma JoinBinary(l: Tree, r: Tree, ts: seq<Token>, after: seq<Token>, min: nat, braces: bool)
    requires PREC_UNKNOWN < min && Precedence(Peek(ts)) >= min && Peek(ts) != Question && ts != []
    requires Fits(l, min, braces) && Stops(l, ts)
    requires var p := Precedence(ts[0]);
      Fits(r, RightLevel(p), true) && Stops(r, after) && Precedence(Peek(after)) < RightLevel(p)
    requires Spell(r, after) == ts[1..]
    ensures var op := TokenToBinary(ts[0]);
      && var c := BinaryTree(op, l, r);
      && Fits(c, min, braces) && Stops(c, after) && Spell(c, after) == Spell(l, ts)
      && Abstract(c) == BuildBinary(op, Abstract(l), Abstract(r))
  {
    hide TokenToBinary, OperatorToken, Precedence, OperatorLevel;
    var op := TokenToBinary(ts[0]);
    LevelOfToken(op);
    var c := BinaryTree(op, l, r);
    OperatorTokenUnique(ts[0]);
    var p := OperatorLevel(op);
    LeftFits(l, ts, min, braces);
    AbstractWhole(l, min, braces);
    AbstractWhole(r, RightLevel(p), true);
    Split(ts);
    ShapeBinary(c, after);
  }

  lemma LeftFits(l: Tree, ts: seq<Token>, min: nat, braces: bool)
    requires Fits(l, min, braces) && Stops(l, ts)
    ensures Fits(l, LeftLevel(Precedence(Peek(ts))), braces)
  {
    FitsAtLevel(l, min, LeftLevel(Precedence(Peek(ts))), braces);
  }

  lemma JoinTernary(l: Tree, m: Tree, r: Tree, ts: seq<Token>, colon: seq<Token>, after: seq<Token>, min: nat, braces: bool)
    requires PREC_UNKNOWN < min <= PREC_CONDITIONAL && Peek(ts) == Question && Peek(colon) == Colon
    requires Fits(l, min, braces) && Stops(l, ts) && FitsItem(m)
    requires Fits(r, PREC_CONDITIONAL, true) && Stops(r, after) && Precedence(Peek(after)) < PREC_CONDITIONAL
    requires Spell(m, colon) == ts[1..] && Spell(r, after) == colon[1..]
    ensures var c := TernaryTree(l, m, r);
      && Fits(c, min, braces) && Stops(c, after) && Spell(c, after) == Spell(l, ts)
      && Abstract(c) == BuildTernary(Abstract(l), Abstract(m), Abstract(r))
  {
    var c := TernaryTree(l, m, r);
    LeftFits(l, ts, min, braces);
    AbstractWhole(l, min, braces);
    AbstractWhole(m, PREC_ASSIGNMENT, m.Braces?);
    AbstractWhole(r, PREC_CONDITIONAL, true);
    Split(ts);
    Split(colon);
    ShapeTernary(c, after);
  }

  lemma {:induction false} ExpressionSound(ts: seq<Token>) returns (c: Tree)
    requires Expression(ts).fine
    ensures Explains(c, PREC_COMMA, false, ts, Expression(ts))
    ensures Precedence(Peek(Expression(ts).rest)) == PREC_UNKNOWN
    decreases |ts|, 9
  {
    hide Expression, ParseFrom, Explains, Precedence;
    ExpressionIs(ts);
    c := ParseSound(ts, false, PREC_COMMA);
  }

  lemma {:induction false} BracesSound(ts: seq<Token>) returns (c: Tree)
    requires Peek(ts) == LBrace && Initializer(ts).fine
    ensures var p := Initializer(ts); c.Braces? && Fits(c, UNARY_LEVEL, true) && Spell(c, p.rest) == ts && Abstract(c) == p.tree
    decreases |ts|, 6
  {
    hide InitializerList, Assignment, SkipUntil;
    var items := ItemsSound(ts[1..]);
    c := Braces(items);
    Split(ts);
    Split(InitializerList(ts[1..]).rest);
  }

  lemma {:induction false} ItemSound(ts: seq<Token>) returns (c: Tree)
    requires Initializer(ts).fine
    ensures var p := Initializer(ts); FitsItem(c) && Spell(c, p.rest) == ts && Abstract(c) == p.tree
    decreases |ts|, 9
  {
    hide Initializer, Spell, Abstract, ParseFrom, Precedence;
    if Peek(ts) == LBrace {
      c := BracesSound(ts);
      FitsBelow(c, PREC_ASSIGNMENT, UNARY_LEVEL, true);
    } else {
      InitializerIs(ts);
      c := ParseSound(ts, false, PREC_ASSIGNMENT);
      assert !c.Braces?;
    }
  }

  lemma InitializerIs(ts: seq<Token>)
    requires Peek(ts) != LBrace
    ensures Initializer(ts) == ParseFrom(ts, false, PREC_ASSIGNMENT)
  {
    hide Unary, Climb;
  }

  lemma {:induction false} ItemsSound(ts: seq<Token>) returns (cs: seq<Tree>)
    requires InitializerList(ts).fine
    ensures ExplainsAll(cs, ts, InitializerList(ts))
    decreases |ts|, 10
  {
    hide Initializer, Spell, Abstract, Fits;
    var i := Initializer(ts);
    var c := ItemSound(ts);
    if Peek(i.rest) != CommaSign {
      cs := [c];
      JoinOne(c, i.rest);
    } else {
      var more := ItemsSound(i.rest[1..]);
      cs := [c] + more;
      Split(i.rest);
      JoinMore(c, more, InitializerList(ts).rest);
    }
  }

  lemma JoinOne(c: Tree, rest: seq<Token>)
    ensures SpellAll([c], rest) == Spell(c, rest) && FitsAll([c]) == FitsItem(c) && AbstractAll([c]) == [Abstract(c)]
  {
    assert [c][1..] == [];
  }

  lemma JoinMore(c: Tree, more: seq<Tree>, rest: seq<Token>)
    requires more != []
    ensures SpellAll([c] + more, rest) == Spell(c, [CommaSign] + SpellAll(more, rest))
    ensures FitsAll([c] + more) == (FitsItem(c) && FitsAll(more))
    ensures AbstractAll([c] + more) == [Abstract(c)] + AbstractAll(more)
  {
    assert ([c] + more)[1..] == more;
  }

  // ----------------------------------------------------------------- exactness

  /** A tree and what follows it are one way to read some tokens at a level. */
  ghost predicate Reading(ts: seq<Token>, level: nat, t: Tree, rest: seq<Token>) {
    exists c :: Fits(c, level, false) && Spell(c, rest) == ts && Abstract(c) == t && Stops(c, rest)
      && Precedence(Peek(rest)) < level
  }

  /** The parser accepts exactly the grammatical texts, and gives exactly their trees. */
  lemma ExpressionExact(ts: seq<Token>, t: Tree, rest: seq<Token>)
    ensures Expression(ts) == Parsed(t, rest, true) <==> Reading(ts, PREC_COMMA, t, rest)
  {
    hide Expression, Fits, Spell, Abstract, Stops, Precedence;
    if Expression(ts) == Parsed(t, rest, true) {
      var c := ExpressionSound(ts);
    }
    if Reading(ts, PREC_COMMA, t, rest) {
      var c :| Fits(c, PREC_COMMA, false) && Spell(c, rest) == ts && Abstract(c) == t && Stops(c, rest);
      ReadsExpression(c, rest);
    }
  }

  lemma AssignmentExact(ts: seq<Token>, t: Tree, rest: seq<Token>)
    ensures Assignment(ts) == Parsed(t, rest, true) <==> Reading(ts, PREC_ASSIGNMENT, t, rest)
  {
    hide Climb, Unary, Fits, Spell, Abstract, Stops, Precedence;
    if Assignment(ts) == Parsed(t, rest, true) {
      var c := ParseSound(ts, false, PREC_ASSIGNMENT);
    }
    if Reading(ts, PREC_ASSIGNMENT, t, rest) {
      var c :| Fits(c, PREC_ASSIGNMENT, false) && Spell(c, rest) == ts && Abstract(c) == t && Stops(c, rest);
      ReadsAssignment(c, rest);
    }
  }

  lemma ConditionalExact(ts: seq<Token>, t: Tree, rest: seq<Token>)
    ensures Conditional(ts) == Parsed(t, rest, true) <==> Reading(ts, PREC_CONDITIONAL, t, rest)
  {
    hide Climb, Unary, Fits, Spell, Abstract, Stops, Precedence;
    if Conditional(ts) == Parsed(t, rest, true) {
      var c := ParseSound(ts, false, PREC_CONDITIONAL);
    }
    if Reading(ts, PREC_CONDITIONAL, t, rest) {
      var c :| Fits(c, PREC_CONDITIONAL, false) && Spell(c, rest) == ts && Abstract(c) == t && Stops(c, rest);
      ReadsConditional(c, rest);
    }
  }

  /** A text has at most one reading. */
  lemma Unambiguous(ts: seq<Token>, t: Tree, rest: seq<Token>, u: Tree, after: seq<Token>)
    requires Reading(ts, PREC_COMMA, t, rest) && Reading(ts, PREC_COMMA, u, after)
    ensures t == u && rest == after
  {
    hide Expression, Reading;
    ExpressionExact(ts, t, rest);
    ExpressionExact(ts, u, after);
  }
}

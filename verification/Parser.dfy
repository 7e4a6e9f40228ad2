/**
  * The expression parser as the program runs it: it takes tokens one by one, and
  * its loops update the operand they have built so far.
  */
module Parser {
  import opened Tokens
  import opened Grammar

  /** A result after earlier parts, any of which may have failed. */
  function After(was: bool, p: Parsed): Parsed {
    p.(fine := was && p.fine)
  }

  // ----------------------------------------------------- errors along the routines

  lemma {:induction false} ClimbAfter(was: bool, lhs: Tree, ts: seq<Token>, fine: bool, min: nat)
    requires min > PREC_UNKNOWN
    ensures Climb(lhs, ts, was && fine, min) == After(was, Climb(lhs, ts, fine, min))
    decreases |ts|
  {
    hide Initializer, RightOperand, Precedence, TokenToBinary;
    var prec := Precedence(Peek(ts));
    if prec >= min {
      assert ts != [] by { EndHasNoPrecedence(ts); }
      if prec == PREC_CONDITIONAL {
        var m := Initializer(ts[1..]);
        var colon := Peek(m.rest) == Colon;
        var r := RightOperand(if colon then m.rest[1..] else m.rest, prec);
        ClimbAfter(was, BuildTernary(lhs, m.tree, r.tree), r.rest, fine && m.fine && colon && r.fine, min);
      } else {
        QuestionIs(ts[0]);
        var r := RightOperand(ts[1..], prec);
        ClimbAfter(was, BuildBinary(TokenToBinary(ts[0]), lhs, r.tree), r.rest, fine && r.fine, min);
      }
    }
  }

  lemma ListSteps(ts: seq<Token>)
    ensures var i := Initializer(ts);
      InitializerList(ts) ==
        if Peek(i.rest) != CommaSign then ParsedList([i.tree], i.rest, i.fine)
        else
          var more := InitializerList(i.rest[1..]);
          ParsedList([i.tree] + more.trees, more.rest, i.fine && more.fine)
  {
    hide Initializer;
  }

  /** The tokens and errors after one postfix operator, and the operand so far. */
  function PostfixStep(operand: Tree, ts: seq<Token>, fine: bool): (p: Parsed)
    requires IsPostfix(Peek(ts))
    ensures |p.rest| < |ts|
  {
    var t := Peek(ts);
    if t == LSquare then
      var i := Expression(ts[1..]);
      if Peek(i.rest) == RSquare then Parsed(BuildSubscript(operand, i.tree), i.rest[1..], fine && i.fine)
      else Parsed(Broken, Recover(i.rest, RSquare), false)
    else if t == LParen then ArgumentStep(operand, ts, fine)
    else if t == PlusPlus then Parsed(BuildPostfix(true, operand), ts[1..], fine)
    else if t == MinusMinus then Parsed(BuildPostfix(false, operand), ts[1..], fine)
    else SelectStep(operand, ts, fine)
  }

  function SelectStep(operand: Tree, ts: seq<Token>, fine: bool): (p: Parsed)
    requires ts != []
    ensures |p.rest| < |ts|
  {
    var name := Peek(ts[1..]);
    if name.Name? then Parsed(BuildMember(operand, ts[0] == Arrow, name.ident), ts[2..], fine)
    else Parsed(Broken, ts[1..], false)
  }

  function ArgumentStep(operand: Tree, ts: seq<Token>, fine: bool): (p: Parsed)
    requires ts != []
    ensures |p.rest| < |ts|
  {
    if Peek(ts[1..]) == RParen then Parsed(BuildCall(operand, []), ts[2..], fine)
    else
      var a := InitializerList(ts[1..]);
      if Peek(a.rest) == RParen then Parsed(BuildCall(operand, a.trees), a.rest[1..], fine && a.fine)
      else Parsed(Broken, Recover(a.rest, RParen), false)
  }

  lemma LoopSteps(operand: Tree, ts: seq<Token>, fine: bool)
    requires IsPostfix(Peek(ts))
    ensures var s := PostfixStep(operand, ts, fine); PostfixLoop(operand, ts, fine) == PostfixLoop(s.tree, s.rest, s.fine)
  {
    hide Expression, InitializerList, Recover;
  }

  lemma LoopStops(operand: Tree, ts: seq<Token>, fine: bool)
    requires !IsPostfix(Peek(ts))
    ensures PostfixLoop(operand, ts, fine) == Parsed(operand, ts, fine)
  {
  }

  lemma StepAfter(was: bool, operand: Tree, ts: seq<Token>, fine: bool)
    requires IsPostfix(Peek(ts))
    ensures PostfixStep(operand, ts, was && fine) == After(was, PostfixStep(operand, ts, fine))
  {
    hide Expression, InitializerList, Recover;
  }

  lemma {:induction false} LoopAfter(was: bool, operand: Tree, ts: seq<Token>, fine: bool)
    ensures PostfixLoop(operand, ts, was && fine) == After(was, PostfixLoop(operand, ts, fine))
    decreases |ts|
  {
    hide PostfixStep, PostfixLoop;
    if IsPostfix(Peek(ts)) {
      var s := PostfixStep(operand, ts, fine);
      LoopSteps(operand, ts, fine);
      LoopSteps(operand, ts, was && fine);
      StepAfter(was, operand, ts, fine);
      LoopAfter(was, s.tree, s.rest, s.fine);
    } else {
      LoopStops(operand, ts, fine);
      LoopStops(operand, ts, was && fine);
    }
  }

  // ------------------------------------------------------------------ the parser

  class Parser {
    var tokens: seq<Token>
    var fine: bool

    constructor (text: seq<Token>)
      ensures tokens == text && fine
    {
      tokens := text;
      fine := true;
    }

    /** A tree with the state of the parser. */
    function Result(t: Tree): Parsed
      reads this
    {
      Parsed(t, tokens, fine)
    }

    method ConsumeToken()
      modifies this`tokens
      ensures tokens == if old(tokens) == [] then [] else old(tokens)[1..]
    {
      if tokens != [] {
        tokens := tokens[1..];
      }
    }

    method TryConsumeToken(expected: Token) returns (taken: bool)
      requires expected != Eof
      modifies this`tokens
      ensures taken == (Peek(old(tokens)) == expected)
      ensures tokens == if taken then old(tokens)[1..] else old(tokens)
    {
      taken := Peek(tokens) == expected;
      if taken {
        ConsumeToken();
      }
    }

    method SkipUntilOneOf(stops: set<Token>)
      modifies this`tokens
      ensures tokens == SkipUntil(old(tokens), stops)
      decreases |tokens|
    {
      while Peek(tokens) != Eof
        invariant |tokens| <= |old(tokens)|
        invariant SkipUntil(tokens, stops) == SkipUntil(old(tokens), stops)
        decreases |tokens|
      {
        var t := Peek(tokens);
        if t in {LParen, LSquare, LBrace, Question} {
          ConsumeToken();
          SkipUntilOneOf({Closer(t)});
        } else {
          if IsCloser(t) && t in stops {
            return;
          }
          ConsumeToken();
        }
      }
    }

    /** Reports a missing bracket and recovers. */
    method MissingBracket(bracket: Token)
      requires bracket != Eof
      modifies this
      ensures tokens == Recover(old(tokens), bracket) && !fine
    {
      fine := false;
      SkipUntilOneOf({bracket, Semicolon});
      var _ := TryConsumeToken(bracket);
    }

    method ParsePrimaryExpression() returns (t: Tree)
      modifies this
      ensures Result(t) == After(old(fine), Primary(old(tokens)))
      decreases |tokens|, 2
    {
      hide Expression;
      var current := Peek(tokens);
      if current.Name? || current.Literal? {
        ConsumeToken();
        t := Leaf(current);
      } else if current == LParen {
        ConsumeToken();
        t := ParseExpression();
        var closed := TryConsumeToken(RParen);
        if !closed {
          fine := false;
          t := Broken;
        }
      } else {
        fine := false;
        t := Broken;
      }
    }

    method ParseInitializerList() returns (items: seq<Tree>)
      modifies this
      ensures var l := InitializerList(old(tokens)); items == l.trees && tokens == l.rest && fine == (old(fine) && l.fine)
      decreases |tokens|, 7
    {
      hide Initializer, InitializerList;
      items := [];
      var more := true;
      while more
        invariant |tokens| <= |old(tokens)|
        invariant more ==>
          var all, l := InitializerList(old(tokens)), InitializerList(tokens);
          items + l.trees == all.trees && l.rest == all.rest && (fine && l.fine) == (old(fine) && all.fine)
        invariant !more ==>
          var all := InitializerList(old(tokens));
          items == all.trees && tokens == all.rest && fine == (old(fine) && all.fine)
        decreases more, |tokens|
      {
        ListSteps(tokens);
        ghost var before, list := items, InitializerList(tokens);
        var item := ParseInitializer();
        items := items + [item];
        assert list.trees != [] && list.trees[0] == item && items + list.trees[1..] == before + list.trees;
        more := TryConsumeToken(CommaSign);
      }
    }

    method ParsePostfixExpression() returns (operand: Tree)
      modifies this
      ensures Result(operand) == After(old(fine), Postfix(old(tokens)))
      decreases |tokens|, 3
    {
      hide PostfixLoop, PostfixStep, Primary;
      operand := ParsePrimaryExpression();
      LoopAfter(old(fine), operand, tokens, Primary(old(tokens)).fine);
      while IsPostfix(Peek(tokens))
        invariant |tokens| <= |old(tokens)|
        invariant PostfixLoop(operand, tokens, fine) == After(old(fine), Postfix(old(tokens)))
        decreases |tokens|
      {
        LoopSteps(operand, tokens, fine);
        operand := TakePostfix(operand);
      }
      LoopStops(operand, tokens, fine);
    }

    /** One postfix operator. */
    method TakePostfix(before: Tree) returns (operand: Tree)
      requires IsPostfix(Peek(tokens))
      modifies this
      ensures Result(operand) == PostfixStep(before, old(tokens), old(fine))
      decreases |tokens|, 1
    {
      hide Expression, Recover, ArgumentStep, SelectStep;
      var t := Peek(tokens);
      if t == LSquare {
        operand := TakeSubscript(before);
      } else if t == LParen {
        operand := TakeArguments(before);
      } else if t == PlusPlus || t == MinusMinus {
        ConsumeToken();
        operand := BuildPostfix(t == PlusPlus, before);
      } else {
        operand := TakeSelection(before);
      }
    }

    method TakeSubscript(before: Tree) returns (operand: Tree)
      requires Peek(tokens) == LSquare
      modifies this
      ensures Result(operand) == PostfixStep(before, old(tokens), old(fine))
      decreases |tokens|, 0
    {
      hide Expression, Recover, ArgumentStep, SelectStep;
      ConsumeToken();
      var index := ParseExpression();
      if Peek(tokens) == RSquare {
        ConsumeToken();
        operand := BuildSubscript(before, index);
      } else {
        MissingBracket(RSquare);
        operand := Broken;
      }
    }

    method TakeSelection(before: Tree) returns (operand: Tree)
      requires tokens != []
      modifies this
      ensures Result(operand) == SelectStep(before, old(tokens), old(fine))
    {
      var arrow := Peek(tokens) == Arrow;
      ConsumeToken();
      var next := Peek(tokens);
      if next.Name? {
        ConsumeToken();
        operand := BuildMember(before, arrow, next.ident);
      } else {
        fine := false;
        operand := Broken;
      }
    }

    method TakeArguments(before: Tree) returns (operand: Tree)
      requires Peek(tokens) == LParen
      modifies this
      ensures Result(operand) == ArgumentStep(before, old(tokens), old(fine))
      decreases |tokens|, 0
    {
      hide InitializerList, Recover;
      ConsumeToken();
      if Peek(tokens) == RParen {
        ConsumeToken();
        operand := BuildCall(before, []);
      } else {
        var args := ParseInitializerList();
        if Peek(tokens) == RParen {
          ConsumeToken();
          operand := BuildCall(before, args);
        } else {
          MissingBracket(RParen);
          operand := Broken;
        }
      }
    }

    method ParseUnaryExpression() returns (t: Tree)
      modifies this
      ensures Result(t) == After(old(fine), Unary(old(tokens)))
      decreases |tokens|, 4
    {
      hide Postfix;
      if IsPrefix(Peek(tokens)) {
        var op := TokenToUnary(Peek(tokens));
        ConsumeToken();
        var operand := ParseUnaryExpression();
        t := BuildPrefix(op, operand);
      } else {
        t := ParsePostfixExpression();
      }
    }

    /** What stands right after an operator. */
    method ParseOperand() returns (t: Tree)
      modifies this
      ensures Result(t) == After(old(fine), Operand(old(tokens)))
      decreases |tokens|, 7
    {
      hide Initializer, Unary;
      if Peek(tokens) == LBrace {
        t := ParseInitializer();
      } else {
        t := ParseUnaryExpression();
      }
    }

    method ParseRhsOfBinaryExpression(start: Tree, min: nat) returns (lhs: Tree)
      requires min > PREC_UNKNOWN
      modifies this
      ensures Result(lhs) == After(old(fine), Climb(start, old(tokens), true, min))
      decreases |tokens|, 1
    {
      hide Climb, Precedence, TokenToBinary, RightOperand, Initializer;
      lhs := start;
      ClimbAfter(old(fine), lhs, tokens, true, min);
      var prec := Precedence(Peek(tokens));
      while prec >= min
        invariant |tokens| <= |old(tokens)| && prec == Precedence(Peek(tokens))
        invariant Climb(lhs, tokens, fine, min) == After(old(fine), Climb(start, old(tokens), true, min))
        decreases |tokens|
      {
        EndHasNoPrecedence(tokens);
        var op := Peek(tokens);
        QuestionIs(op);
        ClimbSteps(lhs, tokens, fine, min);
        ConsumeToken();
        var middle := Broken;
        if prec == PREC_CONDITIONAL {
          middle := ParseInitializer();
          if Peek(tokens) == Colon {
            ConsumeToken();
          } else {
            fine := false;
          }
        }
        var rhs := ParseRightOperand(prec);
        lhs := if prec == PREC_CONDITIONAL then BuildTernary(lhs, middle, rhs) else BuildBinary(TokenToBinary(op), lhs, rhs);
        prec := Precedence(Peek(tokens));
      }
      ClimbStopsHere(lhs, tokens, fine, min);
    }

    /** The operand after an operator, and the operators that bind it first. */
    method ParseRightOperand(prec: nat) returns (rhs: Tree)
      requires prec > PREC_UNKNOWN
      modifies this
      ensures Result(rhs) == After(old(fine), RightOperand(old(tokens), prec))
      decreases |tokens|, 8
    {
      hide Climb, Operand, Precedence;
      rhs := ParseOperand();
      var r := Operand(old(tokens));
      var next := Precedence(Peek(tokens));
      if prec < next || (prec == next && RightAssociative(prec)) {
        var low := if RightAssociative(prec) then prec else prec + 1;
        ClimbAfter(r.fine, rhs, r.rest, true, low);
        rhs := ParseRhsOfBinaryExpression(rhs, low);
      }
    }

    method ParseAssignmentExpression() returns (t: Tree)
      modifies this
      ensures Result(t) == After(old(fine), Assignment(old(tokens)))
      decreases |tokens|, 5
    {
      hide Climb, Unary;
      var u := Unary(old(tokens));
      t := ParseUnaryExpression();
      ClimbAfter(u.fine, u.tree, u.rest, true, PREC_ASSIGNMENT);
      t := ParseRhsOfBinaryExpression(t, PREC_ASSIGNMENT);
    }

    method ParseExpression() returns (t: Tree)
      modifies this
      ensures Result(t) == After(old(fine), Expression(old(tokens)))
      decreases |tokens|, 6
    {
      hide Climb, Assignment;
      var a := Assignment(old(tokens));
      t := ParseAssignmentExpression();
      ClimbAfter(a.fine, a.tree, a.rest, true, PREC_COMMA);
      t := ParseRhsOfBinaryExpression(t, PREC_COMMA);
    }

    /** The expression of a constant expression, before its value is asked for. */
    method ParseConditionalExpression() returns (t: Tree)
      modifies this
      ensures Result(t) == After(old(fine), Conditional(old(tokens)))
    {
      hide Climb, Unary;
      var u := Unary(old(tokens));
      t := ParseUnaryExpression();
      ClimbAfter(u.fine, u.tree, u.rest, true, PREC_CONDITIONAL);
      t := ParseRhsOfBinaryExpression(t, PREC_CONDITIONAL);
    }

    method ParseInitializer() returns (t: Tree)
      modifies this
      ensures Result(t) == After(old(fine), Initializer(old(tokens)))
      decreases |tokens|, 6
    {
      hide Assignment, InitializerList, Recover;
      if Peek(tokens) != LBrace {
        t := ParseAssignmentExpression();
        return;
      }
      ConsumeToken();
      var empty := TryConsumeToken(RBrace);
      if empty {
        fine := false;
        t := Broken;
        return;
      }
      var items := ParseInitializerList();
      if Peek(tokens) == RBrace {
        ConsumeToken();
        t := Braces(items);
      } else {
        MissingBracket(RBrace);
        t := Broken;
      }
    }
  }

  lemma ClimbStopsHere(lhs: Tree, ts: seq<Token>, fine: bool, min: nat)
    requires PREC_UNKNOWN < min && Precedence(Peek(ts)) < min
    ensures Climb(lhs, ts, fine, min) == Parsed(lhs, ts, fine)
  {
  }

  lemma ClimbSteps(lhs: Tree, ts: seq<Token>, fine: bool, min: nat)
    requires ts != [] && PREC_UNKNOWN < min <= Precedence(Peek(ts))
    ensures var prec := Precedence(ts[0]);
      prec == PREC_CONDITIONAL ==>
        var m := Initializer(ts[1..]);
        var colon := Peek(m.rest) == Colon;
        var r := RightOperand(if colon then m.rest[1..] else m.rest, prec);
        Climb(lhs, ts, fine, min) == Climb(BuildTernary(lhs, m.tree, r.tree), r.rest, fine && m.fine && colon && r.fine, min)
    ensures var prec := Precedence(ts[0]);
      prec != PREC_CONDITIONAL ==>
        ts[0] != Question
        && var r := RightOperand(ts[1..], prec);
        Climb(lhs, ts, fine, min) == Climb(BuildBinary(TokenToBinary(ts[0]), lhs, r.tree), r.rest, fine && r.fine, min)
  {
    hide Initializer, RightOperand, Precedence, TokenToBinary;
    QuestionIs(ts[0]);
  }
}

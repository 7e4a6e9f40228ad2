/**
  * The expression parser as functions from tokens to trees.
  *
  * Each function stands for one parsing routine.  It takes the tokens that are left
  * and gives the tree, the tokens after it, and whether no error was reported.
  * The parser never builds a Group: the parentheses around an expression leave no
  * trace in the tree.  Groups appear only in concrete trees (module Notation).
  */
module Grammar {
  import opened Tokens

  datatype Tree =
    | Broken
    | Leaf(token: Token)
    | PrefixTree(prefix: Prefix, operand: Tree)
    | PostfixTree(increments: bool, operand: Tree)
    | Subscript(base: Tree, index: Tree)
    | Call(callee: Tree, arguments: seq<Tree>)
    | Member(base: Tree, arrow: bool, name: nat)
    | BinaryTree(op: Operator, left: Tree, right: Tree)
    | TernaryTree(cond: Tree, middle: Tree, right: Tree)
    | Braces(items: seq<Tree>)
    | Group(inner: Tree)

  // Builders: a broken part makes a broken node.

  function BuildPrefix(p: Prefix, t: Tree): Tree {
    if t.Broken? then Broken else PrefixTree(p, t)
  }

  function BuildPostfix(increments: bool, t: Tree): Tree {
    if t.Broken? then Broken else PostfixTree(increments, t)
  }

  function BuildSubscript(base: Tree, index: Tree): Tree {
    if base.Broken? || index.Broken? then Broken else Subscript(base, index)
  }

  function BuildCall(callee: Tree, arguments: seq<Tree>): Tree {
    if callee.Broken? then Broken else Call(callee, arguments)
  }

  function BuildMember(base: Tree, arrow: bool, name: nat): Tree {
    if base.Broken? then Broken else Member(base, arrow, name)
  }

  function BuildBinary(op: Operator, l: Tree, r: Tree): Tree {
    if l.Broken? || r.Broken? then Broken else BinaryTree(op, l, r)
  }

  function BuildTernary(c: Tree, m: Tree, r: Tree): Tree {
    if c.Broken? || m.Broken? || r.Broken? then Broken else TernaryTree(c, m, r)
  }

  /** A parsed tree, the tokens left, and whether no error was reported on the way. */
  datatype Parsed = Parsed(tree: Tree, rest: seq<Token>, fine: bool)

  datatype ParsedList = ParsedList(trees: seq<Tree>, rest: seq<Token>, fine: bool)

  /** The current token; the lexer repeats the end of the file for ever. */
  function Peek(ts: seq<Token>): Token {
    if ts == [] then Eof else ts[0]
  }

  function Closer(t: Token): Token {
    match t
    case LParen => RParen
    case LSquare => RSquare
    case LBrace => RBrace
    case _ => Colon
  }

  predicate IsCloser(t: Token) {
    t in {RParen, RSquare, RBrace, Colon, Semicolon}
  }

  /** Skips tokens up to one of a set; from a bracket that opens, first up to the next that closes it. */
  function SkipUntil(ts: seq<Token>, stops: set<Token>): (rest: seq<Token>)
    ensures |rest| <= |ts|
    decreases |ts|
  {
    var t := Peek(ts);
    if t == Eof then ts
    else if t in {LParen, LSquare, LBrace, Question} then
      SkipUntil(SkipUntil(ts[1..], {Closer(t)}), stops)
    else if IsCloser(t) && t in stops then ts
    else SkipUntil(ts[1..], stops)
  }

  /** Recovery after a missing bracket: skip to it or to a semicolon, and take the bracket if it is there. */
  function Recover(ts: seq<Token>, bracket: Token): (rest: seq<Token>)
    requires bracket != Eof
    ensures |rest| <= |ts|
  {
    var r := SkipUntil(ts, {bracket, Semicolon});
    if Peek(r) == bracket then r[1..] else r
  }

  function Primary(ts: seq<Token>): (p: Parsed)
    ensures |p.rest| <= |ts|
    decreases |ts|, 2
  {
    match Peek(ts)
    case Name(_) => Parsed(Leaf(ts[0]), ts[1..], true)
    case Literal(_, _) => Parsed(Leaf(ts[0]), ts[1..], true)
    case LParen =>
      var e := Expression(ts[1..]);
      if Peek(e.rest) == RParen then Parsed(e.tree, e.rest[1..], e.fine) else Parsed(Broken, e.rest, false)
    case _ => Parsed(Broken, ts, false)
  }

  /** Initializers separated by commas. */
  function InitializerList(ts: seq<Token>): (p: ParsedList)
    ensures |p.rest| <= |ts|
    decreases |ts|, 7
  {
    var i := Initializer(ts);
    if Peek(i.rest) != CommaSign then ParsedList([i.tree], i.rest, i.fine)
    else
      var more := InitializerList(i.rest[1..]);
      ParsedList([i.tree] + more.trees, more.rest, i.fine && more.fine)
  }

  function Postfix(ts: seq<Token>): (p: Parsed)
    ensures |p.rest| <= |ts|
    decreases |ts|, 3
  {
    var p := Primary(ts);
    PostfixLoop(p.tree, p.rest, p.fine)
  }

  function PostfixLoop(operand: Tree, ts: seq<Token>, fine: bool): (p: Parsed)
    ensures |p.rest| <= |ts| && (p.fine ==> fine)
    decreases |ts|, 0
  {
    match Peek(ts)
    case LSquare =>
      var i := Expression(ts[1..]);
      if Peek(i.rest) == RSquare then
        PostfixLoop(BuildSubscript(operand, i.tree), i.rest[1..], fine && i.fine)
      else
        PostfixLoop(Broken, Recover(i.rest, RSquare), false)
    case LParen =>
      if Peek(ts[1..]) == RParen then
        PostfixLoop(BuildCall(operand, []), ts[2..], fine)
      else
        var a := InitializerList(ts[1..]);
        if Peek(a.rest) == RParen then
          PostfixLoop(BuildCall(operand, a.trees), a.rest[1..], fine && a.fine)
        else
          PostfixLoop(Broken, Recover(a.rest, RParen), false)
    case Period => MemberStep(operand, ts, false, fine)
    case Arrow => MemberStep(operand, ts, true, fine)
    case PlusPlus => PostfixLoop(BuildPostfix(true, operand), ts[1..], fine)
    case MinusMinus => PostfixLoop(BuildPostfix(false, operand), ts[1..], fine)
    case _ => Parsed(operand, ts, fine)
  }

  function MemberStep(operand: Tree, ts: seq<Token>, arrow: bool, fine: bool): (p: Parsed)
    requires ts != []
    ensures |p.rest| <= |ts| && (p.fine ==> fine)
    decreases |ts| - 1, 8
  {
    match Peek(ts[1..])
    case Name(n) => PostfixLoop(BuildMember(operand, arrow, n), ts[2..], fine)
    case _ => PostfixLoop(Broken, ts[1..], false)
  }

  function Unary(ts: seq<Token>): (p: Parsed)
    ensures |p.rest| <= |ts|
    decreases |ts|, 4
  {
    if IsPrefix(Peek(ts)) then
      var u := Unary(ts[1..]);
      Parsed(BuildPrefix(TokenToUnary(ts[0]), u.tree), u.rest, u.fine)
    else
      Postfix(ts)
  }

  /** The operand after an operator. */
  function Operand(ts: seq<Token>): (p: Parsed)
    ensures |p.rest| <= |ts|
    decreases |ts|, 7
  {
    if Peek(ts) == LBrace then Initializer(ts) else Unary(ts)
  }

  /** Operators of at least a given precedence after a left operand. */
  function Climb(lhs: Tree, ts: seq<Token>, fine: bool, min: nat): (p: Parsed)
    requires min > PREC_UNKNOWN
    ensures |p.rest| <= |ts| && (p.fine ==> fine)
    decreases |ts|, 1
  {
    var prec := Precedence(Peek(ts));
    if prec < min then Parsed(lhs, ts, fine)
    else if prec == PREC_CONDITIONAL then
      var m := Initializer(ts[1..]);
      var colon := Peek(m.rest) == Colon;
      var r := RightOperand(if colon then m.rest[1..] else m.rest, prec);
      Climb(BuildTernary(lhs, m.tree, r.tree), r.rest, fine && m.fine && colon && r.fine, min)
    else
      var r := RightOperand(ts[1..], prec);
      Climb(BuildBinary(TokenToBinary(ts[0]), lhs, r.tree), r.rest, fine && r.fine, min)
  }

  /** The right operand of an operator, with what binds tighter than it, or as tight when it associates to the right. */
  function RightOperand(ts: seq<Token>, prec: nat): (p: Parsed)
    requires prec > PREC_UNKNOWN
    ensures |p.rest| <= |ts|
    decreases |ts|, 8
  {
    var r := Operand(ts);
    var next := Precedence(Peek(r.rest));
    if prec < next || (prec == next && RightAssociative(prec)) then
      Climb(r.tree, r.rest, r.fine, if RightAssociative(prec) then prec else prec + 1)
    else
      r
  }

  function Assignment(ts: seq<Token>): (p: Parsed)
    ensures |p.rest| <= |ts|
    decreases |ts|, 5
  {
    var u := Unary(ts);
    Climb(u.tree, u.rest, u.fine, PREC_ASSIGNMENT)
  }

  function Expression(ts: seq<Token>): (p: Parsed)
    ensures |p.rest| <= |ts|
    decreases |ts|, 6
  {
    var a := Assignment(ts);
    Climb(a.tree, a.rest, a.fine, PREC_COMMA)
  }

  /** The part of a constant expression that the grammar calls conditional. */
  function Conditional(ts: seq<Token>): (p: Parsed)
    ensures |p.rest| <= |ts|
  {
    var u := Unary(ts);
    Climb(u.tree, u.rest, u.fine, PREC_CONDITIONAL)
  }

  function Initializer(ts: seq<Token>): (p: Parsed)
    ensures |p.rest| <= |ts|
    decreases |ts|, 6
  {
    if Peek(ts) != LBrace then Assignment(ts)
    else if Peek(ts[1..]) == RBrace then Parsed(Broken, ts[2..], false)
    else
      var l := InitializerList(ts[1..]);
      if Peek(l.rest) == RBrace then Parsed(Braces(l.trees), l.rest[1..], l.fine)
      else Parsed(Broken, Recover(l.rest, RBrace), false)
  }

  /** The end of the text is no operator. */
  lemma EndHasNoPrecedence(ts: seq<Token>)
    requires Precedence(Peek(ts)) != PREC_UNKNOWN
    ensures ts != []
  {
  }
}

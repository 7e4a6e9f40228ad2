/**
  * Printing a tree with the parentheses that precedence and associativity require,
  * and no others.
  */
module Printer {
  import opened Tokens
  import opened Grammar
  import opened Notation
  import opened ParserReads
  import opened ParserSound

  /** The concrete tree with the fewest parentheses. */
  function Minimal(t: Tree, level: nat): Tree
    decreases t, 1
  {
    if level <= Level(t) then Bare(t) else Group(Bare(t))
  }

  function Bare(t: Tree): Tree
    decreases t, 0
  {
    match t
    case Broken => Broken
    case Group(_) => Broken
    case Leaf(_) => t
    case PrefixTree(p, e) => PrefixTree(p, Minimal(e, UNARY_LEVEL))
    case PostfixTree(increments, e) => PostfixTree(increments, Minimal(e, POSTFIX_LEVEL))
    case Subscript(b, i) => Subscript(Minimal(b, POSTFIX_LEVEL), Minimal(i, PREC_COMMA))
    case Call(f, args) => Call(Minimal(f, POSTFIX_LEVEL), MinimalAll(args))
    case Member(b, arrow, name) => Member(Minimal(b, POSTFIX_LEVEL), arrow, name)
    case BinaryTree(op, l, r) =>
      BinaryTree(op, Minimal(l, LeftLevel(OperatorLevel(op))), Minimal(r, RightLevel(OperatorLevel(op))))
    case TernaryTree(c, m, r) =>
      TernaryTree(Minimal(c, PREC_LOGICAL_OR), Minimal(m, PREC_ASSIGNMENT), Minimal(r, PREC_CONDITIONAL))
    case Braces(items) => Braces(MinimalAll(items))
  }

  function MinimalAll(ts: seq<Tree>): (cs: seq<Tree>)
    ensures |cs| == |ts|
    decreases ts
  {
    if ts == [] then [] else [Minimal(ts[0], PREC_ASSIGNMENT)] + MinimalAll(ts[1..])
  }

  /** The number of tokens of a concrete tree. */
  function Length(c: Tree): nat {
    match c
    case Broken => 0
    case Leaf(_) => 1
    case Group(e) => 2 + Length(e)
    case PrefixTree(_, e) => 1 + Length(e)
    case PostfixTree(_, e) => Length(e) + 1
    case Subscript(b, i) => Length(b) + Length(i) + 2
    case Call(f, args) => Length(f) + LengthAll(args) + 2
    case Member(b, _, _) => Length(b) + 2
    case BinaryTree(_, l, r) => Length(l) + 1 + Length(r)
    case TernaryTree(t, m, r) => Length(t) + Length(m) + Length(r) + 2
    case Braces(items) => LengthAll(items) + 2
  }

  function LengthAll(cs: seq<Tree>): nat {
    if cs == [] then 0 else if |cs| == 1 then Length(cs[0]) else Length(cs[0]) + 1 + LengthAll(cs[1..])
  }

  lemma {:induction false} LengthIs(c: Tree, rest: seq<Token>)
    ensures |Spell(c, rest)| == Length(c) + |rest|
    decreases c
  {
    match c
    case Broken =>
    case Leaf(_) =>
    case Group(e) => LengthIs(e, [RParen] + rest);
    case PrefixTree(_, e) => LengthIs(e, rest);
    case PostfixTree(increments, e) => LengthIs(e, [StepToken(increments)] + rest);
    case Subscript(b, i) =>
      LengthIs(b, [LSquare] + Spell(i, [RSquare] + rest));
      LengthIs(i, [RSquare] + rest);
    case Call(f, args) =>
      LengthIs(f, [LParen] + SpellAll(args, [RParen] + rest));
      LengthAllIs(args, [RParen] + rest);
    case Member(b, arrow, name) => LengthIs(b, [if arrow then Arrow else Period, Name(name)] + rest);
    case BinaryTree(op, l, r) =>
      LengthIs(l, [OperatorToken(op)] + Spell(r, rest));
      LengthIs(r, rest);
    case TernaryTree(t, m, r) =>
      LengthIs(t, [Question] + Spell(m, [Colon] + Spell(r, rest)));
      LengthIs(m, [Colon] + Spell(r, rest));
      LengthIs(r, rest);
    case Braces(items) => LengthAllIs(items, [RBrace] + rest);
  }

  lemma {:induction false} LengthAllIs(cs: seq<Tree>, rest: seq<Token>)
    ensures |SpellAll(cs, rest)| == LengthAll(cs) + |rest|
    decreases cs
  {
    if |cs| == 1 {
      LengthIs(cs[0], rest);
    } else if |cs| > 1 {
      LengthIs(cs[0], [CommaSign] + SpellAll(cs[1..], rest));
      LengthAllIs(cs[1..], rest);
    }
  }

  // ------------------------------------------------------------ shortest spelling

  /** A concrete tree is grammatical, says what another says, and is no longer. */
  predicate Improves(m: Tree, c: Tree, level: nat, braces: bool) {
    Fits(m, level, braces) && Abstract(m) == Abstract(c) && Length(m) <= Length(c)
  }

  /** Of all the ways to write a tree, the printed one is grammatical and the shortest. */
  lemma {:induction false} Shortest(c: Tree, level: nat, braces: bool)
    requires Fits(c, level, braces) && level <= POSTFIX_LEVEL
    ensures Improves(Minimal(Abstract(c), level), c, level, braces)
    decreases c, 2
  {
    hide Fits, Abstract, Length, Bare, OperatorLevel;
    if c.Group? {
      ShapeGroup(c, level, braces);
      Shortest(c.inner, PREC_COMMA, false);
      Wrapped(c, level, braces);
    } else {
      BareShortest(c, level, braces);
      LevelOf(c, level, braces);
      LevelKept(c);
    }
  }

  lemma ShapeGroup(c: Tree, level: nat, braces: bool)
    requires c.Group? && Fits(c, level, braces)
    ensures Fits(c.inner, PREC_COMMA, false)
  {
  }

  lemma LevelKept(c: Tree)
    requires !c.Group?
    ensures Level(Abstract(c)) == Level(c)
  {
  }

  lemma Wrapped(c: Tree, level: nat, braces: bool)
    requires c.Group? && level <= POSTFIX_LEVEL
    requires Improves(Minimal(Abstract(c.inner), PREC_COMMA), c.inner, PREC_COMMA, false)
    ensures Improves(Minimal(Abstract(c), level), c, level, braces)
  {
    hide Bare;
    var t := Abstract(c.inner);
    assert Abstract(c) == t;
    var b := Bare(t);
    assert Minimal(t, PREC_COMMA) == b;
    BareLevel(t, PREC_COMMA, false);
    if level <= Level(t) {
      FitsAtLevel(b, PREC_COMMA, level, false);
      FitsWider(b, level, braces);
    }
  }

  lemma BareLevel(t: Tree, level: nat, braces: bool)
    requires Fits(Bare(t), level, braces)
    ensures Level(Bare(t)) == Level(t)
  {
  }

  lemma {:induction false} BareShortest(c: Tree, level: nat, braces: bool)
    requires !c.Group? && Fits(c, level, braces) && level <= POSTFIX_LEVEL
    ensures Improves(Bare(Abstract(c)), c, level, braces)
    decreases c, 1
  {
    hide OperatorLevel, Minimal;
    match c
    case Leaf(_) =>
    case PrefixTree(_, e) => Shortest(e, UNARY_LEVEL, false);
    case PostfixTree(_, e) => Shortest(e, POSTFIX_LEVEL, false);
    case Subscript(b, i) =>
      Shortest(b, POSTFIX_LEVEL, false);
      Shortest(i, PREC_COMMA, false);
    case Call(f, args) =>
      Shortest(f, POSTFIX_LEVEL, false);
      ShortestAll(args);
    case Member(b, _, _) => Shortest(b, POSTFIX_LEVEL, false);
    case BinaryTree(op, l, r) =>
      Shortest(l, LeftLevel(OperatorLevel(op)), braces);
      Shortest(r, RightLevel(OperatorLevel(op)), true);
    case TernaryTree(t, m, r) =>
      Shortest(t, PREC_LOGICAL_OR, braces);
      ShortestItem(m);
      Shortest(r, PREC_CONDITIONAL, true);
    case Braces(items) => ShortestAll(items);
  }

  lemma {:induction false} ShortestItem(c: Tree)
    requires FitsItem(c)
    ensures var m := Minimal(Abstract(c), PREC_ASSIGNMENT);
      FitsItem(m) && Abstract(m) == Abstract(c) && Length(m) <= Length(c)
    decreases c, 3
  {
    hide Fits, Length, Bare, OperatorLevel;
    Shortest(c, PREC_ASSIGNMENT, c.Braces?);
    BraceKept(c);
  }

  lemma BraceKept(c: Tree)
    requires FitsItem(c) && Fits(Minimal(Abstract(c), PREC_ASSIGNMENT), PREC_ASSIGNMENT, c.Braces?)
    ensures Minimal(Abstract(c), PREC_ASSIGNMENT).Braces? == c.Braces?
  {
    hide MinimalAll, AbstractAll;
  }

  lemma {:induction false} ShortestAll(cs: seq<Tree>)
    requires FitsAll(cs)
    ensures var ms := MinimalAll(AbstractAll(cs));
      FitsAll(ms) && AbstractAll(ms) == AbstractAll(cs) && LengthAll(ms) <= LengthAll(cs)
    decreases cs
  {
    hide FitsItem, Abstract, Length, Minimal;
    if cs != [] {
      ShortestItem(cs[0]);
      ShortestAll(cs[1..]);
      var ts := AbstractAll(cs);
      assert ts[0] == Abstract(cs[0]) && ts[1..] == AbstractAll(cs[1..]);
      var ms := MinimalAll(ts);
      assert ms[0] == Minimal(ts[0], PREC_ASSIGNMENT) && ms[1..] == MinimalAll(ts[1..]);
    }
  }

  // ------------------------------------------------------------------ round trip

  /** A tree can be written at a level. */
  predicate Printable(t: Tree, level: nat) {
    Fits(Minimal(t, level), level, false) && Abstract(Minimal(t, level)) == t
  }

  function Print(t: Tree, level: nat, rest: seq<Token>): seq<Token> {
    Spell(Minimal(t, level), rest)
  }

  /** At every level: a printed tree is read back, up to any token that binds too loosely. */
  lemma RoundTripAt(t: Tree, rest: seq<Token>, min: nat)
    requires PREC_UNKNOWN < min <= UNARY_LEVEL && Printable(t, min)
    requires !IsPostfix(Peek(rest)) && Precedence(Peek(rest)) < min
    ensures ParseFrom(Print(t, min, rest), false, min) == Parsed(t, rest, true)
  {
    hide ParseFrom, Fits, Abstract, Spell, Minimal, Level;
    LevelOf(Minimal(t, min), min, false);
    Reads(Minimal(t, min), rest, min, false);
    ClimbStops(t, rest, min);
  }

  lemma RoundTrip(t: Tree, rest: seq<Token>)
    requires Printable(t, PREC_COMMA) && !IsPostfix(Peek(rest)) && Precedence(Peek(rest)) == PREC_UNKNOWN
    ensures Expression(Print(t, PREC_COMMA, rest)) == Parsed(t, rest, true)
  {
    hide Expression, Fits, Abstract, Spell, Minimal;
    BracketStops(Minimal(t, PREC_COMMA), rest);
    ReadsExpression(Minimal(t, PREC_COMMA), rest);
  }

  /** A tree that the parser gives can be printed, in no more tokens, and reads back. */
  lemma Reprinted(ts: seq<Token>)
    requires Expression(ts).fine
    ensures var p := Expression(ts);
      Printable(p.tree, PREC_COMMA) && |Print(p.tree, PREC_COMMA, p.rest)| <= |ts|
  {
    hide Expression, Fits, Abstract, Spell, Minimal, Stops, Length;
    var c := ExpressionSound(ts);
    var p := Expression(ts);
    Shortest(c, PREC_COMMA, false);
    LengthIs(c, p.rest);
    LengthIs(Minimal(p.tree, PREC_COMMA), p.rest);
  }

  /** A tree can be written exactly when some text of the grammar gives it. */
  lemma PrintableExactly(t: Tree)
    ensures Printable(t, PREC_COMMA) <==> exists ts, rest :: Expression(ts) == Parsed(t, rest, true)
  {
    hide Expression, Fits, Abstract, Spell, Minimal, IsPostfix, Precedence;
    if Printable(t, PREC_COMMA) {
      EndEnds();
      RoundTrip(t, []);
    }
    if ts, rest :| Expression(ts) == Parsed(t, rest, true) {
      Reprinted(ts);
    }
  }

  lemma EndEnds()
    ensures !IsPostfix(Peek([])) && Precedence(Peek([])) == PREC_UNKNOWN
  {
  }

  /** A tree of names and literals without lists in braces. */
  predicate Plain(t: Tree) {
    match t
    case Broken => false
    case Group(_) => false
    case Braces(_) => false
    case Leaf(k) => k.Name? || k.Literal?
    case PrefixTree(_, e) => Plain(e)
    case PostfixTree(_, e) => Plain(e)
    case Subscript(b, i) => Plain(b) && Plain(i)
    case Call(f, args) => Plain(f) && PlainAll(args)
    case Member(b, _, _) => Plain(b)
    case BinaryTree(_, l, r) => Plain(l) && Plain(r)
    case TernaryTree(c, m, r) => Plain(c) && Plain(m) && Plain(r)
  }

  predicate PlainAll(ts: seq<Tree>) {
    ts == [] || (Plain(ts[0]) && PlainAll(ts[1..]))
  }

  /** Every operator tree without braces can be written at every level. */
  lemma {:induction false} PlainPrintable(t: Tree, level: nat)
    requires Plain(t) && level <= POSTFIX_LEVEL
    ensures Printable(t, level) && !Minimal(t, level).Braces?
    decreases t, 1
  {
    hide Plain, Bare;
    PlainBare(t);
    BareLevel(t, PREC_COMMA, false);
    if level <= Level(t) {
      FitsAtLevel(Bare(t), PREC_COMMA, level, false);
    }
  }

  lemma {:induction false} PlainBare(t: Tree)
    requires Plain(t)
    ensures Fits(Bare(t), PREC_COMMA, false) && Abstract(Bare(t)) == t && !Bare(t).Braces?
    decreases t, 0
  {
    hide OperatorLevel, Minimal;
    match t
    case Leaf(_) =>
    case PrefixTree(_, e) => PlainPrintable(e, UNARY_LEVEL);
    case PostfixTree(_, e) => PlainPrintable(e, POSTFIX_LEVEL);
    case Subscript(b, i) =>
      PlainPrintable(b, POSTFIX_LEVEL);
      PlainPrintable(i, PREC_COMMA);
    case Call(f, args) =>
      PlainPrintable(f, POSTFIX_LEVEL);
      PlainAllPrintable(args);
    case Member(b, _, _) => PlainPrintable(b, POSTFIX_LEVEL);
    case BinaryTree(op, l, r) =>
      var p := OperatorLevel(op);
      PlainPrintable(l, LeftLevel(p));
      PlainPrintable(r, RightLevel(p));
      FitsWider(Minimal(r, RightLevel(p)), RightLevel(p), true);
    case TernaryTree(c, m, r) =>
      PlainPrintable(c, PREC_LOGICAL_OR);
      PlainPrintable(m, PREC_ASSIGNMENT);
      PlainPrintable(r, PREC_CONDITIONAL);
      FitsWider(Minimal(r, PREC_CONDITIONAL), PREC_CONDITIONAL, true);
  }

  lemma {:induction false} PlainAllPrintable(ts: seq<Tree>)
    requires PlainAll(ts)
    ensures FitsAll(MinimalAll(ts)) && AbstractAll(MinimalAll(ts)) == ts
    decreases ts
  {
    hide Plain, Minimal, Fits, Abstract;
    if ts != [] {
      PlainPrintable(ts[0], PREC_ASSIGNMENT);
      PlainAllPrintable(ts[1..]);
      var ms := MinimalAll(ts);
      assert ms[0] == Minimal(ts[0], PREC_ASSIGNMENT) && ms[1..] == MinimalAll(ts[1..]);
    }
  }
}

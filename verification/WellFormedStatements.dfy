/**
  * Finished statements read back instruction by instruction; jumps and the labels of
  * a switch go to instructions, or to the end of the code.
  */
module WellFormedStatements {
  import opened Common
  import opened Ast
  import opened Instructions
  import opened Codegen
  import opened ExprCorrect
  import opened Standing
  import opened StmtCorrect
  import opened Decode
  import opened WellFormed

  function Outs(g: Targets): set<int> {
    {g.breaks, g.conts, g.next}
  }

  /** A finished statement: well formed, with its first label at one of its instructions or at its end. */
  predicate Decodes(memory: seq<int>, at: nat, end: nat, g: Targets, tag: Option<nat>) {
    at <= end && Formed(memory, at, end, Outs(g)) && (tag.Some? ==> tag.value in Points(memory, at, end))
  }

  lemma FormedFrom(memory: seq<int>, a: nat, b: nat, narrow: set<int>, wide: set<int>)
    requires Formed(memory, a, b, narrow) && narrow <= wide
    ensures Formed(memory, a, b, wide)
  {
    FormedWider(memory, a, b, narrow, wide);
  }

  /** The end and the start of a piece of code are places to jump to. */
  lemma Ends(memory: seq<int>, a: nat, b: nat, outside: set<int>)
    requires Formed(memory, a, b, outside)
    ensures a in Points(memory, a, b) && b in Points(memory, a, b)
  {
    StartsHead(memory, a, b);
  }

  lemma ValuesDecode(memory: seq<int>, at: nat, end: nat, g: Targets)
    requires Formed(memory, at, end, {})
    ensures Decodes(memory, at, end, g, None)
  {
    FormedWider(memory, at, end, {}, Outs(g));
  }

  lemma ReadsFormed(memory: seq<int>, at: nat, end: nat)
    requires Reads(memory, at, end)
    ensures Formed(memory, at, end, {})
  {
  }

  lemma ExprFormed(memory: seq<int>, e: Expr, at: nat, outside: set<int>)
    requires Has(memory, at, CodeE(e, at))
    ensures Formed(memory, at, at + |CodeE(e, at)|, outside)
  {
    hide Formed, Reads, Has, CodeE;
    ExprReads(memory, e, at);
    ReadsFormed(memory, at, at + |CodeE(e, at)|);
    FormedFrom(memory, at, at + |CodeE(e, at)|, {}, outside);
  }

  /** An expression with one more instruction. */
  lemma ExprMore(memory: seq<int>, e: Expr, at: nat, c: seq<int>)
    requires Has(memory, at, CodeE(e, at) + c)
    requires |c| > 0 && IsCode(c[0]) && |c| == 1 + Operands(c[0]) && !IsJump(c[0])
    ensures Formed(memory, at, at + |CodeE(e, at) + c|, {})
  {
    hide Formed, Has, CodeE, LastPlain, IsCode, Operands;
    HasJoin(memory, at, CodeE(e, at), c);
    ExprFormed(memory, e, at, {});
    assert c[0] != IC_FUNC_BEG && c[0] != IC_B && c[0] != IC_BE0 && c[0] != IC_BNE0;
    ReadsMore(memory, at, CodeE(e, at), c);
    ReadsFormed(memory, at, at + |CodeE(e, at) + c|);
  }

  lemma {:induction false} DeclsFormed(memory: seq<int>, ds: seq<Decl>, at: nat)
    requires Has(memory, at, CodeDecls(ds, at))
    ensures Formed(memory, at, at + |CodeDecls(ds, at)|, {})
    decreases |ds|
  {
    hide Formed, Has, CodeE;
    HasWithin(memory, at, CodeDecls(ds, at));
    if ds == [] {
      FormedNone(memory, at);
    } else {
      var before := CodeDecls(ds[..|ds| - 1], at);
      var last := ds[|ds| - 1];
      HasJoin(memory, at, before, CodeD(last, at + |before|));
      DeclsFormed(memory, ds[..|ds| - 1], at);
      match last
      case Scalar(x, Some(e)) =>
        ExprMore(memory, e, at + |before|, [IC_ASSIGN_V, x]);
        FormedJoinOut(memory, at, at + |before|, at + |CodeDecls(ds, at)|, {});
      case _ =>
    }
  }

  lemma JumpDecodes(memory: seq<int>, at: nat, target: nat, g: Targets)
    requires Has(memory, at, [IC_B, target]) && target in Outs(g)
    ensures Decodes(memory, at, at + 2, g, None)
  {
    HasFormed(memory, at, [IC_B, target], Outs(g));
  }

  lemma {:induction false} SimpleDecodes(memory: seq<int>, s: Stmt, at: nat, g: Targets)
    requires s.Null? || s.Effect? || s.Declare? || s.Return? || s.Break? || s.Continue?
    requires Stands(memory, at, CodeS(s, at), g)
    ensures Decodes(memory, at, at + |CodeS(s, at)|, g, FirstLabel(s, at))
  {
    hide Formed, Has, CodeE, CodeV, CodeDecls, Stands, Decodes, Vals;
    match s
    case Null =>
      StandsWithin(memory, at, [], g);
      FormedNone(memory, at);
      ValuesDecode(memory, at, at, g);
    case Effect(e) =>
      StandsVals(memory, at, CodeV(e, at), g);
      VoidFormed(memory, e, at);
      ValuesDecode(memory, at, at + |CodeV(e, at)|, g);
    case Declare(ds) =>
      StandsVals(memory, at, CodeDecls(ds, at), g);
      DeclsFormed(memory, ds, at);
      ValuesDecode(memory, at, at + |CodeDecls(ds, at)|, g);
    case Return(None) =>
      StandsVals(memory, at, [IC_RETURN_VOID], g);
      HasFormed(memory, at, [IC_RETURN_VOID], {});
      ValuesDecode(memory, at, at + 1, g);
    case Return(Some(e)) =>
      StandsVals(memory, at, CodeE(e, at) + [IC_RETURN_VAL, 1], g);
      ExprMore(memory, e, at, [IC_RETURN_VAL, 1]);
      ValuesDecode(memory, at, at + |CodeE(e, at)| + 2, g);
    case Break =>
      StandsJump(memory, at, BreakHole, g);
      JumpDecodes(memory, at, g.breaks, g);
    case Continue =>
      StandsJump(memory, at, ContinueHole, g);
      JumpDecodes(memory, at, g.conts, g);
  }

  lemma StandsWithin(memory: seq<int>, at: nat, cells: seq<Cell>, g: Targets)
    requires Stands(memory, at, cells, g)
    ensures at + |cells| <= |memory|
  {
  }

  lemma StandsJump(memory: seq<int>, at: nat, hole: Cell, g: Targets)
    requires Stands(memory, at, [Val(IC_B), hole], g)
    ensures Has(memory, at, [IC_B, ValueOf(hole, g)])
  {
    var cells := [Val(IC_B), hole];
    assert memory[at + 0] == ValueOf(cells[0], g) && memory[at + 1] == ValueOf(cells[1], g);
  }

  // --------------------------------------------------------------------- conditionals

  /** A test with its jump to the end of the code after it. */
  lemma TestJoins(memory: seq<int>, at: nat, test: nat, end: nat, jump: int, outside: set<int>)
    requires at <= test && Formed(memory, at, test, outside) && Has(memory, test, [jump, end])
    requires jump == IC_BE0 || jump == IC_BNE0
    requires test + 2 <= end && Formed(memory, test + 2, end, outside)
    ensures Formed(memory, at, end, outside)
    ensures Points(memory, test + 2, end) <= Points(memory, at, end) && test + 2 in Points(memory, at, end)
  {
    hide Formed, Has, Points;
    HasFormed(memory, test, [jump, end], outside + {end});
    FormedFrom(memory, at, test, outside, outside + {end});
    FormedFrom(memory, test + 2, end, outside, outside + {end});
    FormedJoinOut(memory, at, test, test + 2, outside + {end});
    FormedJoinOut(memory, at, test + 2, end, outside + {end});
    Ends(memory, at, end, outside + {end});
    Ends(memory, test + 2, end, outside);
    FormedWider(memory, at, end, outside + {end}, outside);
  }

  lemma {:induction false} IfDecodes(memory: seq<int>, s: Stmt, at: nat, g: Targets)
    requires s.If? && Stands(memory, at, CodeS(s, at), g)
    ensures Decodes(memory, at, at + |CodeS(s, at)|, g, FirstLabel(s, at))
    decreases s, 0
  {
    hide Formed, Has, CodeE, CodeS, FirstLabel, Stands, Points;
    var t := CodeE(s.cond, at);
    var thenAt := at + |t| + 2;
    if s.no.None? {
      ShapeIf(s, at);
      StandsIf(memory, at, t, CodeS(s.yes, thenAt), g);
      StmtDecodes(memory, s.yes, thenAt, g);
      ExprFormed(memory, s.cond, at, Outs(g));
      TestJoins(memory, at, at + |t|, at + |CodeS(s, at)|, IC_BE0, Outs(g));
    } else {
      ShapeIfElse(s, at);
      var elseAt := thenAt + |CodeS(s.yes, thenAt)| + 2;
      var tag := FirstLabel(s.no.value, elseAt);
      StandsIfElse(memory, at, t, CodeS(s.yes, thenAt), CodeS(s.no.value, elseAt), tag, g);
      StmtDecodes(memory, s.yes, thenAt, WithLabel(g, tag));
      StmtDecodes(memory, s.no.value, elseAt, g);
      ExprFormed(memory, s.cond, at, {});
      BranchesDecode(memory, at, at + |t|, elseAt, at + |CodeS(s, at)|, g, FirstLabel(s.yes, thenAt), tag);
    }
  }

  lemma BranchesDecode(memory: seq<int>, at: nat, test: nat, elseAt: nat, end: nat, g: Targets, la: Option<nat>, lb: Option<nat>)
    requires Formed(memory, at, test, {}) && Has(memory, test, [IC_BE0, elseAt])
    requires test + 4 <= elseAt && Decodes(memory, test + 2, elseAt - 2, WithLabel(g, lb), la)
    requires Has(memory, elseAt - 2, [IC_B, end]) && Decodes(memory, elseAt, end, g, lb)
    ensures Decodes(memory, at, end, g, Either(la, lb))
  {
    hide Formed, Has, Points;
    var all := Outs(g) + Outs(WithLabel(g, lb)) + {elseAt, end};
    FormedFrom(memory, at, test, {}, all);
    HasFormed(memory, test, [IC_BE0, elseAt], all);
    FormedFrom(memory, test + 2, elseAt - 2, Outs(WithLabel(g, lb)), all);
    HasFormed(memory, elseAt - 2, [IC_B, end], all);
    FormedFrom(memory, elseAt, end, Outs(g), all);
    FormedJoinOut(memory, at, test, test + 2, all);
    FormedJoinOut(memory, at, test + 2, elseAt - 2, all);
    FormedJoinOut(memory, at, elseAt - 2, elseAt, all);
    FormedJoinOut(memory, at, elseAt, end, all);
    Ends(memory, elseAt, end, all);
    FormedWider(memory, at, end, all, Outs(g));
  }

  // ---------------------------------------------------------------------------- loops

  /** A test that leaves a loop, or none. */
  lemma LoopTestFormed(memory: seq<int>, test: Option<Expr>, at: nat, g: Targets)
    requires Stands(memory, at, CodeTest(test, at), g)
    ensures Formed(memory, at, at + |CodeTest(test, at)|, {g.breaks})
  {
    hide Formed, Has, CodeE, Stands;
    if test.Some? {
      StandsTest(memory, at, test.value, g);
      var t := CodeE(test.value, at);
      HasJoin(memory, at, t, [IC_BE0, g.breaks]);
      ExprFormed(memory, test.value, at, {g.breaks});
      HasFormed(memory, at + |t|, [IC_BE0, g.breaks], {g.breaks});
      FormedJoinOut(memory, at, at + |t|, at + |t| + 2, {g.breaks});
    } else {
      StandsWithin(memory, at, [], g);
      FormedNone(memory, at);
      FormedFrom(memory, at, at, {}, {g.breaks});
    }
  }

  /** The pieces of a loop: test, body, what comes after the body, and the jump back. */
  lemma LoopJoins(memory: seq<int>, top: nat, body: nat, after: nat, back: nat, cont: nat, g: Targets, tag: Option<nat>)
    requires cont == top || cont == after
    requires Formed(memory, top, body, {back + 2}) && Decodes(memory, body, after, g.(breaks := back + 2, conts := cont), tag)
    requires Formed(memory, after, back, {}) && Has(memory, back, [IC_B, top])
    ensures Decodes(memory, top, back + 2, g, tag)
  {
    hide Formed, Has, Points;
    var end := back + 2;
    var all := Outs(g) + {end, cont, top};
    FormedFrom(memory, top, body, {end}, all);
    FormedFrom(memory, body, after, Outs(g.(breaks := end, conts := cont)), all);
    FormedFrom(memory, after, back, {}, all);
    HasFormed(memory, back, [IC_B, top], all);
    FormedWithin(memory, top, body, {end});
    FormedWithin(memory, body, after, all);
    FormedWithin(memory, after, back, {});
    FormedJoinOut(memory, top, body, after, all);
    FormedJoinOut(memory, top, after, back, all);
    FormedJoinOut(memory, top, back, end, all);
    Ends(memory, top, body, all);
    Ends(memory, top, end, all);
    Ends(memory, after, back, all);
    FormedWider(memory, top, end, all, Outs(g));
  }

  lemma FormedWithin(memory: seq<int>, a: nat, b: nat, outside: set<int>)
    requires Formed(memory, a, b, outside)
    ensures a <= b
  {
  }

  lemma NextFormed(memory: seq<int>, next: Option<Expr>, at: nat)
    requires Has(memory, at, CodeNext(next, at))
    ensures Formed(memory, at, at + |CodeNext(next, at)|, {})
  {
    hide Formed, Has, CodeV;
    HasWithin(memory, at, CodeNext(next, at));
    if next.Some? {
      VoidFormed(memory, next.value, at);
    } else {
      FormedNone(memory, at);
    }
  }

  lemma {:induction false} WhileDecodes(memory: seq<int>, s: Stmt, at: nat, g: Targets)
    requires s.While? && Stands(memory, at, CodeS(s, at), g)
    ensures Decodes(memory, at, at + |CodeS(s, at)|, g, FirstLabel(s, at))
    decreases s, 0
  {
    hide Formed, Has, CodeE, CodeS, FirstLabel, Stands, Points, CodeTest, Close, Vals, Decodes;
    ShapeWhile(s, at);
    var t := CodeTest(Some(s.cond), at);
    var body := CodeS(s.loop, at + |t|);
    var back := at + |t| + |body|;
    var end := back + 2;
    StandsLoop(memory, at, t + body, at, [IC_B, at], end, g);
    var g' := g.(breaks := end, conts := at);
    StandsJoin(memory, at, t, body, g');
    LoopTestFormed(memory, Some(s.cond), at, g');
    StmtDecodes(memory, s.loop, at + |t|, g');
    StandsWithin(memory, at + |t|, body, g');
    FormedNone(memory, back);
    LoopJoins(memory, at, at + |t|, back, back, at, g, FirstLabel(s.loop, at + |t|));
  }

  lemma {:induction false} DoDecodes(memory: seq<int>, s: Stmt, at: nat, g: Targets)
    requires s.Do? && Stands(memory, at, CodeS(s, at), g)
    ensures Decodes(memory, at, at + |CodeS(s, at)|, g, FirstLabel(s, at))
    decreases s, 0
  {
    hide Formed, Has, CodeE, CodeS, FirstLabel, Stands, Points, Close, Vals, Decodes;
    ShapeDo(s, at);
    var body := CodeS(s.loop, at);
    var k := at + |body|;
    var t := CodeE(s.cond, k);
    var end := k + |t| + 2;
    StandsLoop(memory, at, body, k, t + [IC_BNE0, at], end, g);
    HasJoin(memory, k, t, [IC_BNE0, at]);
    StmtDecodes(memory, s.loop, at, g.(breaks := end, conts := k));
    ExprFormed(memory, s.cond, k, {});
    DoJoins(memory, at, k, k + |t|, g, FirstLabel(s.loop, at));
  }

  lemma DoJoins(memory: seq<int>, at: nat, k: nat, back: nat, g: Targets, tag: Option<nat>)
    requires Decodes(memory, at, k, g.(breaks := back + 2, conts := k), tag)
    requires Formed(memory, k, back, {}) && Has(memory, back, [IC_BNE0, at])
    ensures Decodes(memory, at, back + 2, g, tag)
  {
    hide Formed, Has, Points;
    var end := back + 2;
    var all := Outs(g) + {end, k, at};
    FormedFrom(memory, at, k, Outs(g.(breaks := end, conts := k)), all);
    FormedFrom(memory, k, back, {}, all);
    HasFormed(memory, back, [IC_BNE0, at], all);
    FormedWithin(memory, k, back, {});
    FormedJoinOut(memory, at, k, back, all);
    FormedJoinOut(memory, at, back, end, all);
    Ends(memory, at, k, all);
    Ends(memory, at, end, all);
    FormedWider(memory, at, end, all, Outs(g));
  }

  lemma {:induction false} ForDecodes(memory: seq<int>, s: Stmt, at: nat, g: Targets)
    requires s.For? && Stands(memory, at, CodeS(s, at), g)
    ensures Decodes(memory, at, at + |CodeS(s, at)|, g, FirstLabel(s, at))
    decreases s, 1
  {
    hide Formed, Has, CodeE, CodeS, FirstLabel, Stands, Points, Decodes, LoopPart, LoopLabel;
    ShapeFor(s, at);
    var init := CodeO(s.start, at);
    var top := at + |init|;
    var lb := LoopLabel(s, top);
    StandsJoin(memory, at, Fill(init, lb), LoopPart(s, top), g);
    StandsFill(memory, at, init, lb, g);
    LoopPartDecodes(memory, s, top, g);
    if s.start.Some? {
      StmtDecodes(memory, s.start.value, at, WithLabel(g, lb));
    } else {
      StandsWithin(memory, at, [], WithLabel(g, lb));
      FormedNone(memory, at);
      ValuesDecode(memory, at, at, WithLabel(g, lb));
    }
    FollowDecodes(memory, at, top, at + |CodeS(s, at)|, g, FirstLabelO(s.start, at), lb);
  }

  /** Code, and code after it whose first label it waits for. */
  lemma FollowDecodes(memory: seq<int>, a: nat, b: nat, c: nat, g: Targets, la: Option<nat>, lb: Option<nat>)
    requires Decodes(memory, a, b, WithLabel(g, lb), la) && Decodes(memory, b, c, g, lb)
    ensures Decodes(memory, a, c, g, Either(la, lb))
  {
    hide Formed, Points;
    var all := Outs(g) + Outs(WithLabel(g, lb));
    FormedFrom(memory, a, b, Outs(WithLabel(g, lb)), all);
    FormedFrom(memory, b, c, Outs(g), all);
    FormedJoinOut(memory, a, b, c, all);
    FormedWider(memory, a, c, all, Outs(g));
  }

  lemma {:induction false} LoopPartDecodes(memory: seq<int>, s: Stmt, top: nat, g: Targets)
    requires s.For? && Stands(memory, top, LoopPart(s, top), g)
    ensures Decodes(memory, top, top + |LoopPart(s, top)|, g, LoopLabel(s, top))
    decreases s, 0
  {
    hide Formed, Has, CodeE, CodeS, FirstLabel, Stands, Points, CodeTest, Close, Vals, Decodes, CodeNext;
    var t := CodeTest(s.test, top);
    var body := CodeS(s.loop, top + |t|);
    var after := top + |t| + |body|;
    var step := CodeNext(s.next, after);
    var back := after + |step|;
    StandsLoop(memory, top, t + body, after, step + [IC_B, top], back + 2, g);
    var g' := g.(breaks := back + 2, conts := after);
    StandsJoin(memory, top, t, body, g');
    HasJoin(memory, after, step, [IC_B, top]);
    LoopTestFormed(memory, s.test, top, g');
    StmtDecodes(memory, s.loop, top + |t|, g');
    NextFormed(memory, s.next, after);
    LoopJoins(memory, top, top + |t|, after, back, after, g, LoopLabel(s, top));
  }

  // -------------------------------------------------------------------------- switches

  lemma {:induction false} SwitchDecodes(memory: seq<int>, s: Stmt, at: nat, g: Targets)
    requires s.Switch? && Stands(memory, at, CodeS(s, at), g)
    ensures Decodes(memory, at, at + |CodeS(s, at)|, g, FirstLabel(s, at))
    decreases s, 0
  {
    hide Formed, Has, CodeE, CodeS, FirstLabel, Stands, Points, Close, Vals;
    ShapeSwitch(s, at);
    var t := CodeE(s.cond, at);
    var body := CodeS(s.cases, at + |t|);
    var end := at + |t| + |body|;
    StandsSwitch(memory, at, t, body, g);
    var g' := g.(breaks := end, next := end);
    StmtDecodes(memory, s.cases, at + |t|, g');
    ExprFormed(memory, s.cond, at, Outs(g'));
    FormedJoinOut(memory, at, at + |t|, end, Outs(g'));
    Ends(memory, at, end, Outs(g'));
    FormedWider(memory, at, end, Outs(g'), Outs(g));
  }

  lemma CaseTestDecodes(memory: seq<int>, e: Expr, at: nat, g: Targets)
    requires Stands(memory, at, CodeCase(e, at), g)
    ensures Decodes(memory, at, at + |CodeCase(e, at)|, g, None)
  {
    hide Formed, Has, CodeE, Stands, IsCode, Operands;
    StandsCase(memory, at, e, g);
    var c := CodeE(e, at + 1);
    var rest := [IC_EQ] + [IC_BE0, g.next];
    assert [IC_DUPLICATE] + c + [IC_EQ, IC_BE0, g.next] == [IC_DUPLICATE] + (c + [IC_EQ]) + [IC_BE0, g.next];
    HasJoin(memory, at, [IC_DUPLICATE] + (c + [IC_EQ]), [IC_BE0, g.next]);
    HasJoin(memory, at, [IC_DUPLICATE], c + [IC_EQ]);
    CaseCodes();
    HasFormed(memory, at, [IC_DUPLICATE], {});
    ExprMore(memory, e, at + 1, [IC_EQ]);
    var k := at + 2 + |c|;
    HasFormed(memory, k, [IC_BE0, g.next], Outs(g));
    FormedJoinOut(memory, at, at + 1, k, {});
    FormedFrom(memory, at, k, {}, Outs(g));
    FormedJoinOut(memory, at, k, k + 2, Outs(g));
  }

  lemma CaseCodes()
    ensures IsCode(IC_DUPLICATE) && Operands(IC_DUPLICATE) == 0 && IsCode(IC_EQ) && Operands(IC_EQ) == 0
    ensures IsCode(IC_BE0) && Operands(IC_BE0) == 1
  {
  }

  lemma {:induction false} CaseDecodes(memory: seq<int>, s: Stmt, at: nat, g: Targets)
    requires s.Case? && Stands(memory, at, CodeS(s, at), g)
    ensures Decodes(memory, at, at + |CodeS(s, at)|, g, FirstLabel(s, at))
    decreases s, 0
  {
    hide Formed, Has, CodeE, CodeS, CodeCase, FirstLabel, Stands, Points, Close, Vals;
    ShapeCase(s, at);
    var test := CodeCase(s.tag, at);
    var at' := at + |test|;
    var lb := FirstLabel(s.labelled, at');
    StandsJoin(memory, at, Fill(test, lb), CodeS(s.labelled, at'), g);
    StandsFill(memory, at, test, lb, g);
    CaseTestDecodes(memory, s.tag, at, WithLabel(g, lb));
    StmtDecodes(memory, s.labelled, at', g);
    FollowDecodes(memory, at, at', at + |CodeS(s, at)|, g, None, lb);
    Ends(memory, at, at + |CodeS(s, at)|, Outs(g));
  }

  // ------------------------------------------------------------------------ statements

  /** Every finished statement, whatever it is nested in. */
  lemma {:induction false} StmtDecodes(memory: seq<int>, s: Stmt, at: nat, g: Targets)
    requires Stands(memory, at, CodeS(s, at), g)
    ensures Decodes(memory, at, at + |CodeS(s, at)|, g, FirstLabel(s, at))
    decreases s, 2
  {
    hide Decodes, Stands, CodeE, CodeV, CodeDecls, CodeTest, CodeCase, CodeNext, CodeList, FirstLabelList;
    hide IfCells, IfElseCells, WhileCells, DoCells, ForCells, SwitchCells;
    match s
    case Block(ss) => ListDecodes(memory, ss, at, g);
    case If(_, _, _) => IfDecodes(memory, s, at, g);
    case While(_, _) => WhileDecodes(memory, s, at, g);
    case Do(_, _) => DoDecodes(memory, s, at, g);
    case For(_, _, _, _) => ForDecodes(memory, s, at, g);
    case Switch(_, _) => SwitchDecodes(memory, s, at, g);
    case Case(_, _) => CaseDecodes(memory, s, at, g);
    case Default(b) =>
      StmtDecodes(memory, b, at, g);
      DefaultLabel(memory, at, at + |CodeS(b, at)|, g, FirstLabel(b, at));
    case _ => SimpleDecodes(memory, s, at, g);
  }

  lemma DefaultLabel(memory: seq<int>, at: nat, end: nat, g: Targets, tag: Option<nat>)
    requires Decodes(memory, at, end, g, tag)
    ensures Decodes(memory, at, end, g, Some(at))
  {
    Ends(memory, at, end, Outs(g));
  }

  lemma {:induction false} ListDecodes(memory: seq<int>, ss: seq<Stmt>, at: nat, g: Targets)
    requires Stands(memory, at, CodeList(ss, at), g)
    ensures Decodes(memory, at, at + |CodeList(ss, at)|, g, FirstLabelList(ss, at))
    decreases ss, 1
  {
    hide Decodes, Stands, CodeS, FirstLabel, Formed;
    if ss == [] {
      StandsWithin(memory, at, [], g);
      FormedNone(memory, at);
      ValuesDecode(memory, at, at, g);
    } else {
      var n := |ss| - 1;
      var p := at + |CodeList(ss[..n], at)|;
      var lb := FirstLabel(ss[n], p);
      StandsLast(memory, at, ss, g);
      ListDecodes(memory, ss[..n], at, WithLabel(g, lb));
      StmtDecodes(memory, ss[n], p, g);
      FollowDecodes(memory, at, p, at + |CodeList(ss, at)|, g, FirstLabelList(ss[..n], at), lb);
    }
  }
}

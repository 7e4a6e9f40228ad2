/**
  * Where the parser lets jumps and labels stand, and what that means for code.
  */
module Confinement {
  import opened Common
  import opened Ast
  import opened Instructions
  import opened Codegen
  import opened Threading
  import opened Patching
  import opened Emitting
  import opened EmissionRules
  import opened Standing

  /**
    * Break needs a loop or a switch around it, continue a loop, and a label a
    * switch; loops and switches stay open through each other.
    */
  predicate Confined(s: Stmt, inLoop: bool, inSwitch: bool)
    decreases s
  {
    match s
    case Block(ss) => forall i :: 0 <= i < |ss| ==> Confined(ss[i], inLoop, inSwitch)
    case If(_, y, n) => Confined(y, inLoop, inSwitch) && (n.Some? ==> Confined(n.value, inLoop, inSwitch))
    case While(_, b) => Confined(b, true, inSwitch)
    case Do(b, _) => Confined(b, true, inSwitch)
    case For(start, _, _, b) =>
      (start.Some? ==> Confined(start.value, inLoop, inSwitch)) && Confined(b, true, inSwitch)
    case Switch(_, b) => Confined(b, inLoop, true)
    case Case(_, b) => inSwitch && Confined(b, inLoop, inSwitch)
    case Default(b) => inSwitch && Confined(b, inLoop, inSwitch)
    case Break => inLoop || inSwitch
    case Continue => inLoop
    case _ => true
  }

  /** Code has no jump or label that its context does not allow. */
  predicate Settled(cells: seq<Cell>, tag: Option<nat>, inLoop: bool, inSwitch: bool) {
    && (!inLoop && !inSwitch ==> BreakHole !in cells)
    && (!inLoop ==> ContinueHole !in cells)
    && (!inSwitch ==> tag.None?)
  }

  lemma SettledFill(a: seq<Cell>, la: Option<nat>, b: seq<Cell>, lb: Option<nat>, inLoop: bool, inSwitch: bool)
    requires Settled(a, la, inLoop, inSwitch) && Settled(b, lb, inLoop, inSwitch)
    ensures Settled(Fill(a, lb) + b, Either(la, lb), inLoop, inSwitch)
  {
    if lb.Some? {
      assert forall i :: 0 <= i < |a| && !Fill(a, lb)[i].Val? ==> Fill(a, lb)[i] in a;
    }
  }

  /** The closed part of a loop has no jumps left. */
  lemma SettledLoop(a: seq<Cell>, cont: int, tail: seq<int>, end: int, tag: Option<nat>, inLoop: bool, inSwitch: bool)
    requires !inSwitch ==> tag.None?
    ensures Settled(Close(Close(a, ContinueHole, cont) + Vals(tail), BreakHole, end), tag, inLoop, inSwitch)
  {
  }

  lemma SettledHead(c: seq<int>, a: seq<Cell>, tag: Option<nat>, inLoop: bool, inSwitch: bool)
    requires Settled(a, tag, inLoop, inSwitch)
    ensures Settled(Vals(c) + a, tag, inLoop, inSwitch)
  {
  }

  lemma {:induction false} ConfinedCode(s: Stmt, at: nat, inLoop: bool, inSwitch: bool)
    requires Confined(s, inLoop, inSwitch)
    ensures Settled(CodeS(s, at), FirstLabel(s, at), inLoop, inSwitch)
    decreases s, 1
  {
    hide Settled;
    match s
    case Null => ConfinedPlain(s, at, inLoop, inSwitch);
    case Effect(_) => ConfinedPlain(s, at, inLoop, inSwitch);
    case Declare(_) => ConfinedPlain(s, at, inLoop, inSwitch);
    case Return(_) => ConfinedPlain(s, at, inLoop, inSwitch);
    case Break => ConfinedPlain(s, at, inLoop, inSwitch);
    case Continue => ConfinedPlain(s, at, inLoop, inSwitch);
    case Block(ss) => ConfinedList(ss, at, inLoop, inSwitch);
    case If(_, _, _) => ConfinedIf(s, at, inLoop, inSwitch);
    case While(_, _) => ConfinedWhile(s, at, inLoop, inSwitch);
    case Do(_, _) => ConfinedDo(s, at, inLoop, inSwitch);
    case For(_, _, _, _) => ConfinedFor(s, at, inLoop, inSwitch);
    case Switch(_, _) => ConfinedSwitch(s, at, inLoop, inSwitch);
    case Case(_, _) => ConfinedCase(s, at, inLoop, inSwitch);
    case Default(b) =>
      ConfinedCode(b, at, inLoop, inSwitch);
      SettledLabelled(CodeS(b, at), FirstLabel(b, at), at, inLoop, inSwitch);
  }

  lemma SettledTest(e: Expr, at: nat, inLoop: bool, inSwitch: bool)
    requires inSwitch
    ensures Settled(CodeCase(e, at), Some(at), inLoop, inSwitch)
  {
  }

  lemma SettledLabelled(a: seq<Cell>, tag: Option<nat>, at: nat, inLoop: bool, inSwitch: bool)
    requires Settled(a, tag, inLoop, inSwitch) && inSwitch
    ensures Settled(a, Some(at), inLoop, inSwitch)
  {
  }

  lemma LabelOnlyInSwitch(a: seq<Cell>, tag: Option<nat>, inLoop: bool, inSwitch: bool)
    requires Settled(a, tag, inLoop, inSwitch)
    ensures !inSwitch ==> tag.None?
  {
  }

  lemma ConfinedPlain(s: Stmt, at: nat, inLoop: bool, inSwitch: bool)
    requires s.Null? || s.Effect? || s.Declare? || s.Return? || s.Break? || s.Continue?
    requires Confined(s, inLoop, inSwitch)
    ensures Settled(CodeS(s, at), FirstLabel(s, at), inLoop, inSwitch)
  {
  }

  lemma {:induction false} ConfinedIf(s: Stmt, at: nat, inLoop: bool, inSwitch: bool)
    requires s.If? && Confined(s, inLoop, inSwitch)
    ensures Settled(CodeS(s, at), FirstLabel(s, at), inLoop, inSwitch)
    decreases s, 0
  {
    hide Settled, CodeS, FirstLabel, Fill, Either, Vals;
    var t := CodeE(s.cond, at);
    var thenAt := at + |t| + 2;
    var a, la := CodeS(s.yes, thenAt), FirstLabel(s.yes, thenAt);
    ConfinedCode(s.yes, thenAt, inLoop, inSwitch);
    if s.no.None? {
      ShapeIf(s, at);
      SettledHead(t + [IC_BE0, at + |t| + |a| + 2], a, la, inLoop, inSwitch);
    } else {
      ShapeIfElse(s, at);
      var elseAt := thenAt + |a| + 2;
      var b, lb := CodeS(s.no.value, elseAt), FirstLabel(s.no.value, elseAt);
      ConfinedCode(s.no.value, elseAt, inLoop, inSwitch);
      SettledHead(t + [IC_BE0, elseAt], a, la, inLoop, inSwitch);
      SettledTail(Vals(t + [IC_BE0, elseAt]) + a, la, [IC_B, elseAt + |b|], inLoop, inSwitch);
      SettledFill(Vals(t + [IC_BE0, elseAt]) + a + Vals([IC_B, elseAt + |b|]), la, b, lb, inLoop, inSwitch);
    }
  }

  lemma SettledTail(a: seq<Cell>, tag: Option<nat>, c: seq<int>, inLoop: bool, inSwitch: bool)
    requires Settled(a, tag, inLoop, inSwitch)
    ensures Settled(a + Vals(c), tag, inLoop, inSwitch)
  {
  }

  lemma {:induction false} ConfinedFor(s: Stmt, at: nat, inLoop: bool, inSwitch: bool)
    requires s.For? && Confined(s, inLoop, inSwitch)
    ensures Settled(CodeS(s, at), FirstLabel(s, at), inLoop, inSwitch)
    decreases s, 0
  {
    hide Settled, CodeS, FirstLabel, Fill, Either, CodeTest, CodeNext;
    ShapeFor(s, at);
    var init := CodeO(s.start, at);
    var top := at + |init|;
    var t := CodeTest(s.test, top);
    var body := CodeS(s.loop, top + |t|);
    var next := top + |t| + |body|;
    var step := CodeNext(s.next, next);
    if s.start.Some? {
      ConfinedCode(s.start.value, at, inLoop, inSwitch);
    } else {
      SettledNothing(inLoop, inSwitch);
    }
    ConfinedCode(s.loop, top + |t|, true, inSwitch);
    LabelOnlyInSwitch(body, LoopLabel(s, top), true, inSwitch);
    SettledLoop(t + body, next, step + [IC_B, top], next + |step| + 2, LoopLabel(s, top), inLoop, inSwitch);
    SettledFill(init, FirstLabelO(s.start, at), LoopPart(s, top), LoopLabel(s, top), inLoop, inSwitch);
  }

  lemma SettledNothing(inLoop: bool, inSwitch: bool)
    ensures Settled([], None, inLoop, inSwitch)
  {
  }

  lemma {:induction false} ConfinedWhile(s: Stmt, at: nat, inLoop: bool, inSwitch: bool)
    requires s.While? && Confined(s, inLoop, inSwitch)
    ensures Settled(CodeS(s, at), FirstLabel(s, at), inLoop, inSwitch)
    decreases s, 0
  {
    hide Settled, CodeS, FirstLabel, CodeTest;
    ShapeWhile(s, at);
    var t := CodeTest(Some(s.cond), at);
    var body, lb := CodeS(s.loop, at + |t|), FirstLabel(s.loop, at + |t|);
    ConfinedCode(s.loop, at + |t|, true, inSwitch);
    LabelOnlyInSwitch(body, lb, true, inSwitch);
    SettledLoop(t + body, at, [IC_B, at], at + |t| + |body| + 2, lb, inLoop, inSwitch);
  }

  lemma {:induction false} ConfinedDo(s: Stmt, at: nat, inLoop: bool, inSwitch: bool)
    requires s.Do? && Confined(s, inLoop, inSwitch)
    ensures Settled(CodeS(s, at), FirstLabel(s, at), inLoop, inSwitch)
    decreases s, 0
  {
    hide Settled, CodeS, FirstLabel;
    ShapeDo(s, at);
    var body, lb := CodeS(s.loop, at), FirstLabel(s.loop, at);
    var t := CodeE(s.cond, at + |body|);
    ConfinedCode(s.loop, at, true, inSwitch);
    LabelOnlyInSwitch(body, lb, true, inSwitch);
    SettledLoop(body, at + |body|, t + [IC_BNE0, at], at + |body| + |t| + 2, lb, inLoop, inSwitch);
  }

  lemma {:induction false} ConfinedCase(s: Stmt, at: nat, inLoop: bool, inSwitch: bool)
    requires s.Case? && Confined(s, inLoop, inSwitch)
    ensures Settled(CodeS(s, at), FirstLabel(s, at), inLoop, inSwitch)
    decreases s, 0
  {
    hide Settled, CodeS, FirstLabel, CodeCase;
    ShapeCase(s, at);
    var test := CodeCase(s.tag, at);
    ConfinedCode(s.labelled, at + |test|, inLoop, inSwitch);
    SettledTest(s.tag, at, inLoop, inSwitch);
    SettledFill(test, Some(at), CodeS(s.labelled, at + |test|), FirstLabel(s.labelled, at + |test|), inLoop, inSwitch);
  }

  lemma {:induction false} ConfinedSwitch(s: Stmt, at: nat, inLoop: bool, inSwitch: bool)
    requires s.Switch? && Confined(s, inLoop, inSwitch)
    ensures Settled(CodeS(s, at), FirstLabel(s, at), inLoop, inSwitch)
    decreases s, 0
  {
    hide Settled, CodeS, FirstLabel, CodeE;
    ShapeSwitch(s, at);
    var t := CodeE(s.cond, at);
    ConfinedCode(s.cases, at + |t|, inLoop, true);
    SettledSwitch(t, CodeS(s.cases, at + |t|), FirstLabel(s.cases, at + |t|), at, inLoop, inSwitch);
  }

  lemma SettledSwitch(t: seq<int>, body: seq<Cell>, tag: Option<nat>, at: nat, inLoop: bool, inSwitch: bool)
    requires Settled(body, tag, inLoop, true)
    ensures Settled(SwitchCells(t, body, at), None, inLoop, inSwitch)
  {
    var end := at + |t| + |body|;
    var inner := Vals(t) + body;
    var cells := Close(Close(inner, CaseHole, end), BreakHole, end);
    forall i | 0 <= i < |cells| && cells[i] == ContinueHole
      ensures ContinueHole in body
    {
      assert inner[i] == ContinueHole;
      assert i >= |t| && body[i - |t|] in body;
    }
  }

  lemma {:induction false} ConfinedList(ss: seq<Stmt>, at: nat, inLoop: bool, inSwitch: bool)
    requires forall i :: 0 <= i < |ss| ==> Confined(ss[i], inLoop, inSwitch)
    ensures Settled(CodeList(ss, at), FirstLabelList(ss, at), inLoop, inSwitch)
    decreases ss, 0
  {
    hide Settled, CodeS, FirstLabel, Fill, Either;
    if ss == [] {
      SettledNothing(inLoop, inSwitch);
    } else {
      var n := |ss| - 1;
      var before := ss[..n];
      var at' := at + |CodeList(before, at)|;
      ConfinedList(before, at, inLoop, inSwitch);
      ConfinedCode(ss[n], at', inLoop, inSwitch);
      SettledFill(CodeList(before, at), FirstLabelList(before, at), CodeS(ss[n], at'), FirstLabel(ss[n], at'), inLoop, inSwitch);
    }
  }

  // -------------------------------------------------------------- and no other way

  /** What is settled as a whole is settled in its parts. */
  lemma PartsSettled(a: seq<Cell>, tag: Option<nat>, b: seq<Cell>, lab: Option<nat>, inLoop: bool, inSwitch: bool)
    requires Settled(a + b, Either(tag, lab), inLoop, inSwitch)
    ensures Settled(a, tag, inLoop, inSwitch) && Settled(b, lab, inLoop, inSwitch)
  {
    assert forall c :: c in a || c in b ==> c in a + b;
  }

  lemma FilledSettled(a: seq<Cell>, tag: Option<nat>, lab: Option<nat>, inLoop: bool, inSwitch: bool)
    requires Settled(Fill(a, lab), tag, inLoop, inSwitch)
    ensures Settled(a, tag, inLoop, inSwitch)
  {
    forall i | 0 <= i < |a| && (a[i] == BreakHole || a[i] == ContinueHole) ensures a[i] in Fill(a, lab) {
      assert Fill(a, lab)[i] == a[i];
    }
  }

  /** In a loop only labels can be out of place. */
  lemma LoopSettled(a: seq<Cell>, tag: Option<nat>, cells: seq<Cell>, inLoop: bool, inSwitch: bool)
    requires Settled(cells, tag, inLoop, inSwitch)
    ensures Settled(a, tag, true, inSwitch)
  {
  }

  /** A switch takes up everything but continues. */
  lemma SwitchSettled(t: seq<int>, body: seq<Cell>, tag: Option<nat>, at: nat, inLoop: bool, inSwitch: bool)
    requires Settled(SwitchCells(t, body, at), None, inLoop, inSwitch)
    ensures Settled(body, tag, inLoop, true)
  {
    var cells := SwitchCells(t, body, at);
    forall i | 0 <= i < |body| && body[i] == ContinueHole ensures ContinueHole in cells {
      assert cells[|t| + i] == ContinueHole;
    }
  }

  /** Code with no jump or label out of place comes only from a statement where the parser lets them stand. */
  lemma {:induction false} CodeConfined(s: Stmt, at: nat, inLoop: bool, inSwitch: bool)
    requires Settled(CodeS(s, at), FirstLabel(s, at), inLoop, inSwitch)
    ensures Confined(s, inLoop, inSwitch)
    decreases s, 1
  {
    hide Settled, CodeE, CodeV, CodeDecls, CodeTest, CodeNext, CodeCase, CodeList, SwitchCells, ForCells, WhileCells, DoCells;
    match s
    case Break => PlainSettled(s, at, inLoop, inSwitch);
    case Continue => PlainSettled(s, at, inLoop, inSwitch);
    case Block(ss) => ListConfined(ss, at, inLoop, inSwitch);
    case If(_, _, _) => IfConfined(s, at, inLoop, inSwitch);
    case While(c, b) =>
      ShapeWhile(s, at);
      var t := CodeTest(Some(c), at);
      LoopSettled(CodeS(b, at + |t|), FirstLabel(b, at + |t|), CodeS(s, at), inLoop, inSwitch);
      CodeConfined(b, at + |t|, true, inSwitch);
    case Do(b, c) =>
      ShapeDo(s, at);
      LoopSettled(CodeS(b, at), FirstLabel(b, at), CodeS(s, at), inLoop, inSwitch);
      CodeConfined(b, at, true, inSwitch);
    case For(_, _, _, _) => ForConfined(s, at, inLoop, inSwitch);
    case Switch(c, b) =>
      ShapeSwitch(s, at);
      var t := CodeE(c, at);
      SwitchSettled(t, CodeS(b, at + |t|), FirstLabel(b, at + |t|), at, inLoop, inSwitch);
      CodeConfined(b, at + |t|, inLoop, true);
    case Case(e, b) =>
      ShapeCase(s, at);
      var test := CodeCase(e, at);
      LabelledSettled(Fill(test, FirstLabel(b, at + |test|)), CodeS(b, at + |test|), at, FirstLabel(b, at + |test|), inLoop, inSwitch);
      CodeConfined(b, at + |test|, inLoop, inSwitch);
    case Default(b) =>
      LabelledSettled([], CodeS(b, at), at, FirstLabel(b, at), inLoop, inSwitch);
      CodeConfined(b, at, inLoop, inSwitch);
    case _ =>
  }

  lemma PlainSettled(s: Stmt, at: nat, inLoop: bool, inSwitch: bool)
    requires (s.Break? || s.Continue?) && Settled(CodeS(s, at), FirstLabel(s, at), inLoop, inSwitch)
    ensures Confined(s, inLoop, inSwitch)
  {
    assert CodeS(s, at)[1] in CodeS(s, at);
  }

  lemma LabelledSettled(test: seq<Cell>, a: seq<Cell>, at: nat, tag: Option<nat>, inLoop: bool, inSwitch: bool)
    requires Settled(test + a, Some(at), inLoop, inSwitch) || (test == [] && Settled(a, Some(at), inLoop, inSwitch))
    ensures inSwitch && Settled(a, tag, inLoop, inSwitch)
  {
    assert forall c :: c in a ==> c in test + a;
  }

  lemma {:induction false} IfConfined(s: Stmt, at: nat, inLoop: bool, inSwitch: bool)
    requires s.If? && Settled(CodeS(s, at), FirstLabel(s, at), inLoop, inSwitch)
    ensures Confined(s, inLoop, inSwitch)
    decreases s, 0
  {
    hide Settled, CodeS, CodeE, FirstLabel, Fill, Either, Vals;
    var t := CodeE(s.cond, at);
    var thenAt := at + |t| + 2;
    var a, la := CodeS(s.yes, thenAt), FirstLabel(s.yes, thenAt);
    if s.no.None? {
      ShapeIf(s, at);
      var head := Vals(t + [IC_BE0, at + |t| + |a| + 2]);
      NoLabelFirst(la);
      PartsSettled(head, None, a, la, inLoop, inSwitch);
    } else {
      ShapeIfElse(s, at);
      var elseAt := thenAt + |a| + 2;
      var b, lb := CodeS(s.no.value, elseAt), FirstLabel(s.no.value, elseAt);
      var head, jump := Vals(t + [IC_BE0, elseAt]), Vals([IC_B, elseAt + |b|]);
      PartsSettled(Fill(head + a + jump, lb), la, b, lb, inLoop, inSwitch);
      FilledSettled(head + a + jump, la, lb, inLoop, inSwitch);
      NoLabelLast(la);
      PartsSettled(head + a, la, jump, None, inLoop, inSwitch);
      NoLabelFirst(la);
      PartsSettled(head, None, a, la, inLoop, inSwitch);
      CodeConfined(s.no.value, elseAt, inLoop, inSwitch);
    }
    CodeConfined(s.yes, thenAt, inLoop, inSwitch);
  }

  lemma NoLabelFirst(tag: Option<nat>)
    ensures Either(None, tag) == tag
  {
  }

  lemma NoLabelLast(tag: Option<nat>)
    ensures Either(tag, None) == tag
  {
  }

  lemma {:induction false} ForConfined(s: Stmt, at: nat, inLoop: bool, inSwitch: bool)
    requires s.For? && Settled(CodeS(s, at), FirstLabel(s, at), inLoop, inSwitch)
    ensures Confined(s, inLoop, inSwitch)
    decreases s, 0
  {
    hide Settled, CodeS, FirstLabel, Fill, Either, CodeTest, CodeNext, ForCells;
    ShapeFor(s, at);
    var init := CodeO(s.start, at);
    var top := at + |init|;
    var t := CodeTest(s.test, top);
    var lab := LoopLabel(s, top);
    PartsSettled(Fill(init, lab), FirstLabelO(s.start, at), LoopPart(s, top), lab, inLoop, inSwitch);
    FilledSettled(init, FirstLabelO(s.start, at), lab, inLoop, inSwitch);
    if s.start.Some? {
      CodeConfined(s.start.value, at, inLoop, inSwitch);
    }
    LoopSettled(CodeS(s.loop, top + |t|), lab, LoopPart(s, top), inLoop, inSwitch);
    CodeConfined(s.loop, top + |t|, true, inSwitch);
  }

  lemma {:induction false} ListConfined(ss: seq<Stmt>, at: nat, inLoop: bool, inSwitch: bool)
    requires Settled(CodeList(ss, at), FirstLabelList(ss, at), inLoop, inSwitch)
    ensures forall i :: 0 <= i < |ss| ==> Confined(ss[i], inLoop, inSwitch)
    decreases ss, 0
  {
    hide Settled, CodeS, FirstLabel, Fill, Either, Confined;
    if ss != [] {
      var n := |ss| - 1;
      var before := ss[..n];
      var a, la := CodeList(before, at), FirstLabelList(before, at);
      var b, lb := CodeS(ss[n], at + |a|), FirstLabel(ss[n], at + |a|);
      PartsSettled(Fill(a, lb), la, b, lb, inLoop, inSwitch);
      FilledSettled(a, la, lb, inLoop, inSwitch);
      ListConfined(before, at, inLoop, inSwitch);
      CodeConfined(ss[n], at + |a|, inLoop, inSwitch);
    }
  }

  /** The rules of the parser are exactly what the code needs. */
  lemma ConfinedExactly(s: Stmt, at: nat, inLoop: bool, inSwitch: bool)
    ensures Confined(s, inLoop, inSwitch) <==> Settled(CodeS(s, at), FirstLabel(s, at), inLoop, inSwitch)
  {
    hide Confined, Settled, CodeS, FirstLabel;
    if Confined(s, inLoop, inSwitch) {
      ConfinedCode(s, at, inLoop, inSwitch);
    }
    if Settled(CodeS(s, at), FirstLabel(s, at), inLoop, inSwitch) {
      CodeConfined(s, at, inLoop, inSwitch);
    }
  }

  // ---------------------------------------------------------------- finished code

  /** The memory cells of code without holes. */
  function Finished(cells: seq<Cell>): (r: seq<int>)
    ensures |r| == |cells|
    ensures forall i :: 0 <= i < |cells| ==> r[i] == ValueOf(cells[i], Targets(0, 0, 0))
  {
    seq(|cells|, i requires 0 <= i < |cells| => ValueOf(cells[i], Targets(0, 0, 0)))
  }

  /**
    * A statement that keeps its jumps and labels to itself leaves finished code: the
    * lists are as they were, and no cell before it has changed.
    */
  lemma EmitsFinished(em: Emission, s: Stmt)
    requires Ready(em) && Confined(s, false, false)
    ensures Emits(em, s) == em.(memory := em.memory + Finished(CodeS(s, |em.memory|)))
    ensures forall c :: c in CodeS(s, |em.memory|) ==> c.Val?
  {
    hide CodeS, FirstLabel;
    var at := |em.memory|;
    var cells := CodeS(s, at);
    ConfinedCode(s, at, false, false);
    TidyCode(s, at);
    NoHoles(em, cells);
  }

  lemma NoHoles(em: Emission, cells: seq<Cell>)
    requires Ready(em) && Settled(cells, None, false, false) && Tidy(cells, None)
    ensures After(em, cells, None) == em.(memory := em.memory + Finished(cells))
    ensures forall c :: c in cells ==> c.Val?
  {
    forall c | c in cells ensures c.Val? {
      var i :| 0 <= i < |cells| && cells[i] == c;
    }
    LastAbsent(cells, BreakHole, |em.memory|, em.breaks);
    LastAbsent(cells, ContinueHole, |em.memory|, em.conts);
    assert Thread(cells, |em.memory|, em.breaks, em.conts) == Finished(cells);
  }

  /** Finished code stands in any context. */
  lemma FinishedStands(memory: seq<int>, front: seq<int>, cells: seq<Cell>, back: seq<int>, g: Targets)
    requires memory == front + Finished(cells) + back
    requires forall c :: c in cells ==> c.Val?
    ensures Stands(memory, |front|, cells, g)
  {
    forall i | 0 <= i < |cells|
      ensures memory[|front| + i] == ValueOf(cells[i], g)
    {
      assert cells[i] in cells;
    }
  }
}

/**
  * One rule for each statement: the emission state after the whole statement,
  * computed by the encoder's actions from the state after its parts.
  */
module EmissionRules {
  import opened Common
  import opened Ast
  import opened Instructions
  import opened Codegen
  import opened Threading
  import opened Patching
  import opened Emitting

  /** The emission state after a statement, given by the compiler that knows all targets. */
  function Emits(em: Emission, s: Stmt): (r: Emission)
    requires Ready(em)
    ensures Ready(r) && |r.memory| >= |em.memory|
  {
    After(em, CodeS(s, |em.memory|), FirstLabel(s, |em.memory|))
  }

  function EmitsO(em: Emission, s: Option<Stmt>): (r: Emission)
    requires Ready(em)
    ensures Ready(r)
  {
    if s.Some? then Emits(em, s.value) else em
  }

  function EmitsList(em: Emission, ss: seq<Stmt>): (r: Emission)
    requires Ready(em)
    ensures Ready(r)
  {
    After(em, CodeList(ss, |em.memory|), FirstLabelList(ss, |em.memory|))
  }

  lemma EmitsNull(em: Emission)
    requires Ready(em)
    ensures Emits(em, Null) == em
  {
    AfterVals(em, []);
    assert Vals([]) == [];
    assert em.memory + [] == em.memory;
  }

  lemma EmitsOption(em: Emission, s: Option<Stmt>)
    requires Ready(em)
    ensures EmitsO(em, s) == After(em, CodeO(s, |em.memory|), FirstLabelO(s, |em.memory|))
  {
    if s.None? {
      EmitsNull(em);
    }
  }

  /** Statements whose code has no jumps to elsewhere. */
  lemma EmitsPlain(em: Emission, s: Stmt, c: seq<int>)
    requires Ready(em) && CodeS(s, |em.memory|) == Vals(c) && FirstLabel(s, |em.memory|) == None
    ensures Emits(em, s) == em.(memory := em.memory + c)
  {
    AfterVals(em, c);
  }

  lemma EmitsBlock(em: Emission, s: Stmt)
    requires Ready(em) && s.Block?
    ensures Emits(em, s) == EmitsList(em, s.body)
  {
  }

  lemma EmitsEmptyList(em: Emission)
    requires Ready(em)
    ensures EmitsList(em, []) == em
  {
    EmitsNull(em);
  }

  lemma EmitsNext(em: Emission, ss: seq<Stmt>, s: Stmt)
    requires Ready(em)
    ensures EmitsList(em, ss + [s]) == Emits(EmitsList(em, ss), s)
  {
    hide Tidy, After, CodeS, FirstLabel;
    var at := |em.memory|;
    var at' := at + |CodeList(ss, at)|;
    TidyList(ss, at);
    TidyCode(s, at');
    AfterJoin(em, CodeList(ss, at), FirstLabelList(ss, at), CodeS(s, at'), FirstLabel(s, at'));
    assert (ss + [s])[..|ss|] == ss;
  }

  /** Writing a cell before the emitted code commutes with the emission. */
  lemma SetInFront(em: Emission, p: nat, x: int, cells: seq<Cell>, tag: Option<nat>)
    requires Ready(em) && p < |em.memory| && p != em.pending
    ensures
      var r := After(em, cells, tag);
      After(em.(memory := em.memory[p := x]), cells, tag) == r.(memory := r.memory[p := x])
  {
    assert Patched(em.memory[p := x], em.pending, tag) == Patched(em.memory, em.pending, tag)[p := x];
  }

  /** A jump over a part, reserved before the part is emitted and set after it. */
  lemma Guarded(em: Emission, t: seq<int>, jump: int, cells: seq<Cell>, tag: Option<nat>, target: int)
    requires Ready(em) && Tidy(cells, tag)
    ensures
      var open := After(em.(memory := em.memory + t + [jump] + [0]), cells, tag);
      var addr := |em.memory| + |t| + 1;
      && Tidy(Vals(t + [jump, target]) + cells, tag)
      && After(em, Vals(t + [jump, target]) + cells, tag) == open.(memory := open.memory[addr := target])
  {
    var addr := |em.memory| + |t| + 1;
    var em0 := em.(memory := em.memory + t + [jump] + [0]);
    AfterVals(em, t + [jump, target]);
    AfterFirst(em, Vals(t + [jump, target]), cells, tag);
    SetInFront(em0, addr, target, cells, tag);
    assert em.memory + (t + [jump, target]) == em0.memory[addr := target];
  }

  lemma EmitsIf(em: Emission, s: Stmt)
    requires Ready(em) && s.If? && s.no.None?
    ensures
      var t := CodeE(s.cond, |em.memory|);
      var open := Emits(em.(memory := em.memory + t + [IC_BE0] + [0]), s.yes);
      var addr := |em.memory| + |t| + 1;
      Emits(em, s) == open.(memory := open.memory[addr := |open.memory|])
  {
    hide Tidy, After, CodeS, FirstLabel;
    ShapeIf(s, |em.memory|);
    var at := |em.memory|;
    var t := CodeE(s.cond, at);
    var thenAt := at + |t| + 2;
    TidyCode(s.yes, thenAt);
    var then_, la := CodeS(s.yes, thenAt), FirstLabel(s.yes, thenAt);
    Guarded(em, t, IC_BE0, then_, la, thenAt + |then_|);
    assert |em.memory + t + [IC_BE0] + [0]| == thenAt;
  }

  /** The cells of a conditional with two branches, emitted in the encoder's order. */
  lemma IfElseEmitted(em: Emission, t: seq<int>, a: seq<Cell>, la: Option<nat>, b: seq<Cell>, lb: Option<nat>)
    requires Ready(em) && Tidy(a, la) && Tidy(b, lb)
    ensures
      var at := |em.memory|;
      var open := After(em.(memory := em.memory + t + [IC_BE0] + [0]), a, la);
      var mid := open.(memory := open.memory[at + |t| + 1 := |open.memory| + 2] + [IC_B] + [0]);
      var last := After(mid, b, lb);
      After(em, IfElseCells(t, a, b, lb, at), Either(la, lb))
      == last.(memory := last.memory[|open.memory| + 1 := |last.memory|])
  {
    hide Tidy, After;
    var at := |em.memory|;
    var elseAt := at + |t| + |a| + 4;
    var end := elseAt + |b|;
    var head, tail := Vals(t + [IC_BE0, elseAt]) + a, Vals([IC_B, end]);
    Guarded(em, t, IC_BE0, a, la, elseAt);
    var first := After(em, head, la);
    Guarded(first, [], IC_B, b, lb, end);
    assert [] + [IC_B, end] == [IC_B, end];
    assert first.memory + [] == first.memory;
    AfterFirst(first, tail, b, lb);
    AfterThen(em, head, la, tail);
    AfterJoin(em, head + tail, la, b, lb);
  }

  lemma EmitsIfElse(em: Emission, s: Stmt)
    requires Ready(em) && s.If? && s.no.Some?
    ensures
      var t := CodeE(s.cond, |em.memory|);
      var open := Emits(em.(memory := em.memory + t + [IC_BE0] + [0]), s.yes);
      var mid := open.(memory := open.memory[|em.memory| + |t| + 1 := |open.memory| + 2] + [IC_B] + [0]);
      var last := Emits(mid, s.no.value);
      Emits(em, s) == last.(memory := last.memory[|open.memory| + 1 := |last.memory|])
  {
    hide Tidy, After, CodeS, FirstLabel, IfElseCells;
    var at := |em.memory|;
    var t := CodeE(s.cond, at);
    var thenAt := at + |t| + 2;
    var elseAt := thenAt + |CodeS(s.yes, thenAt)| + 2;
    var then_, la := CodeS(s.yes, thenAt), FirstLabel(s.yes, thenAt);
    var else_, lb := CodeS(s.no.value, elseAt), FirstLabel(s.no.value, elseAt);
    TidyCode(s.yes, thenAt);
    TidyCode(s.no.value, elseAt);
    IfElseEmitted(em, t, then_, la, else_, lb);
    assert |em.memory + t + [IC_BE0] + [0]| == thenAt;
    ShapeIfElse(s, at);
  }

  lemma WhileEmitted(em: Emission, c: Expr, body: seq<Cell>, lb: Option<nat>)
    requires Ready(em) && Tidy(body, lb)
    ensures
      var at := |em.memory|;
      var t := CodeE(c, at);
      var open := After(Emission(em.memory + t + [IC_BE0, 0], at + |t| + 1, at, em.pending), body, lb);
      && Chain(open.memory, open.conts, at)
      && var mid := Repoint(open.memory, open.conts, at, at) + [IC_B, at];
      && Chain(mid, open.breaks, 0)
      && After(em, WhileCells(CodeTest(Some(c), at), body, at), lb)
         == Emission(Repoint(mid, open.breaks, 0, |mid|), em.breaks, em.conts, open.pending)
  {
    hide Tidy, After;
    var at := |em.memory|;
    var em1 := em.(breaks := 0, conts := at);
    var t := CodeTest(Some(c), at);
    AfterTest(em1, c);
    AfterFirst(em1, t, body, lb);
    assert t[0] == (t + body)[0] != ContinueHole;
    LoopClosed(em1, t + body, lb, at, [IC_B, at], at + |t| + |body| + 2);
    LoopSealed(em1, t + body, at, [IC_B, at], at + |t| + |body| + 2, lb, em.breaks, em.conts);
  }

  lemma EmitsWhile(em: Emission, s: Stmt)
    requires Ready(em) && s.While?
    ensures
      var at := |em.memory|;
      var t := CodeE(s.cond, at);
      var open := Emits(Emission(em.memory + t + [IC_BE0, 0], at + |t| + 1, at, em.pending), s.loop);
      && Chain(open.memory, open.conts, at)
      && var mid := Repoint(open.memory, open.conts, at, at) + [IC_B, at];
      && Chain(mid, open.breaks, 0)
      && Emits(em, s) == Emission(Repoint(mid, open.breaks, 0, |mid|), em.breaks, em.conts, open.pending)
  {
    hide Tidy, After, WhileCells, CodeS, FirstLabel;
    ShapeWhile(s, |em.memory|);
    var at := |em.memory|;
    var bodyAt := at + |CodeE(s.cond, at)| + 2;
    TidyCode(s.loop, bodyAt);
    WhileEmitted(em, s.cond, CodeS(s.loop, bodyAt), FirstLabel(s.loop, bodyAt));
  }

  lemma EmitsDo(em: Emission, s: Stmt)
    requires Ready(em) && s.Do?
    ensures
      var at := |em.memory|;
      var open := Emits(em.(breaks := 0, conts := 0), s.loop);
      var k := |open.memory|;
      && Chain(open.memory, open.conts, 0)
      && var mid := Repoint(open.memory, open.conts, 0, k) + (CodeE(s.cond, k) + [IC_BNE0, at]);
      && Chain(mid, open.breaks, 0)
      && Emits(em, s) == Emission(Repoint(mid, open.breaks, 0, |mid|), em.breaks, em.conts, open.pending)
  {
    hide Tidy, After, CodeS, FirstLabel;
    var at := |em.memory|;
    var em1 := em.(breaks := 0, conts := 0);
    var body, lb := CodeS(s.loop, at), FirstLabel(s.loop, at);
    var tail := CodeE(s.cond, at + |body|) + [IC_BNE0, at];
    TidyCode(s.loop, at);
    ShapeDo(s, at);
    LoopClosed(em1, body, lb, at + |body|, tail, at + |body| + |tail|);
    LoopSealed(em1, body, at + |body|, tail, at + |body| + |tail|, lb, em.breaks, em.conts);
  }

  /** The state in which the body of a for loop is emitted. */
  function AtBody(em: Emission, test: Option<Expr>): (r: Emission)
    requires Ready(em)
    ensures Ready(r)
  {
    var at := |em.memory|;
    if test.None? then em.(breaks := 0, conts := 0)
    else
      var t := CodeE(test.value, at);
      Emission(em.memory + t + [IC_BE0, 0], at + |t| + 1, 0, em.pending)
  }

  lemma ForOpened(em: Emission, test: Option<Expr>, b: Stmt)
    requires Ready(em)
    ensures
      var top := |em.memory|;
      var t := CodeTest(test, top);
      var body, lb := CodeS(b, top + |t|), FirstLabel(b, top + |t|);
      && Tidy(t + body, lb)
      && Emits(AtBody(em, test), b) == After(em.(breaks := 0, conts := 0), t + body, lb)
  {
    hide Tidy, After, CodeS, FirstLabel;
    var top := |em.memory|;
    var em1 := em.(breaks := 0, conts := 0);
    var t := CodeTest(test, top);
    var body, lb := CodeS(b, top + |t|), FirstLabel(b, top + |t|);
    TidyCode(b, top + |t|);
    if test.Some? {
      AfterTest(em1, test.value);
      AfterFirst(em1, t, body, lb);
    } else {
      assert t + body == body;
    }
  }

  lemma LoopPartEmitted(em: Emission, s: Stmt)
    requires Ready(em) && s.For?
    ensures
      var top := |em.memory|;
      var open := Emits(AtBody(em, s.test), s.loop);
      var k := |open.memory|;
      && Tidy(LoopPart(s, top), LoopLabel(s, top))
      && Chain(open.memory, open.conts, 0)
      && var mid := Repoint(open.memory, open.conts, 0, k) + (CodeNext(s.next, k) + [IC_B, top]);
      && Chain(mid, open.breaks, 0)
      && After(em, LoopPart(s, top), LoopLabel(s, top))
         == Emission(Repoint(mid, open.breaks, 0, |mid|), em.breaks, em.conts, open.pending)
  {
    hide Tidy, After, CodeS, FirstLabel;
    var top := |em.memory|;
    var em1 := em.(breaks := 0, conts := 0);
    var t := CodeTest(s.test, top);
    var body, lb := CodeS(s.loop, top + |t|), FirstLabel(s.loop, top + |t|);
    ForOpened(em, s.test, s.loop);
    var next := top + |t| + |body|;
    var tail := CodeNext(s.next, next) + [IC_B, top];
    LoopClosed(em1, t + body, lb, next, tail, next + |tail|);
    LoopSealed(em1, t + body, next, tail, next + |tail|, lb, em.breaks, em.conts);
    TidyLoop(t + body, lb, next, tail, next + |tail|);
  }

  lemma EmitsFor(em: Emission, s: Stmt)
    requires Ready(em) && s.For?
    ensures
      var em0 := EmitsO(em, s.start);
      var open := Emits(AtBody(em0, s.test), s.loop);
      var k := |open.memory|;
      && Chain(open.memory, open.conts, 0)
      && var mid := Repoint(open.memory, open.conts, 0, k) + (CodeNext(s.next, k) + [IC_B, |em0.memory|]);
      && Chain(mid, open.breaks, 0)
      && Emits(em, s) == Emission(Repoint(mid, open.breaks, 0, |mid|), em0.breaks, em0.conts, open.pending)
  {
    hide Tidy, After, AtBody, CodeS, CodeO, FirstLabel, FirstLabelO, LoopPart, LoopLabel;
    hide CodeNext;
    var at := |em.memory|;
    var init, la := CodeO(s.start, at), FirstLabelO(s.start, at);
    var em0 := EmitsO(em, s.start);
    EmitsOption(em, s.start);
    var top := at + |init|;
    LoopPartEmitted(em0, s);
    TidyO(s.start, at);
    AfterJoin(em, init, la, LoopPart(s, top), LoopLabel(s, top));
    ShapeFor(s, at);
  }

  lemma EmitsSwitch(em: Emission, s: Stmt)
    requires Ready(em) && s.Switch?
    ensures
      var t := CodeE(s.cond, |em.memory|);
      var open := Emits(Emission(em.memory + t, 0, em.conts, 0), s.cases);
      var mid := if open.pending > 0 then open.memory[open.pending := |open.memory|] else open.memory;
      && Chain(mid, open.breaks, 0)
      && Emits(em, s) == Emission(Repoint(mid, open.breaks, 0, |mid|), em.breaks, open.conts, em.pending)
  {
    hide Tidy, After, CodeS, FirstLabel;
    ShapeSwitch(s, |em.memory|);
    var at := |em.memory|;
    var t := CodeE(s.cond, at);
    var em1 := em.(breaks := 0, pending := 0);
    var body, lb := CodeS(s.cases, at + |t|), FirstLabel(s.cases, at + |t|);
    TidyCode(s.cases, at + |t|);
    AfterVals(em1, t);
    AfterFirst(em1, Vals(t), body, lb);
    SwitchClosed(em1, Vals(t) + body, lb, at + |t| + |body|, em.breaks, em.pending);
  }

  lemma EmitsCase(em: Emission, s: Stmt)
    requires Ready(em) && s.Case?
    ensures
      var at := |em.memory|;
      var code := [IC_DUPLICATE] + CodeE(s.tag, at + 1) + [IC_EQ, IC_BE0];
      var mid := em.(memory := Patched(em.memory, em.pending, Some(at)) + (code + [0]), pending := at + |code|);
      Emits(em, s) == Emits(mid, s.labelled)
  {
    hide Tidy, After, CodeS, FirstLabel;
    ShapeCase(s, |em.memory|);
    var at := |em.memory|;
    var test := CodeCase(s.tag, at);
    AfterCase(em, s.tag);
    TidyCode(s.labelled, at + |test|);
    AfterJoin(em, test, Some(at), CodeS(s.labelled, at + |test|), FirstLabel(s.labelled, at + |test|));
  }

  lemma EmitsDefault(em: Emission, s: Stmt)
    requires Ready(em) && s.Default?
    ensures
      var at := |em.memory|;
      Emits(em, s) == Emits(em.(memory := Patched(em.memory, em.pending, Some(at)), pending := 0), s.labelled)
  {
    var at := |em.memory|;
    var body, lb := CodeS(s.labelled, at), FirstLabel(s.labelled, at);
    TidyCode(s.labelled, at);
    if lb.None? {
      LastAbsent(body, CaseHole, at, 0);
    }
  }
}

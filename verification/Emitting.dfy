/**
  * How each kind of statement builds its finished part out of the parts it emits,
  * as equations on the emission state.
  */
module Emitting {
  import opened Common
  import opened Ast
  import opened Instructions
  import opened Codegen
  import opened Threading
  import opened Patching

  /** States in which the encoder may emit: cell 0 is never part of code. */
  predicate Ready(em: Emission) {
    em.memory != [] && Started(em)
  }

  lemma AfterVals(em: Emission, c: seq<int>)
    requires Ready(em)
    ensures After(em, Vals(c), None) == em.(memory := em.memory + c)
  {
    LastAbsent(Vals(c), BreakHole, |em.memory|, em.breaks);
    LastAbsent(Vals(c), ContinueHole, |em.memory|, em.conts);
    assert Thread(Vals(c), |em.memory|, em.breaks, em.conts) == c;
  }

  lemma AfterHole(em: Emission, hole: Cell)
    requires Ready(em) && !hole.Val?
    ensures
      var at := |em.memory|;
      After(em, [hole], if hole == CaseHole then Some(at) else None)
      == match hole
         case BreakHole => em.(memory := em.memory + [em.breaks as int], breaks := at)
         case ContinueHole => em.(memory := em.memory + [em.conts as int], conts := at)
         case CaseHole => em.(memory := Patched(em.memory, em.pending, Some(at)) + [0], pending := at)
  {
    var c := [hole];
    assert c[..0] == [];
    var t := Thread(c, |em.memory|, em.breaks, em.conts);
    assert t == [t[0]];
  }

  /** Cells without a case test are not changed by a label. */
  lemma FillNothing(cells: seq<Cell>, tag: Option<nat>)
    requires CaseHole !in cells
    ensures Fill(cells, tag) == cells
  {
    if tag.Some? {
      assert forall i :: 0 <= i < |cells| ==> cells[i] in cells;
    }
  }

  /** Emits code that ends without a label after code that may have one. */
  lemma AfterThen(em: Emission, a: seq<Cell>, la: Option<nat>, b: seq<Cell>)
    requires Ready(em) && Tidy(a, la) && CaseHole !in b
    ensures After(After(em, a, la), b, None) == After(em, a + b, la)
    ensures Tidy(a + b, la)
  {
    TidyAlone(b);
    AfterJoin(em, a, la, b, None);
    TidyJoin(a, la, b, None);
  }

  /** Emits code that may have a label after code without one. */
  lemma AfterFirst(em: Emission, a: seq<Cell>, b: seq<Cell>, lb: Option<nat>)
    requires Ready(em) && Tidy(b, lb) && CaseHole !in a
    ensures After(After(em, a, None), b, lb) == After(em, a + b, lb)
    ensures Tidy(a + b, lb)
  {
    TidyAlone(a);
    AfterJoin(em, a, None, b, lb);
    TidyJoin(a, None, b, lb);
    FillNothing(a, lb);
  }

  lemma TidyAlone(a: seq<Cell>)
    requires CaseHole !in a
    ensures Tidy(a, None)
  {
    assert forall i :: 0 <= i < |a| ==> a[i] in a;
  }

  lemma TidyLabelled(a: seq<Cell>, tag: Option<nat>, at: nat)
    requires Tidy(a, tag)
    ensures Tidy(a, Some(at))
  {
  }

  lemma TidyClose(a: seq<Cell>, tag: Option<nat>, hole: Cell, target: int)
    requires Tidy(a, tag) && hole != CaseHole
    ensures Tidy(Close(a, hole, target), tag)
  {
    if tag.None? {
      assert forall i :: 0 <= i < |a| ==> a[i] in a;
    }
  }

  lemma TidyTail(a: seq<Cell>, tag: Option<nat>, c: seq<int>)
    requires Tidy(a, tag)
    ensures Tidy(a + Vals(c), tag)
  {
    TidyJoin(a, tag, Vals(c), None);
  }

  lemma TidyHead(a: seq<Cell>, b: seq<Cell>, tag: Option<nat>)
    requires Tidy(b, tag) && CaseHole !in a
    ensures Tidy(a + b, tag)
  {
    TidyAlone(a);
    TidyJoin(a, None, b, tag);
    FillNothing(a, tag);
  }

  /** The part of a loop inside its jumps, and the jump back. */
  lemma TidyLoop(a: seq<Cell>, tag: Option<nat>, cont: int, tail: seq<int>, end: int)
    requires Tidy(a, tag)
    ensures Tidy(Close(Close(a, ContinueHole, cont) + Vals(tail), BreakHole, end), tag)
  {
    TidyClose(a, tag, ContinueHole, cont);
    TidyTail(Close(a, ContinueHole, cont), tag, tail);
    TidyClose(Close(a, ContinueHole, cont) + Vals(tail), tag, BreakHole, end);
  }

  lemma TidyIfElse(t: seq<int>, a: seq<Cell>, la: Option<nat>, b: seq<Cell>, lb: Option<nat>, at: nat)
    requires Tidy(a, la) && Tidy(b, lb)
    ensures Tidy(IfElseCells(t, a, b, lb, at), Either(la, lb))
  {
    var elseAt := at + |t| + |a| + 4;
    var head, tail := t + [IC_BE0, elseAt], [IC_B, elseAt + |b|];
    TidyHead(Vals(head), a, la);
    TidyTail(Vals(head) + a, la, tail);
    TidyJoin(Vals(head) + a + Vals(tail), la, b, lb);
  }

  lemma TidyIf(t: seq<int>, a: seq<Cell>, la: Option<nat>, at: nat)
    requires Tidy(a, la)
    ensures Tidy(IfCells(t, a, at), la)
  {
    TidyHead(Vals(t + [IC_BE0, at + |t| + |a| + 2]), a, la);
  }

  lemma TidyWhile(t: seq<Cell>, body: seq<Cell>, lb: Option<nat>, at: nat)
    requires CaseHole !in t && Tidy(body, lb)
    ensures Tidy(WhileCells(t, body, at), lb)
  {
    TidyHead(t, body, lb);
    TidyLoop(t + body, lb, at, [IC_B, at], at + |t| + |body| + 2);
  }

  lemma TidyDo(body: seq<Cell>, lb: Option<nat>, t: seq<int>, at: nat)
    requires Tidy(body, lb)
    ensures Tidy(DoCells(body, t, at), lb)
  {
    TidyLoop(body, lb, at + |body|, t + [IC_BNE0, at], at + |body| + |t| + 2);
  }

  lemma TidyFor(t: seq<Cell>, body: seq<Cell>, lb: Option<nat>, step: seq<int>, top: nat)
    requires CaseHole !in t && Tidy(body, lb)
    ensures Tidy(ForCells(t, body, step, top), lb)
  {
    TidyHead(t, body, lb);
    var next := top + |t| + |body|;
    TidyLoop(t + body, lb, next, step + [IC_B, top], next + |step| + 2);
  }

  /** At most one case test is pending in the code of any statement, and none without a label. */
  lemma {:induction false} TidyCode(s: Stmt, at: nat)
    ensures Tidy(CodeS(s, at), FirstLabel(s, at))
    decreases s, 3
  {
    hide Tidy;
    match s
    case Null => TidyAlone(CodeS(s, at));
    case Effect(e) => TidyAlone(CodeS(s, at));
    case Declare(ds) => TidyAlone(CodeS(s, at));
    case Block(ss) => TidyList(ss, at);
    case If(c, y, n) => TidyIfCode(s, at);
    case While(c, b) =>
      var t := CodeTest(Some(c), at);
      TidyCode(b, at + |t|);
      TidyWhile(t, CodeS(b, at + |t|), FirstLabel(b, at + |t|), at);
    case Do(b, c) =>
      TidyCode(b, at);
      TidyDo(CodeS(b, at), FirstLabel(b, at), CodeE(c, at + |CodeS(b, at)|), at);
    case For(start, test, next, b) => TidyForCode(s, at);
    case Switch(c, b) => TidyAlone(CodeS(s, at));
    case Case(e, b) => TidyCaseCode(s, at);
    case Default(b) =>
      TidyCode(b, at);
      TidyLabelled(CodeS(b, at), FirstLabel(b, at), at);
    case Break => TidyAlone(CodeS(s, at));
    case Continue => TidyAlone(CodeS(s, at));
    case Return(e) => TidyAlone(CodeS(s, at));
  }

  lemma {:induction false} TidyIfCode(s: Stmt, at: nat)
    requires s.If?
    ensures Tidy(CodeS(s, at), FirstLabel(s, at))
    decreases s, 2
  {
    hide Tidy;
    var t := CodeE(s.cond, at);
    var thenAt := at + |t| + 2;
    var then_ := CodeS(s.yes, thenAt);
    TidyCode(s.yes, thenAt);
    if s.no.None? {
      TidyIf(t, then_, FirstLabel(s.yes, thenAt), at);
    } else {
      var elseAt := thenAt + |then_| + 2;
      TidyCode(s.no.value, elseAt);
      TidyIfElse(t, then_, FirstLabel(s.yes, thenAt), CodeS(s.no.value, elseAt), FirstLabel(s.no.value, elseAt), at);
    }
  }

  lemma TestHasNoCase(test: Option<Expr>, at: nat)
    ensures CaseHole !in CodeTest(test, at)
  {
    hide CodeE;
  }

  lemma {:induction false} TidyForCode(s: Stmt, at: nat)
    requires s.For?
    ensures Tidy(CodeS(s, at), FirstLabel(s, at))
    decreases s, 2
  {
    hide Tidy, CodeS, CodeO, CodeTest, CodeNext, ForCells, FirstLabel, FirstLabelO, Fill, Either;
    ShapeFor(s, at);
    var top := at + |CodeO(s.start, at)|;
    var t := CodeTest(s.test, top);
    var body, lb := CodeS(s.loop, top + |t|), FirstLabel(s.loop, top + |t|);
    var step := CodeNext(s.next, top + |t| + |body|);
    TidyCode(s.loop, top + |t|);
    TestHasNoCase(s.test, top);
    TidyFor(t, body, lb, step, top);
    TidyO(s.start, at);
    TidyJoin(CodeO(s.start, at), FirstLabelO(s.start, at), ForCells(t, body, step, top), lb);
  }

  lemma {:induction false} TidyCaseCode(s: Stmt, at: nat)
    requires s.Case?
    ensures Tidy(CodeS(s, at), FirstLabel(s, at))
    decreases s, 2
  {
    hide Tidy;
    var test := CodeCase(s.tag, at);
    TidyCode(s.labelled, at + |test|);
    TidyJoin(test, Some(at), CodeS(s.labelled, at + |test|), FirstLabel(s.labelled, at + |test|));
  }

  lemma {:induction false} TidyO(s: Option<Stmt>, at: nat)
    ensures Tidy(CodeO(s, at), FirstLabelO(s, at))
    decreases s, 4
  {
    if s.Some? {
      TidyCode(s.value, at);
    }
  }

  lemma {:induction false} TidyList(ss: seq<Stmt>, at: nat)
    ensures Tidy(CodeList(ss, at), FirstLabelList(ss, at))
    decreases ss, 0
  {
    hide Tidy, CodeS, FirstLabel;
    if ss == [] {
      TidyAlone([]);
    } else {
      var before, last := ss[..|ss| - 1], ss[|ss| - 1];
      var at' := at + |CodeList(before, at)|;
      TidyList(before, at);
      TidyCode(last, at');
      TidyJoin(CodeList(before, at), FirstLabelList(before, at), CodeS(last, at'), FirstLabel(last, at'));
    }
  }

  // ---------------------------------------------------------------- equations of the emission state

  /** The test of a loop: the exit jump starts or extends the list of breaks. */
  lemma AfterTest(em: Emission, c: Expr)
    requires Ready(em)
    ensures
      var at := |em.memory|;
      var code := CodeE(c, at);
      && CaseHole !in CodeTest(Some(c), at)
      && After(em, CodeTest(Some(c), at), None)
         == em.(memory := em.memory + code + [IC_BE0, em.breaks], breaks := at + |code| + 1)
  {
    var at := |em.memory|;
    var code := CodeE(c, at) + [IC_BE0];
    AfterVals(em, code);
    AfterHole(em.(memory := em.memory + code), BreakHole);
    AfterThen(em, Vals(code), None, [BreakHole]);
    assert Vals(code) + [BreakHole] == CodeTest(Some(c), at);
    assert em.memory + code + [em.breaks as int] == em.memory + CodeE(c, at) + [IC_BE0, em.breaks];
  }

  lemma AfterJump(em: Emission, hole: Cell)
    requires Ready(em) && (hole == BreakHole || hole == ContinueHole)
    ensures
      var at := |em.memory|;
      After(em, [Val(IC_B), hole], None)
      == if hole == BreakHole then em.(memory := em.memory + [IC_B, em.breaks], breaks := at + 1)
         else em.(memory := em.memory + [IC_B, em.conts], conts := at + 1)
  {
    AfterVals(em, [IC_B]);
    AfterHole(em.(memory := em.memory + [IC_B]), hole);
    AfterThen(em, Vals([IC_B]), None, [hole]);
    assert Vals([IC_B]) + [hole] == [Val(IC_B), hole];
    assert em.memory + [IC_B] + [em.breaks as int] == em.memory + [IC_B, em.breaks];
    assert em.memory + [IC_B] + [em.conts as int] == em.memory + [IC_B, em.conts];
  }

  lemma AfterLabelled(em: Emission, code: seq<int>)
    requires Ready(em)
    ensures
      var at, cells := |em.memory|, Vals(code) + [CaseHole];
      && Tidy(cells, Some(at))
      && After(em, cells, Some(at))
         == em.(memory := Patched(em.memory, em.pending, Some(at)) + (code + [0]), pending := at + |code|)
  {
    var at, cells := |em.memory|, Vals(code) + [CaseHole];
    LastAbsent(cells, BreakHole, at, em.breaks);
    LastAbsent(cells, ContinueHole, at, em.conts);
    assert Thread(cells, at, em.breaks, em.conts) == code + [0];
  }

  /** A case label ends the pending test before it and starts its own. */
  lemma AfterCase(em: Emission, e: Expr)
    requires Ready(em)
    ensures
      var at := |em.memory|;
      var code := [IC_DUPLICATE] + CodeE(e, at + 1) + [IC_EQ, IC_BE0];
      && Tidy(CodeCase(e, at), Some(at))
      && After(em, CodeCase(e, at), Some(at))
         == em.(memory := Patched(em.memory, em.pending, Some(at)) + (code + [0]), pending := at + |code|)
  {
    AfterLabelled(em, [IC_DUPLICATE] + CodeE(e, |em.memory| + 1) + [IC_EQ, IC_BE0]);
  }

  /**
    * Closing a loop: patch the continues, add the jump back, patch the breaks.
    * Both patched lists are well-formed lists that end where the loop started them.
    */
  lemma LoopClosed(em: Emission, inner: seq<Cell>, tag: Option<nat>, cont: int, tail: seq<int>, end: int)
    requires Ready(em) && Tidy(inner, tag)
    requires em.breaks == 0 && Bounded(inner, ContinueHole, |em.memory|, em.conts)
    ensures
      var open := After(em, inner, tag);
      && Chain(open.memory, open.conts, em.conts)
      && var mid := Repoint(open.memory, open.conts, em.conts, cont) + tail;
      && Chain(mid, open.breaks, 0)
      && After(em, Close(Close(inner, ContinueHole, cont) + Vals(tail), BreakHole, end), tag)
         == Emission(Repoint(mid, open.breaks, 0, end), 0, em.conts, open.pending)
  {
    var open := After(em, inner, tag);
    var closed := Close(inner, ContinueHole, cont);
    PatchAfter(em, inner, tag, ContinueHole, cont);
    TidyClose(inner, tag, ContinueHole, cont);
    AfterVals(After(em, closed, tag), tail);
    AfterThen(em, closed, tag, Vals(tail));
    PatchAfter(em, closed + Vals(tail), tag, BreakHole, end);
    LastAbsent(Close(closed + Vals(tail), BreakHole, end), BreakHole, |em.memory|, 0);
  }

  /** Finished loop code does not depend on the lists of the loops around it. */
  lemma LoopSealed(em: Emission, a: seq<Cell>, cont: int, tail: seq<int>, end: int, tag: Option<nat>, breaks: nat, conts: nat)
    requires Started(em)
    ensures
      var cells := Close(Close(a, ContinueHole, cont) + Vals(tail), BreakHole, end);
      After(em.(breaks := breaks, conts := conts), cells, tag)
      == After(em, cells, tag).(breaks := breaks, conts := conts)
  {
    var cells := Close(Close(a, ContinueHole, cont) + Vals(tail), BreakHole, end);
    var at := |em.memory|;
    assert forall i :: 0 <= i < |cells| ==> cells[i] != BreakHole && cells[i] != ContinueHole;
    LastAbsent(cells, BreakHole, at, em.breaks);
    LastAbsent(cells, BreakHole, at, breaks);
    LastAbsent(cells, ContinueHole, at, em.conts);
    LastAbsent(cells, ContinueHole, at, conts);
    assert Thread(cells, at, breaks, conts) == Thread(cells, at, em.breaks, em.conts);
  }

  /** Closing a switch: finish the pending test, patch the breaks, forget both. */
  lemma SwitchClosed(em: Emission, inner: seq<Cell>, tag: Option<nat>, end: nat, breaks: nat, pending: nat)
    requires Ready(em) && Tidy(inner, tag)
    requires em.breaks == 0 && em.pending == 0 && pending < |em.memory|
    ensures
      var open := After(em, inner, tag);
      var mid := Patched(open.memory, open.pending, Some(end));
      && Chain(mid, open.breaks, 0)
      && After(em.(breaks := breaks, pending := pending), Close(Close(inner, CaseHole, end), BreakHole, end), None)
         == Emission(Repoint(mid, open.breaks, 0, end), breaks, open.conts, pending)
  {
    var at := |em.memory|;
    var open := After(em, inner, tag);
    var filled := Close(inner, CaseHole, end);
    var closed := Close(filled, BreakHole, end);
    PatchJoin(em, inner, tag, end);
    assert Patched(open.memory, open.pending, Some(end)) == em.memory + Thread(filled, at, 0, em.conts);
    LastClosed(inner, CaseHole, end, BreakHole, at, 0);
    LastClosed(inner, CaseHole, end, ContinueHole, at, em.conts);
    PatchAfter(em, filled, None, BreakHole, end);
    LastAbsent(closed, BreakHole, at, breaks);
    assert Thread(closed, at, breaks, em.conts) == Thread(closed, at, 0, em.conts);
  }
}

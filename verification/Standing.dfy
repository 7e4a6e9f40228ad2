/**
  * Finished statement code in a memory: every hole holds the target it waits for.
  */
module Standing {
  import opened Common
  import opened Ast
  import opened Codegen
  import opened Instructions
  import opened ExprCorrect

  /** Targets outside a piece of code. */
  datatype Targets = Targets(breaks: nat, conts: nat, next: nat)

  function ValueOf(c: Cell, t: Targets): int {
    match c
    case Val(v) => v
    case BreakHole => t.breaks
    case ContinueHole => t.conts
    case CaseHole => t.next
  }

  predicate Stands(memory: seq<int>, at: nat, cells: seq<Cell>, t: Targets) {
    && at + |cells| <= |memory|
    && forall i :: 0 <= i < |cells| ==> memory[at + i] == ValueOf(cells[i], t)
  }

  lemma StandsJoin(memory: seq<int>, at: nat, a: seq<Cell>, b: seq<Cell>, t: Targets)
    ensures Stands(memory, at, a + b, t) <==> Stands(memory, at, a, t) && Stands(memory, at + |a|, b, t)
  {
    var c := a + b;
    if Stands(memory, at, c, t) {
      forall i | 0 <= i < |a| ensures memory[at + i] == ValueOf(a[i], t) {
        assert c[i] == a[i];
      }
      forall i | 0 <= i < |b| ensures memory[at + |a| + i] == ValueOf(b[i], t) {
        assert c[|a| + i] == b[i];
      }
    }
    if Stands(memory, at, a, t) && Stands(memory, at + |a|, b, t) {
      forall i | 0 <= i < |c| ensures memory[at + i] == ValueOf(c[i], t) {
        if i >= |a| {
          assert memory[at + |a| + (i - |a|)] == ValueOf(b[i - |a|], t);
        }
      }
    }
  }

  lemma StandsVals(memory: seq<int>, at: nat, c: seq<int>, t: Targets)
    ensures Stands(memory, at, Vals(c), t) <==> Has(memory, at, c)
  {
    if Stands(memory, at, Vals(c), t) {
      var part := memory[at..at + |c|];
      forall i | 0 <= i < |c| ensures part[i] == c[i] {
        assert memory[at + i] == ValueOf(Vals(c)[i], t);
      }
      assert part == c;
    }
    if Has(memory, at, c) {
      HasCells(memory, at, c);
    }
  }

  /** Closing holes of one kind is choosing the target of that kind. */
  lemma StandsClose(memory: seq<int>, at: nat, cells: seq<Cell>, hole: Cell, target: nat, t: Targets)
    requires !hole.Val?
    ensures
      var t' := if hole == BreakHole then t.(breaks := target)
                else if hole == ContinueHole then t.(conts := target)
                else t.(next := target);
      Stands(memory, at, Close(cells, hole, target), t) <==> Stands(memory, at, cells, t')
  {
    var t' := if hole == BreakHole then t.(breaks := target)
              else if hole == ContinueHole then t.(conts := target)
              else t.(next := target);
    var closed := Close(cells, hole, target);
    assert forall i :: 0 <= i < |cells| ==> ValueOf(closed[i], t) == ValueOf(cells[i], t');
  }

  /** The target of the pending case test, given the labels that follow. */
  function WithLabel(t: Targets, tag: Option<nat>): Targets {
    if tag.Some? then t.(next := tag.value) else t
  }

  lemma StandsFill(memory: seq<int>, at: nat, cells: seq<Cell>, tag: Option<nat>, t: Targets)
    ensures Stands(memory, at, Fill(cells, tag), t) <==> Stands(memory, at, cells, WithLabel(t, tag))
  {
    if tag.Some? {
      StandsClose(memory, at, cells, CaseHole, tag.value, t);
    }
  }

  /** A test whose exit is a break. */
  lemma StandsTest(memory: seq<int>, at: nat, c: Expr, t: Targets)
    ensures Stands(memory, at, CodeTest(Some(c), at), t)
      <==> Has(memory, at, CodeE(c, at) + [IC_BE0, t.breaks])
  {
    var code := CodeE(c, at) + [IC_BE0];
    StandsVals(memory, at, code + [t.breaks], t);
    var a, b := CodeTest(Some(c), at), Vals(code + [t.breaks]);
    assert |a| == |b| && forall i :: 0 <= i < |a| ==> ValueOf(a[i], t) == ValueOf(b[i], t);
    assert code + [t.breaks] == CodeE(c, at) + [IC_BE0, t.breaks];
  }

  // ---------------------------------------------------------------- parts of compound statements

  lemma StandsIf(memory: seq<int>, at: nat, t: seq<int>, a: seq<Cell>, g: Targets)
    requires Stands(memory, at, IfCells(t, a, at), g)
    ensures
      var end := at + |t| + |a| + 2;
      Has(memory, at, t) && Has(memory, at + |t|, [IC_BE0, end]) && Stands(memory, at + |t| + 2, a, g)
  {
    var head := t + [IC_BE0, at + |t| + |a| + 2];
    StandsJoin(memory, at, Vals(head), a, g);
    StandsVals(memory, at, head, g);
    HasJoin(memory, at, t, [IC_BE0, at + |t| + |a| + 2]);
  }

  /** The parts of a conditional with two branches; tests before a label of the second wait for it. */
  lemma StandsIfElse(memory: seq<int>, at: nat, t: seq<int>, a: seq<Cell>, b: seq<Cell>, tag: Option<nat>, g: Targets)
    requires Stands(memory, at, IfElseCells(t, a, b, tag, at), g)
    ensures
      var elseAt := at + |t| + |a| + 4;
      && Has(memory, at, t) && Has(memory, at + |t|, [IC_BE0, elseAt])
      && Stands(memory, at + |t| + 2, a, WithLabel(g, tag)) && Has(memory, elseAt - 2, [IC_B, elseAt + |b|])
      && Stands(memory, elseAt, b, g)
  {
    hide Stands, Has, Vals;
    var elseAt := at + |t| + |a| + 4;
    var head, tail := t + [IC_BE0, elseAt], [IC_B, elseAt + |b|];
    var front := Vals(head) + a + Vals(tail);
    StandsJoin(memory, at, Fill(front, tag), b, g);
    StandsFill(memory, at, front, tag, g);
    var g' := WithLabel(g, tag);
    StandsJoin(memory, at, Vals(head) + a, Vals(tail), g');
    StandsJoin(memory, at, Vals(head), a, g');
    StandsVals(memory, at, head, g');
    StandsVals(memory, elseAt - 2, tail, g');
    HasJoin(memory, at, t, [IC_BE0, elseAt]);
  }

  /** The body of a loop and the code after it, with the loop's own targets. */
  lemma StandsLoop(memory: seq<int>, at: nat, inner: seq<Cell>, cont: nat, tail: seq<int>, end: nat, g: Targets)
    requires Stands(memory, at, Close(Close(inner, ContinueHole, cont) + Vals(tail), BreakHole, end), g)
    ensures Stands(memory, at, inner, g.(breaks := end, conts := cont))
    ensures Has(memory, at + |inner|, tail)
  {
    var closed := Close(inner, ContinueHole, cont);
    StandsClose(memory, at, closed + Vals(tail), BreakHole, end, g);
    StandsJoin(memory, at, closed, Vals(tail), g.(breaks := end));
    StandsClose(memory, at, inner, ContinueHole, cont, g.(breaks := end));
    StandsVals(memory, at + |inner|, tail, g.(breaks := end));
  }

  lemma StandsSwitch(memory: seq<int>, at: nat, t: seq<int>, body: seq<Cell>, g: Targets)
    requires Stands(memory, at, SwitchCells(t, body, at), g)
    ensures
      var end := at + |t| + |body|;
      Has(memory, at, t) && Stands(memory, at + |t|, body, g.(breaks := end, next := end))
  {
    var end := at + |t| + |body|;
    var inner := Vals(t) + body;
    StandsClose(memory, at, Close(inner, CaseHole, end), BreakHole, end, g);
    StandsClose(memory, at, inner, CaseHole, end, g.(breaks := end));
    StandsJoin(memory, at, Vals(t), body, g.(breaks := end, next := end));
    StandsVals(memory, at, t, g.(breaks := end, next := end));
  }

  lemma StandsCase(memory: seq<int>, at: nat, e: Expr, g: Targets)
    ensures Stands(memory, at, CodeCase(e, at), g)
      <==> Has(memory, at, [IC_DUPLICATE] + CodeE(e, at + 1) + [IC_EQ, IC_BE0, g.next])
  {
    var code := [IC_DUPLICATE] + CodeE(e, at + 1) + [IC_EQ, IC_BE0, g.next];
    StandsVals(memory, at, code, g);
    var a, b := CodeCase(e, at), Vals(code);
    assert |a| == |b| && forall i :: 0 <= i < |a| ==> ValueOf(a[i], g) == ValueOf(b[i], g);
  }

  // ---------------------------------------------------------------- lists of statements

  /** Address of the statement at an index of a list. */
  function Offset(ss: seq<Stmt>, i: nat, at: nat): nat
    requires i <= |ss|
  {
    at + |CodeList(ss[..i], at)|
  }

  /** Address of the first label at or after an index, or the label that follows the list. */
  function LabelFrom(ss: seq<Stmt>, i: nat, at: nat, next: nat): nat
    decreases |ss|
  {
    if i >= |ss| then next
    else
      var n := |ss| - 1;
      var last := FirstLabel(ss[n], Offset(ss, n, at));
      LabelFrom(ss[..n], i, at, if last.Some? then last.value else next)
  }

  /** A list splits into its last statement and those before it. */
  lemma StandsLast(memory: seq<int>, at: nat, ss: seq<Stmt>, g: Targets)
    requires ss != [] && Stands(memory, at, CodeList(ss, at), g)
    ensures
      var n := |ss| - 1;
      var p := Offset(ss, n, at);
      && Stands(memory, at, CodeList(ss[..n], at), WithLabel(g, FirstLabel(ss[n], p)))
      && Stands(memory, p, CodeS(ss[n], p), g)
      && Offset(ss, n + 1, at) == p + |CodeS(ss[n], p)|
  {
    hide CodeS, FirstLabel, Stands;
    var n := |ss| - 1;
    var p := Offset(ss, n, at);
    var tag := FirstLabel(ss[n], p);
    StandsJoin(memory, at, Fill(CodeList(ss[..n], at), tag), CodeS(ss[n], p), g);
    StandsFill(memory, at, CodeList(ss[..n], at), tag, g);
    assert ss[..n + 1] == ss;
  }

  /** Each statement of a list stands at its address and waits for the next label. */
  lemma {:induction false} StandsItem(memory: seq<int>, at: nat, ss: seq<Stmt>, i: nat, g: Targets)
    requires i < |ss| && Stands(memory, at, CodeList(ss, at), g)
    ensures
      var p := Offset(ss, i, at);
      && Stands(memory, p, CodeS(ss[i], p), g.(next := LabelFrom(ss, i + 1, at, g.next)))
      && Offset(ss, i + 1, at) == p + |CodeS(ss[i], p)|
    decreases |ss|
  {
    hide CodeS, CodeList, FirstLabel, Stands;
    StandsLast(memory, at, ss, g);
    var n := |ss| - 1;
    if i < n {
      StandsItem(memory, at, ss[..n], i, WithLabel(g, FirstLabel(ss[n], Offset(ss, n, at))));
      assert ss[..n][..i] == ss[..i] && ss[..n][..i + 1] == ss[..i + 1];
    }
  }
}

/**
  * The code of a tree, computed by a compiler that knows every jump target.
  *
  * Statement code is a sequence of cells.  A cell is a finished value, or a hole
  * for a target that lies outside the statement: the exit of the enclosing loop or
  * switch, the point where the enclosing loop continues, or the next label of the
  * enclosing switch.
  */
module Codegen {
  import opened Common
  import opened Ast
  import opened Instructions

  // ---------------------------------------------------------------- expressions

  /** Code of an expression whose first cell is at the given address. */
  function CodeE(e: Expr, at: nat): (c: seq<int>)
    ensures |c| >= 2
    decreases e, 0
  {
    match e
    case Lit(v) => [IC_LI, v]
    case Var(x) => [IC_LOAD, x]
    case Unary(op, a) => CodeE(a, at) + [UnaryCode(op)]
    case Step(op, x) => [StepCode(op), x]
    case Binary(op, a, b) =>
      var l := CodeE(a, at);
      if IsLogical(op) then
        var r := CodeE(b, at + |l| + 3);
        l + [IC_DUPLICATE, if op == LogAnd then IC_BE0 else IC_BNE0, at + |l| + |r| + 4] + r + [BinaryCode(op)]
      else
        l + CodeE(b, at + |l|) + [BinaryCode(op)]
    case Comma(a, b) =>
      var l := CodeV(a, at);
      l + CodeE(b, at + |l|)
    case Ternary(c, a, b) =>
      var t := CodeE(c, at);
      var l := CodeE(a, at + |t| + 2);
      var r := CodeE(b, at + |t| + |l| + 4);
      t + [IC_BE0, at + |t| + |l| + 4] + l + [IC_B, at + |t| + |l| + |r| + 4] + r
    case Assign(op, x, a) => CodeE(a, at) + [AssignCode(op), x]
  }

  /** Code of an expression whose value is not wanted. */
  function CodeV(e: Expr, at: nat): seq<int>
    decreases e, 1
  {
    if e.Var? then [] else Dropped(CodeE(e, at))
  }

  /**
    * Replaces the last instruction by its version without a result.  The last
    * instruction is found by looking at the last cell: a cell below the first
    * instruction code is taken for an operand.
    */
  function Dropped(c: seq<int>): (r: seq<int>)
    requires |c| >= 2
    ensures |r| == |c|
  {
    var k := if c[|c| - 1] < MIN_INSTRUCTION_CODE then |c| - 2 else |c| - 1;
    c[k := ToVoid(c[k])]
  }

  // ---------------------------------------------------------------- cells

  datatype Cell = Val(v: int) | BreakHole | ContinueHole | CaseHole

  function Vals(c: seq<int>): (r: seq<Cell>)
    ensures |r| == |c|
    ensures forall i :: 0 <= i < |c| ==> r[i] == Val(c[i])
  {
    seq(|c|, i requires 0 <= i < |c| => Val(c[i]))
  }

  /** Every hole of one kind takes a target. */
  function Close(cells: seq<Cell>, hole: Cell, target: int): (r: seq<Cell>)
    ensures |r| == |cells|
    ensures forall i :: 0 <= i < |cells| ==> r[i] == if cells[i] == hole then Val(target) else cells[i]
  {
    seq(|cells|, i requires 0 <= i < |cells| => if cells[i] == hole then Val(target) else cells[i])
  }

  /** The pending case test takes the address of the next label, when there is one. */
  function Fill(cells: seq<Cell>, tag: Option<nat>): (r: seq<Cell>)
    ensures |r| == |cells|
  {
    if tag.Some? then Close(cells, CaseHole, tag.value) else cells
  }

  function Either(a: Option<nat>, b: Option<nat>): Option<nat> {
    if a.Some? then a else b
  }

  // ---------------------------------------------------------------- statements

  function CodeD(d: Decl, at: nat): seq<int> {
    match d
    case Scalar(x, Some(e)) => CodeE(e, at) + [IC_ASSIGN_V, x]
    case _ => []
  }

  function CodeDecls(ds: seq<Decl>, at: nat): seq<int> {
    if ds == [] then []
    else
      var before := CodeDecls(ds[..|ds| - 1], at);
      before + CodeD(ds[|ds| - 1], at + |before|)
  }

  // Code of compound statements, from the code of their parts.

  function IfCells(t: seq<int>, then_: seq<Cell>, at: nat): seq<Cell> {
    Vals(t + [IC_BE0, at + |t| + |then_| + 2]) + then_
  }

  function IfElseCells(t: seq<int>, then_: seq<Cell>, else_: seq<Cell>, tag: Option<nat>, at: nat): seq<Cell> {
    var elseAt := at + |t| + |then_| + 4;
    Fill(Vals(t + [IC_BE0, elseAt]) + then_ + Vals([IC_B, elseAt + |else_|]), tag) + else_
  }

  function WhileCells(t: seq<Cell>, body: seq<Cell>, at: nat): seq<Cell> {
    Close(Close(t + body, ContinueHole, at) + Vals([IC_B, at]), BreakHole, at + |t| + |body| + 2)
  }

  function DoCells(body: seq<Cell>, t: seq<int>, at: nat): seq<Cell> {
    Close(Close(body, ContinueHole, at + |body|) + Vals(t + [IC_BNE0, at]), BreakHole, at + |body| + |t| + 2)
  }

  /** A for loop without its initialization. */
  function ForCells(t: seq<Cell>, body: seq<Cell>, step: seq<int>, top: nat): seq<Cell> {
    var next := top + |t| + |body|;
    Close(Close(t + body, ContinueHole, next) + Vals(step + [IC_B, top]), BreakHole, next + |step| + 2)
  }

  function SwitchCells(t: seq<int>, body: seq<Cell>, at: nat): seq<Cell> {
    var end := at + |t| + |body|;
    Close(Close(Vals(t) + body, CaseHole, end), BreakHole, end)
  }

  function CodeS(s: Stmt, at: nat): seq<Cell>
    decreases s, 1
  {
    match s
    case Null => []
    case Effect(e) => Vals(CodeV(e, at))
    case Declare(ds) => Vals(CodeDecls(ds, at))
    case Block(ss) => CodeList(ss, at)
    case If(c, y, n) =>
      var t := CodeE(c, at);
      var then_ := CodeS(y, at + |t| + 2);
      if n.None? then
        IfCells(t, then_, at)
      else
        var elseAt := at + |t| + |then_| + 4;
        IfElseCells(t, then_, CodeS(n.value, elseAt), FirstLabel(n.value, elseAt), at)
    case While(c, b) =>
      var t := CodeTest(Some(c), at);
      WhileCells(t, CodeS(b, at + |t|), at)
    case Do(b, c) =>
      var body := CodeS(b, at);
      DoCells(body, CodeE(c, at + |body|), at)
    case For(start, test, next, b) =>
      var init := CodeO(start, at);
      var top := at + |init|;
      var t := CodeTest(test, top);
      var body := CodeS(b, top + |t|);
      Fill(init, FirstLabel(b, top + |t|)) + ForCells(t, body, CodeNext(next, top + |t| + |body|), top)
    case Switch(c, b) =>
      var t := CodeE(c, at);
      SwitchCells(t, CodeS(b, at + |t|), at)
    case Case(e, b) =>
      var test := CodeCase(e, at);
      Fill(test, FirstLabel(b, at + |test|)) + CodeS(b, at + |test|)
    case Default(b) => CodeS(b, at)
    case Break => [Val(IC_B), BreakHole]
    case Continue => [Val(IC_B), ContinueHole]
    case Return(None) => Vals([IC_RETURN_VOID])
    case Return(Some(e)) => Vals(CodeE(e, at) + [IC_RETURN_VAL, 1])
  }

  function CodeNext(next: Option<Expr>, at: nat): seq<int> {
    if next.Some? then CodeV(next.value, at) else []
  }

  function CodeO(s: Option<Stmt>, at: nat): seq<Cell>
    decreases s, 2
  {
    match s
    case None => []
    case Some(s') => CodeS(s', at)
  }

  function CodeTest(test: Option<Expr>, at: nat): seq<Cell> {
    match test
    case None => []
    case Some(c) => Vals(CodeE(c, at)) + [Val(IC_BE0), BreakHole]
  }

  /** The test of a case label: compare with the top of the stack, else try the next label. */
  function CodeCase(e: Expr, at: nat): seq<Cell> {
    Vals([IC_DUPLICATE] + CodeE(e, at + 1) + [IC_EQ, IC_BE0]) + [CaseHole]
  }

  function CodeList(ss: seq<Stmt>, at: nat): seq<Cell>
    decreases ss, 0
  {
    if ss == [] then []
    else
      var before := CodeList(ss[..|ss| - 1], at);
      var last := ss[|ss| - 1];
      Fill(before, FirstLabel(last, at + |before|)) + CodeS(last, at + |before|)
  }

  /** Address of the first label of the enclosing switch inside a statement. */
  function FirstLabel(s: Stmt, at: nat): Option<nat>
    decreases s, 1
  {
    match s
    case Case(_, _) => Some(at)
    case Default(_) => Some(at)
    case Block(ss) => FirstLabelList(ss, at)
    case If(c, y, n) =>
      var thenAt := at + |CodeE(c, at)| + 2;
      Either(FirstLabel(y, thenAt), FirstLabelO(n, thenAt + |CodeS(y, thenAt)| + 2))
    case While(c, b) => FirstLabel(b, at + |CodeTest(Some(c), at)|)
    case Do(b, c) => FirstLabel(b, at)
    case For(start, test, next, b) =>
      var top := at + |CodeO(start, at)|;
      Either(FirstLabelO(start, at), FirstLabel(b, top + |CodeTest(test, top)|))
    case _ => None
  }

  function FirstLabelO(s: Option<Stmt>, at: nat): Option<nat>
    decreases s, 2
  {
    if s.Some? then FirstLabel(s.value, at) else None
  }

  function FirstLabelList(ss: seq<Stmt>, at: nat): Option<nat>
    decreases ss, 0
  {
    if ss == [] then None
    else
      var before := ss[..|ss| - 1];
      Either(FirstLabelList(before, at), FirstLabel(ss[|ss| - 1], at + |CodeList(before, at)|))
  }

  // ---------------------------------------------------------------- shapes

  /** A for loop after its initialization. */
  function LoopPart(s: Stmt, top: nat): seq<Cell>
    requires s.For?
  {
    var t := CodeTest(s.test, top);
    var body := CodeS(s.loop, top + |t|);
    ForCells(t, body, CodeNext(s.next, top + |t| + |body|), top)
  }

  function LoopLabel(s: Stmt, top: nat): Option<nat>
    requires s.For?
  {
    FirstLabel(s.loop, top + |CodeTest(s.test, top)|)
  }

  lemma TernaryCode(e: Expr, at: nat)
    requires e.Ternary?
    ensures
      var t := CodeE(e.cond, at);
      var a := CodeE(e.yes, at + |t| + 2);
      var noAt := at + |t| + |a| + 4;
      var b := CodeE(e.no, noAt);
      CodeE(e, at) == t + [IC_BE0, noAt] + a + [IC_B, noAt + |b|] + b
  {
    hide Dropped, CodeV;
  }

  lemma ShapeIf(s: Stmt, at: nat)
    requires s.If? && s.no.None?
    ensures
      var t := CodeE(s.cond, at);
      var thenAt := at + |t| + 2;
      && CodeS(s, at) == IfCells(t, CodeS(s.yes, thenAt), at)
      && FirstLabel(s, at) == FirstLabel(s.yes, thenAt)
  {
    hide Vals, CodeE, CodeV, CodeDecls, CodeList, CodeCase, CodeTest, CodeNext, FirstLabelList;
    hide IfCells, IfElseCells, WhileCells, DoCells, ForCells, SwitchCells;
  }

  lemma ShapeIfElse(s: Stmt, at: nat)
    requires s.If? && s.no.Some?
    ensures
      var t := CodeE(s.cond, at);
      var thenAt := at + |t| + 2;
      var elseAt := thenAt + |CodeS(s.yes, thenAt)| + 2;
      var lb := FirstLabel(s.no.value, elseAt);
      && CodeS(s, at) == IfElseCells(t, CodeS(s.yes, thenAt), CodeS(s.no.value, elseAt), lb, at)
      && FirstLabel(s, at) == Either(FirstLabel(s.yes, thenAt), lb)
  {
    hide Close, Fill, Either, Vals, CodeE, CodeV, CodeDecls, CodeList, CodeCase, CodeTest, CodeNext, FirstLabelList;
    hide IfCells, IfElseCells, WhileCells, DoCells, ForCells, SwitchCells;
  }

  lemma ShapeDo(s: Stmt, at: nat)
    requires s.Do?
    ensures
      var body := CodeS(s.loop, at);
      && CodeS(s, at) == DoCells(body, CodeE(s.cond, at + |body|), at)
      && FirstLabel(s, at) == FirstLabel(s.loop, at)
  {
    hide Close, Fill, Either, Vals, CodeE, CodeV, CodeDecls, CodeList, CodeCase, CodeTest, CodeNext, FirstLabelList;
    hide IfCells, IfElseCells, WhileCells, DoCells, ForCells, SwitchCells;
  }

  lemma ShapeFor(s: Stmt, at: nat)
    requires s.For?
    ensures
      var top := at + |CodeO(s.start, at)|;
      && CodeS(s, at) == Fill(CodeO(s.start, at), LoopLabel(s, top)) + LoopPart(s, top)
      && FirstLabel(s, at) == Either(FirstLabelO(s.start, at), LoopLabel(s, top))
  {
    hide Close, Fill, Either, Vals, CodeE, CodeV, CodeDecls, CodeList, CodeCase, CodeTest, CodeNext, FirstLabelList;
    hide IfCells, IfElseCells, WhileCells, DoCells, ForCells, SwitchCells;
  }

  lemma ShapeWhile(s: Stmt, at: nat)
    requires s.While?
    ensures
      var t := CodeTest(Some(s.cond), at);
      && CodeS(s, at) == WhileCells(t, CodeS(s.loop, at + |t|), at)
      && FirstLabel(s, at) == FirstLabel(s.loop, at + |t|)
  {
    hide Close, Fill, Either, Vals, CodeE, CodeV, CodeDecls, CodeList, CodeCase, CodeTest, CodeNext, FirstLabelList;
    hide IfCells, IfElseCells, WhileCells, DoCells, ForCells, SwitchCells;
  }

  lemma ShapeSwitch(s: Stmt, at: nat)
    requires s.Switch?
    ensures
      var t := CodeE(s.cond, at);
      CodeS(s, at) == SwitchCells(t, CodeS(s.cases, at + |t|), at) && FirstLabel(s, at) == None
  {
    hide Close, Fill, Either, Vals, CodeE, CodeV, CodeDecls, CodeList, CodeCase, CodeTest, CodeNext, FirstLabelList;
    hide IfCells, IfElseCells, WhileCells, DoCells, ForCells, SwitchCells;
  }

  lemma ShapeCase(s: Stmt, at: nat)
    requires s.Case?
    ensures
      var test := CodeCase(s.tag, at);
      && CodeS(s, at) == Fill(test, FirstLabel(s.labelled, at + |test|)) + CodeS(s.labelled, at + |test|)
      && FirstLabel(s, at) == Some(at)
  {
    hide Close, Fill, Either, Vals, CodeE, CodeV, CodeDecls, CodeList, CodeCase, CodeTest, CodeNext, FirstLabelList;
    hide IfCells, IfElseCells, WhileCells, DoCells, ForCells, SwitchCells;
  }
}

/**
  * From a tree to the run of its code: what the emitted function does.
  */
module Compile {
  import opened Common
  import opened Ast
  import opened Instructions
  import opened Codegen
  import opened Runs
  import opened Machine
  import opened Semantics
  import Emitting
  import Threading
  import opened Standing
  import opened StmtCorrect
  import opened Confinement
  import opened Functions

  /** Jumps stay inside the loops and switches they belong to. */
  lemma {:induction false} JumpsInside(s: Stmt, d: Data, fuel: nat, inLoop: bool, inSwitch: bool)
    requires Confined(s, inLoop, inSwitch)
    ensures
      var r := Exec(s, d, fuel);
      r.Done? ==> (r.out.Broke? ==> inLoop || inSwitch) && (r.out.Continued? ==> inLoop)
    decreases fuel, s, 1
  {
    match s
    case Block(ss) => JumpsInsideList(ss, 0, d, fuel, inLoop, inSwitch);
    case If(c, y, n) => JumpsInsideIf(s, d, fuel, inLoop, inSwitch);
    case While(c, b) => LoopKeepsJumps(Some(c), b, None, d, fuel);
    case Do(b, c) => JumpsInsideDo(s, d, fuel, inLoop, inSwitch);
    case For(_, _, _, _) => JumpsInsideFor(s, d, fuel, inLoop, inSwitch);
    case Switch(c, b) => JumpsInsideSwitch(s, d, fuel, inLoop, inSwitch);
    case _ =>
  }

  lemma {:induction false} JumpsInsideIf(s: Stmt, d: Data, fuel: nat, inLoop: bool, inSwitch: bool)
    requires s.If? && Confined(s, inLoop, inSwitch)
    ensures
      var r := Exec(s, d, fuel);
      r.Done? ==> (r.out.Broke? ==> inLoop || inSwitch) && (r.out.Continued? ==> inLoop)
    decreases fuel, s, 0
  {
    hide Eval;
    if Eval(s.cond, d).Some? {
      var d1 := Eval(s.cond, d).value.1;
      JumpsInside(s.yes, d1, fuel, inLoop, inSwitch);
      if s.no.Some? {
        JumpsInside(s.no.value, d1, fuel, inLoop, inSwitch);
      }
    }
  }

  lemma {:induction false} LoopKeepsJumps(test: Option<Expr>, b: Stmt, next: Option<Expr>, d: Data, fuel: nat)
    ensures
      var r := ExecLoop(test, b, next, d, fuel);
      r.Done? ==> r.out.Normal? || r.out.Returned?
    decreases fuel
  {
    hide Exec, EvalTest, EvalNext;
    if fuel > 0 && EvalTest(test, d).Some? {
      var r := Exec(b, EvalTest(test, d).value.1, fuel);
      if r.Done? && EvalNext(next, r.data).Some? {
        LoopKeepsJumps(test, b, next, EvalNext(next, r.data).value.1, fuel - 1);
      }
    }
  }

  lemma {:induction false} JumpsInsideDo(s: Stmt, d: Data, fuel: nat, inLoop: bool, inSwitch: bool)
    requires s.Do?
    ensures
      var r := Exec(s, d, fuel);
      r.Done? ==> r.out.Normal? || r.out.Returned?
    decreases fuel, s, 0
  {
    hide Eval;
    var r := Exec(s.loop, d, fuel);
    if fuel > 0 && r.Done? && Eval(s.cond, r.data).Some? {
      JumpsInsideDo(s, Eval(s.cond, r.data).value.1, fuel - 1, inLoop, inSwitch);
    }
  }

  lemma {:induction false} JumpsInsideFor(s: Stmt, d: Data, fuel: nat, inLoop: bool, inSwitch: bool)
    requires s.For? && Confined(s, inLoop, inSwitch)
    ensures
      var r := Exec(s, d, fuel);
      r.Done? ==> (r.out.Broke? ==> inLoop || inSwitch) && (r.out.Continued? ==> inLoop)
    decreases fuel, s, 0
  {
    hide ExecLoop;
    if s.start.None? {
      LoopKeepsJumps(s.test, s.loop, s.next, d, fuel);
    } else {
      JumpsInside(s.start.value, d, fuel, inLoop, inSwitch);
      var r := Exec(s.start.value, d, fuel);
      if r.Done? {
        LoopKeepsJumps(s.test, s.loop, s.next, r.data, fuel);
      }
    }
  }

  lemma {:induction false} JumpsInsideList(ss: seq<Stmt>, i: nat, d: Data, fuel: nat, inLoop: bool, inSwitch: bool)
    requires i <= |ss| && forall k :: 0 <= k < |ss| ==> Confined(ss[k], inLoop, inSwitch)
    ensures
      var r := ExecList(ss, i, d, fuel);
      r.Done? ==> (r.out.Broke? ==> inLoop || inSwitch) && (r.out.Continued? ==> inLoop)
    decreases fuel, ss, |ss| - i
  {
    hide Exec, Confined;
    if i < |ss| {
      JumpsInside(ss[i], d, fuel, inLoop, inSwitch);
      var r := Exec(ss[i], d, fuel);
      if r.Done? {
        JumpsInsideList(ss, i + 1, r.data, fuel, inLoop, inSwitch);
      }
    }
  }

  lemma {:induction false} JumpsInsideSwitch(s: Stmt, d: Data, fuel: nat, inLoop: bool, inSwitch: bool)
    requires s.Switch? && Confined(s, inLoop, inSwitch)
    ensures
      var r := Exec(s, d, fuel);
      r.Done? ==> (r.out.Broke? ==> inLoop || inSwitch) && (r.out.Continued? ==> inLoop)
    decreases fuel, s, 0
  {
    hide Eval, ExecItems;
    if s.cases.Block? && Eval(s.cond, d).Some? {
      var (v, d1) := Eval(s.cond, d).value;
      JumpsInsideItems(s.cases.body, 0, [v], d1, fuel, inLoop);
    }
  }

  lemma {:induction false} JumpsInsideItems(ss: seq<Stmt>, i: nat, under: seq<int>, d: Data, fuel: nat, inLoop: bool)
    requires i <= |ss| && under != [] && forall k :: 0 <= k < |ss| ==> Confined(ss[k], inLoop, true)
    ensures
      var r := ExecItems(ss, i, under, d, fuel);
      r.Done? && r.out.Continued? ==> inLoop
    decreases fuel, ss, |ss| - i
  {
    hide Exec, Confined, ExecItem;
    if i < |ss| {
      JumpsInsideItem(ss[i], under[0], d, fuel, inLoop);
      match ExecItem(ss[i], under[0], d, fuel)
      case Skipped(d1) => JumpsInsideItems(ss, NextLabel(ss, i + 1), under, d1, fuel, inLoop);
      case Ran(r) =>
        if r.Done? {
          JumpsInsideItems(ss, i + 1, r.left + under, r.data, fuel, inLoop);
        }
    }
  }

  lemma {:induction false} JumpsInsideItem(s: Stmt, top: int, d: Data, fuel: nat, inLoop: bool)
    requires Confined(s, inLoop, true)
    ensures
      var r := ExecItem(s, top, d, fuel);
      r.Ran? && r.result.Done? && r.result.out.Continued? ==> inLoop
    decreases fuel, s, 2
  {
    hide Exec, Eval;
    match s
    case Case(e, b) =>
      if Eval(e, d).Some? {
        JumpsInside(b, Eval(e, d).value.1, fuel, inLoop, true);
      }
    case Default(b) => JumpsInside(b, d, fuel, inLoop, true);
    case _ => JumpsInside(s, d, fuel, inLoop, true);
  }

  /** How the code of a function ends, for each way its body may end. */
  ghost predicate FunctionMeets(memory: seq<int>, st: State, r: Result, fuel: nat) {
    match r
    case Done(out, left, d) =>
      Returns(memory, st, if out.Returned? then out.value else None, left + st.stack, d)
    case Undefined => Faults(memory, st)
    case OutOfFuel => Outruns(Loaded(memory), st, fuel)
  }

  /**
    * The code of a function, wherever it lies in the memory, behaves as the body:
    * it returns the same value with the same variables, faults where an operation is
    * undefined, and runs on for as long as the body does.
    */
  lemma FunctionRuns(body: Stmt, memory: seq<int>, front: seq<int>, size: int, back: seq<int>, st: State, fuel: nat)
    requires Structured(body) && Confined(body, false, false)
    requires memory == front + FunctionCode(body, size, |front|) + back
    requires st.pc == |front| + 3
    ensures FunctionMeets(memory, st, Exec(body, st.data, fuel), fuel)
  {
    hide CodeS, Exec, Structured, Confined;
    var cells := CodeS(body, st.pc);
    var head, tail := front + [IC_FUNC_BEG, size, |front| + |cells| + 4], [IC_RETURN_VOID] + back;
    assert memory == head + Finished(cells) + tail;
    ConfinedVals(body, st.pc);
    var g := Targets(0, 0, 0);
    FinishedStands(memory, head, cells, tail, g);
    StmtRuns(body, memory, st, g, fuel);
    JumpsInside(body, st.data, fuel, false, false);
    var r := Exec(body, st.data, fuel);
    if r.Done? && r.out.Normal? {
      var t := State(st.pc + |cells|, r.left + st.stack, r.data);
      assert memory[t.pc] == tail[0];
      ReturnsHere(memory, st, t, None);
    }
  }

  lemma ConfinedVals(s: Stmt, at: nat)
    requires Confined(s, false, false)
    ensures forall c :: c in CodeS(s, at) ==> c.Val?
  {
    hide CodeS, FirstLabel;
    ConfinedCode(s, at, false, false);
    Emitting.TidyCode(s, at);
    NoHoles(Threading.Emission([0], 0, 0, 0), CodeS(s, at));
  }
}

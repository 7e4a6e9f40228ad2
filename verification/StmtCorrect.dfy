/**
  * Finished code of statements does what the statements do.
  */
module StmtCorrect {
  import opened Common
  import opened Ast
  import opened Instructions
  import opened Codegen
  import opened Runs
  import opened Machine
  import opened Semantics
  import opened ExprCorrect
  import opened Standing

  /** Where control arrives after each outcome that stays in the function. */
  function Arrival(out: Outcome, end: nat, g: Targets): nat {
    match out
    case Normal => end
    case Broke => g.breaks
    case Continued => g.conts
    case Returned(_) => end
  }

  /** The machine stands at the return instruction with the returned value on top. */
  ghost predicate Returns(memory: seq<int>, s: State, v: Option<int>, under: seq<int>, d: Data) {
    exists pc: nat ::
      && ReturnsAt(memory, pc, v)
      && Reaches(Loaded(memory), s, State(pc, (if v.Some? then [v.value] else []) + under, d))
  }

  predicate ReturnsAt(memory: seq<int>, pc: nat, v: Option<int>) {
    if v.Some? then pc + 1 < |memory| && memory[pc] == IC_RETURN_VAL && memory[pc + 1] == 1
    else pc < |memory| && memory[pc] == IC_RETURN_VOID
  }

  /**
    * The run of the machine is that of the statement: it ends at the right place with
    * the same variables and the same values left on the stack, faults where the
    * statement meets an undefined operation, and goes on when the statement does.
    */
  ghost predicate Meets(memory: seq<int>, s: State, base: seq<int>, r: Result, end: nat, g: Targets, fuel: nat) {
    match r
    case Done(out, left, d) =>
      if out.Returned? then Returns(memory, s, out.value, left + base, d)
      else Reaches(Loaded(memory), s, State(Arrival(out, end, g), left + base, d))
    case Undefined => Faults(memory, s)
    case OutOfFuel => Outruns(Loaded(memory), s, fuel)
  }

  // ---------------------------------------------------------------- composition

  lemma ReturnsAfter(memory: seq<int>, s: State, t: State, v: Option<int>, under: seq<int>, d: Data)
    requires Reaches(Loaded(memory), s, t) && Returns(memory, t, v, under, d)
    ensures Returns(memory, s, v, under, d)
  {
    var pc: nat :|
      && ReturnsAt(memory, pc, v)
      && Reaches(Loaded(memory), t, State(pc, (if v.Some? then [v.value] else []) + under, d));
    ReachesTrans(Loaded(memory), s, t, State(pc, (if v.Some? then [v.value] else []) + under, d));
  }

  /** A run that starts after another one. */
  lemma MeetsThen(memory: seq<int>, s: State, t: State, base: seq<int>, r: Result, end: nat, g: Targets, fuel: nat)
    requires Reaches(Loaded(memory), s, t) && Meets(memory, t, base, r, end, g, fuel)
    ensures Meets(memory, s, base, r, end, g, fuel)
  {
    match r
    case Done(out, left, d) =>
      if out.Returned? {
        ReturnsAfter(memory, s, t, out.value, left + base, d);
      } else {
        ReachesTrans(Loaded(memory), s, t, State(Arrival(out, end, g), left + base, d));
      }
    case Undefined => FaultsAfter(memory, s, t);
    case OutOfFuel => OutrunsAfter(Loaded(memory), s, t, fuel);
  }

  /** Values left before a run are below those it leaves. */
  lemma MeetsAbove(memory: seq<int>, s: State, left: seq<int>, base: seq<int>, r: Result, end: nat, g: Targets, fuel: nat)
    requires Meets(memory, s, left + base, r, end, g, fuel)
    ensures Meets(memory, s, base, Above(r, left), end, g, fuel)
  {
    if r.Done? {
      assert r.left + (left + base) == (r.left + left) + base;
    }
  }

  /** A jump after the normal end of a statement. */
  lemma MeetsJump(memory: seq<int>, s: State, base: seq<int>, r: Result, at: nat, end: nat, g: Targets, fuel: nat)
    requires Meets(memory, s, base, r, at, g, fuel) && Has(memory, at, [IC_B, end])
    ensures Meets(memory, s, base, r, end, g, fuel)
  {
    if r.Done? && r.out.Normal? {
      var t := State(at, r.left + base, r.data);
      RunsJump(memory, t, end);
      ReachesTrans(Loaded(memory), s, t, t.(pc := end));
    }
  }

  /** Evaluates a condition and branches on zero; the tested value is gone afterwards. */
  lemma CondRuns(c: Expr, memory: seq<int>, s: State, target: nat)
    requires Clean(c) && Has(memory, s.pc, CodeE(c, s.pc)) && Has(memory, s.pc + |CodeE(c, s.pc)|, [IC_BE0, target])
    ensures
      match Eval(c, s.data)
      case None => Faults(memory, s)
      case Some((v, d)) =>
        Reaches(Loaded(memory), s, State(if v == 0 then target else s.pc + |CodeE(c, s.pc)| + 2, s.stack, d))
  {
    hide Eval, CodeE, Clean, Has;
    ExprRuns(c, memory, s);
    if Eval(c, s.data).Some? {
      var (v, d) := Eval(c, s.data).value;
      var t := State(s.pc + |CodeE(c, s.pc)|, [v] + s.stack, d);
      Tests(memory, s, t, target);
      assert t.stack[1..] == s.stack;
    }
  }

  // ---------------------------------------------------------------- statements

  /**
    * The main result: wherever the code of a statement stands, with its holes filled
    * with the targets around it, the machine runs the statement.
    */
  lemma {:induction false} StmtRuns(s: Stmt, memory: seq<int>, st: State, g: Targets, fuel: nat)
    requires Structured(s) && Stands(memory, st.pc, CodeS(s, st.pc), g)
    ensures Meets(memory, st, st.stack, Exec(s, st.data, fuel), st.pc + |CodeS(s, st.pc)|, g, fuel)
    decreases fuel, s, 3
  {
    hide Loaded, Clean, CodeE, EvalVoid, Eval;
    match s
    case Null => NullRuns(memory, st);
    case Effect(_) => EffectRuns(s, memory, st, g);
    case Declare(ds) => DeclareRuns(s, memory, st, g);
    case Block(ss) => ListRuns(ss, 0, memory, st.pc, st, g, fuel);
    case If(_, _, n) =>
      if n.None? {
        IfRuns(s, memory, st, g, fuel);
      } else {
        IfElseRuns(s, memory, st, g, fuel);
      }
    case While(_, _) => WhileRuns(s, memory, st, g, fuel);
    case Do(_, _) => DoRuns(s, memory, st, g, fuel);
    case For(_, _, _, _) => ForRuns(s, memory, st, g, fuel);
    case Switch(_, _) => SwitchRuns(s, memory, st, g, fuel);
    case Break => BreakRuns(s, memory, st, g);
    case Continue => BreakRuns(s, memory, st, g);
    case Return(_) => ReturnRuns(s, memory, st, g);
  }

  lemma NullRuns(memory: seq<int>, st: State)
    ensures Reaches(Loaded(memory), st, State(st.pc, [] + st.stack, st.data))
  {
    assert [] + st.stack == st.stack;
    ReachesSelf(Loaded(memory), st);
  }

  lemma EffectRuns(s: Stmt, memory: seq<int>, st: State, g: Targets)
    requires s.Effect? && Structured(s) && Stands(memory, st.pc, CodeS(s, st.pc), g)
    ensures Delivers(memory, st, EvalVoid(s.expr, st.data), st.pc + |CodeS(s, st.pc)|)
  {
    hide CodeV, EvalVoid;
    StandsVals(memory, st.pc, CodeV(s.expr, st.pc), g);
    VoidRuns(s.expr, memory, st);
  }

  lemma BreakRuns(s: Stmt, memory: seq<int>, st: State, g: Targets)
    requires s.Break? || s.Continue?
    requires Stands(memory, st.pc, CodeS(s, st.pc), g)
    ensures Reaches(Loaded(memory), st, State(if s.Break? then g.breaks else g.conts, [] + st.stack, st.data))
  {
    var target := if s.Break? then g.breaks else g.conts;
    var c := CodeS(s, st.pc);
    assert memory[st.pc + 0] == ValueOf(c[0], g) == IC_B;
    assert memory[st.pc + 1] == ValueOf(c[1], g) == target;
    assert memory[st.pc..st.pc + 2] == [IC_B, target];
    RunsJump(memory, st, target);
    assert [] + st.stack == st.stack;
  }

  lemma ReturnRuns(s: Stmt, memory: seq<int>, st: State, g: Targets)
    requires s.Return? && Structured(s) && Stands(memory, st.pc, CodeS(s, st.pc), g)
    ensures
      if s.result.None? then Returns(memory, st, None, [] + st.stack, st.data)
      else
        match Eval(s.result.value, st.data)
        case None => Faults(memory, st)
        case Some((v, d)) => Returns(memory, st, Some(v), [] + st.stack, d)
  {
    hide Eval, CodeE, Clean;
    assert [] + st.stack == st.stack;
    if s.result.None? {
      StandsVals(memory, st.pc, [IC_RETURN_VOID], g);
      HasCells(memory, st.pc, [IC_RETURN_VOID]);
      ReachesSelf(Loaded(memory), st);
      ReturnsHere(memory, st, st, None);
    } else {
      StandsVals(memory, st.pc, CodeE(s.result.value, st.pc) + [IC_RETURN_VAL, 1], g);
      ReturnValRuns(s.result.value, memory, st);
    }
  }

  lemma ReturnsHere(memory: seq<int>, s: State, t: State, v: Option<int>)
    requires Reaches(Loaded(memory), s, t) && ReturnsAt(memory, t.pc, v)
    requires v.Some? ==> t.stack != [] && t.stack[0] == v.value
    ensures Returns(memory, s, v, if v.Some? then t.stack[1..] else t.stack, t.data)
  {
    var under := if v.Some? then t.stack[1..] else t.stack;
    assert t == State(t.pc, (if v.Some? then [v.value] else []) + under, t.data);
  }

  lemma ReturnValRuns(e: Expr, memory: seq<int>, st: State)
    requires Clean(e) && Has(memory, st.pc, CodeE(e, st.pc) + [IC_RETURN_VAL, 1])
    ensures
      match Eval(e, st.data)
      case None => Faults(memory, st)
      case Some((v, d)) => Returns(memory, st, Some(v), st.stack, d)
  {
    hide Eval, CodeE, Clean;
    var c := CodeE(e, st.pc);
    HasJoin(memory, st.pc, c, [IC_RETURN_VAL, 1]);
    HasCells(memory, st.pc + |c|, [IC_RETURN_VAL, 1]);
    ExprRuns(e, memory, st);
    if Eval(e, st.data).Some? {
      var (v, d) := Eval(e, st.data).value;
      var t := State(st.pc + |c|, [v] + st.stack, d);
      assert t.stack[1..] == st.stack;
      ReturnsHere(memory, st, t, Some(v));
    }
  }

  lemma DeclareRuns(s: Stmt, memory: seq<int>, st: State, g: Targets)
    requires s.Declare? && Structured(s) && Stands(memory, st.pc, CodeS(s, st.pc), g)
    ensures
      match ExecDecls(s.decls, st.data)
      case None => Faults(memory, st)
      case Some(d) => Reaches(Loaded(memory), st, State(st.pc + |CodeS(s, st.pc)|, [] + st.stack, d))
  {
    hide CodeDecls, ExecDecls;
    StandsVals(memory, st.pc, CodeDecls(s.decls, st.pc), g);
    DeclsRun(s.decls, memory, st);
    assert [] + st.stack == st.stack;
  }

  lemma DeclsShape(ds: seq<Decl>, at: nat, d: Data)
    requires ds != []
    ensures
      var n := |ds| - 1;
      var before := CodeDecls(ds[..n], at);
      && CodeDecls(ds, at) == before + CodeD(ds[n], at + |before|)
      && ExecDecls(ds, d) == match ExecDecls(ds[..n], d) case None => None case Some(d1) => ExecDecl(ds[n], d1)
  {
    hide CodeD, ExecDecl;
  }

  lemma {:induction false} DeclsRun(ds: seq<Decl>, memory: seq<int>, st: State)
    requires FitsDecls(ds) && Has(memory, st.pc, CodeDecls(ds, st.pc))
    ensures
      match ExecDecls(ds, st.data)
      case None => Faults(memory, st)
      case Some(d) => Reaches(Loaded(memory), st, State(st.pc + |CodeDecls(ds, st.pc)|, st.stack, d))
    decreases |ds|
  {
    hide CodeDecls, ExecDecls, Has, Faults, CodeD, FitsO;
    if ds == [] {
      NoDecls(memory, st);
    } else {
      DeclsShape(ds, st.pc, st.data);
      var n := |ds| - 1;
      var before := CodeDecls(ds[..n], st.pc);
      HasJoin(memory, st.pc, before, CodeD(ds[n], st.pc + |before|));
      DeclsRun(ds[..n], memory, st);
      if ExecDecls(ds[..n], st.data).Some? {
        DeclRunsAfter(ds[n], memory, st, State(st.pc + |before|, st.stack, ExecDecls(ds[..n], st.data).value));
      }
    }
  }

  lemma NoDecls(memory: seq<int>, st: State)
    ensures ExecDecls([], st.data) == Some(st.data)
    ensures Reaches(Loaded(memory), st, State(st.pc + |CodeDecls([], st.pc)|, st.stack, st.data))
  {
    ReachesSelf(Loaded(memory), st);
  }

  lemma DeclRunsAfter(decl: Decl, memory: seq<int>, s: State, t: State)
    requires Reaches(Loaded(memory), s, t)
    requires (decl.Scalar? ==> FitsO(decl.init)) && Has(memory, t.pc, CodeD(decl, t.pc))
    ensures
      match ExecDecl(decl, t.data)
      case None => Faults(memory, s)
      case Some(d) => Reaches(Loaded(memory), s, State(t.pc + |CodeD(decl, t.pc)|, t.stack, d))
  {
    hide CodeD, ExecDecl, Has, FitsO;
    DeclRuns(decl, memory, t);
    match ExecDecl(decl, t.data)
    case None => FaultsAfter(memory, s, t);
    case Some(d) => ReachesTrans(Loaded(memory), s, t, State(t.pc + |CodeD(decl, t.pc)|, t.stack, d));
  }

  lemma DeclRuns(decl: Decl, memory: seq<int>, st: State)
    requires (decl.Scalar? ==> FitsO(decl.init)) && Has(memory, st.pc, CodeD(decl, st.pc))
    ensures
      match ExecDecl(decl, st.data)
      case None => Faults(memory, st)
      case Some(d) => Reaches(Loaded(memory), st, State(st.pc + |CodeD(decl, st.pc)|, st.stack, d))
  {
    if decl.Scalar? && decl.init.Some? {
      var e := decl.init.value;
      AssignmentRuns(Assign(Set, decl.name, e), memory, st, IC_ASSIGN_V, false);
      assert [] + st.stack == st.stack;
    } else {
      ReachesSelf(Loaded(memory), st);
    }
  }

  lemma {:induction false} IfRuns(s: Stmt, memory: seq<int>, st: State, g: Targets, fuel: nat)
    requires s.If? && s.no.None? && Structured(s) && Stands(memory, st.pc, CodeS(s, st.pc), g)
    ensures Meets(memory, st, st.stack, Exec(s, st.data, fuel), st.pc + |CodeS(s, st.pc)|, g, fuel)
    decreases fuel, s, 2
  {
    hide Eval, CodeE, Clean, Has, Stands, Loaded, EvalVoid, CodeList, FirstLabel;
    var t := CodeE(s.cond, st.pc);
    var thenAt := st.pc + |t| + 2;
    var a := CodeS(s.yes, thenAt);
    var end := thenAt + |a|;
    StandsIf(memory, st.pc, t, a, g);
    CondRuns(s.cond, memory, st, end);
    if Eval(s.cond, st.data).Some? {
      var (v, d) := Eval(s.cond, st.data).value;
      if v == 0 {
        assert [] + st.stack == st.stack;
      } else {
        var u := State(thenAt, st.stack, d);
        StmtRuns(s.yes, memory, u, g, fuel);
        MeetsThen(memory, st, u, st.stack, Exec(s.yes, d, fuel), end, g, fuel);
      }
    }
  }

  lemma IfElseParts(s: Stmt, memory: seq<int>, at: nat, g: Targets)
    requires s.If? && s.no.Some? && Structured(s) && Stands(memory, at, CodeS(s, at), g)
    ensures
      var t := CodeE(s.cond, at);
      var thenAt := at + |t| + 2;
      var elseAt := thenAt + |CodeS(s.yes, thenAt)| + 2;
      var end := elseAt + |CodeS(s.no.value, elseAt)|;
      && end == at + |CodeS(s, at)|
      && Has(memory, at, t) && Has(memory, at + |t|, [IC_BE0, elseAt])
      && Stands(memory, thenAt, CodeS(s.yes, thenAt), g) && Has(memory, elseAt - 2, [IC_B, end])
      && Stands(memory, elseAt, CodeS(s.no.value, elseAt), g)
  {
    hide CodeE, CodeS, FirstLabel, Clean, Has, Stands, Vals;
    ShapeIfElse(s, at);
    var t := CodeE(s.cond, at);
    var thenAt := at + |t| + 2;
    var a := CodeS(s.yes, thenAt);
    var elseAt := thenAt + |a| + 2;
    var b := CodeS(s.no.value, elseAt);
    NoLabel(s.no.value, elseAt);
    StandsIfElse(memory, at, t, a, b, None, g);
  }

  lemma {:induction false} IfElseRuns(s: Stmt, memory: seq<int>, st: State, g: Targets, fuel: nat)
    requires s.If? && s.no.Some? && Structured(s) && Stands(memory, st.pc, CodeS(s, st.pc), g)
    ensures Meets(memory, st, st.stack, Exec(s, st.data, fuel), st.pc + |CodeS(s, st.pc)|, g, fuel)
    decreases fuel, s, 2
  {
    hide Eval, CodeE, CodeS, Clean, Has, Stands, Meets;
    IfElseParts(s, memory, st.pc, g);
    var thenAt := st.pc + |CodeE(s.cond, st.pc)| + 2;
    var elseAt := thenAt + |CodeS(s.yes, thenAt)| + 2;
    var end := elseAt + |CodeS(s.no.value, elseAt)|;
    CondRuns(s.cond, memory, st, elseAt);
    match Eval(s.cond, st.data)
    case None => MeetsFault(memory, st, end, g, fuel);
    case Some((v, d)) =>
      var u := State(if v == 0 then elseAt else thenAt, st.stack, d);
      if v == 0 {
        StmtRuns(s.no.value, memory, u, g, fuel);
        MeetsThen(memory, st, u, st.stack, Exec(s.no.value, d, fuel), end, g, fuel);
      } else {
        StmtRuns(s.yes, memory, u, g, fuel);
        MeetsJump(memory, u, st.stack, Exec(s.yes, d, fuel), elseAt - 2, end, g, fuel);
        MeetsThen(memory, st, u, st.stack, Exec(s.yes, d, fuel), end, g, fuel);
      }
  }

  lemma MeetsFault(memory: seq<int>, st: State, end: nat, g: Targets, fuel: nat)
    requires Faults(memory, st)
    ensures Meets(memory, st, st.stack, Undefined, end, g, fuel)
  {
  }

  /** Structured statements bring no label of their own to the switch around them. */
  lemma {:induction false} NoLabel(s: Stmt, at: nat)
    requires Structured(s)
    ensures FirstLabel(s, at) == None
    decreases s, 1
  {
    hide Clean, CodeE, CodeV, CodeS, CodeO, CodeTest, CodeList, FirstLabelList;
    match s
    case Block(ss) => NoLabelList(ss, at);
    case If(c, y, n) =>
      NoLabel(y, at + |CodeE(c, at)| + 2);
      if n.Some? {
        NoLabel(n.value, at + |CodeE(c, at)| + 2 + |CodeS(y, at + |CodeE(c, at)| + 2)| + 2);
      }
    case While(c, b) => NoLabel(b, at + |CodeTest(Some(c), at)|);
    case Do(b, _) => NoLabel(b, at);
    case For(start, test, _, b) =>
      var top := at + |CodeO(start, at)|;
      if start.Some? {
        NoLabel(start.value, at);
      }
      NoLabel(b, top + |CodeTest(test, top)|);
    case _ =>
  }

  lemma {:induction false} NoLabelList(ss: seq<Stmt>, at: nat)
    requires forall i :: 0 <= i < |ss| ==> Structured(ss[i])
    ensures FirstLabelList(ss, at) == None
    decreases ss, 0
  {
    if ss != [] {
      var before := ss[..|ss| - 1];
      NoLabelList(before, at);
      NoLabel(ss[|ss| - 1], at + |CodeList(before, at)|);
    }
  }

  lemma {:induction false} ListRuns(
    ss: seq<Stmt>, i: nat, memory: seq<int>, at: nat, st: State, g: Targets, fuel: nat)
    requires i <= |ss| && st.pc == Offset(ss, i, at)
    requires forall k :: 0 <= k < |ss| ==> Structured(ss[k])
    requires Stands(memory, at, CodeList(ss, at), g)
    ensures Meets(memory, st, st.stack, ExecList(ss, i, st.data, fuel), at + |CodeList(ss, at)|, g, fuel)
    decreases fuel, ss, |ss| - i
  {
    hide Stands, CodeS, CodeList, Exec, Structured, Loaded;
    if i == |ss| {
      assert ss[..i] == ss && [] + st.stack == st.stack;
      ReachesSelf(Loaded(memory), st);
    } else {
      StandsItem(memory, at, ss, i, g);
      var g' := g.(next := LabelFrom(ss, i + 1, at, g.next));
      StmtRuns(ss[i], memory, st, g', fuel);
      var r := Exec(ss[i], st.data, fuel);
      if r.Done? && r.out.Normal? {
        var u := State(Offset(ss, i + 1, at), r.left + st.stack, r.data);
        ListRuns(ss, i + 1, memory, at, u, g, fuel);
        var rest := ExecList(ss, i + 1, r.data, fuel);
        MeetsThen(memory, st, u, u.stack, rest, at + |CodeList(ss, at)|, g, fuel);
        MeetsAbove(memory, st, r.left, st.stack, rest, at + |CodeList(ss, at)|, g, fuel);
      }
    }
  }

  // ---------------------------------------------------------------- loops

  /** Code of the test of a loop whose exit is known. */
  function TestCode(test: Option<Expr>, at: nat, end: nat): seq<int> {
    if test.Some? then CodeE(test.value, at) + [IC_BE0, end] else []
  }

  /** Addresses of a while or for loop. */
  datatype Layout = Layout(top: nat, body: nat, after: nat, cont: nat, end: nat)

  /** The parts of a loop stand in the memory; a continue goes on after the body, or to a test with nothing between. */
  ghost predicate LoopStands(
    memory: seq<int>, test: Option<Expr>, b: Stmt, next: Option<Expr>, l: Layout, g: Targets) {
    && Has(memory, l.top, TestCode(test, l.top, l.end))
    && l.body == l.top + |TestCode(test, l.top, l.end)|
    && Stands(memory, l.body, CodeS(b, l.body), g.(breaks := l.end, conts := l.cont))
    && l.after == l.body + |CodeS(b, l.body)|
    && Has(memory, l.after, CodeNext(next, l.after) + [IC_B, l.top])
    && l.end == l.after + |CodeNext(next, l.after)| + 2
    && (l.cont == l.after || (l.cont == l.top && test.Some? && next.None?))
  }

  lemma TestRuns(test: Option<Expr>, memory: seq<int>, st: State, end: nat)
    requires FitsO(test) && Has(memory, st.pc, TestCode(test, st.pc, end))
    ensures
      match EvalTest(test, st.data)
      case None => Faults(memory, st)
      case Some((v, d)) =>
        Reaches(Loaded(memory), st, State(if v == 0 then end else st.pc + |TestCode(test, st.pc, end)|, st.stack, d))
  {
    hide Eval, CodeE, Clean;
    if test.Some? {
      HasJoin(memory, st.pc, CodeE(test.value, st.pc), [IC_BE0, end]);
      CondRuns(test.value, memory, st, end);
    } else {
      ReachesSelf(Loaded(memory), st);
    }
  }

  /** The increment of a loop and the jump to its top. */
  lemma NextRuns(next: Option<Expr>, memory: seq<int>, st: State, top: nat)
    requires next.Some? ==> Clean(next.value) && VoidFits(next.value)
    requires Has(memory, st.pc, CodeNext(next, st.pc) + [IC_B, top])
    ensures
      match EvalNext(next, st.data)
      case None => Faults(memory, st)
      case Some((left, d)) => Advances(Loaded(memory), st, State(top, left + st.stack, d))
  {
    hide EvalVoid, CodeV, Clean;
    var c := CodeNext(next, st.pc);
    HasJoin(memory, st.pc, c, [IC_B, top]);
    if next.Some? {
      VoidRuns(next.value, memory, st);
    } else {
      NullRuns(memory, st);
    }
    var v := EvalNext(next, st.data);
    if v.Some? {
      var x := State(st.pc + |c|, v.value.0 + st.stack, v.value.1);
      RunsJump(memory, x, top);
      AdvancesStep(Loaded(memory), x, x.(pc := top));
      AdvancesTrans(Loaded(memory), st, x, x.(pc := top));
    }
  }

  /** The end of a turn: from the body to the top of the loop. */
  lemma TurnEnds(test: Option<Expr>, b: Stmt, next: Option<Expr>, memory: seq<int>, st: State, w: State, x: State, l: Layout, g: Targets)
    requires next.Some? ==> Clean(next.value) && VoidFits(next.value)
    requires st.pc == l.top && w.pc == l.body && LoopStands(memory, test, b, next, l, g)
    requires Reaches(Loaded(memory), st, w) && Reaches(Loaded(memory), w, x)
    requires x.pc == l.after || x.pc == l.cont
    ensures
      match EvalNext(next, x.data)
      case None => Faults(memory, st)
      case Some((left, d)) => Advances(Loaded(memory), st, State(l.top, left + x.stack, d))
  {
    hide Has, Stands, CodeS, CodeNext, CodeE;
    ReachesTrans(Loaded(memory), st, w, x);
    if x.pc == l.after {
      NextRuns(next, memory, x, l.top);
      match EvalNext(next, x.data)
      case None => FaultsAfter(memory, st, x);
      case Some((left, d)) =>
        AdvancesReaches(Loaded(memory), x, State(l.top, left + x.stack, d));
        AdvancesTrans(Loaded(memory), st, x, State(l.top, left + x.stack, d));
    } else {
      AdvancesElsewhere(Loaded(memory), st, w);
      AdvancesTrans(Loaded(memory), st, w, x);
      assert [] + x.stack == x.stack;
    }
  }

  /** A loop that goes on from its top after one turn. */
  lemma LoopGoesOn(memory: seq<int>, st: State, u: State, left: seq<int>, rest: Result, end: nat, g: Targets, fuel: nat)
    requires fuel > 0 && Advances(Loaded(memory), st, u) && u.stack == left + st.stack
    requires Meets(memory, u, u.stack, rest, end, g, fuel - 1)
    ensures Meets(memory, st, st.stack, Above(rest, left), end, g, fuel)
  {
    AdvancesReaches(Loaded(memory), st, u);
    if rest.OutOfFuel? {
      OutrunsAdvanced(Loaded(memory), st, u, fuel - 1);
    } else {
      MeetsThen(memory, st, u, u.stack, rest, end, g, fuel - 1);
      MeetsAbove(memory, st, left, st.stack, rest, end, g, fuel);
    }
  }

  /** All turns of a loop. */
  lemma {:induction false} LoopRuns(
    test: Option<Expr>, b: Stmt, next: Option<Expr>, memory: seq<int>, st: State, l: Layout, g: Targets, fuel: nat)
    requires FitsO(test) && Structured(b) && (next.Some? ==> Clean(next.value) && VoidFits(next.value))
    requires st.pc == l.top && LoopStands(memory, test, b, next, l, g)
    ensures Meets(memory, st, st.stack, ExecLoop(test, b, next, st.data, fuel), l.end, g, fuel)
    decreases fuel, b, 4
  {
    hide Exec, EvalTest, EvalNext, CodeS, Structured, Stands, Has, Clean, VoidFits, LoopStands, FitsO, TestCode, Loaded;
    LoopFront(memory, test, b, next, l, g);
    TestRuns(test, memory, st, l.end);
    var v := EvalTest(test, st.data);
    if v.Some? && v.value.0 == 0 {
      assert [] + st.stack == st.stack;
    } else if v.Some? {
      var w := State(l.body, st.stack, v.value.1);
      var g' := g.(breaks := l.end, conts := l.cont);
      StmtRuns(b, memory, w, g', fuel);
      var r := Exec(b, w.data, fuel);
      if r.Done? && (r.out.Normal? || r.out.Continued?) {
        TurnGoesOn(test, b, next, memory, st, w, r, l, g, fuel);
      } else {
        LoopLeft(memory, st, w, r, l, g, fuel);
      }
    }
  }

  /** After a turn that ends normally or continues, the loop goes on. */
  lemma {:induction false} TurnGoesOn(
    test: Option<Expr>, b: Stmt, next: Option<Expr>, memory: seq<int>, st: State, w: State, r: Result,
    l: Layout, g: Targets, fuel: nat)
    requires FitsO(test) && Structured(b) && (next.Some? ==> Clean(next.value) && VoidFits(next.value))
    requires st.pc == l.top && w.pc == l.body && LoopStands(memory, test, b, next, l, g)
    requires Reaches(Loaded(memory), st, w) && r.Done? && (r.out.Normal? || r.out.Continued?)
    requires
      var x := State(if r.out.Normal? then l.after else l.cont, r.left + st.stack, r.data);
      Reaches(Loaded(memory), w, x)
    ensures
      match EvalNext(next, r.data)
      case None => Faults(memory, st)
      case Some((left, d)) =>
        fuel > 0 ==> Meets(memory, st, st.stack, Above(ExecLoop(test, b, next, d, fuel - 1), left + r.left), l.end, g, fuel)
    decreases fuel, b, 3
  {
    hide Exec, ExecLoop, EvalNext, CodeS, Structured, Stands, Has, Clean, VoidFits, LoopStands, FitsO, TestCode, Meets, Above;
    var x := State(if r.out.Normal? then l.after else l.cont, r.left + st.stack, r.data);
    TurnEnds(test, b, next, memory, st, w, x, l, g);
    if EvalNext(next, r.data).Some? && fuel > 0 {
      var (left, d) := EvalNext(next, r.data).value;
      var u := State(l.top, left + x.stack, d);
      LoopRuns(test, b, next, memory, u, l, g, fuel - 1);
      assert u.stack == (left + r.left) + st.stack;
      LoopGoesOn(memory, st, u, left + r.left, ExecLoop(test, b, next, d, fuel - 1), l.end, g, fuel);
    }
  }

  lemma LoopFront(memory: seq<int>, test: Option<Expr>, b: Stmt, next: Option<Expr>, l: Layout, g: Targets)
    requires LoopStands(memory, test, b, next, l, g)
    ensures Has(memory, l.top, TestCode(test, l.top, l.end))
    ensures l.body == l.top + |TestCode(test, l.top, l.end)| && l.after == l.body + |CodeS(b, l.body)|
    ensures Stands(memory, l.body, CodeS(b, l.body), g.(breaks := l.end, conts := l.cont))
  {
  }

  /** A turn that leaves the loop. */
  lemma LoopLeft(memory: seq<int>, st: State, w: State, r: Result, l: Layout, g: Targets, fuel: nat)
    requires Reaches(Loaded(memory), st, w) && w.stack == st.stack
    requires !r.Done? || r.out.Broke? || r.out.Returned?
    requires Meets(memory, w, w.stack, r, l.after, g.(breaks := l.end, conts := l.cont), fuel)
    ensures Meets(memory, st, st.stack, if r.Done? && r.out.Broke? then r.(out := Normal) else r, l.end, g, fuel)
  {
    MeetsThen(memory, st, w, w.stack, r, l.after, g.(breaks := l.end, conts := l.cont), fuel);
  }

  lemma {:induction false} WhileRuns(s: Stmt, memory: seq<int>, st: State, g: Targets, fuel: nat)
    requires s.While? && Structured(s) && Stands(memory, st.pc, CodeS(s, st.pc), g)
    ensures Meets(memory, st, st.stack, Exec(s, st.data, fuel), st.pc + |CodeS(s, st.pc)|, g, fuel)
    decreases fuel, s, 2
  {
    hide Clean, Eval, EvalVoid, CodeE, Stands, Has, Close, ExecLoop, CodeTest, Vals, Meets;
    var at := st.pc;
    var test := Some(s.cond);
    var t := CodeTest(test, at);
    var body := CodeS(s.loop, at + |t|);
    var l := Layout(at, at + |t|, at + |t| + |body|, at, at + |t| + |body| + 2);
    assert [] + [IC_B, at] == [IC_B, at];
    LoopParts(memory, test, s.loop, None, l, g);
    LoopRuns(test, s.loop, None, memory, st, l, g, fuel);
  }

  /** The code of a loop is laid out as a loop. */
  lemma LoopParts(memory: seq<int>, test: Option<Expr>, b: Stmt, next: Option<Expr>, l: Layout, g: Targets)
    requires
      var t := CodeTest(test, l.top);
      var body := CodeS(b, l.top + |t|);
      && l.body == l.top + |t| && l.after == l.body + |body| && l.end == l.after + |CodeNext(next, l.after)| + 2
      && (l.cont == l.after || (l.cont == l.top && test.Some? && next.None?))
      && Stands(memory, l.top,
                Close(Close(t + body, ContinueHole, l.cont) + Vals(CodeNext(next, l.after) + [IC_B, l.top]), BreakHole, l.end), g)
    ensures LoopStands(memory, test, b, next, l, g)
  {
    hide Stands, CodeS, CodeE, Has, Close, CodeNext;
    var t := CodeTest(test, l.top);
    var body := CodeS(b, l.body);
    var g' := g.(breaks := l.end, conts := l.cont);
    StandsLoop(memory, l.top, t + body, l.cont, CodeNext(next, l.after) + [IC_B, l.top], l.end, g);
    StandsJoin(memory, l.top, t, body, g');
    TestStands(memory, test, l.top, g');
  }

  lemma TestStands(memory: seq<int>, test: Option<Expr>, at: nat, g: Targets)
    requires Stands(memory, at, CodeTest(test, at), g)
    ensures Has(memory, at, TestCode(test, at, g.breaks))
    ensures |TestCode(test, at, g.breaks)| == |CodeTest(test, at)|
  {
    if test.Some? {
      StandsTest(memory, at, test.value, g);
    }
  }

  /** Addresses of a for loop that starts, after its initialization, at the given address. */
  function ForLayout(s: Stmt, top: nat): Layout
    requires s.For?
  {
    var body := top + |CodeTest(s.test, top)|;
    var after := body + |CodeS(s.loop, body)|;
    Layout(top, body, after, after, after + |CodeNext(s.next, after)| + 2)
  }

  lemma ForParts(s: Stmt, memory: seq<int>, at: nat, g: Targets)
    requires s.For? && Structured(s) && Stands(memory, at, CodeS(s, at), g)
    ensures
      var top := at + |CodeO(s.start, at)|;
      var l := ForLayout(s, top);
      && Stands(memory, at, CodeO(s.start, at), g)
      && LoopStands(memory, s.test, s.loop, s.next, l, g)
      && l.end == at + |CodeS(s, at)|
  {
    hide Clean, CodeS, CodeO, FirstLabel, FirstLabelO, CodeE, Stands, Has, Close, CodeNext, CodeTest, VoidFits;
    ShapeFor(s, at);
    var init := CodeO(s.start, at);
    var top := at + |init|;
    var l := ForLayout(s, top);
    var t, body, step := CodeTest(s.test, top), CodeS(s.loop, l.body), CodeNext(s.next, l.after);
    NoLabel(s.loop, l.body);
    StandsJoin(memory, at, init, ForCells(t, body, step, top), g);
    LoopParts(memory, s.test, s.loop, s.next, l, g);
  }

  lemma {:induction false} ForRuns(s: Stmt, memory: seq<int>, st: State, g: Targets, fuel: nat)
    requires s.For? && Structured(s) && Stands(memory, st.pc, CodeS(s, st.pc), g)
    ensures Meets(memory, st, st.stack, Exec(s, st.data, fuel), st.pc + |CodeS(s, st.pc)|, g, fuel)
    decreases fuel, s, 2
  {
    hide Clean, Stands, CodeS, VoidFits, LoopStands, ForLayout, ExecLoop, Loaded;
    var top := st.pc + |CodeO(s.start, st.pc)|;
    var l := ForLayout(s, top);
    ForParts(s, memory, st.pc, g);
    ForTop(s, top);
    if s.start.None? {
      LoopRuns(s.test, s.loop, s.next, memory, st, l, g, fuel);
    } else {
      StmtRuns(s.start.value, memory, st, g, fuel);
      var r := Exec(s.start.value, st.data, fuel);
      if r.Done? && r.out.Normal? {
        var u := State(top, r.left + st.stack, r.data);
        LoopRuns(s.test, s.loop, s.next, memory, u, l, g, fuel);
        var rest := ExecLoop(s.test, s.loop, s.next, r.data, fuel);
        MeetsThen(memory, st, u, u.stack, rest, l.end, g, fuel);
        MeetsAbove(memory, st, r.left, st.stack, rest, l.end, g, fuel);
      }
    }
  }

  lemma ForTop(s: Stmt, top: nat)
    requires s.For?
    ensures ForLayout(s, top).top == top
  {
  }

  lemma DoParts(s: Stmt, memory: seq<int>, at: nat, g: Targets)
    requires s.Do? && Structured(s) && Stands(memory, at, CodeS(s, at), g)
    ensures
      var k := at + |CodeS(s.loop, at)|;
      var t := CodeE(s.cond, k);
      var end := k + |t| + 2;
      && end == at + |CodeS(s, at)|
      && Stands(memory, at, CodeS(s.loop, at), g.(breaks := end, conts := k))
      && Has(memory, k, t) && Has(memory, k + |t|, [IC_BNE0, at])
  {
    hide Clean, CodeE, Stands, Has, Close, Vals;
    var body := CodeS(s.loop, at);
    var k := at + |body|;
    var t := CodeE(s.cond, k);
    StandsLoop(memory, at, body, k, t + [IC_BNE0, at], k + |t| + 2, g);
    HasJoin(memory, k, t, [IC_BNE0, at]);
  }

  lemma {:induction false} DoRuns(s: Stmt, memory: seq<int>, st: State, g: Targets, fuel: nat)
    requires s.Do? && Structured(s) && Stands(memory, st.pc, CodeS(s, st.pc), g)
    ensures Meets(memory, st, st.stack, Exec(s, st.data, fuel), st.pc + |CodeS(s, st.pc)|, g, fuel)
    decreases fuel, s, 2
  {
    hide Clean, Eval, CodeE, CodeS, Stands, Has, Loaded, EvalVoid, ExecList, ExecItems, ExecLoop, ExecDecls;
    DoParts(s, memory, st.pc, g);
    var at := st.pc;
    var k := at + |CodeS(s.loop, at)|;
    var end := k + |CodeE(s.cond, k)| + 2;
    StmtRuns(s.loop, memory, st, g.(breaks := end, conts := k), fuel);
    var r := Exec(s.loop, st.data, fuel);
    if r.Done? && (r.out.Normal? || r.out.Continued?) {
      var w := State(k, r.left + st.stack, r.data);
      DoTestRuns(s.cond, memory, st, w, at);
      if Eval(s.cond, r.data).Some? {
        var (v, d) := Eval(s.cond, r.data).value;
        if v != 0 && fuel > 0 {
          var u := State(at, w.stack, d);
          DoRuns(s, memory, u, g, fuel - 1);
          LoopGoesOn(memory, st, u, r.left, Exec(s, d, fuel - 1), end, g, fuel);
        }
      }
    }
  }

  /** The test at the end of a do loop. */
  lemma DoTestRuns(c: Expr, memory: seq<int>, st: State, w: State, at: nat)
    requires Clean(c) && Has(memory, w.pc, CodeE(c, w.pc)) && Has(memory, w.pc + |CodeE(c, w.pc)|, [IC_BNE0, at])
    requires Reaches(Loaded(memory), st, w)
    ensures
      match Eval(c, w.data)
      case None => Faults(memory, st)
      case Some((v, d)) =>
        if v == 0 then Reaches(Loaded(memory), st, State(w.pc + |CodeE(c, w.pc)| + 2, w.stack, d))
        else Advances(Loaded(memory), st, State(at, w.stack, d))
  {
    hide Eval, CodeE, Clean, Has;
    ExprRuns(c, memory, w);
    match Eval(c, w.data)
    case None => FaultsAfter(memory, st, w);
    case Some((v, d)) =>
      var x := State(w.pc + |CodeE(c, w.pc)|, [v] + w.stack, d);
      var u := State(if v == 0 then x.pc + 2 else at, w.stack, d);
      RunsBranch(memory, x, IC_BNE0, at);
      assert x.stack[1..] == w.stack;
      ReachesTrans(Loaded(memory), st, w, x);
      ReachesTrans(Loaded(memory), st, x, u);
      AdvancesElsewhere(Loaded(memory), x, u) by { assert |x.stack| == |u.stack| + 1; }
      AdvancesTrans(Loaded(memory), st, x, u);
  }

  // ---------------------------------------------------------------- switches

  lemma SwitchParts(s: Stmt, memory: seq<int>, at: nat, g: Targets)
    requires s.Switch? && Structured(s) && Stands(memory, at, CodeS(s, at), g)
    ensures
      var t := CodeE(s.cond, at);
      var items := s.cases.body;
      var end := at + |t| + |CodeList(items, at + |t|)|;
      && end == at + |CodeS(s, at)| && Clean(s.cond) && Has(memory, at, t)
      && (forall k :: 0 <= k < |items| ==> StructuredItem(items[k]))
      && Stands(memory, at + |t|, CodeList(items, at + |t|), g.(breaks := end, next := end))
  {
    hide CodeE, Clean, Has, Stands, Vals, StructuredItem;
    var t := CodeE(s.cond, at);
    StandsSwitch(memory, at, t, CodeS(s.cases, at + |t|), g);
  }

  lemma {:induction false} SwitchRuns(s: Stmt, memory: seq<int>, st: State, g: Targets, fuel: nat)
    requires s.Switch? && Structured(s) && Stands(memory, st.pc, CodeS(s, st.pc), g)
    ensures Meets(memory, st, st.stack, Exec(s, st.data, fuel), st.pc + |CodeS(s, st.pc)|, g, fuel)
    decreases fuel, s, 2
  {
    hide Clean, Eval, CodeE, CodeS, CodeList, Stands, Has, StructuredItem, ExecItems;
    SwitchParts(s, memory, st.pc, g);
    var at := st.pc + |CodeE(s.cond, st.pc)|;
    var items := s.cases.body;
    var end := at + |CodeList(items, at)|;
    ExprRuns(s.cond, memory, st);
    if Eval(s.cond, st.data).Some? {
      var (v, d) := Eval(s.cond, st.data).value;
      var u := State(at, [v] + st.stack, d);
      ListTop(items, at);
      ItemsRun(items, 0, memory, at, u, [v], st.stack, g.(breaks := end, next := end), fuel);
      MeetsThen(memory, st, u, st.stack, ExecItems(items, 0, [v], d, fuel), end, g.(breaks := end, next := end), fuel);
    }
  }

  lemma ListTop(ss: seq<Stmt>, at: nat)
    ensures Offset(ss, 0, at) == at
  {
  }

  /** The labels of a structured switch are its case and default items. */
  lemma {:induction false} LabelsAhead(ss: seq<Stmt>, i: nat, at: nat, next: nat)
    requires i <= |ss| && forall k :: 0 <= k < |ss| ==> StructuredItem(ss[k])
    ensures LabelFrom(ss, i, at, next) == if NextLabel(ss, i) == |ss| then next else Offset(ss, NextLabel(ss, i), at)
    decreases |ss|
  {
    hide CodeS, CodeList, Structured, StructuredItem, FirstLabel;
    if i < |ss| {
      var n := |ss| - 1;
      var p := Offset(ss, n, at);
      ItemLabel(ss[n], p);
      var next' := if IsLabel(ss[n]) then p else next;
      LabelsAhead(ss[..n], i, at, next');
      var j := NextLabel(ss[..n], i);
      NextLabelInit(ss, i);
      if j < n {
        assert ss[..n][..j] == ss[..j];
      }
    }
  }

  lemma NextLabelInit(ss: seq<Stmt>, i: nat)
    requires i < |ss|
    ensures
      var n := |ss| - 1;
      var j := NextLabel(ss[..n], i);
      NextLabel(ss, i) == if j < n || IsLabel(ss[n]) then j else |ss|
  {
    hide IsLabel, NextLabel;
    var n := |ss| - 1;
    var j, k := NextLabel(ss[..n], i), NextLabel(ss, i);
    assert forall m :: 0 <= m < n ==> ss[..n][m] == ss[m];
  }

  lemma ItemLabel(s: Stmt, at: nat)
    requires StructuredItem(s)
    ensures FirstLabel(s, at) == if IsLabel(s) then Some(at) else None
  {
    if !IsLabel(s) {
      NoLabel(s, at);
    }
  }

  lemma {:induction false} ItemsRun(
    ss: seq<Stmt>, i: nat, memory: seq<int>, at: nat, st: State, under: seq<int>, base: seq<int>, g: Targets, fuel: nat)
    requires i <= |ss| && st.pc == Offset(ss, i, at)
    requires under != [] && st.stack == under + base
    requires forall k :: 0 <= k < |ss| ==> StructuredItem(ss[k])
    requires Stands(memory, at, CodeList(ss, at), g) && g.next == at + |CodeList(ss, at)|
    ensures Meets(memory, st, base, ExecItems(ss, i, under, st.data, fuel), g.next, g, fuel)
    decreases fuel, ss, |ss| - i
  {
    hide Stands, CodeS, CodeList, Exec, Structured, StructuredItem, ExecItem;
    if i == |ss| {
      assert ss[..i] == ss;
      ReachesSelf(Loaded(memory), st);
    } else {
      StandsItem(memory, at, ss, i, g);
      LabelsAhead(ss, i + 1, at, g.next);
      var g' := g.(next := LabelFrom(ss, i + 1, at, g.next));
      ItemRuns(ss[i], memory, st, g', fuel);
      match ExecItem(ss[i], under[0], st.data, fuel)
      case Skipped(d) =>
        var j := NextLabel(ss, i + 1);
        var u := State(g'.next, st.stack, d);
        assert j == |ss| ==> ss[..j] == ss;
        ItemsRun(ss, j, memory, at, u, under, base, g, fuel);
        MeetsThen(memory, st, u, base, ExecItems(ss, j, under, d, fuel), g.next, g, fuel);
      case Ran(r) =>
        if r.Done? && r.out.Normal? {
          var u := State(Offset(ss, i + 1, at), r.left + st.stack, r.data);
          assert u.stack == (r.left + under) + base;
          ItemsRun(ss, i + 1, memory, at, u, r.left + under, base, g, fuel);
          MeetsThen(memory, st, u, base, ExecItems(ss, i + 1, r.left + under, r.data, fuel), g.next, g, fuel);
        } else {
          ItemEnds(memory, st, under, base, r, Offset(ss, i + 1, at), g, g', fuel);
        }
    }
  }

  /** An item that leaves the switch leaves the values below it too. */
  lemma ItemEnds(memory: seq<int>, st: State, under: seq<int>, base: seq<int>, r: Result, after: nat, g: Targets, g': Targets, fuel: nat)
    requires st.stack == under + base && g' == g.(next := g'.next)
    requires !(r.Done? && r.out.Normal?)
    requires Meets(memory, st, st.stack, r, after, g', fuel)
    ensures Meets(memory, st, base, if r.Done? then Above(r, under) else r, g.next, g, fuel)
  {
    MeetsAbove(memory, st, under, base, r, after, g', fuel);
  }

  /** One item of a switch: a case compares with the top of the stack and runs or moves to the next label. */
  lemma {:induction false} ItemRuns(s: Stmt, memory: seq<int>, st: State, g: Targets, fuel: nat)
    requires st.stack != [] && StructuredItem(s) && Stands(memory, st.pc, CodeS(s, st.pc), g)
    ensures
      match ExecItem(s, st.stack[0], st.data, fuel)
      case Skipped(d) => Reaches(Loaded(memory), st, State(g.next, st.stack, d))
      case Ran(r) => Meets(memory, st, st.stack, r, st.pc + |CodeS(s, st.pc)|, g, fuel)
    decreases fuel, s, 4
  {
    hide Exec, Eval, Clean, Stands, Meets, CodeE, Loaded;
    match s
    case Case(e, b) => CaseRuns(s, memory, st, g, fuel);
    case Default(b) => StmtRuns(b, memory, st, g, fuel);
    case _ => StmtRuns(s, memory, st, g, fuel);
  }

  lemma {:induction false} CaseRuns(s: Stmt, memory: seq<int>, st: State, g: Targets, fuel: nat)
    requires s.Case? && st.stack != [] && StructuredItem(s) && Stands(memory, st.pc, CodeS(s, st.pc), g)
    ensures
      match ExecItem(s, st.stack[0], st.data, fuel)
      case Skipped(d) => Reaches(Loaded(memory), st, State(g.next, st.stack, d))
      case Ran(r) => Meets(memory, st, st.stack, r, st.pc + |CodeS(s, st.pc)|, g, fuel)
    decreases fuel, s, 3
  {
    hide Exec, Eval, CodeE, Stands, Has, Clean;
    var test := CodeCase(s.tag, st.pc);
    var at := st.pc + |test|;
    NoLabel(s.labelled, at);
    StandsJoin(memory, st.pc, test, CodeS(s.labelled, at), g);
    StandsCase(memory, st.pc, s.tag, g);
    CompareRuns(s.tag, memory, st, g.next);
    if Eval(s.tag, st.data).Some? {
      var (v, d) := Eval(s.tag, st.data).value;
      if st.stack[0] == v {
        var u := State(at, st.stack, d);
        StmtRuns(s.labelled, memory, u, g, fuel);
        MeetsThen(memory, st, u, st.stack, Exec(s.labelled, d, fuel), at + |CodeS(s.labelled, at)|, g, fuel);
      }
    }
  }

  /** The test of a case label keeps the compared value on the stack. */
  lemma CompareRuns(e: Expr, memory: seq<int>, st: State, next: nat)
    requires Clean(e) && st.stack != []
    requires Has(memory, st.pc, [IC_DUPLICATE] + CodeE(e, st.pc + 1) + [IC_EQ, IC_BE0, next])
    ensures
      match Eval(e, st.data)
      case None => Faults(memory, st)
      case Some((v, d)) =>
        Reaches(Loaded(memory), st, State(if st.stack[0] == v then st.pc + |CodeE(e, st.pc + 1)| + 4 else next, st.stack, d))
  {
    hide Eval, CodeE, Has, Clean;
    var c := CodeE(e, st.pc + 1);
    var k := st.pc + 1 + |c|;
    HasJoin(memory, st.pc, [IC_DUPLICATE] + c, [IC_EQ, IC_BE0, next]);
    HasJoin(memory, st.pc, [IC_DUPLICATE], c);
    assert [IC_EQ] + [IC_BE0, next] == [IC_EQ, IC_BE0, next];
    HasJoin(memory, k, [IC_EQ], [IC_BE0, next]);
    RunsDuplicate(memory, st);
    var t := State(st.pc + 1, [st.stack[0]] + st.stack, st.data);
    ExprRuns(e, memory, t);
    match Eval(e, st.data)
    case None => FaultsAfter(memory, st, t);
    case Some((v, d)) =>
      var u := State(k, [v] + t.stack, d);
      ReachesTrans(Loaded(memory), st, t, u);
      EqualRuns(memory, st, u, next);
  }

  lemma EqualRuns(memory: seq<int>, st: State, u: State, next: nat)
    requires Reaches(Loaded(memory), st, u) && st.stack != []
    requires |u.stack| == |st.stack| + 2 && u.stack[1] == st.stack[0] && u.stack[2..] == st.stack
    requires Has(memory, u.pc, [BinaryCode(Eq)]) && Has(memory, u.pc + 1, [IC_BE0, next])
    ensures Reaches(Loaded(memory), st, State(if st.stack[0] == u.stack[0] then u.pc + 3 else next, st.stack, u.data))
  {
    hide Has;
    RunsBinary(memory, u, Eq);
    var r := if u.stack[1] == u.stack[0] then 1 else 0;
    var w := State(u.pc + 1, [r] + u.stack[2..], u.data);
    ReachesTrans(Loaded(memory), st, u, w);
    Tests(memory, st, w, next);
    assert w.stack[1..] == st.stack;
  }
}

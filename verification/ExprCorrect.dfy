/**
  * Code of expressions computes their values.
  */
module ExprCorrect {
  import opened Common
  import opened Ast
  import opened Arithmetic
  import opened Instructions
  import opened Codegen
  import opened Runs
  import opened Machine
  import opened Semantics

  /** The code stands in the memory at an address. */
  predicate Has(memory: seq<int>, at: nat, c: seq<int>) {
    at + |c| <= |memory| && memory[at..at + |c|] == c
  }

  lemma HasJoin(memory: seq<int>, at: nat, a: seq<int>, b: seq<int>)
    ensures Has(memory, at, a + b) <==> Has(memory, at, a) && Has(memory, at + |a|, b)
  {
    var c := a + b;
    if Has(memory, at, c) {
      assert memory[at..at + |a|] == memory[at..at + |c|][..|a|] == c[..|a|];
      assert memory[at + |a|..at + |a| + |b|] == memory[at..at + |c|][|a|..] == c[|a|..];
    }
    if Has(memory, at, a) && Has(memory, at + |a|, b) {
      assert memory[at..at + |c|] == memory[at..at + |a|] + memory[at + |a|..at + |a| + |b|];
    }
  }

  lemma HasCells(memory: seq<int>, at: nat, c: seq<int>)
    requires Has(memory, at, c)
    ensures forall i :: 0 <= i < |c| ==> memory[at + i] == c[i]
  {
    var part := memory[at..at + |c|];
    assert forall i :: 0 <= i < |c| ==> part[i] == memory[at + i];
  }

  // ---------------------------------------------------------------- single instructions

  lemma RunsUnary(memory: seq<int>, s: State, op: UnaryOp)
    requires Has(memory, s.pc, [UnaryCode(op)]) && s.stack != []
    ensures
      match ApplyUnary(op, s.stack[0])
      case Some(v) => Reaches(Loaded(memory), s, State(s.pc + 1, [v] + s.stack[1..], s.data))
      case None => Faults(memory, s)
  {
    HasCells(memory, s.pc, [UnaryCode(op)]);
    assert UnaryArithmeticCode(memory[s.pc]) == Some(op);
    Moves(memory, s);
  }

  /** A step that exists is a run, and a missing one is a fault. */
  lemma Moves(memory: seq<int>, s: State)
    requires s.pc < |memory| && !IsReturn(memory[s.pc])
    ensures
      match StepOnce(memory, s)
      case Some(t) => Reaches(Loaded(memory), s, t)
      case None => Faults(memory, s)
  {
    match StepOnce(memory, s)
    case Some(t) => ReachesStep(Loaded(memory), s, t);
    case None => FaultsAt(memory, s);
  }

  lemma RunsBinary(memory: seq<int>, s: State, op: BinaryOp)
    requires Has(memory, s.pc, [BinaryCode(op)]) && |s.stack| >= 2
    ensures
      match ApplyBinary(op, s.stack[1], s.stack[0])
      case Some(v) => Reaches(Loaded(memory), s, State(s.pc + 1, [v] + s.stack[2..], s.data))
      case None => Faults(memory, s)
  {
    hide ApplyBinary;
    HasCells(memory, s.pc, [BinaryCode(op)]);
    assert ArithmeticCode(memory[s.pc]) == Some(op);
    Moves(memory, s);
  }

  lemma RunsLiteral(memory: seq<int>, s: State, v: int)
    requires Has(memory, s.pc, [IC_LI, v])
    ensures Reaches(Loaded(memory), s, State(s.pc + 2, [v] + s.stack, s.data))
  {
    HasCells(memory, s.pc, [IC_LI, v]);
    assert memory[s.pc + 1] == v;
    Moves(memory, s);
  }

  lemma RunsLoad(memory: seq<int>, s: State, x: int)
    requires Has(memory, s.pc, [IC_LOAD, x])
    ensures Reaches(Loaded(memory), s, State(s.pc + 2, [Fetch(s.data, x)] + s.stack, s.data))
  {
    HasCells(memory, s.pc, [IC_LOAD, x]);
    assert memory[s.pc + 1] == x;
    Moves(memory, s);
  }

  lemma RunsStep(memory: seq<int>, s: State, code: int, op: StepOp, keeps: bool, x: int)
    requires SteppingCode(code) == Some((op, keeps)) && Has(memory, s.pc, [code, x])
    ensures
      var before := Fetch(s.data, x);
      match ApplyStep(op, before)
      case Some(after) =>
        var result := if IsPostfix(op) then before else after;
        Reaches(Loaded(memory), s, State(s.pc + 2, (if keeps then [result] else []) + s.stack, s.data[x := after]))
      case None => Faults(memory, s)
  {
    hide ApplyStep;
    HasCells(memory, s.pc, [code, x]);
    assert memory[s.pc + 1] == x;
    Moves(memory, s);
  }

  lemma RunsAssign(memory: seq<int>, s: State, code: int, op: AssignOp, keeps: bool, x: int)
    requires AssignmentCode(code) == Some((op, keeps)) && Has(memory, s.pc, [code, x]) && s.stack != []
    ensures
      match ApplyAssign(op, Fetch(s.data, x), s.stack[0])
      case Some(v) =>
        Reaches(Loaded(memory), s, State(s.pc + 2, (if keeps then [v] else []) + s.stack[1..], s.data[x := v]))
      case None => Faults(memory, s)
  {
    hide ApplyAssign;
    HasCells(memory, s.pc, [code, x]);
    assert memory[s.pc + 1] == x;
    Moves(memory, s);
  }

  lemma RunsDuplicate(memory: seq<int>, s: State)
    requires Has(memory, s.pc, [IC_DUPLICATE]) && s.stack != []
    ensures Reaches(Loaded(memory), s, State(s.pc + 1, [s.stack[0]] + s.stack, s.data))
  {
    HasCells(memory, s.pc, [IC_DUPLICATE]);
    Moves(memory, s);
  }

  lemma RunsJump(memory: seq<int>, s: State, target: nat)
    requires Has(memory, s.pc, [IC_B, target])
    ensures StepOnce(memory, s) == Some(s.(pc := target))
    ensures Reaches(Loaded(memory), s, s.(pc := target))
  {
    HasCells(memory, s.pc, [IC_B, target]);
    assert memory[s.pc + 1] == target;
    Moves(memory, s);
  }

  lemma RunsBranch(memory: seq<int>, s: State, code: int, target: nat)
    requires code == IC_BE0 || code == IC_BNE0
    requires Has(memory, s.pc, [code, target]) && s.stack != []
    ensures
      var taken := (code == IC_BE0) == (s.stack[0] == 0);
      Reaches(Loaded(memory), s, State(if taken then target else s.pc + 2, s.stack[1..], s.data))
  {
    HasCells(memory, s.pc, [code, target]);
    assert memory[s.pc + 1] == target;
    Moves(memory, s);
  }

  // ---------------------------------------------------------------- expressions

  /** The run pushes the given values, changes the variables as given, and ends at an address; or it faults. */
  ghost predicate Delivers(memory: seq<int>, s: State, r: Option<(seq<int>, Data)>, end: nat) {
    match r
    case Some((pushed, d)) => Reaches(Loaded(memory), s, State(end, pushed + s.stack, d))
    case None => Faults(memory, s)
  }

  function Pushed(r: Option<(int, Data)>): Option<(seq<int>, Data)> {
    match r
    case Some((v, d)) => Some(([v], d))
    case None => None
  }

  /** What a run delivers after it has arrived somewhere with the stack unchanged. */
  lemma Continues(memory: seq<int>, s: State, t: State, r: Option<(seq<int>, Data)>, end: nat)
    requires Reaches(Loaded(memory), s, t) && t.stack == s.stack && Delivers(memory, t, r, end)
    ensures Delivers(memory, s, r, end)
  {
    match r
    case Some((vs, d)) => ReachesTrans(Loaded(memory), s, t, State(end, vs + t.stack, d));
    case None => FaultsAfter(memory, s, t);
  }

  /** Applying an operator to the values on top of the stack. */
  lemma Applies(memory: seq<int>, s: State, t: State, r: Option<int>, keeps: bool, end: nat, d: Data)
    requires Reaches(Loaded(memory), s, t)
    requires match r
      case Some(v) => Reaches(Loaded(memory), t, State(end, (if keeps then [v] else []) + s.stack, d))
      case None => Faults(memory, t)
    ensures Delivers(memory, s, if r.Some? then Some((if keeps then [r.value] else [], d)) else None, end)
  {
    match r
    case Some(v) => ReachesTrans(Loaded(memory), s, t, State(end, (if keeps then [v] else []) + s.stack, d));
    case None => FaultsAfter(memory, s, t);
  }

  /**
    * The code of an expression pushes its value, updates the variables as the
    * expression does, and leaves the rest of the stack alone.
    */
  lemma {:induction false} ExprRuns(e: Expr, memory: seq<int>, s: State)
    requires Clean(e) && Has(memory, s.pc, CodeE(e, s.pc))
    ensures Delivers(memory, s, Pushed(Eval(e, s.data)), s.pc + |CodeE(e, s.pc)|)
    decreases e, 1
  {
    match e
    case Lit(v) => RunsLiteral(memory, s, v);
    case Var(x) => RunsLoad(memory, s, x);
    case Unary(_, _) => UnaryRuns(e, memory, s);
    case Step(op, x) => RunsStep(memory, s, StepCode(op), op, true, x);
    case Binary(op, _, _) =>
      if IsLogical(op) {
        LogicalRuns(e, memory, s);
      } else {
        ArithmeticRuns(e, memory, s);
      }
    case Comma(_, _) => CommaRuns(e, memory, s);
    case Ternary(_, _, _) => TernaryRuns(e, memory, s);
    case Assign(op, x, a) => AssignRuns(e, memory, s);
  }

  lemma {:induction false} UnaryRuns(e: Expr, memory: seq<int>, s: State)
    requires e.Unary? && Clean(e) && Has(memory, s.pc, CodeE(e, s.pc))
    ensures Delivers(memory, s, Pushed(Eval(e, s.data)), s.pc + |CodeE(e, s.pc)|)
    decreases e, 0
  {
    hide ApplyUnary, Loaded;
    var a := CodeE(e.operand, s.pc);
    HasJoin(memory, s.pc, a, [UnaryCode(e.uop)]);
    ExprRuns(e.operand, memory, s);
    if Eval(e.operand, s.data).Some? {
      var (v, d) := Eval(e.operand, s.data).value;
      var t := State(s.pc + |a|, [v] + s.stack, d);
      RunsUnary(memory, t, e.uop);
      assert t.stack[1..] == s.stack;
      Applies(memory, s, t, ApplyUnary(e.uop, v), true, t.pc + 1, d);
    }
  }

  lemma {:induction false} AssignRuns(e: Expr, memory: seq<int>, s: State)
    requires e.Assign? && Clean(e) && Has(memory, s.pc, CodeE(e, s.pc))
    ensures Delivers(memory, s, Pushed(Eval(e, s.data)), s.pc + |CodeE(e, s.pc)|)
    decreases e, 0
  {
    hide ApplyAssign, Loaded, Has, Dropped, CodeV, EvalVoid;
    AssignmentRuns(e, memory, s, AssignCode(e.aop), true);
  }

  /** An assignment with either version of its last instruction. */
  lemma {:induction false} AssignmentRuns(e: Expr, memory: seq<int>, s: State, code: int, keeps: bool)
    requires e.Assign? && Clean(e)
    requires AssignmentCode(code) == Some((e.aop, keeps))
    requires Has(memory, s.pc, CodeE(e.source, s.pc) + [code, e.dest])
    ensures Delivers(memory, s, if Eval(e, s.data).None? then None
                                else Some((if keeps then [Eval(e, s.data).value.0] else [], Eval(e, s.data).value.1)),
                     s.pc + |CodeE(e.source, s.pc)| + 2)
    decreases e.source, 2
  {
    hide ApplyAssign, Loaded, AssignmentCode;
    var a := CodeE(e.source, s.pc);
    HasJoin(memory, s.pc, a, [code, e.dest]);
    ExprRuns(e.source, memory, s);
    if Eval(e.source, s.data).Some? {
      var (v, d) := Eval(e.source, s.data).value;
      var t := State(s.pc + |a|, [v] + s.stack, d);
      RunsAssign(memory, t, code, e.aop, keeps, e.dest);
      assert t.stack[1..] == s.stack;
      var r := ApplyAssign(e.aop, Fetch(d, e.dest), v);
      Applies(memory, s, t, r, keeps, t.pc + 2, if r.Some? then d[e.dest := r.value] else d);
    }
  }

  lemma {:induction false} ArithmeticRuns(e: Expr, memory: seq<int>, s: State)
    requires e.Binary? && !IsLogical(e.bop) && Clean(e) && Has(memory, s.pc, CodeE(e, s.pc))
    ensures Delivers(memory, s, Pushed(Eval(e, s.data)), s.pc + |CodeE(e, s.pc)|)
    decreases e, 0
  {
    hide ApplyBinary, Loaded, Has, Dropped, CodeV, EvalVoid;
    var a := CodeE(e.left, s.pc);
    var b := CodeE(e.right, s.pc + |a|);
    HasJoin(memory, s.pc, a + b, [BinaryCode(e.bop)]);
    HasJoin(memory, s.pc, a, b);
    ExprRuns(e.left, memory, s);
    if Eval(e.left, s.data).Some? {
      var (v, d) := Eval(e.left, s.data).value;
      var t := State(s.pc + |a|, [v] + s.stack, d);
      SecondOperand(e, memory, s, t, v);
    }
  }

  /** The right operand of a binary operator and the operator itself. */
  lemma {:induction false} SecondOperand(e: Expr, memory: seq<int>, s: State, t: State, v: int)
    requires e.Binary? && Clean(e.right)
    requires Reaches(Loaded(memory), s, t) && t.stack == [v] + s.stack
    requires Has(memory, t.pc, CodeE(e.right, t.pc))
    requires Has(memory, t.pc + |CodeE(e.right, t.pc)|, [BinaryCode(e.bop)])
    ensures
      var r := Eval(e.right, t.data);
      var x := if r.None? then None else ApplyBinary(e.bop, v, r.value.0);
      Delivers(memory, s, if x.None? then None else Some(([x.value], r.value.1)), t.pc + |CodeE(e.right, t.pc)| + 1)
    decreases e.right, 2
  {
    hide ApplyBinary, Loaded;
    var b := CodeE(e.right, t.pc);
    ExprRuns(e.right, memory, t);
    match Eval(e.right, t.data)
    case None => FaultsAfter(memory, s, t);
    case Some((w, d)) =>
      var u := State(t.pc + |b|, [w] + t.stack, d);
      ReachesTrans(Loaded(memory), s, t, u);
      RunsBinary(memory, u, e.bop);
      assert u.stack[1] == v && u.stack[2..] == s.stack;
      Applies(memory, s, u, ApplyBinary(e.bop, v, w), true, u.pc + 1, d);
  }

  lemma {:induction false} LogicalRuns(e: Expr, memory: seq<int>, s: State)
    requires e.Binary? && IsLogical(e.bop) && Clean(e) && Has(memory, s.pc, CodeE(e, s.pc))
    ensures Delivers(memory, s, Pushed(Eval(e, s.data)), s.pc + |CodeE(e, s.pc)|)
    decreases e, 0
  {
    hide ApplyBinary, Loaded, Has, Dropped, CodeV, EvalVoid;
    var a := CodeE(e.left, s.pc);
    var b := CodeE(e.right, s.pc + |a| + 3);
    var jump := if e.bop == LogAnd then IC_BE0 else IC_BNE0;
    var end := s.pc + |a| + |b| + 4;
    HasJoin(memory, s.pc, a + [IC_DUPLICATE, jump, end] + b, [BinaryCode(e.bop)]);
    HasJoin(memory, s.pc, a + [IC_DUPLICATE, jump, end], b);
    HasJoin(memory, s.pc, a, [IC_DUPLICATE, jump, end]);
    ExprRuns(e.left, memory, s);
    if Eval(e.left, s.data).Some? {
      var (v, d) := Eval(e.left, s.data).value;
      var t := State(s.pc + |a|, [v] + s.stack, d);
      var u := State(if (e.bop == LogAnd) == (v == 0) then end else t.pc + 3, [v] + s.stack, d);
      ShortCircuits(memory, t, jump, end);
      ReachesTrans(Loaded(memory), s, t, u);
      if (e.bop == LogAnd) != (v == 0) {
        SecondOperand(e, memory, s, u, v);
      }
    }
  }

  /** The test between the operands of a logical operator keeps the left value. */
  lemma ShortCircuits(memory: seq<int>, t: State, jump: int, end: nat)
    requires jump == IC_BE0 || jump == IC_BNE0
    requires Has(memory, t.pc, [IC_DUPLICATE, jump, end]) && t.stack != []
    ensures
      var taken := (jump == IC_BE0) == (t.stack[0] == 0);
      Reaches(Loaded(memory), t, t.(pc := if taken then end else t.pc + 3))
  {
    assert [IC_DUPLICATE] + [jump, end] == [IC_DUPLICATE, jump, end];
    HasJoin(memory, t.pc, [IC_DUPLICATE], [jump, end]);
    RunsDuplicate(memory, t);
    var u := State(t.pc + 1, [t.stack[0]] + t.stack, t.data);
    RunsBranch(memory, u, jump, end);
    assert u.stack[1..] == t.stack;
    var taken := (jump == IC_BE0) == (t.stack[0] == 0);
    ReachesTrans(Loaded(memory), t, u, t.(pc := if taken then end else t.pc + 3));
  }

  lemma {:induction false} CommaRuns(e: Expr, memory: seq<int>, s: State)
    requires e.Comma? && Clean(e) && Has(memory, s.pc, CodeE(e, s.pc))
    ensures Delivers(memory, s, Pushed(Eval(e, s.data)), s.pc + |CodeE(e, s.pc)|)
    decreases e, 0
  {
    hide Loaded;
    var a := CodeV(e.first, s.pc);
    HasJoin(memory, s.pc, a, CodeE(e.second, s.pc + |a|));
    VoidRuns(e.first, memory, s);
    if EvalVoid(e.first, s.data).Some? {
      var (left, d) := EvalVoid(e.first, s.data).value;
      DropsAll(e.first, s.data);
      var t := State(s.pc + |a|, s.stack, d);
      assert left + s.stack == s.stack;
      ExprRuns(e.second, memory, t);
      Continues(memory, s, t, Pushed(Eval(e.second, d)), t.pc + |CodeE(e.second, t.pc)|);
    }
  }

  lemma {:induction false} DropsAll(e: Expr, d: Data)
    requires Drops(e) && EvalVoid(e, d).Some?
    ensures EvalVoid(e, d).value.0 == []
    decreases e
  {
    if e.Comma? {
      DropsTailAll(e, d);
    }
  }

  lemma {:induction false} DropsTailAll(e: Expr, d: Data)
    requires DropsTail(e) && EvalTail(e, d).Some?
    ensures EvalTail(e, d).value.0 == []
    decreases e
  {
    if e.Comma? {
      DropsTailAll(e.second, EvalVoid(e.first, d).value.1);
    }
  }

  lemma TernaryShape(e: Expr, at: nat)
    requires e.Ternary?
    ensures
      var t := CodeE(e.cond, at);
      var a := CodeE(e.yes, at + |t| + 2);
      var noAt := at + |t| + |a| + 4;
      var b := CodeE(e.no, noAt);
      var front := t + [IC_BE0, noAt] + a + [IC_B, noAt + |b|];
      CodeE(e, at) == front + b && Dropped(CodeE(e, at)) == front + Dropped(b)
  {
    hide CodeE, Dropped;
    var t := CodeE(e.cond, at);
    var a := CodeE(e.yes, at + |t| + 2);
    var noAt := at + |t| + |a| + 4;
    var b := CodeE(e.no, noAt);
    TernaryCode(e, at);
    DropsBehind(t + [IC_BE0, noAt] + a + [IC_B, noAt + |b|], b);
  }

  lemma TernaryMeans(e: Expr, d: Data)
    requires e.Ternary?
    ensures
      match Eval(e.cond, d)
      case None => Eval(e, d) == None && EvalTail(e, d) == None
      case Some((v, d1)) =>
        && Eval(e, d) == (if v != 0 then Eval(e.yes, d1) else Eval(e.no, d1))
        && EvalTail(e, d) == (if v != 0 then Pushed(Eval(e.yes, d1)) else EvalTail(e.no, d1))
  {
  }

  lemma {:induction false} TernaryRuns(e: Expr, memory: seq<int>, s: State)
    requires e.Ternary? && Clean(e) && Has(memory, s.pc, CodeE(e, s.pc))
    ensures Delivers(memory, s, Pushed(Eval(e, s.data)), s.pc + |CodeE(e, s.pc)|)
    decreases e, 0
  {
    hide Loaded, Has, Dropped, CodeE, Eval, EvalTail;
    TernaryShape(e, s.pc);
    TernaryMeans(e, s.data);
    var t := CodeE(e.cond, s.pc);
    var a := CodeE(e.yes, s.pc + |t| + 2);
    var noAt := s.pc + |t| + |a| + 4;
    var b := CodeE(e.no, noAt);
    BranchesHave(memory, s.pc, t, a, b);
    ExprRuns(e.cond, memory, s);
    if Eval(e.cond, s.data).Some? {
      var (v, d) := Eval(e.cond, s.data).value;
      var end := noAt + |b|;
      var t' := State(s.pc + |t|, [v] + s.stack, d);
      if v == 0 {
        ExprRuns(e.no, memory, State(noAt, s.stack, d));
        BranchesNo(memory, s, t', noAt, end, Pushed(Eval(e.no, d)));
      } else {
        ExprRuns(e.yes, memory, State(t'.pc + 2, s.stack, d));
        BranchesYes(memory, s, t', noAt, |a|, end, Pushed(Eval(e.yes, d)));
      }
    }
  }

  /** A jump after a delivery. */
  lemma JumpsOn(memory: seq<int>, s: State, r: Option<(seq<int>, Data)>, at: nat, target: nat)
    requires Delivers(memory, s, r, at) && Has(memory, at, [IC_B, target])
    ensures Delivers(memory, s, r, target)
  {
    if r.Some? {
      var t := State(at, r.value.0 + s.stack, r.value.1);
      RunsJump(memory, t, target);
      ReachesTrans(Loaded(memory), s, t, t.(pc := target));
    }
  }

  /** A branch on zero that consumes the tested value. */
  lemma Tests(memory: seq<int>, s: State, t: State, target: nat)
    requires Reaches(Loaded(memory), s, t) && t.stack != []
    requires Has(memory, t.pc, [IC_BE0, target])
    ensures Reaches(Loaded(memory), s, State(if t.stack[0] == 0 then target else t.pc + 2, t.stack[1..], t.data))
  {
    RunsBranch(memory, t, IC_BE0, target);
    ReachesTrans(Loaded(memory), s, t, State(if t.stack[0] == 0 then target else t.pc + 2, t.stack[1..], t.data));
  }

  /** The branch taken when the condition is not zero ends with a jump over the other. */
  lemma BranchesYes(memory: seq<int>, s: State, t: State, noAt: nat, n: nat, end: nat, r: Option<(seq<int>, Data)>)
    requires Reaches(Loaded(memory), s, t) && t.stack != [] && t.stack[0] != 0 && t.stack[1..] == s.stack
    requires Has(memory, t.pc, [IC_BE0, noAt]) && Has(memory, t.pc + 2 + n, [IC_B, end])
    requires Delivers(memory, State(t.pc + 2, s.stack, t.data), r, t.pc + 2 + n)
    ensures Delivers(memory, s, r, end)
  {
    hide Has;
    var u := State(t.pc + 2, s.stack, t.data);
    Tests(memory, s, t, noAt);
    JumpsOn(memory, u, r, t.pc + 2 + n, end);
    Continues(memory, s, u, r, end);
  }

  lemma BranchesNo(memory: seq<int>, s: State, t: State, noAt: nat, end: nat, r: Option<(seq<int>, Data)>)
    requires Reaches(Loaded(memory), s, t) && t.stack != [] && t.stack[0] == 0 && t.stack[1..] == s.stack
    requires Has(memory, t.pc, [IC_BE0, noAt])
    requires Delivers(memory, State(noAt, s.stack, t.data), r, end)
    ensures Delivers(memory, s, r, end)
  {
    hide Has;
    Tests(memory, s, t, noAt);
    Continues(memory, s, State(noAt, s.stack, t.data), r, end);
  }

  /** The parts of the code of a conditional expression. */
  lemma BranchesHave(memory: seq<int>, at: nat, t: seq<int>, a: seq<int>, b: seq<int>)
    requires
      var noAt := at + |t| + |a| + 4;
      Has(memory, at, t + [IC_BE0, noAt] + a + [IC_B, noAt + |b|] + b)
    ensures
      var noAt := at + |t| + |a| + 4;
      && Has(memory, at, t) && Has(memory, at + |t|, [IC_BE0, noAt])
      && Has(memory, at + |t| + 2, a) && Has(memory, noAt - 2, [IC_B, noAt + |b|]) && Has(memory, noAt, b)
  {
    var noAt := at + |t| + |a| + 4;
    HasJoin(memory, at, t + [IC_BE0, noAt] + a + [IC_B, noAt + |b|], b);
    HasJoin(memory, at, t + [IC_BE0, noAt] + a, [IC_B, noAt + |b|]);
    HasJoin(memory, at, t + [IC_BE0, noAt], a);
    HasJoin(memory, at, t, [IC_BE0, noAt]);
  }

  // ---------------------------------------------------------------- dropped results

  /** The code of an expression statement leaves exactly what EvalVoid says. */
  lemma {:induction false} VoidRuns(e: Expr, memory: seq<int>, s: State)
    requires Clean(e) && VoidFits(e) && Has(memory, s.pc, CodeV(e, s.pc))
    ensures Delivers(memory, s, EvalVoid(e, s.data), s.pc + |CodeV(e, s.pc)|)
    decreases e, 4
  {
    if e.Var? {
      ReachesSelf(Loaded(memory), s);
      assert [] + s.stack == s.stack;
    } else {
      TailRuns(e, memory, s);
    }
  }

  lemma {:induction false} TailRuns(e: Expr, memory: seq<int>, s: State)
    requires Clean(e) && TailFits(e) && Has(memory, s.pc, Dropped(CodeE(e, s.pc)))
    ensures Delivers(memory, s, EvalTail(e, s.data), s.pc + |CodeE(e, s.pc)|)
    decreases e, 3
  {
    hide Has, CodeV, Loaded, ApplyAssign, ApplyBinary, ApplyUnary;
    match e
    case Lit(v) =>
      var v' := if v < MIN_INSTRUCTION_CODE then v else ToVoid(v);
      assert Dropped([IC_LI, v]) == [IC_LI, v'];
      RunsLiteral(memory, s, v');
    case Var(_) => KeptTailRuns(e, memory, s);
    case Unary(_, _) => KeptTailRuns(e, memory, s);
    case Step(op, x) =>
      DropsOperand([], StepCode(op), x);
      RunsStep(memory, s, ToVoid(StepCode(op)), op, false, x);
    case Binary(_, _, _) => KeptTailRuns(e, memory, s);
    case Comma(_, _) => CommaTailRuns(e, memory, s);
    case Ternary(_, _, _) => TernaryTailRuns(e, memory, s);
    case Assign(_, _, _) => AssignTailRuns(e, memory, s);
  }

  /** Expressions whose last instruction has no version without a result. */
  lemma {:induction false} KeptTailRuns(e: Expr, memory: seq<int>, s: State)
    requires e.Var? || e.Unary? || e.Binary?
    requires Clean(e) && TailFits(e) && Has(memory, s.pc, Dropped(CodeE(e, s.pc)))
    ensures Delivers(memory, s, EvalTail(e, s.data), s.pc + |CodeE(e, s.pc)|)
    decreases e, 2
  {
    hide Eval, Has;
    TailKept(e, s.pc);
    ExprRuns(e, memory, s);
  }

  lemma TailKept(e: Expr, at: nat)
    requires (e.Var? && e.name < MIN_INSTRUCTION_CODE) || e.Unary? || e.Binary?
    ensures Dropped(CodeE(e, at)) == CodeE(e, at)
  {
    var c := CodeE(e, at);
    var n := |c| - 1;
    if e.Var? {
      DropsOperand([], IC_LOAD, e.name);
    } else {
      assert c[n] == if e.Unary? then UnaryCode(e.uop) else BinaryCode(e.bop);
      DropsNothing(c[..n], c[n]);
      assert c == c[..n] + [c[n]];
    }
  }

  lemma {:induction false} AssignTailRuns(e: Expr, memory: seq<int>, s: State)
    requires e.Assign? && Clean(e) && TailFits(e) && Has(memory, s.pc, Dropped(CodeE(e, s.pc)))
    ensures Delivers(memory, s, EvalTail(e, s.data), s.pc + |CodeE(e, s.pc)|)
    decreases e, 2
  {
    hide Has, ApplyAssign;
    DropsOperand(CodeE(e.source, s.pc), AssignCode(e.aop), e.dest);
    AssignmentRuns(e, memory, s, ToVoid(AssignCode(e.aop)), !HasVoidAssign(e.aop));
  }

  lemma DropsNothing(c: seq<int>, code: int)
    requires c != [] && code >= MIN_INSTRUCTION_CODE && !HasVoidVersion(code)
    ensures Dropped(c + [code]) == c + [code]
  {
  }

  lemma DropsOperand(c: seq<int>, code: int, x: int)
    requires x < MIN_INSTRUCTION_CODE
    ensures Dropped(c + [code, x]) == c + [ToVoid(code), x]
    ensures Dropped([code, x]) == [ToVoid(code), x]
  {
  }

  lemma DropsBehind(a: seq<int>, b: seq<int>)
    requires |b| >= 2
    ensures Dropped(a + b) == a + Dropped(b)
  {
  }

  lemma {:induction false} CommaTailRuns(e: Expr, memory: seq<int>, s: State)
    requires e.Comma? && Clean(e) && TailFits(e) && Has(memory, s.pc, Dropped(CodeE(e, s.pc)))
    ensures Delivers(memory, s, EvalTail(e, s.data), s.pc + |CodeE(e, s.pc)|)
    decreases e, 2
  {
    hide Loaded, Dropped, Has, Eval;
    var a := CodeV(e.first, s.pc);
    var b := CodeE(e.second, s.pc + |a|);
    DropsBehind(a, b);
    HasJoin(memory, s.pc, a, Dropped(b));
    VoidRuns(e.first, memory, s);
    if EvalVoid(e.first, s.data).Some? {
      var (left, d) := EvalVoid(e.first, s.data).value;
      DropsAll(e.first, s.data);
      var t := State(s.pc + |a|, s.stack, d);
      assert left + s.stack == s.stack;
      TailRuns(e.second, memory, t);
      Continues(memory, s, t, EvalTail(e.second, d), t.pc + |b|);
    }
  }

  lemma {:induction false} TernaryTailRuns(e: Expr, memory: seq<int>, s: State)
    requires e.Ternary? && Clean(e) && TailFits(e) && Has(memory, s.pc, Dropped(CodeE(e, s.pc)))
    ensures Delivers(memory, s, EvalTail(e, s.data), s.pc + |CodeE(e, s.pc)|)
    decreases e, 2
  {
    hide Loaded, Has, Dropped, CodeE, Eval, EvalTail;
    TernaryShape(e, s.pc);
    TernaryMeans(e, s.data);
    var t := CodeE(e.cond, s.pc);
    var a := CodeE(e.yes, s.pc + |t| + 2);
    var noAt := s.pc + |t| + |a| + 4;
    var b := CodeE(e.no, noAt);
    BranchesHave(memory, s.pc, t, a, Dropped(b));
    ExprRuns(e.cond, memory, s);
    if Eval(e.cond, s.data).Some? {
      var (v, d) := Eval(e.cond, s.data).value;
      var end := noAt + |b|;
      var t' := State(s.pc + |t|, [v] + s.stack, d);
      if v == 0 {
        TailRuns(e.no, memory, State(noAt, s.stack, d));
        BranchesNo(memory, s, t', noAt, end, EvalTail(e.no, d));
      } else {
        ExprRuns(e.yes, memory, State(t'.pc + 2, s.stack, d));
        BranchesYes(memory, s, t', noAt, |a|, end, Pushed(Eval(e.yes, d)));
      }
    }
  }
}

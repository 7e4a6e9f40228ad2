/**
  * What statements leave on the operand stack: the selectors of the switches that were
  * entered, and the values of the expression statements that could not drop them.
  */
module StackNeutral {
  import opened Common
  import opened Ast
  import opened Arithmetic
  import opened Machine
  import opened Instructions
  import opened Codegen
  import opened Semantics
  import opened ExprCorrect
  import IsoC

  // ------------------------------------------------------------ the last instruction

  /** An assignment that is a statement: its result is dropped, or its operand is taken for the instruction. */
  lemma AssignDrops(op: AssignOp, x: int, a: Expr, at: nat)
    ensures CodeV(Assign(op, x, a), at)
      == CodeE(a, at) + if x < MIN_INSTRUCTION_CODE then [ToVoid(AssignCode(op)), x] else [AssignCode(op), ToVoid(x)]
  {
    hide CodeE;
    var front := CodeE(a, at);
    AssignShape(op, x, a, at);
    if x < MIN_INSTRUCTION_CODE {
      DropsOperand(front, AssignCode(op), x);
    } else {
      DropsInstead(front, AssignCode(op), x);
    }
  }

  lemma AssignShape(op: AssignOp, x: int, a: Expr, at: nat)
    ensures CodeE(Assign(op, x, a), at) == CodeE(a, at) + [AssignCode(op), x]
  {
  }

  lemma DropsInstead(c: seq<int>, code: int, x: int)
    requires x >= MIN_INSTRUCTION_CODE
    ensures Dropped(c + [code, x]) == c + [code, ToVoid(x)]
    ensures Dropped([code, x]) == [code, ToVoid(x)]
  {
  }

  /** Such a statement loses its result exactly when there is a version without it and its cell is below the first instruction code. */
  lemma DropExactly(op: AssignOp, x: int, a: Expr, at: nat)
    ensures CodeV(Assign(op, x, a), at) == CodeE(a, at) + [AssignCode(op) + DISPL_TO_VOID, x]
      <==> HasVoidAssign(op) && x < MIN_INSTRUCTION_CODE
  {
    hide CodeE;
    var front := CodeE(a, at);
    var c := CodeV(Assign(op, x, a), at);
    AssignDrops(op, x, a, at);
    assert c[|front|] == if x < MIN_INSTRUCTION_CODE then ToVoid(AssignCode(op)) else AssignCode(op);
    assert (front + [AssignCode(op) + DISPL_TO_VOID, x])[|front|] == AssignCode(op) + DISPL_TO_VOID;
  }

  /** The same for increments and decrements. */
  lemma StepDropExactly(op: StepOp, x: int, at: nat)
    ensures CodeV(Step(op, x), at) == [StepCode(op) + DISPL_TO_VOID, x] <==> x < MIN_INSTRUCTION_CODE
  {
    if x < MIN_INSTRUCTION_CODE {
      DropsOperand([], StepCode(op), x);
    } else {
      DropsInstead([], StepCode(op), x);
      assert CodeV(Step(op, x), at)[0] == StepCode(op);
    }
  }

  /** The other compound assignments keep their result; from 9000 on it may go to another variable. */
  lemma OthersNeverDrop(op: AssignOp, x: int, a: Expr, at: nat)
    requires !HasVoidAssign(op)
    ensures CodeV(Assign(op, x, a), at) == CodeE(Assign(op, if x < MIN_INSTRUCTION_CODE then x else ToVoid(x), a), at)
    ensures CodeV(Assign(op, x, a), at) == CodeE(Assign(op, x, a), at) <==> !HasVoidVersion(x)
  {
    hide CodeE;
    var front := CodeE(a, at);
    var x' := if x < MIN_INSTRUCTION_CODE then x else ToVoid(x);
    AssignDrops(op, x, a, at);
    AssignShape(op, x, a, at);
    AssignShape(op, x', a, at);
    assert CodeV(Assign(op, x, a), at)[|front| + 1] == x';
    assert CodeE(Assign(op, x, a), at)[|front| + 1] == x;
  }

  /** The operand in the last cell of the code of an expression. */
  function TailOperand(e: Expr): Option<int> {
    match e
    case Lit(v) => Some(v)
    case Var(x) => Some(x)
    case Step(_, x) => Some(x)
    case Assign(_, x, _) => Some(x)
    case Comma(_, b) => TailOperand(b)
    case Ternary(_, _, b) => TailOperand(b)
    case _ => None
  }

  predicate LargeTail(e: Expr) {
    TailOperand(e).Some? && TailOperand(e).value >= MIN_INSTRUCTION_CODE
  }

  /** The expression with its last operand treated as an instruction. */
  function Retarget(e: Expr): Expr {
    match e
    case Lit(v) => Lit(ToVoid(v))
    case Var(x) => Var(ToVoid(x))
    case Step(op, x) => Step(op, ToVoid(x))
    case Assign(op, x, a) => Assign(op, ToVoid(x), a)
    case Comma(a, b) => Comma(a, Retarget(b))
    case Ternary(c, a, b) => Ternary(c, a, Retarget(b))
    case _ => e
  }

  /** With a large last operand the code of a statement is that of another expression. */
  lemma {:induction false} LargeOperand(e: Expr, at: nat)
    requires LargeTail(e)
    ensures Dropped(CodeE(e, at)) == CodeE(Retarget(e), at)
    decreases e
  {
    hide Dropped, CodeV;
    match e
    case Lit(v) => DropsInstead([], IC_LI, v);
    case Var(x) => DropsInstead([], IC_LOAD, x);
    case Step(op, x) => DropsInstead([], StepCode(op), x);
    case Assign(op, x, a) => DropsInstead(CodeE(a, at), AssignCode(op), x);
    case Comma(a, b) =>
      var l := CodeV(a, at);
      LargeOperand(b, at + |l|);
      DropsBehind(l, CodeE(b, at + |l|));
    case Ternary(_, _, _) => LargeTernary(e, at);
  }

  lemma {:induction false} LargeTernary(e: Expr, at: nat)
    requires e.Ternary? && LargeTail(e)
    ensures Dropped(CodeE(e, at)) == CodeE(Retarget(e), at)
    decreases e, 0
  {
    hide Dropped, CodeE, TailOperand;
    var t := CodeE(e.cond, at);
    var a := CodeE(e.yes, at + |t| + 2);
    TernaryShape(e, at);
    assert TailOperand(e) == TailOperand(e.no) by { TernaryOperand(e); }
    LargeOperand(e.no, at + |t| + |a| + 4);
    TernaryShape(Retarget(e), at);
  }

  lemma TernaryOperand(e: Expr)
    requires e.Ternary?
    ensures TailOperand(e) == TailOperand(e.no)
  {
  }

  lemma {:induction false} RetargetClean(e: Expr)
    requires Clean(e)
    ensures Clean(Retarget(e))
    decreases e
  {
    match e
    case Comma(_, b) => RetargetClean(b);
    case Ternary(_, _, b) => RetargetClean(b);
    case _ =>
  }

  // ------------------------------------------------------------ expression statements

  /** The path that the evaluation takes ends in an instruction that has a version without a result. */
  predicate EmptiesTail(e: Expr, d: Data) {
    match e
    case Step(_, _) => true
    case Assign(op, _, _) => HasVoidAssign(op)
    case Comma(a, b) => Eval(a, d).Some? && EmptiesTail(b, Eval(a, d).value.1)
    case Ternary(c, _, b) => Eval(c, d).Some? && Eval(c, d).value.0 == 0 && EmptiesTail(b, Eval(c, d).value.1)
    case _ => false
  }

  /** A lone variable, or a path that ends in such an instruction whose operand is not taken for an instruction. */
  predicate Empties(e: Expr, d: Data) {
    e.Var? || (!LargeTail(e) && EmptiesTail(e, d))
  }

  /** What any expression statement does, large displacements and literals included. */
  function EvalStatement(e: Expr, d: Data): Option<(seq<int>, Data)> {
    if e.Var? then Some(([], d))
    else
      match Eval(Retarget(e), d)
      case None => None
      case Some((v, d1)) => Some((if Empties(e, d) then [] else [v], d1))
  }

  lemma {:induction false} TailIs(e: Expr, d: Data)
    requires TailFits(e)
    ensures EvalTail(e, d) ==
      match Eval(Retarget(e), d)
      case None => None
      case Some((v, d1)) => Some((if !LargeTail(e) && EmptiesTail(e, d) then [] else [v], d1))
    decreases e
  {
    hide ApplyUnary, ApplyBinary, ApplyAssign, ApplyStep;
    match e
    case Comma(a, b) =>
      IsoC.VoidSame(a, d);
      if EvalVoid(a, d).Some? {
        TailIs(b, EvalVoid(a, d).value.1);
      }
    case Ternary(_, _, _) => TernaryTailIs(e, d);
    case _ =>
  }

  lemma {:induction false} TernaryTailIs(e: Expr, d: Data)
    requires e.Ternary? && TailFits(e)
    ensures EvalTail(e, d) ==
      match Eval(Retarget(e), d)
      case None => None
      case Some((v, d1)) => Some((if !LargeTail(e) && EmptiesTail(e, d) then [] else [v], d1))
    decreases e, 0
  {
    hide Eval, EvalTail;
    TernaryMeans(e, d);
    TernaryMeans(Retarget(e), d);
    if Eval(e.cond, d).Some? {
      TailIs(e.no, Eval(e.cond, d).value.1);
    }
  }

  /** The meaning of expression statements in the run theorems, exactly. */
  lemma VoidIs(e: Expr, d: Data)
    requires VoidFits(e)
    ensures EvalVoid(e, d) == EvalStatement(e, d)
  {
    hide Eval, EvalTail, EmptiesTail;
    if !e.Var? {
      TailIs(e, d);
    }
  }

  /**
    * The code of any expression statement leaves nothing if the evaluation takes a path
    * that `Empties` describes, and one value if not.
    */
  lemma StatementRuns(e: Expr, memory: seq<int>, s: State)
    requires Clean(e) && Has(memory, s.pc, CodeV(e, s.pc))
    ensures Delivers(memory, s, EvalStatement(e, s.data), s.pc + |CodeV(e, s.pc)|)
  {
    hide Eval, EvalTail, EvalVoid, EmptiesTail, Delivers, CodeE, Clean, Has, Retarget;
    if !e.Var? && LargeTail(e) {
      LargeOperand(e, s.pc);
      RetargetClean(e);
      ExprRuns(Retarget(e), memory, s);
    } else {
      SmallFits(e);
      VoidRuns(e, memory, s);
      VoidIs(e, s.data);
    }
  }

  lemma {:induction false} SmallFits(e: Expr)
    requires e.Var? || !LargeTail(e)
    ensures VoidFits(e)
  {
    if !e.Var? {
      SmallTailFits(e);
    }
  }

  lemma {:induction false} SmallTailFits(e: Expr)
    requires !LargeTail(e)
    ensures TailFits(e)
    decreases e
  {
    match e
    case Comma(_, b) => SmallTailFits(b);
    case Ternary(_, _, b) => SmallTailFits(b);
    case _ =>
  }

  // ---------------------------------------------------------------------- statements

  /** What is put on the stack to stay: the selector of a switch that is entered, or the value of a statement. */
  datatype Kept = Selector(value: int) | Value(value: int)

  /** Everything that a run keeps, in the order in which it happens. */
  function Trail(s: Stmt, d: Data, fuel: nat): seq<Kept>
    decreases fuel, s, 0
  {
    match s
    case Effect(e) => TrailE(e, d)
    case Block(ss) => TrailList(ss, 0, d, fuel)
    case If(c, y, n) =>
      (match Eval(c, d)
       case None => []
       case Some((v, d1)) =>
         if v != 0 then Trail(y, d1, fuel) else if n.Some? then Trail(n.value, d1, fuel) else [])
    case While(c, b) => TrailLoop(Some(c), b, None, d, fuel)
    case Do(b, c) =>
      var (t, r) := (Trail(b, d, fuel), Exec(b, d, fuel));
      if !r.Done? || r.out.Returned? || r.out.Broke? || Eval(c, r.data).None? then t
      else
        var (v, d1) := Eval(c, r.data).value;
        if v == 0 || fuel == 0 then t else t + Trail(s, d1, fuel - 1)
    case For(start, test, next, b) =>
      if start.None? then TrailLoop(test, b, next, d, fuel)
      else
        var (t, r) := (Trail(start.value, d, fuel), Exec(start.value, d, fuel));
        if !r.Done? || !r.out.Normal? then t else t + TrailLoop(test, b, next, r.data, fuel)
    case Switch(c, Block(items)) =>
      (match Eval(c, d)
       case None => []
       case Some((v, d1)) => [Selector(v)] + TrailItems(items, 0, v, d1, fuel))
    case _ => []
  }

  function TrailE(e: Expr, d: Data): seq<Kept> {
    match EvalVoid(e, d)
    case None => []
    case Some((left, _)) => if left == [] then [] else [Value(left[0])]
  }

  function TrailLoop(test: Option<Expr>, b: Stmt, next: Option<Expr>, d: Data, fuel: nat): seq<Kept>
    decreases fuel, b, 1
  {
    if EvalTest(test, d).None? || EvalTest(test, d).value.0 == 0 then []
    else
      var d1 := EvalTest(test, d).value.1;
      var (t, r) := (Trail(b, d1, fuel), Exec(b, d1, fuel));
      if !r.Done? || r.out.Returned? || r.out.Broke? || EvalNext(next, r.data).None? then t
      else
        var t' := t + if next.Some? then TrailE(next.value, r.data) else [];
        if fuel == 0 then t' else t' + TrailLoop(test, b, next, EvalNext(next, r.data).value.1, fuel - 1)
  }

  function TrailList(ss: seq<Stmt>, i: nat, d: Data, fuel: nat): seq<Kept>
    requires i <= |ss|
    decreases fuel, ss, |ss| - i
  {
    if i == |ss| then []
    else
      var (t, r) := (Trail(ss[i], d, fuel), Exec(ss[i], d, fuel));
      if !r.Done? || !r.out.Normal? then t else t + TrailList(ss, i + 1, r.data, fuel)
  }

  /** The items of a switch; a case label looks at what was kept last. */
  function TrailItems(ss: seq<Stmt>, i: nat, top: int, d: Data, fuel: nat): seq<Kept>
    requires i <= |ss|
    decreases fuel, ss, |ss| - i
  {
    if i == |ss| then []
    else
      match ExecItem(ss[i], top, d, fuel)
      case Skipped(d1) => TrailItems(ss, NextLabel(ss, i + 1), top, d1, fuel)
      case Ran(r) =>
        var t := TrailItem(ss[i], d, fuel);
        if !r.Done? || !r.out.Normal? then t
        else t + TrailItems(ss, i + 1, if t == [] then top else t[|t| - 1].value, r.data, fuel)
  }

  function TrailItem(s: Stmt, d: Data, fuel: nat): seq<Kept>
    decreases fuel, s, 1
  {
    match s
    case Case(e, b) => if Eval(e, d).None? then [] else Trail(b, Eval(e, d).value.1, fuel)
    case Default(b) => Trail(b, d, fuel)
    case _ => Trail(s, d, fuel)
  }

  /** The stack that a trail leaves: what was kept last is on top. */
  function Stack(t: seq<Kept>): (r: seq<int>)
    ensures |r| == |t|
    ensures forall i :: 0 <= i < |t| ==> r[i] == t[|t| - 1 - i].value
  {
    if t == [] then [] else [t[|t| - 1].value] + Stack(t[..|t| - 1])
  }

  lemma StackJoin(a: seq<Kept>, b: seq<Kept>)
    ensures Stack(a + b) == Stack(b) + Stack(a)
  {
  }

  /** The result leaves what the trail says, above what was on the stack before. */
  predicate Leaves(r: Result, t: seq<Kept>, under: seq<int>) {
    r.Done? ==> r.left == Stack(t) + under
  }

  lemma LeavesAfter(r: Result, t: seq<Kept>, before: seq<Kept>)
    requires Leaves(r, t, [])
    ensures Leaves(Above(r, Stack(before)), before + t, [])
  {
    StackJoin(before, t);
    assert Stack(t) + [] == Stack(t) && Stack(before + t) + [] == Stack(before + t);
  }

  /**
    * Whatever a statement does and however it ends, the stack holds above what was there
    * exactly the selectors of the switches entered and the values not dropped, the last on top.
    */
  lemma {:induction false} LeavesExactly(s: Stmt, d: Data, fuel: nat)
    ensures Leaves(Exec(s, d, fuel), Trail(s, d, fuel), [])
    decreases fuel, s, 2
  {
    hide Eval, EvalVoid, ExecLoop, ExecList, ExecItems, ExecDecls, TrailLoop, TrailList, TrailItems;
    match s
    case Effect(e) => EffectLeaves(e, d);
    case Block(ss) => ListLeaves(ss, 0, d, fuel);
    case If(c, y, n) =>
      if Eval(c, d).Some? {
        LeavesExactly(y, Eval(c, d).value.1, fuel);
        if n.Some? {
          LeavesExactly(n.value, Eval(c, d).value.1, fuel);
        }
      }
    case While(c, b) => LoopLeaves(Some(c), b, None, d, fuel);
    case Do(_, _) => DoLeaves(s, d, fuel);
    case For(_, _, _, _) => ForLeaves(s, d, fuel);
    case Switch(_, _) => SwitchLeaves(s, d, fuel);
    case _ =>
  }

  lemma EffectLeaves(e: Expr, d: Data)
    ensures Leaves(Exec(Effect(e), d, 0), TrailE(e, d), [])
    ensures EvalVoid(e, d).Some? ==> EvalVoid(e, d).value.0 == Stack(TrailE(e, d))
  {
    hide EvalVoid;
    if EvalVoid(e, d).Some? {
      AtMostOne(e, d);
    }
  }

  lemma {:induction false} AtMostOne(e: Expr, d: Data)
    requires EvalVoid(e, d).Some?
    ensures |EvalVoid(e, d).value.0| <= 1
  {
    if !e.Var? {
      TailAtMostOne(e, d);
    }
  }

  lemma {:induction false} TailAtMostOne(e: Expr, d: Data)
    requires EvalTail(e, d).Some?
    ensures |EvalTail(e, d).value.0| <= 1
    decreases e
  {
    match e
    case Comma(a, b) => TailAtMostOne(b, EvalVoid(a, d).value.1);
    case Ternary(c, _, b) =>
      if Eval(c, d).value.0 == 0 {
        TailAtMostOne(b, Eval(c, d).value.1);
      }
    case _ =>
  }

  lemma {:induction false} DoLeaves(s: Stmt, d: Data, fuel: nat)
    requires s.Do?
    ensures Leaves(Exec(s, d, fuel), Trail(s, d, fuel), [])
    decreases fuel, s, 1
  {
    hide Eval, EvalVoid, Leaves;
    LeavesExactly(s.loop, d, fuel);
    var (t, r) := (Trail(s.loop, d, fuel), Exec(s.loop, d, fuel));
    LeavesStack(r, t);
    if r.Done? && !r.out.Returned? && !r.out.Broke? && Eval(s.cond, r.data).Some? {
      var (v, d1) := Eval(s.cond, r.data).value;
      if v != 0 && fuel > 0 {
        DoLeaves(s, d1, fuel - 1);
        LeavesAfter(Exec(s, d1, fuel - 1), Trail(s, d1, fuel - 1), t);
      }
    }
  }

  lemma LeavesStack(r: Result, t: seq<Kept>)
    ensures Leaves(r, t, []) <==> (r.Done? ==> r.left == Stack(t))
    ensures Leaves(Undefined, t, []) && Leaves(OutOfFuel, t, [])
    ensures Leaves(r, t, []) && r.Done? ==> forall out, d :: Leaves(Done(out, r.left, d), t, [])
  {
    assert Stack(t) + [] == Stack(t);
  }

  lemma {:induction false} ForLeaves(s: Stmt, d: Data, fuel: nat)
    requires s.For?
    ensures Leaves(Exec(s, d, fuel), Trail(s, d, fuel), [])
    decreases fuel, s, 1
  {
    hide ExecLoop, TrailLoop, Leaves;
    if s.start.None? {
      LoopLeaves(s.test, s.loop, s.next, d, fuel);
    } else {
      LeavesExactly(s.start.value, d, fuel);
      var (t, r) := (Trail(s.start.value, d, fuel), Exec(s.start.value, d, fuel));
      LeavesStack(r, t);
      if r.Done? && r.out.Normal? {
        LoopLeaves(s.test, s.loop, s.next, r.data, fuel);
        LeavesAfter(ExecLoop(s.test, s.loop, s.next, r.data, fuel), TrailLoop(s.test, s.loop, s.next, r.data, fuel), t);
      }
    }
  }

  lemma {:induction false} LoopLeaves(test: Option<Expr>, b: Stmt, next: Option<Expr>, d: Data, fuel: nat)
    ensures Leaves(ExecLoop(test, b, next, d, fuel), TrailLoop(test, b, next, d, fuel), [])
    decreases fuel, b, 3
  {
    hide EvalTest, Eval, EvalVoid, Exec, Trail, TrailE, Leaves;
    LeavesStack(Done(Normal, [], d), []);
    if EvalTest(test, d).Some? && EvalTest(test, d).value.0 != 0 {
      var d1 := EvalTest(test, d).value.1;
      LeavesExactly(b, d1, fuel);
      var (t, r) := (Trail(b, d1, fuel), Exec(b, d1, fuel));
      LeavesStack(r, t);
      if r.Done? && !r.out.Returned? && !r.out.Broke? && EvalNext(next, r.data).Some? {
        var (left, d2) := EvalNext(next, r.data).value;
        var t' := if next.Some? then TrailE(next.value, r.data) else [];
        if next.Some? {
          EffectLeaves(next.value, r.data);
        }
        StackJoin(t, t');
        LeavesStack(OutOfFuel, t + t');
        if fuel > 0 {
          LoopLeaves(test, b, next, d2, fuel - 1);
          LeavesAfter(ExecLoop(test, b, next, d2, fuel - 1), TrailLoop(test, b, next, d2, fuel - 1), t + t');
        }
      }
    }
  }

  lemma {:induction false} ListLeaves(ss: seq<Stmt>, i: nat, d: Data, fuel: nat)
    requires i <= |ss|
    ensures Leaves(ExecList(ss, i, d, fuel), TrailList(ss, i, d, fuel), [])
    decreases fuel, ss, |ss| - i
  {
    hide Exec, Trail, Leaves;
    LeavesStack(Done(Normal, [], d), []);
    if i < |ss| {
      LeavesExactly(ss[i], d, fuel);
      var (t, r) := (Trail(ss[i], d, fuel), Exec(ss[i], d, fuel));
      LeavesStack(r, t);
      if r.Done? && r.out.Normal? {
        ListLeaves(ss, i + 1, r.data, fuel);
        LeavesAfter(ExecList(ss, i + 1, r.data, fuel), TrailList(ss, i + 1, r.data, fuel), t);
      }
    }
  }

  // ---------------------------------------------------------------------- switches

  lemma {:induction false} ItemLeaves(s: Stmt, top: int, d: Data, fuel: nat)
    ensures match ExecItem(s, top, d, fuel)
      case Ran(r) => Leaves(r, TrailItem(s, d, fuel), [])
      case Skipped(_) => true
    decreases fuel, s, 3
  {
    hide Exec, Eval, Trail, Leaves;
    LeavesStack(Undefined, []);
    match s
    case Case(e, b) =>
      if Eval(e, d).Some? {
        LeavesExactly(b, Eval(e, d).value.1, fuel);
      }
    case Default(b) => LeavesExactly(b, d, fuel);
    case _ => LeavesExactly(s, d, fuel);
  }

  lemma LeavesAbove(r: Result, t: seq<Kept>, before: seq<Kept>, under: seq<int>)
    ensures Leaves(r, t, []) ==> Leaves(Above(r, under), t, under)
    ensures Leaves(r, t, Stack(before) + under) ==> Leaves(r, before + t, under)
  {
    StackJoin(before, t);
    assert Stack(t) + [] == Stack(t);
    assert Stack(t) + (Stack(before) + under) == Stack(t) + Stack(before) + under;
  }

  lemma {:induction false} ItemsLeave(ss: seq<Stmt>, i: nat, under: seq<int>, d: Data, fuel: nat)
    requires i <= |ss| && under != []
    ensures Leaves(ExecItems(ss, i, under, d, fuel), TrailItems(ss, i, under[0], d, fuel), under)
    decreases fuel, ss, |ss| - i
  {
    hide ExecItem, TrailItem, Leaves;
    NothingLeft(under, d);
    if i < |ss| {
      ItemLeaves(ss[i], under[0], d, fuel);
      match ExecItem(ss[i], under[0], d, fuel)
      case Skipped(d1) => ItemsLeave(ss, NextLabel(ss, i + 1), under, d1, fuel);
      case Ran(r) =>
        var t := TrailItem(ss[i], d, fuel);
        LeavesStack(r, t);
        LeavesAbove(r, t, [], under);
        if r.Done? && r.out.Normal? {
          var under' := Stack(t) + under;
          assert under'[0] == if t == [] then under[0] else t[|t| - 1].value;
          ItemsLeave(ss, i + 1, under', r.data, fuel);
          LeavesAbove(ExecItems(ss, i + 1, under', r.data, fuel), TrailItems(ss, i + 1, under'[0], r.data, fuel), t, under);
        }
    }
  }

  lemma NothingLeft(under: seq<int>, d: Data)
    ensures Leaves(Done(Normal, under, d), [], under)
  {
  }

  lemma {:induction false} SwitchLeaves(s: Stmt, d: Data, fuel: nat)
    requires s.Switch?
    ensures Leaves(Exec(s, d, fuel), Trail(s, d, fuel), [])
    decreases fuel, s, 1
  {
    hide Eval, ExecItems, TrailItems;
    if s.cases.Block? && Eval(s.cond, d).Some? {
      var (v, d1) := Eval(s.cond, d).value;
      ItemsLeave(s.cases.body, 0, [v], d1, fuel);
      var t := TrailItems(s.cases.body, 0, v, d1, fuel);
      StackJoin([Selector(v)], t);
      assert Stack([Selector(v)]) == [v];
    }
  }

  /** After a switch its selector lies below whatever its groups have kept. */
  lemma SwitchLeavesSelector(s: Stmt, d: Data, fuel: nat)
    requires s.Switch? && s.cases.Block?
    ensures var r := Exec(s, d, fuel);
      r.Done? ==>
        && Eval(s.cond, d).Some?
        && var (v, d1) := Eval(s.cond, d).value; r.left == Stack(TrailItems(s.cases.body, 0, v, d1, fuel)) + [v]
  {
    hide Eval, ExecItems, TrailItems;
    if Eval(s.cond, d).Some? {
      var (v, d1) := Eval(s.cond, d).value;
      ItemsLeave(s.cases.body, 0, [v], d1, fuel);
    }
  }

  /** A statement leaves the stack as it was exactly when its run keeps nothing. */
  lemma NothingExactly(s: Stmt, d: Data, fuel: nat)
    requires Exec(s, d, fuel).Done?
    ensures Exec(s, d, fuel).left == [] <==> Trail(s, d, fuel) == []
  {
    hide Exec, Trail;
    LeavesExactly(s, d, fuel);
    LeavesStack(Exec(s, d, fuel), Trail(s, d, fuel));
  }

  /** Every expression statement drops its value on every path; switches may be allowed. */
  predicate Clear(s: Stmt, switches: bool) {
    match s
    case Effect(e) => Drops(e)
    case Block(ss) => forall i :: 0 <= i < |ss| ==> Clear(ss[i], switches)
    case If(_, y, n) => Clear(y, switches) && (n.Some? ==> Clear(n.value, switches))
    case While(_, b) => Clear(b, switches)
    case Do(b, _) => Clear(b, switches)
    case For(start, _, next, b) =>
      && (start.Some? ==> Clear(start.value, switches))
      && (next.Some? ==> Drops(next.value))
      && Clear(b, switches)
    case Switch(_, b) => switches && Clear(b, switches)
    case Case(_, b) => Clear(b, switches)
    case Default(b) => Clear(b, switches)
    case _ => true
  }

  predicate Selectors(t: seq<Kept>, switches: bool) {
    forall i :: 0 <= i < |t| ==> t[i].Selector? && switches
  }

  lemma SelectorsJoin(switches: bool)
    ensures Selectors([], switches)
    ensures forall a, b :: Selectors(a, switches) && Selectors(b, switches) ==> Selectors(a + b, switches)
  {
    forall a, b | Selectors(a, switches) && Selectors(b, switches) ensures Selectors(a + b, switches) {
      BothSelectors(a, b, switches);
    }
  }

  lemma BothSelectors(a: seq<Kept>, b: seq<Kept>, switches: bool)
    requires Selectors(a, switches) && Selectors(b, switches)
    ensures Selectors(a + b, switches)
  {
    forall i | 0 <= i < |a + b| ensures (a + b)[i].Selector? && switches {
      if i < |a| {
        assert (a + b)[i] == a[i];
      } else {
        assert (a + b)[i] == b[i - |a|];
      }
    }
  }

  lemma OneSelector(v: int)
    ensures Selectors([Selector(v)], true)
  {
  }

  lemma NoSelectors(t: seq<Kept>)
    ensures Selectors(t, false) ==> t == []
  {
    assert t != [] ==> t[0] in t;
  }

  lemma DropKeepsNothing(e: Expr, d: Data)
    requires Drops(e)
    ensures TrailE(e, d) == []
  {
    hide EvalVoid;
    if EvalVoid(e, d).Some? {
      DropsAll(e, d);
    }
  }

  /** Such a statement keeps selectors only. */
  lemma {:induction false} KeepsSelectors(s: Stmt, switches: bool, d: Data, fuel: nat)
    requires Clear(s, switches)
    ensures Selectors(Trail(s, d, fuel), switches)
    decreases fuel, s, 1
  {
    hide Eval, EvalVoid, ExecLoop, ExecList, ExecItems, ExecDecls, TrailLoop, TrailList, TrailItems, TrailE, Drops, Selectors;
    SelectorsJoin(switches);
    match s
    case Effect(e) => DropKeepsNothing(e, d);
    case Block(ss) => ListKeepsSelectors(ss, 0, switches, d, fuel);
    case If(c, y, n) =>
      if Eval(c, d).Some? {
        KeepsSelectors(y, switches, Eval(c, d).value.1, fuel);
        if n.Some? {
          KeepsSelectors(n.value, switches, Eval(c, d).value.1, fuel);
        }
      }
    case While(c, b) => LoopKeepsSelectors(Some(c), b, None, switches, d, fuel);
    case Do(b, c) =>
      KeepsSelectors(b, switches, d, fuel);
      var r := Exec(b, d, fuel);
      if r.Done? && Eval(c, r.data).Some? && fuel > 0 {
        KeepsSelectors(s, switches, Eval(c, r.data).value.1, fuel - 1);
      }
    case For(start, test, next, b) =>
      if start.None? {
        LoopKeepsSelectors(test, b, next, switches, d, fuel);
      } else {
        KeepsSelectors(start.value, switches, d, fuel);
        var r := Exec(start.value, d, fuel);
        if r.Done? {
          LoopKeepsSelectors(test, b, next, switches, r.data, fuel);
        }
      }
    case Switch(c, b) =>
      if b.Block? && Eval(c, d).Some? {
        var (v, d1) := Eval(c, d).value;
        assert Selectors([Selector(v)], true) by { OneSelector(v); }
        ItemsKeepSelectors(b.body, 0, v, d1, fuel);
      }
    case _ =>
  }

  lemma {:induction false} LoopKeepsSelectors(test: Option<Expr>, b: Stmt, next: Option<Expr>, switches: bool, d: Data, fuel: nat)
    requires Clear(b, switches) && (next.Some? ==> Drops(next.value))
    ensures Selectors(TrailLoop(test, b, next, d, fuel), switches)
    decreases fuel, b, 2
  {
    hide EvalTest, EvalNext, Exec, Trail, TrailE, Drops, Clear, Selectors;
    SelectorsJoin(switches);
    if EvalTest(test, d).Some? {
      var d1 := EvalTest(test, d).value.1;
      KeepsSelectors(b, switches, d1, fuel);
      var r := Exec(b, d1, fuel);
      if r.Done? {
        if next.Some? {
          DropKeepsNothing(next.value, r.data);
        }
        if EvalNext(next, r.data).Some? && fuel > 0 {
          LoopKeepsSelectors(test, b, next, switches, EvalNext(next, r.data).value.1, fuel - 1);
        }
      }
    }
  }

  lemma {:induction false} ListKeepsSelectors(ss: seq<Stmt>, i: nat, switches: bool, d: Data, fuel: nat)
    requires i <= |ss| && forall k :: 0 <= k < |ss| ==> Clear(ss[k], switches)
    ensures Selectors(TrailList(ss, i, d, fuel), switches)
    decreases fuel, ss, |ss| - i
  {
    hide Exec, Trail, Clear, Selectors;
    SelectorsJoin(switches);
    if i < |ss| {
      KeepsSelectors(ss[i], switches, d, fuel);
      var r := Exec(ss[i], d, fuel);
      if r.Done? {
        ListKeepsSelectors(ss, i + 1, switches, r.data, fuel);
      }
    }
  }

  lemma {:induction false} ItemsKeepSelectors(ss: seq<Stmt>, i: nat, top: int, d: Data, fuel: nat)
    requires i <= |ss| && forall k :: 0 <= k < |ss| ==> Clear(ss[k], true)
    ensures Selectors(TrailItems(ss, i, top, d, fuel), true)
    decreases fuel, ss, |ss| - i
  {
    hide ExecItem, TrailItem, Clear, Selectors;
    SelectorsJoin(true);
    if i < |ss| {
      ItemKeepsSelectors(ss[i], d, fuel);
      match ExecItem(ss[i], top, d, fuel)
      case Skipped(d1) => ItemsKeepSelectors(ss, NextLabel(ss, i + 1), top, d1, fuel);
      case Ran(r) =>
        var t := TrailItem(ss[i], d, fuel);
        if r.Done? {
          ItemsKeepSelectors(ss, i + 1, if t == [] then top else t[|t| - 1].value, r.data, fuel);
        }
    }
  }

  lemma {:induction false} ItemKeepsSelectors(s: Stmt, d: Data, fuel: nat)
    requires Clear(s, true)
    ensures Selectors(TrailItem(s, d, fuel), true)
    decreases fuel, s, 3
  {
    hide Eval, Trail;
    match s
    case Case(e, b) =>
      if Eval(e, d).Some? {
        KeepsSelectors(b, true, Eval(e, d).value.1, fuel);
      }
    case Default(b) => KeepsSelectors(b, true, d, fuel);
    case _ => KeepsSelectors(s, true, d, fuel);
  }

  /** Without a switch such a statement leaves the operand stack as it was, however it ends. */
  lemma LeavesNothing(s: Stmt, d: Data, fuel: nat)
    requires Clear(s, false) && Exec(s, d, fuel).Done?
    ensures Exec(s, d, fuel).left == []
  {
    hide Exec, Trail, Clear;
    KeepsSelectors(s, false, d, fuel);
    NoSelectors(Trail(s, d, fuel));
    NothingExactly(s, d, fuel);
  }

  // ------------------------------------------------------------- switches in loops

  /** `while (x) { switch (x) {} x--; }` */
  function Growing(x: int): Stmt {
    While(Var(x), Block([Switch(Var(x), Block([])), Effect(Step(PostDec, x))]))
  }

  lemma GrowingTurn(x: int, d: Data, fuel: nat)
    requires 0 < Fetch(d, x) < 0x8000_0000_0000_0000
    ensures Exec(Growing(x).loop, d, fuel) == Done(Normal, [Fetch(d, x)], d[x := Fetch(d, x) - 1])
  {
    var b := Growing(x).loop;
    var (v, d1) := (Fetch(d, x), d[x := Fetch(d, x) - 1]);
    assert Eval(Var(x), d) == Some((v, d));
    assert Exec(b.body[0], d, fuel) == Done(Normal, [v], d);
    assert Eval(Step(PostDec, x), d) == Some((v, d1));
    assert EvalTail(Step(PostDec, x), d) == Some(([], d1));
    assert Exec(b.body[1], d, fuel) == Done(Normal, [], d1);
    assert ExecList(b.body, 2, d1, fuel) == Done(Normal, [], d1);
    assert ExecList(b.body, 1, d, fuel) == Done(Normal, [], d1);
    assert [] + [v] == [v];
  }

  /** A switch in a loop leaves one more cell with every turn. */
  lemma {:induction false} StackGrows(x: int, d: Data, fuel: nat)
    requires 0 <= Fetch(d, x) < 0x8000_0000_0000_0000 && Fetch(d, x) <= fuel
    ensures var r := Exec(Growing(x), d, fuel);
      r.Done? && |r.left| == Fetch(d, x) && forall i :: 0 <= i < |r.left| ==> r.left[i] == i + 1
    decreases fuel
  {
    hide Exec;
    var (v, d1) := (Fetch(d, x), d[x := Fetch(d, x) - 1]);
    GrowingLoop(x, d, fuel);
    assert Eval(Var(x), d) == Some((v, d));
    if v > 0 {
      GrowingTurn(x, d, fuel);
      GrowingLoop(x, d1, fuel - 1);
      StackGrows(x, d1, fuel - 1);
    }
  }

  lemma GrowingLoop(x: int, d: Data, fuel: nat)
    ensures Exec(Growing(x), d, fuel) == ExecLoop(Some(Var(x)), Growing(x).loop, None, d, fuel)
  {
  }
}

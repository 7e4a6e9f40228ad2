/**
  * What a program compiled by the encoder computes, defined on trees.
  *
  * The definitions follow the language where the encoder does.  They record three
  * habits of the generated code that ISO/IEC 9899:2011 does not have: `||` yields
  * its left operand when that is not zero, a value that an expression statement
  * does not drop stays on the operand stack, and so does the selector of a switch.
  */
module Semantics {
  import opened Common
  import opened Ast
  import opened Arithmetic
  import opened Instructions
  import opened Machine

  // ---------------------------------------------------------------- expressions

  /** Value of an expression and the variables after it; None where an operation is undefined. */
  function Eval(e: Expr, d: Data): Option<(int, Data)>
    decreases e, 0
  {
    match e
    case Lit(v) => Some((v, d))
    case Var(x) => Some((Fetch(d, x), d))
    case Unary(op, a) =>
      (match Eval(a, d)
       case None => None
       case Some((v, d1)) =>
         match ApplyUnary(op, v)
         case None => None
         case Some(r) => Some((r, d1)))
    case Step(op, x) =>
      var before := Fetch(d, x);
      (match ApplyStep(op, before)
       case None => None
       case Some(after) => Some((if IsPostfix(op) then before else after, d[x := after])))
    case Binary(op, a, b) =>
      (match Eval(a, d)
       case None => None
       case Some((v, d1)) =>
         if op == LogAnd && v == 0 then Some((0, d1))
         else if op == LogOr && v != 0 then Some((v, d1))
         else
           match Eval(b, d1)
           case None => None
           case Some((w, d2)) =>
             match ApplyBinary(op, v, w)
             case None => None
             case Some(r) => Some((r, d2)))
    case Comma(a, b) =>
      (match EvalVoid(a, d)
       case None => None
       case Some((_, d1)) => Eval(b, d1))
    case Ternary(c, a, b) =>
      (match Eval(c, d)
       case None => None
       case Some((v, d1)) => if v != 0 then Eval(a, d1) else Eval(b, d1))
    case Assign(op, x, a) =>
      (match Eval(a, d)
       case None => None
       case Some((v, d1)) =>
         match ApplyAssign(op, Fetch(d1, x), v)
         case None => None
         case Some(r) => Some((r, d1[x := r])))
  }

  /** Values that an expression evaluated for its effects leaves on the stack, and the variables. */
  function EvalVoid(e: Expr, d: Data): Option<(seq<int>, Data)>
    decreases e, 2
  {
    if e.Var? then Some(([], d)) else EvalTail(e, d)
  }

  /** The same when the code of the expression is there and only its last instruction changes. */
  function EvalTail(e: Expr, d: Data): Option<(seq<int>, Data)>
    decreases e, 1
  {
    match e
    case Lit(v) => Some(([if v < MIN_INSTRUCTION_CODE then v else ToVoid(v)], d))
    case Comma(a, b) =>
      (match EvalVoid(a, d)
       case None => None
       case Some((_, d1)) => EvalTail(b, d1))
    case Ternary(c, a, b) =>
      (match Eval(c, d)
       case None => None
       case Some((v, d1)) =>
         if v == 0 then EvalTail(b, d1)
         else
           match Eval(a, d1)
           case None => None
           case Some((w, d2)) => Some(([w], d2)))
    case _ =>
      match Eval(e, d)
      case None => None
      case Some((v, d1)) => Some((if DropsTail(e) then [] else [v], d1))
  }

  predicate HasVoidAssign(op: AssignOp) {
    op == Set || op == AddSet || op == SubSet || op == MulSet || op == DivSet
  }

  /** The last instruction of the expression has a version without a result, on every path. */
  predicate DropsTail(e: Expr) {
    match e
    case Step(_, _) => true
    case Assign(op, _, _) => HasVoidAssign(op)
    case Comma(_, b) => DropsTail(b)
    case _ => false
  }

  /** Evaluating the expression for its effects leaves nothing on the stack. */
  predicate Drops(e: Expr) {
    e.Var? || DropsTail(e)
  }

  /** The operand of the last instruction is below the first instruction code. */
  predicate TailFits(e: Expr) {
    match e
    case Var(x) => x < MIN_INSTRUCTION_CODE
    case Step(_, x) => x < MIN_INSTRUCTION_CODE
    case Assign(_, x, _) => x < MIN_INSTRUCTION_CODE
    case Comma(_, b) => TailFits(b)
    case Ternary(_, _, b) => TailFits(b)
    case _ => true
  }

  predicate VoidFits(e: Expr) {
    e.Var? || TailFits(e)
  }

  /** The left operand of every comma drops its result, so operands are where instructions look for them. */
  predicate Clean(e: Expr) {
    match e
    case Lit(_) => true
    case Var(_) => true
    case Unary(_, a) => Clean(a)
    case Step(_, _) => true
    case Binary(_, a, b) => Clean(a) && Clean(b)
    case Comma(a, b) => Drops(a) && VoidFits(a) && Clean(a) && Clean(b)
    case Ternary(c, a, b) => Clean(c) && Clean(a) && Clean(b)
    case Assign(_, _, a) => Clean(a)
  }

  // ---------------------------------------------------------------- statements

  datatype Outcome = Normal | Broke | Continued | Returned(value: Option<int>)

  /**
    * How a statement ends: with an outcome, the values it left on the stack and the
    * variables; or at an undefined operation; or not within the given number of turns.
    */
  datatype Result =
    | Done(out: Outcome, left: seq<int>, data: Data)
    | Undefined
    | OutOfFuel

  /** The result when the stack already held some values. */
  function Above(r: Result, under: seq<int>): Result {
    match r
    case Done(out, left, d) => Done(out, left + under, d)
    case _ => r
  }

  predicate IsLabel(s: Stmt) {
    s.Case? || s.Default?
  }

  /** The first label at or after an index, or the length of the list. */
  function NextLabel(ss: seq<Stmt>, i: nat): (j: nat)
    requires i <= |ss|
    ensures i <= j <= |ss|
    ensures j < |ss| ==> IsLabel(ss[j])
    ensures forall k :: i <= k < j ==> !IsLabel(ss[k])
    decreases |ss| - i
  {
    if i == |ss| || IsLabel(ss[i]) then i else NextLabel(ss, i + 1)
  }

  function ExecDecls(ds: seq<Decl>, d: Data): Option<Data> {
    if ds == [] then Some(d)
    else
      match ExecDecls(ds[..|ds| - 1], d)
      case None => None
      case Some(d1) => ExecDecl(ds[|ds| - 1], d1)
  }

  function ExecDecl(decl: Decl, d: Data): Option<Data> {
    match decl
    case Scalar(x, Some(e)) =>
      (match Eval(e, d)
       case None => None
       case Some((v, d1)) => Some(d1[x := v]))
    case _ => Some(d)
  }

  function Exec(s: Stmt, d: Data, fuel: nat): Result
    decreases fuel, s, 0
  {
    match s
    case Null => Done(Normal, [], d)
    case Effect(e) =>
      (match EvalVoid(e, d)
       case None => Undefined
       case Some((left, d1)) => Done(Normal, left, d1))
    case Declare(ds) =>
      (match ExecDecls(ds, d)
       case None => Undefined
       case Some(d1) => Done(Normal, [], d1))
    case Block(ss) => ExecList(ss, 0, d, fuel)
    case If(c, y, n) =>
      (match Eval(c, d)
       case None => Undefined
       case Some((v, d1)) =>
         if v != 0 then Exec(y, d1, fuel)
         else if n.Some? then Exec(n.value, d1, fuel)
         else Done(Normal, [], d1))
    case While(c, b) => ExecLoop(Some(c), b, None, d, fuel)
    case Do(b, c) =>
      var r := Exec(b, d, fuel);
      if !r.Done? || r.out.Returned? then r
      else if r.out.Broke? then r.(out := Normal)
      else
        (match Eval(c, r.data)
         case None => Undefined
         case Some((v, d1)) =>
           if v == 0 then Done(Normal, r.left, d1)
           else if fuel == 0 then OutOfFuel
           else Above(Exec(s, d1, fuel - 1), r.left))
    case For(start, test, next, b) =>
      if start.None? then ExecLoop(test, b, next, d, fuel)
      else
        var r := Exec(start.value, d, fuel);
        if !r.Done? || !r.out.Normal? then r
        else Above(ExecLoop(test, b, next, r.data, fuel), r.left)
    case Switch(c, Block(items)) =>
      (match Eval(c, d)
       case None => Undefined
       case Some((v, d1)) =>
         var r := ExecItems(items, 0, [v], d1, fuel);
         if r.Done? && r.out.Broke? then r.(out := Normal) else r)
    case Switch(_, _) => Undefined
    case Case(_, _) => Undefined
    case Default(_) => Undefined
    case Break => Done(Broke, [], d)
    case Continue => Done(Continued, [], d)
    case Return(None) => Done(Returned(None), [], d)
    case Return(Some(e)) =>
      (match Eval(e, d)
       case None => Undefined
       case Some((v, d1)) => Done(Returned(Some(v)), [], d1))
  }

  /** A loop without a test goes on as if it tested 1. */
  function EvalTest(test: Option<Expr>, d: Data): Option<(int, Data)> {
    if test.Some? then Eval(test.value, d) else Some((1, d))
  }

  function EvalNext(next: Option<Expr>, d: Data): Option<(seq<int>, Data)> {
    if next.Some? then EvalVoid(next.value, d) else Some(([], d))
  }

  /** The turns of a while loop, or of a for loop after its initialization. */
  function ExecLoop(test: Option<Expr>, b: Stmt, next: Option<Expr>, d: Data, fuel: nat): Result
    decreases fuel, b, 1
  {
    match EvalTest(test, d)
    case None => Undefined
    case Some((v, d1)) =>
      if v == 0 then Done(Normal, [], d1)
      else
        var r := Exec(b, d1, fuel);
        if !r.Done? || r.out.Returned? then r
        else if r.out.Broke? then r.(out := Normal)
        else
          match EvalNext(next, r.data)
          case None => Undefined
          case Some((left, d2)) =>
            if fuel == 0 then OutOfFuel
            else Above(ExecLoop(test, b, next, d2, fuel - 1), left + r.left)
  }

  /** The rest of a block from an index on. */
  function ExecList(ss: seq<Stmt>, i: nat, d: Data, fuel: nat): Result
    requires i <= |ss|
    decreases fuel, ss, |ss| - i
  {
    if i == |ss| then Done(Normal, [], d)
    else
      var r := Exec(ss[i], d, fuel);
      if !r.Done? || !r.out.Normal? then r
      else Above(ExecList(ss, i + 1, r.data, fuel), r.left)
  }

  /** One statement of a switch: it runs, or its label differs from the value compared. */
  datatype ItemResult = Ran(result: Result) | Skipped(data: Data)

  function ExecItem(s: Stmt, top: int, d: Data, fuel: nat): ItemResult
    decreases fuel, s, 1
  {
    match s
    case Case(e, b) =>
      (match Eval(e, d)
       case None => Ran(Undefined)
       case Some((v, d1)) => if top == v then Ran(Exec(b, d1, fuel)) else Skipped(d1))
    case Default(b) => Ran(Exec(b, d, fuel))
    case _ => Ran(Exec(s, d, fuel))
  }

  /**
    * The rest of a switch from an index on.  A case label compares the value on top
    * of the stack, and is passed over to the next label when they differ.
    */
  function ExecItems(ss: seq<Stmt>, i: nat, under: seq<int>, d: Data, fuel: nat): Result
    requires i <= |ss| && under != []
    decreases fuel, ss, |ss| - i
  {
    if i == |ss| then Done(Normal, under, d)
    else
      match ExecItem(ss[i], under[0], d, fuel)
      case Skipped(d1) => ExecItems(ss, NextLabel(ss, i + 1), under, d1, fuel)
      case Ran(r) =>
        if !r.Done? then r
        else if !r.out.Normal? then Above(r, under)
        else ExecItems(ss, i + 1, r.left + under, r.data, fuel)
  }

  // ---------------------------------------------------------------- programs in scope

  predicate FitsO(e: Option<Expr>) {
    e.Some? ==> Clean(e.value)
  }

  predicate FitsDecls(ds: seq<Decl>) {
    forall i :: 0 <= i < |ds| && ds[i].Scalar? ==> FitsO(ds[i].init)
  }

  /**
    * Case and default labels stand directly in the body of their switch, one to a
    * statement, and expressions keep the stack in order.
    */
  predicate Structured(s: Stmt)
    decreases s, 0
  {
    match s
    case Null => true
    case Effect(e) => Clean(e) && VoidFits(e)
    case Declare(ds) => FitsDecls(ds)
    case Block(ss) => forall i :: 0 <= i < |ss| ==> Structured(ss[i])
    case If(c, y, n) => Clean(c) && Structured(y) && (n.Some? ==> Structured(n.value))
    case While(c, b) => Clean(c) && Structured(b)
    case Do(b, c) => Clean(c) && Structured(b)
    case For(start, test, next, b) =>
      && (start.Some? ==> Structured(start.value))
      && FitsO(test)
      && (next.Some? ==> Clean(next.value) && VoidFits(next.value))
      && Structured(b)
    case Switch(c, Block(items)) => Clean(c) && forall i :: 0 <= i < |items| ==> StructuredItem(items[i])
    case Switch(_, _) => false
    case Case(_, _) => false
    case Default(_) => false
    case Break => true
    case Continue => true
    case Return(e) => FitsO(e)
  }

  predicate StructuredItem(s: Stmt)
    decreases s, 1
  {
    match s
    case Case(e, b) => Clean(e) && Structured(b)
    case Default(b) => Structured(b)
    case _ => Structured(s)
  }
}

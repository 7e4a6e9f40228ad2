/**
  * The same trees under ISO/IEC 9899:2011, and the programs on which the generated
  * code agrees with it.
  */
module IsoC {
  import opened Common
  import opened Ast
  import opened Arithmetic
  import opened Machine
  import opened Semantics

  // ---------------------------------------------------------------- expressions

  /** Sections 6.5.13 and 6.5.14: logical operators yield 0 or 1. */
  function IsoEval(e: Expr, d: Data): Option<(int, Data)> {
    match e
    case Lit(v) => Some((v, d))
    case Var(x) => Some((Fetch(d, x), d))
    case Unary(op, a) =>
      (match IsoEval(a, d)
       case None => None
       case Some((v, d1)) =>
         match ApplyUnary(op, v)
         case None => None
         case Some(r) => Some((r, d1)))
    case Step(op, x) =>
      var before := Fetch(d, x);
      (match ApplyStep(op, before)
       case None => None
       case Some(after) => Some((if IsPostfix(op) then before else after, d[x := after])))
    case Binary(op, a, b) =>
      (match IsoEval(a, d)
       case None => None
       case Some((v, d1)) =>
         if op == LogAnd && v == 0 then Some((0, d1))
         else if op == LogOr && v != 0 then Some((1, d1))
         else
           match IsoEval(b, d1)
           case None => None
           case Some((w, d2)) =>
             match ApplyBinary(op, v, w)
             case None => None
             case Some(r) => Some((r, d2)))
    case Comma(a, b) =>
      (match IsoEval(a, d)
       case None => None
       case Some((_, d1)) => IsoEval(b, d1))
    case Ternary(c, a, b) =>
      (match IsoEval(c, d)
       case None => None
       case Some((v, d1)) => if v != 0 then IsoEval(a, d1) else IsoEval(b, d1))
    case Assign(op, x, a) =>
      (match IsoEval(a, d)
       case None => None
       case Some((v, d1)) =>
         match ApplyAssign(op, Fetch(d1, x), v)
         case None => None
         case Some(r) => Some((r, d1[x := r])))
  }

  /** Expressions whose value is 0 or 1. */
  predicate Boolean(e: Expr) {
    match e
    case Lit(v) => v == 0 || v == 1
    case Unary(op, _) => op == LogNot
    case Binary(op, a, _) =>
      op == Lt || op == Gt || op == Le || op == Ge || op == Eq || op == Ne || op == LogAnd || (op == LogOr && Boolean(a))
    case Comma(_, b) => Boolean(b)
    case Ternary(_, a, b) => Boolean(a) && Boolean(b)
    case _ => false
  }

  /** The value of every `||` that is used as a number comes from a left operand that is 0 or 1. */
  predicate ExactE(e: Expr)
    decreases e, 0
  {
    match e
    case Lit(_) => true
    case Var(_) => true
    case Step(_, _) => true
    case Unary(op, a) => if op == LogNot then TruthE(a) else ExactE(a)
    case Binary(op, a, b) =>
      if op == LogAnd then TruthE(a) && TruthE(b)
      else if op == LogOr then Boolean(a) && TruthE(a) && TruthE(b)
      else ExactE(a) && ExactE(b)
    case Comma(a, b) => TruthE(a) && ExactE(b)
    case Ternary(c, a, b) => TruthE(c) && ExactE(a) && ExactE(b)
    case Assign(_, _, a) => ExactE(a)
  }

  /** The same when only the truth of the expression matters. */
  predicate TruthE(e: Expr)
    decreases e, 1
  {
    match e
    case Binary(op, a, b) => if op == LogOr then TruthE(a) && TruthE(b) else ExactE(e)
    case Comma(a, b) => TruthE(a) && TruthE(b)
    case Ternary(c, a, b) => TruthE(c) && TruthE(a) && TruthE(b)
    case _ => ExactE(e)
  }

  /** Both undefined, or the same variables and values that are both zero or both not. */
  predicate SameTruth(a: Option<(int, Data)>, b: Option<(int, Data)>) {
    match (a, b)
    case (None, None) => true
    case (Some((v, d)), Some((w, d'))) => d == d' && (v == 0 <==> w == 0)
    case _ => false
  }

  lemma {:induction false} BooleanValue(e: Expr, d: Data)
    requires Boolean(e) && Eval(e, d).Some?
    ensures Eval(e, d).value.0 == 0 || Eval(e, d).value.0 == 1
    decreases e
  {
    match e
    case Binary(op, a, b) =>
      if op == LogOr {
        BooleanValue(a, d);
      }
    case Comma(a, b) => BooleanValue(b, EvalVoid(a, d).value.1);
    case Ternary(c, a, b) =>
      var (v, d1) := Eval(c, d).value;
      if v != 0 {
        BooleanValue(a, d1);
      } else {
        BooleanValue(b, d1);
      }
    case _ =>
  }

  /** Evaluating for effects changes the variables as evaluating for the value does. */
  lemma {:induction false} VoidSame(e: Expr, d: Data)
    ensures
      match Eval(e, d)
      case None => EvalVoid(e, d) == None
      case Some((_, d1)) => EvalVoid(e, d).Some? && EvalVoid(e, d).value.1 == d1
    decreases e
  {
    if !e.Var? {
      TailSame(e, d);
    }
  }

  lemma {:induction false} TailSame(e: Expr, d: Data)
    ensures
      match Eval(e, d)
      case None => EvalTail(e, d) == None
      case Some((_, d1)) => EvalTail(e, d).Some? && EvalTail(e, d).value.1 == d1
    decreases e
  {
    match e
    case Comma(a, b) =>
      if EvalVoid(a, d).Some? {
        TailSame(b, EvalVoid(a, d).value.1);
      }
    case Ternary(c, a, b) =>
      if Eval(c, d).Some? {
        TailSame(b, Eval(c, d).value.1);
      }
    case _ =>
  }

  /** Where `||` is used with care, the code computes the value of the standard. */
  lemma {:induction false} ExactSame(e: Expr, d: Data)
    requires ExactE(e)
    ensures IsoEval(e, d) == Eval(e, d)
    decreases e, 1
  {
    match e
    case Lit(_) =>
    case Var(_) =>
    case Step(_, _) =>
    case Unary(op, a) =>
      if op == LogNot {
        TruthSame(a, d);
      } else {
        ExactSame(a, d);
      }
    case Binary(op, a, b) => BinarySame(e, d);
    case Comma(a, b) =>
      TruthSame(a, d);
      VoidSame(a, d);
      if Eval(a, d).Some? {
        ExactSame(b, Eval(a, d).value.1);
      }
    case Ternary(c, a, b) =>
      TruthSame(c, d);
      if Eval(c, d).Some? {
        ExactSame(a, Eval(c, d).value.1);
        ExactSame(b, Eval(c, d).value.1);
      }
    case Assign(op, x, a) => ExactSame(a, d);
  }

  lemma {:induction false} BinarySame(e: Expr, d: Data)
    requires e.Binary? && ExactE(e)
    ensures IsoEval(e, d) == Eval(e, d)
    decreases e, 0
  {
    var (op, a, b) := (e.bop, e.left, e.right);
    if IsLogical(op) {
      TruthSame(a, d);
      if Eval(a, d).Some? {
        if op == LogOr {
          BooleanValue(a, d);
        }
        TruthSame(b, Eval(a, d).value.1);
      }
    } else {
      ExactSame(a, d);
      if Eval(a, d).Some? {
        ExactSame(b, Eval(a, d).value.1);
      }
    }
  }

  lemma {:induction false} TruthSame(e: Expr, d: Data)
    requires TruthE(e)
    ensures SameTruth(IsoEval(e, d), Eval(e, d))
    decreases e, 2
  {
    match e
    case Binary(op, a, b) =>
      if op == LogOr {
        TruthSame(a, d);
        if Eval(a, d).Some? {
          TruthSame(b, Eval(a, d).value.1);
        }
      } else {
        ExactSame(e, d);
      }
    case Comma(a, b) =>
      TruthSame(a, d);
      VoidSame(a, d);
      if Eval(a, d).Some? {
        TruthSame(b, Eval(a, d).value.1);
      }
    case Ternary(c, a, b) =>
      TruthSame(c, d);
      if Eval(c, d).Some? {
        TruthSame(a, Eval(c, d).value.1);
        TruthSame(b, Eval(c, d).value.1);
      }
    case _ => ExactSame(e, d);
  }

  /** Exactly when a single `||` yields the value the standard asks for. */
  lemma OrExactly(a: Expr, b: Expr, d: Data)
    requires ExactE(a) && TruthE(b)
    ensures
      var e := Binary(LogOr, a, b);
      IsoEval(e, d) == Eval(e, d) <==> (Eval(a, d).Some? ==> Eval(a, d).value.0 == 0 || Eval(a, d).value.0 == 1)
  {
    ExactSame(a, d);
    if Eval(a, d).Some? {
      TruthSame(b, Eval(a, d).value.1);
    }
  }

  /** `(5 || 0) == (1 || 0)` is true in the standard and false in the generated code. */
  lemma OrDiffers(d: Data)
    ensures
      var e := Binary(Eq, Binary(LogOr, Lit(5), Lit(0)), Binary(LogOr, Lit(1), Lit(0)));
      IsoEval(e, d) == Some((1, d)) && Eval(e, d) == Some((0, d))
  {
    assert Eval(Binary(LogOr, Lit(5), Lit(0)), d) == Some((5, d));
    assert Eval(Binary(LogOr, Lit(1), Lit(0)), d) == Some((1, d));
    assert IsoEval(Binary(LogOr, Lit(5), Lit(0)), d) == Some((1, d));
    assert IsoEval(Binary(LogOr, Lit(1), Lit(0)), d) == Some((1, d));
  }

  // ---------------------------------------------------------------- statements

  datatype IsoResult =
    | IsoDone(out: Outcome, data: Data)
    | IsoUndefined
    | IsoOutOfFuel

  /** What remains of a result when the operand stack is not looked at. */
  function Forget(r: Result): IsoResult {
    match r
    case Done(out, _, d) => IsoDone(out, d)
    case Undefined => IsoUndefined
    case OutOfFuel => IsoOutOfFuel
  }

  function IsoDecls(ds: seq<Decl>, d: Data): Option<Data> {
    if ds == [] then Some(d)
    else
      match IsoDecls(ds[..|ds| - 1], d)
      case None => None
      case Some(d1) =>
        match ds[|ds| - 1]
        case Scalar(x, Some(e)) =>
          (match IsoEval(e, d1)
           case None => None
           case Some((v, d2)) => Some(d2[x := v]))
        case _ => Some(d1)
  }

  /** The item a selector chooses: its case label, else the default label, else the end (section 6.8.4.2). */
  function Chosen(ss: seq<Stmt>, v: int): (j: nat)
    ensures j <= |ss|
  {
    var j := CaseIndex(ss, v, 0);
    if j < |ss| then j else DefaultIndex(ss, 0)
  }

  function CaseIndex(ss: seq<Stmt>, v: int, i: nat): (j: nat)
    requires i <= |ss|
    ensures i <= j <= |ss|
    decreases |ss| - i
  {
    if i == |ss| || (ss[i].Case? && ss[i].tag == Lit(v)) then i else CaseIndex(ss, v, i + 1)
  }

  function DefaultIndex(ss: seq<Stmt>, i: nat): (j: nat)
    requires i <= |ss|
    ensures i <= j <= |ss|
    decreases |ss| - i
  {
    if i == |ss| || ss[i].Default? then i else DefaultIndex(ss, i + 1)
  }

  /** Section 6.8 of the standard. */
  function IsoExec(s: Stmt, d: Data, fuel: nat): IsoResult
    decreases fuel, s, 0
  {
    match s
    case Null => IsoDone(Normal, d)
    case Effect(e) =>
      (match IsoEval(e, d)
       case None => IsoUndefined
       case Some((_, d1)) => IsoDone(Normal, d1))
    case Declare(ds) =>
      (match IsoDecls(ds, d)
       case None => IsoUndefined
       case Some(d1) => IsoDone(Normal, d1))
    case Block(ss) => IsoList(ss, 0, d, fuel)
    case If(c, y, n) =>
      (match IsoEval(c, d)
       case None => IsoUndefined
       case Some((v, d1)) =>
         if v != 0 then IsoExec(y, d1, fuel)
         else if n.Some? then IsoExec(n.value, d1, fuel)
         else IsoDone(Normal, d1))
    case While(c, b) => IsoLoop(Some(c), b, None, d, fuel)
    case Do(b, c) =>
      var r := IsoExec(b, d, fuel);
      if !r.IsoDone? || r.out.Returned? then r
      else if r.out.Broke? then r.(out := Normal)
      else
        (match IsoEval(c, r.data)
         case None => IsoUndefined
         case Some((v, d1)) =>
           if v == 0 then IsoDone(Normal, d1)
           else if fuel == 0 then IsoOutOfFuel
           else IsoExec(s, d1, fuel - 1))
    case For(start, test, next, b) =>
      if start.None? then IsoLoop(test, b, next, d, fuel)
      else
        var r := IsoExec(start.value, d, fuel);
        if !r.IsoDone? || !r.out.Normal? then r else IsoLoop(test, b, next, r.data, fuel)
    case Switch(c, Block(items)) =>
      (match IsoEval(c, d)
       case None => IsoUndefined
       case Some((v, d1)) =>
         var r := IsoList(items, Chosen(items, v), d1, fuel);
         if r.IsoDone? && r.out.Broke? then r.(out := Normal) else r)
    case Switch(_, _) => IsoUndefined
    case Case(_, b) => IsoExec(b, d, fuel)
    case Default(b) => IsoExec(b, d, fuel)
    case Break => IsoDone(Broke, d)
    case Continue => IsoDone(Continued, d)
    case Return(None) => IsoDone(Returned(None), d)
    case Return(Some(e)) =>
      (match IsoEval(e, d)
       case None => IsoUndefined
       case Some((v, d1)) => IsoDone(Returned(Some(v)), d1))
  }

  function IsoTest(test: Option<Expr>, d: Data): Option<(int, Data)> {
    if test.Some? then IsoEval(test.value, d) else Some((1, d))
  }

  function IsoNext(next: Option<Expr>, d: Data): Option<Data> {
    if next.None? then Some(d)
    else
      match IsoEval(next.value, d)
      case None => None
      case Some((_, d1)) => Some(d1)
  }

  function IsoLoop(test: Option<Expr>, b: Stmt, next: Option<Expr>, d: Data, fuel: nat): IsoResult
    decreases fuel, b, 1
  {
    match IsoTest(test, d)
    case None => IsoUndefined
    case Some((v, d1)) =>
      if v == 0 then IsoDone(Normal, d1)
      else
        var r := IsoExec(b, d1, fuel);
        if !r.IsoDone? || r.out.Returned? then r
        else if r.out.Broke? then r.(out := Normal)
        else
          match IsoNext(next, r.data)
          case None => IsoUndefined
          case Some(d2) => if fuel == 0 then IsoOutOfFuel else IsoLoop(test, b, next, d2, fuel - 1)
  }

  function IsoList(ss: seq<Stmt>, i: nat, d: Data, fuel: nat): IsoResult
    requires i <= |ss|
    decreases fuel, ss, |ss| - i
  {
    if i == |ss| then IsoDone(Normal, d)
    else
      var r := IsoExec(ss[i], d, fuel);
      if !r.IsoDone? || !r.out.Normal? then r else IsoList(ss, i + 1, r.data, fuel)
  }

  // ---------------------------------------------------------------- careful programs

  /** The statement never ends normally: control does not fall out of it. */
  predicate Leaves(s: Stmt) {
    match s
    case Break => true
    case Continue => true
    case Return(_) => true
    case Block(ss) => ss != [] && Leaves(ss[|ss| - 1])
    case If(_, y, n) => n.Some? && Leaves(y) && Leaves(n.value)
    case Case(_, b) => Leaves(b)
    case Default(b) => Leaves(b)
    case _ => false
  }

  predicate ExactO(e: Option<Expr>) {
    e.Some? ==> ExactE(e.value)
  }

  predicate ExactDecls(ds: seq<Decl>) {
    forall i :: 0 <= i < |ds| && ds[i].Scalar? ==> ExactO(ds[i].init)
  }

  /** Nothing to execute. */
  predicate Empty(s: Stmt) {
    match s
    case Null => true
    case Block(ss) => forall i :: 0 <= i < |ss| ==> Empty(ss[i])
    case _ => false
  }

  /** Nothing to execute from an item on, up to the default label or the end. */
  predicate Idle(ss: seq<Stmt>, i: nat)
    requires i <= |ss|
    decreases |ss| - i
  {
    i == |ss| || ss[i].Default? || (Empty(if ss[i].Case? then ss[i].labelled else ss[i]) && Idle(ss, i + 1))
  }

  /**
    * Numbers do not come out of `||`, the groups of a switch start with one literal
    * label each, do not fall into a case label with something to execute, and the
    * default group is the last.
    */
  predicate Careful(s: Stmt)
    decreases s, 0
  {
    match s
    case Null => true
    case Effect(e) => TruthE(e)
    case Declare(ds) => ExactDecls(ds)
    case Block(ss) => forall i :: 0 <= i < |ss| ==> Careful(ss[i])
    case If(c, y, n) => TruthE(c) && Careful(y) && (n.Some? ==> Careful(n.value))
    case While(c, b) => TruthE(c) && Careful(b)
    case Do(b, c) => TruthE(c) && Careful(b)
    case For(start, test, next, b) =>
      && (start.Some? ==> Careful(start.value))
      && (test.Some? ==> TruthE(test.value))
      && (next.Some? ==> TruthE(next.value))
      && Careful(b)
    case Switch(c, Block(items)) =>
      && ExactE(c)
      && (forall i :: 0 <= i < |items| ==> CarefulItem(items[i]))
      && Grouped(items)
    case Switch(_, _) => false
    case Case(_, _) => false
    case Default(_) => false
    case Break => true
    case Continue => true
    case Return(e) => ExactO(e)
  }

  predicate CarefulItem(s: Stmt)
    decreases s, 1
  {
    match s
    case Case(e, b) => e.Lit? && Careful(b)
    case Default(b) => Careful(b)
    case _ => Careful(s)
  }

  /**
    * The body of a switch starts with a label, no group runs into a case label behind
    * which something is executed, and no label follows default's.
    */
  predicate Grouped(ss: seq<Stmt>) {
    && (ss != [] ==> IsLabel(ss[0]))
    && (forall i :: 0 < i < |ss| && ss[i].Case? ==> Leaves(ss[i - 1]) || Idle(ss, i))
    && (forall i, j :: 0 <= i < j < |ss| && ss[i].Default? ==> !IsLabel(ss[j]))
  }
}

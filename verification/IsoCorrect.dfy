/**
  * On careful programs the generated code does what ISO/IEC 9899:2011 asks for.
  */
module IsoCorrect {
  import opened Common
  import opened Ast
  import opened Machine
  import opened Semantics
  import opened IsoC

  /** On careful programs the standard and the generated code agree on every run. */
  lemma {:induction false} CarefulSame(s: Stmt, d: Data, fuel: nat)
    requires Careful(s)
    ensures IsoExec(s, d, fuel) == Forget(Exec(s, d, fuel))
    decreases fuel, s, 2
  {
    match s
    case Null =>
    case Effect(_) => SimpleSame(s, d, fuel);
    case Declare(_) => SimpleSame(s, d, fuel);
    case Return(_) => SimpleSame(s, d, fuel);
    case Break =>
    case Continue =>
    case Block(ss) => ListSame(ss, 0, d, fuel);
    case If(_, _, _) => IfSame(s, d, fuel);
    case While(c, b) => LoopSame(Some(c), b, None, d, fuel);
    case Do(_, _) => DoSame(s, d, fuel);
    case For(_, _, _, _) => ForSame(s, d, fuel);
    case Switch(_, _) => SwitchSame(s, d, fuel);
  }

  lemma SimpleSame(s: Stmt, d: Data, fuel: nat)
    requires Careful(s) && (s.Effect? || s.Declare? || s.Return?)
    ensures IsoExec(s, d, fuel) == Forget(Exec(s, d, fuel))
  {
    hide IsoEval, Eval, EvalVoid, ExactE, TruthE;
    match s
    case Effect(e) =>
      TruthSame(e, d);
      VoidSame(e, d);
    case Declare(ds) => DeclsSame(ds, d);
    case Return(e) =>
      if e.Some? {
        ExactSame(e.value, d);
      }
  }

  lemma {:induction false} DeclsSame(ds: seq<Decl>, d: Data)
    requires ExactDecls(ds)
    ensures IsoDecls(ds, d) == ExecDecls(ds, d)
    decreases |ds|
  {
    hide IsoEval, Eval, ExactE;
    if ds != [] {
      var n := |ds| - 1;
      DeclsSame(ds[..n], d);
      if ds[n].Scalar? && ds[n].init.Some? && IsoDecls(ds[..n], d).Some? {
        ExactSame(ds[n].init.value, IsoDecls(ds[..n], d).value);
      }
    }
  }

  lemma {:induction false} ListSame(ss: seq<Stmt>, i: nat, d: Data, fuel: nat)
    requires i <= |ss| && forall k :: 0 <= k < |ss| ==> Careful(ss[k])
    ensures IsoList(ss, i, d, fuel) == Forget(ExecList(ss, i, d, fuel))
    decreases fuel, ss, |ss| - i
  {
    hide IsoExec, Exec, Careful;
    if i < |ss| {
      CarefulSame(ss[i], d, fuel);
      var r := Exec(ss[i], d, fuel);
      if r.Done? {
        ListSame(ss, i + 1, r.data, fuel);
      }
    }
  }

  lemma {:induction false} IfSame(s: Stmt, d: Data, fuel: nat)
    requires s.If? && Careful(s)
    ensures IsoExec(s, d, fuel) == Forget(Exec(s, d, fuel))
    decreases fuel, s, 1
  {
    hide IsoEval, Eval, TruthE;
    TruthSame(s.cond, d);
    if Eval(s.cond, d).Some? {
      var d1 := Eval(s.cond, d).value.1;
      CarefulSame(s.yes, d1, fuel);
      if s.no.Some? {
        CarefulSame(s.no.value, d1, fuel);
      }
    }
  }

  lemma TestSame(test: Option<Expr>, d: Data)
    requires test.Some? ==> TruthE(test.value)
    ensures SameTruth(IsoTest(test, d), EvalTest(test, d))
  {
    hide IsoEval, Eval, TruthE;
    if test.Some? {
      TruthSame(test.value, d);
    }
  }

  lemma NextSame(next: Option<Expr>, d: Data)
    requires next.Some? ==> TruthE(next.value)
    ensures IsoNext(next, d) == if EvalNext(next, d).None? then None else Some(EvalNext(next, d).value.1)
  {
    hide IsoEval, Eval, EvalVoid, TruthE;
    if next.Some? {
      TruthSame(next.value, d);
      VoidSame(next.value, d);
    }
  }

  /** One turn of a loop, with the standard's meaning of the rest. */
  lemma IsoTurn(test: Option<Expr>, b: Stmt, next: Option<Expr>, d: Data, fuel: nat)
    ensures
      IsoLoop(test, b, next, d, fuel) ==
      match IsoTest(test, d)
      case None => IsoUndefined
      case Some((v, d1)) =>
        if v == 0 then IsoDone(Normal, d1)
        else
          var r := IsoExec(b, d1, fuel);
          if !r.IsoDone? || r.out.Returned? then r
          else if r.out.Broke? then r.(out := Normal)
          else
            match IsoNext(next, r.data)
            case None => IsoUndefined
            case Some(d2) => if fuel == 0 then IsoOutOfFuel else IsoLoop(test, b, next, d2, fuel - 1)
  {
    hide IsoTest, IsoNext, IsoExec;
  }

  lemma Turn(test: Option<Expr>, b: Stmt, next: Option<Expr>, d: Data, fuel: nat)
    ensures
      Forget(ExecLoop(test, b, next, d, fuel)) ==
      match EvalTest(test, d)
      case None => IsoUndefined
      case Some((v, d1)) =>
        if v == 0 then IsoDone(Normal, d1)
        else
          var r := Exec(b, d1, fuel);
          if !r.Done? || r.out.Returned? then Forget(r)
          else if r.out.Broke? then IsoDone(Normal, r.data)
          else
            match EvalNext(next, r.data)
            case None => IsoUndefined
            case Some((_, d2)) => if fuel == 0 then IsoOutOfFuel else Forget(ExecLoop(test, b, next, d2, fuel - 1))
  {
    hide EvalTest, EvalNext, Exec;
  }

  lemma {:induction false} LoopSame(test: Option<Expr>, b: Stmt, next: Option<Expr>, d: Data, fuel: nat)
    requires (test.Some? ==> TruthE(test.value)) && (next.Some? ==> TruthE(next.value)) && Careful(b)
    ensures IsoLoop(test, b, next, d, fuel) == Forget(ExecLoop(test, b, next, d, fuel))
    decreases fuel, b, 3
  {
    hide IsoTest, IsoNext, EvalTest, EvalNext, TruthE, IsoExec, Exec, Careful, IsoLoop, ExecLoop;
    IsoTurn(test, b, next, d, fuel);
    Turn(test, b, next, d, fuel);
    TestSame(test, d);
    if EvalTest(test, d).Some? {
      var d1 := EvalTest(test, d).value.1;
      CarefulSame(b, d1, fuel);
      var r := Exec(b, d1, fuel);
      if r.Done? {
        NextSame(next, r.data);
        if EvalNext(next, r.data).Some? && fuel > 0 {
          LoopSame(test, b, next, EvalNext(next, r.data).value.1, fuel - 1);
        }
      }
    }
  }

  lemma {:induction false} DoSame(s: Stmt, d: Data, fuel: nat)
    requires s.Do? && Careful(s)
    ensures IsoExec(s, d, fuel) == Forget(Exec(s, d, fuel))
    decreases fuel, s, 1
  {
    hide IsoEval, Eval, TruthE;
    CarefulSame(s.loop, d, fuel);
    var r := Exec(s.loop, d, fuel);
    if r.Done? {
      TruthSame(s.cond, r.data);
      if Eval(s.cond, r.data).Some? && fuel > 0 {
        DoSame(s, Eval(s.cond, r.data).value.1, fuel - 1);
      }
    }
  }

  lemma {:induction false} ForSame(s: Stmt, d: Data, fuel: nat)
    requires s.For? && Careful(s)
    ensures IsoExec(s, d, fuel) == Forget(Exec(s, d, fuel))
    decreases fuel, s, 1
  {
    hide IsoLoop, ExecLoop, TruthE;
    if s.start.None? {
      LoopSame(s.test, s.loop, s.next, d, fuel);
    } else {
      CarefulSame(s.start.value, d, fuel);
      var r := Exec(s.start.value, d, fuel);
      if r.Done? {
        LoopSame(s.test, s.loop, s.next, r.data, fuel);
      }
    }
  }

  // ---------------------------------------------------------------- switches

  /** A statement that leaves does not end normally. */
  lemma {:induction false} LeavesNeverNormal(s: Stmt, d: Data, fuel: nat)
    requires Leaves(s)
    ensures
      var r := IsoExec(s, d, fuel);
      r.IsoDone? ==> !r.out.Normal?
    decreases s, 1
  {
    hide IsoEval;
    match s
    case Block(ss) => LeavesList(ss, 0, d, fuel);
    case If(c, y, n) =>
      if IsoEval(c, d).Some? {
        LeavesNeverNormal(y, IsoEval(c, d).value.1, fuel);
        LeavesNeverNormal(n.value, IsoEval(c, d).value.1, fuel);
      }
    case Case(_, b) => LeavesNeverNormal(b, d, fuel);
    case Default(b) => LeavesNeverNormal(b, d, fuel);
    case _ =>
  }

  lemma {:induction false} LeavesList(ss: seq<Stmt>, i: nat, d: Data, fuel: nat)
    requires i < |ss| && Leaves(ss[|ss| - 1])
    ensures
      var r := IsoList(ss, i, d, fuel);
      r.IsoDone? ==> !r.out.Normal?
    decreases ss, |ss| - i
  {
    hide IsoExec;
    if i == |ss| - 1 {
      LeavesNeverNormal(ss[i], d, fuel);
    } else {
      var r := IsoExec(ss[i], d, fuel);
      if r.IsoDone? {
        LeavesList(ss, i + 1, r.data, fuel);
      }
    }
  }

  lemma {:induction false} SwitchSame(s: Stmt, d: Data, fuel: nat)
    requires s.Switch? && Careful(s)
    ensures IsoExec(s, d, fuel) == Forget(Exec(s, d, fuel))
    decreases fuel, s, 1
  {
    hide IsoEval, Eval, ExactE, IsoList, ExecItems, Grouped, CarefulItem, Chosen;
    ExactSame(s.cond, d);
    if Eval(s.cond, d).Some? {
      var (v, d1) := Eval(s.cond, d).value;
      TopIsLabel(s.cases.body);
      SelectSame(s.cases.body, 0, v, d1, fuel);
      ChosenFromTop(s.cases.body, v);
    }
  }

  lemma TopIsLabel(ss: seq<Stmt>)
    requires Grouped(ss)
    ensures 0 == |ss| || IsLabel(ss[0])
  {
  }

  lemma ChosenFromTop(ss: seq<Stmt>, v: int)
    ensures Chosen(ss, v) == ChosenFrom(ss, v, 0)
  {
  }

  /** The item chosen among those from an index on. */
  function ChosenFrom(ss: seq<Stmt>, v: int, i: nat): (j: nat)
    requires i <= |ss|
    ensures i <= j <= |ss|
  {
    var j := CaseIndex(ss, v, i);
    if j < |ss| then j else DefaultIndex(ss, i)
  }

  lemma {:induction false} CaseIndexSkips(ss: seq<Stmt>, v: int, i: nat, k: nat)
    requires i <= k <= |ss| && forall m :: i <= m < k ==> !IsLabel(ss[m])
    ensures CaseIndex(ss, v, i) == CaseIndex(ss, v, k) && DefaultIndex(ss, i) == DefaultIndex(ss, k)
    decreases k - i
  {
    if i < k {
      CaseIndexSkips(ss, v, i + 1, k);
    }
  }

  lemma {:induction false} CaseIndexNone(ss: seq<Stmt>, v: int, i: nat)
    requires i <= |ss| && forall m :: i <= m < |ss| ==> !ss[m].Case?
    ensures CaseIndex(ss, v, i) == |ss|
    decreases |ss| - i
  {
    if i < |ss| {
      CaseIndexNone(ss, v, i + 1);
    }
  }

  /** Trying label after label finds the item the standard chooses. */
  lemma {:induction false} SelectSame(ss: seq<Stmt>, i: nat, v: int, d: Data, fuel: nat)
    requires i <= |ss| && (forall k :: 0 <= k < |ss| ==> CarefulItem(ss[k])) && Grouped(ss)
    requires i == |ss| || IsLabel(ss[i])
    ensures IsoList(ss, ChosenFrom(ss, v, i), d, fuel) == Forget(ExecItems(ss, i, [v], d, fuel))
    decreases fuel, ss, |ss| - i
  {
    hide IsoExec, Exec, CarefulItem;
    if i < |ss| {
      if ss[i].Default? {
        assert forall m :: i < m < |ss| ==> !IsLabel(ss[m]);
        CaseIndexNone(ss, v, i);
        ItemSame(ss, i, [v], d, fuel);
      } else {
        CarefulCase(ss[i]);
        if ss[i].tag == Lit(v) {
          ItemSame(ss, i, [v], d, fuel);
        } else {
          var k := NextLabel(ss, i + 1);
          CaseIndexSkips(ss, v, i + 1, k);
          SelectSame(ss, k, v, d, fuel);
        }
      }
    }
  }

  lemma CarefulCase(s: Stmt)
    requires CarefulItem(s) && s.Case?
    ensures s.tag.Lit?
  {
  }

  /** A chosen item and the rest of its group. */
  lemma {:induction false} ItemSame(ss: seq<Stmt>, i: nat, under: seq<int>, d: Data, fuel: nat)
    requires i < |ss| && (forall k :: 0 <= k < |ss| ==> CarefulItem(ss[k])) && Grouped(ss) && under != []
    requires ss[i].Case? ==> ss[i].tag == Lit(under[0])
    ensures IsoList(ss, i, d, fuel) == Forget(ExecItems(ss, i, under, d, fuel))
    decreases fuel, ss, |ss| - i, 1
  {
    hide IsoExec, Exec, Grouped, CarefulItem, ExecItem;
    RanSame(ss[i], under[0], d, fuel);
    var r := ExecItem(ss[i], under[0], d, fuel).result;
    if r.Done? && r.out.Normal? && i + 1 < |ss| {
      if ss[i + 1].Case? {
        LeavesBefore(ss, i + 1);
        if Leaves(ss[i]) {
          LeavesNeverNormal(ss[i], d, fuel);
        } else {
          IdleSame(ss, i + 1, r.left + under, r.data, fuel);
        }
      } else {
        ItemSame(ss, i + 1, r.left + under, r.data, fuel);
      }
    }
  }

  lemma LeavesBefore(ss: seq<Stmt>, i: nat)
    requires Grouped(ss) && 0 < i < |ss| && ss[i].Case?
    ensures Leaves(ss[i - 1]) || Idle(ss, i)
  {
  }

  lemma {:induction false} EmptyRuns(s: Stmt, d: Data, fuel: nat)
    requires Empty(s)
    ensures IsoExec(s, d, fuel) == IsoDone(Normal, d) && Exec(s, d, fuel) == Done(Normal, [], d)
    decreases s, 1
  {
    if s.Block? {
      EmptyList(s.body, 0, d, fuel);
    }
  }

  lemma {:induction false} EmptyList(ss: seq<Stmt>, i: nat, d: Data, fuel: nat)
    requires i <= |ss| && forall k :: 0 <= k < |ss| ==> Empty(ss[k])
    ensures IsoList(ss, i, d, fuel) == IsoDone(Normal, d) && ExecList(ss, i, d, fuel) == Done(Normal, [], d)
    decreases ss, |ss| - i
  {
    hide IsoExec, Exec, Empty;
    if i < |ss| {
      EmptyRuns(ss[i], d, fuel);
      EmptyList(ss, i + 1, d, fuel);
    }
  }

  /** An item with nothing to execute: its test, if it has one, decides only where to go on. */
  lemma EmptyItem(ss: seq<Stmt>, i: nat, top: int, d: Data, fuel: nat)
    requires i < |ss| && Idle(ss, i) && !ss[i].Default? && CarefulItem(ss[i])
    ensures Idle(ss, i + 1) && IsoExec(ss[i], d, fuel) == IsoDone(Normal, d)
    ensures ExecItem(ss[i], top, d, fuel) ==
      if ss[i].Case? && ss[i].tag != Lit(top) then Skipped(d) else Ran(Done(Normal, [], d))
  {
    hide IsoEval, Empty;
    EmptyRuns(if ss[i].Case? then ss[i].labelled else ss[i], d, fuel);
    if ss[i].Case? {
      CarefulCase(ss[i]);
      assert Eval(ss[i].tag, d) == Some((ss[i].tag.value, d));
    }
  }

  lemma {:induction false} IdleSkips(ss: seq<Stmt>, i: nat, k: nat, d: Data, fuel: nat)
    requires i <= k <= |ss| && Idle(ss, i) && forall m :: i <= m < k ==> !IsLabel(ss[m])
    ensures Idle(ss, k) && IsoList(ss, i, d, fuel) == IsoList(ss, k, d, fuel)
    decreases k - i
  {
    hide IsoExec, Empty;
    if i < k {
      EmptyRuns(ss[i], d, fuel);
      IdleSkips(ss, i + 1, k, d, fuel);
    }
  }

  /** Falling into a label makes no difference when nothing is left to execute before the default group. */
  lemma {:induction false} IdleSame(ss: seq<Stmt>, i: nat, under: seq<int>, d: Data, fuel: nat)
    requires i <= |ss| && (forall k :: 0 <= k < |ss| ==> CarefulItem(ss[k])) && Grouped(ss) && under != [] && Idle(ss, i)
    ensures IsoList(ss, i, d, fuel) == Forget(ExecItems(ss, i, under, d, fuel))
    decreases fuel, ss, |ss| - i, 2
  {
    hide IsoExec, Exec, ExecItem, Grouped, CarefulItem, Idle;
    if i < |ss| && ss[i].Default? {
      ItemSame(ss, i, under, d, fuel);
    } else if i < |ss| {
      EmptyItem(ss, i, under[0], d, fuel);
      if ss[i].Case? && ss[i].tag != Lit(under[0]) {
        var k := NextLabel(ss, i + 1);
        IdleSkips(ss, i + 1, k, d, fuel);
        IdleSame(ss, k, under, d, fuel);
      } else {
        assert [] + under == under;
        IdleSame(ss, i + 1, under, d, fuel);
      }
    }
  }

  /** A label whose test succeeds is transparent in both meanings. */
  lemma LabelPassed(s: Stmt, top: int, d: Data, fuel: nat)
    requires (s.Case? && s.tag == Lit(top)) || s.Default?
    ensures ExecItem(s, top, d, fuel) == Ran(Exec(s.labelled, d, fuel))
    ensures IsoExec(s, d, fuel) == IsoExec(s.labelled, d, fuel)
  {
    hide IsoEval;
  }

  lemma {:induction false} RanSame(s: Stmt, top: int, d: Data, fuel: nat)
    requires CarefulItem(s) && (s.Case? ==> s.tag == Lit(top))
    ensures
      var r := ExecItem(s, top, d, fuel);
      r.Ran? && Forget(r.result) == IsoExec(s, d, fuel)
    decreases fuel, s, 3
  {
    hide Careful, IsoEval, Eval, Exec, IsoExec;
    if IsLabel(s) {
      LabelPassed(s, top, d, fuel);
      CarefulSame(s.labelled, d, fuel);
    } else {
      CarefulSame(s, d, fuel);
    }
  }

  // ---------------------------------------------------------------- where the code differs

  /** A switch on 1 whose first group falls through into the second. */
  function FallThrough(): Stmt {
    var set0 := Effect(Assign(Set, 3, Lit(0)));
    var set1 := Effect(Assign(Set, 3, Lit(1)));
    Switch(Lit(1), Block([Case(Lit(1), set0), Case(Lit(2), set1)]))
  }

  /** The standard runs both groups. */
  lemma FallThroughInIso(d: Data, fuel: nat)
    ensures IsoExec(FallThrough(), d, fuel) == IsoDone(Normal, d[3 := 0][3 := 1])
  {
    var items := FallThrough().cases.body;
    var set0, set1 := items[0].labelled, items[1].labelled;
    var d0 := d[3 := 0];
    assert IsoEval(set0.expr, d) == Some((0, d0));
    assert IsoExec(set0, d, fuel) == IsoDone(Normal, d0);
    assert IsoExec(items[0], d, fuel) == IsoDone(Normal, d0);
    assert IsoEval(set1.expr, d0) == Some((1, d0[3 := 1]));
    assert IsoExec(set1, d0, fuel) == IsoDone(Normal, d0[3 := 1]);
    assert IsoExec(items[1], d0, fuel) == IsoDone(Normal, d0[3 := 1]);
    assert IsoList(items, 2, d0[3 := 1], fuel) == IsoDone(Normal, d0[3 := 1]);
    assert IsoList(items, 1, d0, fuel) == IsoDone(Normal, d0[3 := 1]);
    assert Chosen(items, 1) == 0;
  }

  lemma FallThroughItems(d: Data, fuel: nat)
    ensures ExecItems(FallThrough().cases.body, 0, [1], d, fuel) == Done(Normal, [1], d[3 := 0])
  {
    hide IsoExec;
    var items := FallThrough().cases.body;
    var d0 := d[3 := 0];
    assert ExecItem(items[0], 1, d, fuel) == Ran(Done(Normal, [], d0));
    assert ExecItem(items[1], 1, d0, fuel) == Skipped(d0);
    assert NextLabel(items, 2) == 2;
    assert [] + [1] == [1];
    assert ExecItems(items, 1, [1], d0, fuel) == Done(Normal, [1], d0);
  }

  /** The generated code tests the selector again, and runs the first group only. */
  lemma FallThroughDiffers(d: Data, fuel: nat)
    ensures Exec(FallThrough(), d, fuel) == Done(Normal, [1], d[3 := 0])
    ensures IsoExec(FallThrough(), d, fuel) == IsoDone(Normal, d[3 := 0][3 := 1])
  {
    hide IsoExec, ExecItems;
    FallThroughItems(d, fuel);
    FallThroughInIso(d, fuel);
    assert Eval(Lit(1), d) == Some((1, d));
  }
}

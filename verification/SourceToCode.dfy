/**
  * From a function over named variables to the run of its code: the code that the
  * encoder emits does what ISO/IEC 9899:2011 says the function does.
  */
module SourceToCode {
  import opened Common
  import opened Ast
  import opened Instructions
  import opened Codegen
  import opened Runs
  import opened Machine
  import opened Semantics
  import opened StmtCorrect
  import opened IsoC
  import IsoCorrect
  import opened Confinement
  import opened Frames
  import opened Functions
  import opened Compile
  import opened Allocation
  import opened Renaming

  // ------------------------------------------------------------------- expressions

  /** The left operand of every comma drops its result. */
  predicate OrderlyE(e: Expr) {
    match e
    case Unary(_, a) => OrderlyE(a)
    case Binary(_, a, b) => OrderlyE(a) && OrderlyE(b)
    case Comma(a, b) => Drops(a) && OrderlyE(a) && OrderlyE(b)
    case Ternary(c, a, b) => OrderlyE(c) && OrderlyE(a) && OrderlyE(b)
    case Assign(_, _, a) => OrderlyE(a)
    case _ => true
  }

  predicate OrderlyO(e: Option<Expr>) {
    e.Some? ==> OrderlyE(e.value)
  }

  lemma {:induction false} DropsResolved(e: Expr, table: map<int, int>)
    ensures DropsTail(ResolveE(e, table)) == DropsTail(e) && ResolveE(e, table).Var? == e.Var?
    decreases e
  {
    match e
    case Comma(_, b) => DropsResolved(b, table);
    case _ =>
  }

  /** Cells of a small frame are never taken for instructions. */
  lemma {:induction false} FitsResolved(e: Expr, live: Live, f: Frame)
    requires ScopedE(e, live) && Sound(live, f) && f.displ <= MIN_INSTRUCTION_CODE
    ensures TailFits(ResolveE(e, f.table))
    decreases e
  {
    match e
    case Var(x) => assert Placed(f, x, 1);
    case Step(_, x) => assert Placed(f, x, 1);
    case Assign(_, x, _) => assert Placed(f, x, 1);
    case Comma(_, b) => FitsResolved(b, live, f);
    case Ternary(_, _, b) => FitsResolved(b, live, f);
    case _ =>
  }

  lemma {:induction false} OrderlyClean(e: Expr, live: Live, f: Frame)
    requires OrderlyE(e) && ScopedE(e, live) && Sound(live, f) && f.displ <= MIN_INSTRUCTION_CODE
    ensures Clean(ResolveE(e, f.table))
    decreases e
  {
    hide Sound;
    match e
    case Unary(_, a) => OrderlyClean(a, live, f);
    case Binary(_, a, b) =>
      OrderlyClean(a, live, f);
      OrderlyClean(b, live, f);
    case Comma(a, b) =>
      OrderlyClean(a, live, f);
      OrderlyClean(b, live, f);
      DropsResolved(a, f.table);
      FitsResolved(a, live, f);
    case Ternary(c, a, b) =>
      OrderlyClean(c, live, f);
      OrderlyClean(a, live, f);
      OrderlyClean(b, live, f);
    case Assign(_, _, a) => OrderlyClean(a, live, f);
    case _ =>
  }

  lemma {:induction false} BooleanResolved(e: Expr, table: map<int, int>)
    ensures Boolean(ResolveE(e, table)) == Boolean(e)
    decreases e
  {
    match e
    case Binary(_, a, _) => BooleanResolved(a, table);
    case Comma(_, b) => BooleanResolved(b, table);
    case Ternary(_, a, b) =>
      BooleanResolved(a, table);
      BooleanResolved(b, table);
    case _ =>
  }

  lemma {:induction false} ExactResolved(e: Expr, table: map<int, int>)
    ensures ExactE(ResolveE(e, table)) == ExactE(e) && TruthE(ResolveE(e, table)) == TruthE(e)
    decreases e
  {
    match e
    case Unary(_, a) => ExactResolved(a, table);
    case Binary(_, a, b) =>
      ExactResolved(a, table);
      ExactResolved(b, table);
      BooleanResolved(a, table);
    case Comma(a, b) =>
      ExactResolved(a, table);
      ExactResolved(b, table);
    case Ternary(c, a, b) =>
      ExactResolved(c, table);
      ExactResolved(a, table);
      ExactResolved(b, table);
    case Assign(_, _, a) => ExactResolved(a, table);
    case _ =>
  }

  // -------------------------------------------------------------------- statements

  /** Labels stand directly in the body of their switch, and left operands of commas drop their results. */
  predicate OrderlyS(s: Stmt)
    decreases s, 0
  {
    match s
    case Null => true
    case Effect(e) => OrderlyE(e)
    case Declare(ds) => forall i :: 0 <= i < |ds| && ds[i].Scalar? ==> OrderlyO(ds[i].init)
    case Block(ss) => forall i :: 0 <= i < |ss| ==> OrderlyS(ss[i])
    case If(c, y, n) => OrderlyE(c) && OrderlyS(y) && (n.Some? ==> OrderlyS(n.value))
    case While(c, b) => OrderlyE(c) && OrderlyS(b)
    case Do(b, c) => OrderlyE(c) && OrderlyS(b)
    case For(start, test, next, b) =>
      (start.Some? ==> OrderlyS(start.value)) && OrderlyO(test) && OrderlyO(next) && OrderlyS(b)
    case Switch(c, Block(items)) => OrderlyE(c) && forall i :: 0 <= i < |items| ==> OrderlyItem(items[i])
    case Switch(_, _) => false
    case Case(_, _) => false
    case Default(_) => false
    case Break => true
    case Continue => true
    case Return(e) => OrderlyO(e)
  }

  predicate OrderlyItem(s: Stmt)
    decreases s, 1
  {
    match s
    case Case(e, b) => OrderlyE(e) && OrderlyS(b)
    case Default(b) => OrderlyS(b)
    case _ => OrderlyS(s)
  }

  /** A frame in which every cell is below the first instruction code. */
  predicate Small(f: Frame) {
    f.inFunction && f.maxLocal <= MIN_INSTRUCTION_CODE
  }

  lemma SmallEarlier(live: Live, f: Frame, g: Frame)
    requires Sound(live, f) && Extends(live, f, g) && Small(g)
    ensures Small(f) && f.displ <= MIN_INSTRUCTION_CODE
  {
  }

  lemma ExprFits(e: Expr, live: Live, f: Frame)
    requires OrderlyE(e) && ScopedE(e, live) && Sound(live, f) && f.displ <= MIN_INSTRUCTION_CODE
    ensures Clean(ResolveE(e, f.table)) && VoidFits(ResolveE(e, f.table))
  {
    hide Sound, ScopedE, OrderlyE, Clean, ResolveE, TailFits;
    OrderlyClean(e, live, f);
    FitsResolved(e, live, f);
  }

  /** The names in scope as if every integer variable had a value. */
  function Given(live: Live): Live {
    map x | x in live :: if live[x].Unset? then Single else live[x]
  }

  lemma {:induction false} GivenScoped(e: Expr, live: Live)
    requires ScopedE(e, live)
    ensures ScopedE(e, Given(live))
    decreases e
  {
    hide Given;
    GivenScalar(live);
    match e
    case Unary(_, a) => GivenScoped(a, live);
    case Binary(_, a, b) =>
      GivenScoped(a, live);
      GivenScoped(b, live);
    case Comma(a, b) =>
      GivenScoped(a, live);
      GivenScoped(b, live);
    case Ternary(c, a, b) =>
      GivenScoped(c, live);
      GivenScoped(a, live);
      GivenScoped(b, live);
    case Assign(_, _, a) => GivenScoped(a, live);
    case _ =>
  }

  lemma GivenScalar(live: Live)
    ensures forall x :: IsScalar(x, Given(live)) <==> x in live && !live[x].Several?
  {
  }

  lemma {:induction false} GivenSame(e: Expr, live: Live)
    ensures Given(LiveE(e, live)) == Given(live)
    decreases e
  {
    if e.Comma? {
      GivenSame(e.first, live);
      GivenSame(e.second, LiveE(e.first, live));
    }
  }

  lemma {:induction false} EffectScoped(e: Expr, live: Live)
    requires ScopedV(e, live)
    ensures ScopedE(e, Given(live))
    decreases e
  {
    hide Given;
    GivenScalar(live);
    match e
    case Assign(Set, _, a) => GivenScoped(a, live);
    case Comma(a, b) =>
      EffectScoped(a, live);
      EffectScoped(b, LiveE(a, live));
      GivenSame(a, live);
    case _ => GivenScoped(e, live);
  }

  lemma EffectFits(e: Expr, live: Live, f: Frame)
    requires OrderlyE(e) && ScopedV(e, live) && Sound(live, f) && f.displ <= MIN_INSTRUCTION_CODE
    ensures Clean(ResolveE(e, f.table)) && VoidFits(ResolveE(e, f.table))
  {
    hide Sound, ScopedE, ScopedV, OrderlyE, Clean, ResolveE, VoidFits;
    EffectScoped(e, live);
    SoundSimilar(live, Given(live), f);
    ExprFits(e, Given(live), f);
  }

  lemma OptionFits(e: Option<Expr>, live: Live, f: Frame)
    requires OrderlyO(e) && ScopedO(e, live) && Sound(live, f) && f.displ <= MIN_INSTRUCTION_CODE
    ensures FitsO(ResolveOE(e, f.table)) && (e.Some? ==> VoidFits(ResolveE(e.value, f.table)))
  {
    hide Sound, ScopedE, OrderlyE, Clean, ResolveE, TailFits;
    if e.Some? {
      ExprFits(e.value, live, f);
    }
  }

  /** Over cells of a small frame, the values on the stack stay in order. */
  lemma {:induction false} OrderlyStructured(s: Stmt, live: Live, f: Frame)
    requires OrderlyS(s) && ScopedS(s, live) && Sound(live, f) && Small(AllocateS(s, f))
    ensures Structured(ResolveS(s, f))
    decreases s, 1
  {
    hide Sound, ScopedE, ScopedV, ScopedDecls, LiveS, OrderlyE, Clean, ResolveE, VoidFits, Extends, AllocateDecls, ResolveDecls;
    AllocationSound(s, live, f);
    SmallEarlier(live, f, AllocateS(s, f));
    match s
    case Effect(e) => EffectFits(e, live, f);
    case Declare(ds) => DeclsFit(ds, live, f);
    case Block(ss) =>
      ListSound(ss, live, f);
      ListStructured(ss, live, f);
    case If(c, y, n) =>
      ExprFits(c, live, f);
      AllocationSound(y, live, f);
      InnerSound(y, live, f);
      if n.Some? {
        AllocationSound(n.value, live, AllocateS(y, f));
        SmallEarlier(live, AllocateS(y, f), AllocateS(n.value, AllocateS(y, f)));
        OrderlyStructured(n.value, live, AllocateS(y, f));
      }
      OrderlyStructured(y, live, f);
    case While(c, b) =>
      ExprFits(c, live, f);
      OrderlyStructured(b, live, f);
    case Do(b, c) =>
      AllocationSound(b, live, f);
      ScopedSame(c, live, f, AllocateS(b, f));
      ExprFits(c, live, f);
      OrderlyStructured(b, live, f);
    case For(_, _, _, _) => ForStructured(s, live, f);
    case Switch(_, _) => SwitchStructured(s, live, f);
    case Return(e) => OptionFits(e, live, f);
    case _ =>
  }

  lemma {:induction false} ForStructured(s: Stmt, live: Live, f: Frame)
    requires s.For? && OrderlyS(s) && ScopedS(s, live) && Sound(live, f) && Small(AllocateS(s, f))
    ensures Structured(ResolveS(s, f))
    decreases s, 0
  {
    hide Sound, ScopedE, OrderlyE, Clean, ResolveE, VoidFits, Extends, LiveS;
    var live', f' := LiveO(s.start, live), AllocateO(s.start, f);
    if s.start.Some? {
      AllocationSound(s.start.value, live, f);
    }
    AllocationSound(s.loop, live', f');
    SmallEarlier(live', f', AllocateS(s.loop, f'));
    OrderlyStructured(s.loop, live', f');
    OptionFits(s.test, live', f');
    if s.next.Some? {
      ScopedSame(s.next.value, live', f', AllocateS(s.loop, f'));
    }
    OptionFits(s.next, live', f');
    if s.start.Some? {
      OrderlyStructured(s.start.value, live, f);
    }
  }

  lemma {:induction false} DeclsFit(ds: seq<Decl>, live: Live, f: Frame)
    requires ScopedDecls(ds, live) && Sound(live, f) && Small(AllocateDecls(ds, f))
    requires forall i :: 0 <= i < |ds| && ds[i].Scalar? ==> OrderlyO(ds[i].init)
    ensures FitsDecls(ResolveDecls(ds, f))
    decreases |ds|
  {
    hide Sound, ScopedO, OrderlyO, FitsO, ResolveOE, Extends, AllocateDecl;
    if ds != [] {
      var n := |ds| - 1;
      var live', f' := LiveDecls(ds[..n], live), AllocateDecls(ds[..n], f);
      DeclsSound(ds[..n], live, f);
      DeclSound(ds[n], live', f');
      var g := AllocateDecl(ds[n], f');
      SmallEarlier(live', f', g);
      DeclsFit(ds[..n], live, f);
      if ds[n].Scalar? {
        InitFits(ds[n].init, live', f', g);
      }
    }
  }

  lemma InitFits(e: Option<Expr>, live: Live, f: Frame, g: Frame)
    requires OrderlyO(e) && ScopedO(e, live) && Sound(live, f) && f.displ <= MIN_INSTRUCTION_CODE && Extends(live, f, g)
    ensures FitsO(ResolveOE(e, g.table))
  {
    hide Sound, ScopedE, OrderlyE, Clean, ResolveE, Extends;
    OptionFits(e, live, f);
    if e.Some? {
      ScopedSame(e.value, live, f, g);
    }
  }

  lemma {:induction false} ListStructured(ss: seq<Stmt>, live: Live, f: Frame)
    requires ScopedList(ss, live) && Sound(live, f) && Small(AllocateList(ss, f))
    requires forall i :: 0 <= i < |ss| ==> OrderlyS(ss[i])
    ensures forall i :: 0 <= i < |ss| ==> Structured(ResolveList(ss, f)[i])
    decreases ss, 0
  {
    hide Sound, ScopedS, OrderlyS, Structured, Extends, AllocateS, ResolveS, LiveS;
    if ss != [] {
      var n := |ss| - 1;
      var live', f' := LiveList(ss[..n], live), AllocateList(ss[..n], f);
      ListSound(ss[..n], live, f);
      AllocationSound(ss[n], live', f');
      SmallEarlier(live', f', AllocateList(ss, f));
      ListStructured(ss[..n], live, f);
      OrderlyStructured(ss[n], live', f');
      assert ResolveList(ss, f)[..n] == ResolveList(ss[..n], f);
      forall i | 0 <= i < |ss| ensures Structured(ResolveList(ss, f)[i]) {
        if i < n {
          assert ResolveList(ss, f)[i] == ResolveList(ss[..n], f)[i];
        }
      }
    }
  }

  lemma {:induction false} SwitchStructured(s: Stmt, live: Live, f: Frame)
    requires s.Switch? && OrderlyS(s) && ScopedS(s, live) && Sound(live, f) && Small(AllocateS(s, f))
    ensures Structured(ResolveS(s, f))
    decreases s, 0
  {
    hide Sound, ScopedE, OrderlyE, Clean, ResolveE, Extends, OrderlyItem, StructuredItem;
    AllocationSound(s, live, f);
    SmallEarlier(live, f, AllocateS(s, f));
    ExprFits(s.cond, live, f);
    ItemsStructured(s.cases.body, live, f);
    assert ResolveS(s.cases, f) == Stmt.Block(ResolveList(s.cases.body, f));
    SwitchIs(s, f);
  }

  lemma SwitchIs(s: Stmt, f: Frame)
    requires s.Switch? && s.cases.Block? && Clean(ResolveE(s.cond, f.table))
    requires forall i :: 0 <= i < |s.cases.body| ==> StructuredItem(ResolveList(s.cases.body, f)[i])
    ensures Structured(ResolveS(s, f))
  {
    hide StructuredItem, Clean, ResolveE, ResolveList;
    var items := ResolveList(s.cases.body, f);
    assert ResolveS(s, f) == Switch(ResolveE(s.cond, f.table), Stmt.Block(items));
  }

  lemma {:induction false} ItemsStructured(ss: seq<Stmt>, live: Live, f: Frame)
    requires Sound(live, f) && Small(AllocateList(ss, f))
    requires forall i :: 0 <= i < |ss| ==> OrderlyItem(ss[i]) && ScopedS(ss[i], live)
    ensures forall i :: 0 <= i < |ss| ==> StructuredItem(ResolveList(ss, f)[i])
    decreases ss, 1
  {
    hide Sound, ScopedS, OrderlyItem, StructuredItem, Extends, AllocateS, ResolveS, LiveS;
    if ss != [] {
      var n := |ss| - 1;
      var f' := AllocateList(ss[..n], f);
      ItemsSound(ss[..n], live, f);
      AllocationSound(ss[n], live, f');
      SmallEarlier(live, f', AllocateList(ss, f));
      ItemsStructured(ss[..n], live, f);
      ItemStructured(ss[n], live, f');
      forall i | 0 <= i < |ss| ensures StructuredItem(ResolveList(ss, f)[i]) {
        if i < n {
          assert ResolveList(ss, f)[i] == ResolveList(ss[..n], f)[i];
        }
      }
    }
  }

  lemma {:induction false} ItemStructured(s: Stmt, live: Live, f: Frame)
    requires OrderlyItem(s) && ScopedS(s, live) && Sound(live, f) && Small(AllocateS(s, f))
    ensures StructuredItem(ResolveS(s, f))
    decreases s, 2
  {
    hide Sound, ScopedE, OrderlyE, Clean, ResolveE, Extends, OrderlyS, Structured;
    AllocationSound(s, live, f);
    SmallEarlier(live, f, AllocateS(s, f));
    if s.Case? {
      ExprFits(s.tag, live, f);
      OrderlyStructured(s.labelled, live, f);
    } else if s.Default? {
      OrderlyStructured(s.labelled, live, f);
    } else {
      OrderlyStructured(s, live, f);
      NotLabel(s, f);
    }
  }

  lemma NotLabel(s: Stmt, f: Frame)
    requires !s.Case? && !s.Default? && Structured(ResolveS(s, f))
    ensures StructuredItem(ResolveS(s, f))
  {
  }

  // ------------------------------------------------------------------ careful programs

  lemma {:induction false} LeavesResolved(s: Stmt, f: Frame)
    ensures Leaves(ResolveS(s, f)) == Leaves(s) && IsLabel(ResolveS(s, f)) == IsLabel(s)
    ensures ResolveS(s, f).Default? == s.Default?
    decreases s
  {
    match s
    case Block(ss) =>
      if ss != [] {
        LeavesResolved(ss[|ss| - 1], AllocateList(ss[..|ss| - 1], f));
      }
    case If(_, y, n) =>
      LeavesResolved(y, f);
      if n.Some? {
        LeavesResolved(n.value, AllocateS(y, f));
      }
    case Case(_, b) => LeavesResolved(b, f);
    case Default(b) => LeavesResolved(b, f);
    case _ =>
  }

  lemma {:induction false} EmptyResolved(s: Stmt, f: Frame)
    requires Empty(s)
    ensures Empty(ResolveS(s, f))
    decreases s, 1
  {
    if s.Block? {
      EmptyListResolved(s.body, f);
    }
  }

  lemma {:induction false} EmptyListResolved(ss: seq<Stmt>, f: Frame)
    requires forall i :: 0 <= i < |ss| ==> Empty(ss[i])
    ensures forall i :: 0 <= i < |ss| ==> Empty(ResolveList(ss, f)[i])
    decreases ss, 0
  {
    hide Empty, ResolveS, AllocateList;
    if ss != [] {
      var before := ss[..|ss| - 1];
      EmptyListResolved(before, f);
      EmptyResolved(ss[|ss| - 1], AllocateList(before, f));
    }
  }

  lemma {:induction false} IdleResolved(ss: seq<Stmt>, i: nat, f: Frame)
    requires i <= |ss| && Idle(ss, i)
    ensures Idle(ResolveList(ss, f), i)
    decreases |ss| - i
  {
    hide Empty, ResolveList, AllocateList;
    if i < |ss| {
      ResolvedItem(ss, f, i);
      var f' := AllocateList(ss[..i], f);
      if !ss[i].Default? {
        IdleResolved(ss, i + 1, f);
        EmptyResolved(if ss[i].Case? then ss[i].labelled else ss[i], f');
        CaseResolved(ss[i], f');
      }
    }
  }

  lemma CaseResolved(s: Stmt, f: Frame)
    ensures ResolveS(s, f).Case? == s.Case? && (s.Case? ==> ResolveS(s, f).labelled == ResolveS(s.labelled, f))
  {
  }

  lemma GroupedResolved(ss: seq<Stmt>, f: Frame)
    requires Grouped(ss)
    ensures Grouped(ResolveList(ss, f))
  {
    hide Leaves, Idle, ResolveList, ResolveS;
    var rs := ResolveList(ss, f);
    forall i | 0 <= i < |ss|
      ensures Leaves(rs[i]) == Leaves(ss[i]) && IsLabel(rs[i]) == IsLabel(ss[i]) && rs[i].Default? == ss[i].Default?
      ensures Idle(ss, i) ==> Idle(rs, i)
    {
      ResolvedItem(ss, f, i);
      LeavesResolved(ss[i], AllocateList(ss[..i], f));
      if Idle(ss, i) {
        IdleResolved(ss, i, f);
      }
    }
  }

  /** Allocation keeps a program careful. */
  lemma {:induction false} CarefulResolved(s: Stmt, f: Frame)
    requires Careful(s)
    ensures Careful(ResolveS(s, f))
    decreases s, 1
  {
    hide ExactE, TruthE, ResolveE, Grouped, ResolveDecls, AllocateDecls;
    ExactAll();
    match s
    case Declare(ds) => DeclareCareful(ds, f);
    case Block(ss) => ListCareful(ss, f);
    case If(_, y, n) =>
      CarefulResolved(y, f);
      if n.Some? {
        CarefulResolved(n.value, AllocateS(y, f));
      }
    case While(_, b) => CarefulResolved(b, f);
    case Do(b, _) => CarefulResolved(b, f);
    case For(start, _, _, b) =>
      if start.Some? {
        CarefulResolved(start.value, f);
      }
      CarefulResolved(b, AllocateO(start, f));
    case Switch(_, Block(ss)) =>
      CarefulItems(ss, f);
      GroupedResolved(ss, f);
    case _ =>
  }

  lemma DeclareCareful(ds: seq<Decl>, f: Frame)
    requires Careful(Declare(ds))
    ensures Careful(ResolveS(Declare(ds), f))
  {
    hide ExactDecls, ResolveDecls, AllocateS;
    DeclsCareful(ds, f);
    assert ResolveS(Declare(ds), f) == Declare(ResolveDecls(ds, f));
  }

  lemma ExactAll()
    ensures forall e, table :: ExactE(e) ==> ExactE(ResolveE(e, table))
    ensures forall e, table :: TruthE(e) ==> TruthE(ResolveE(e, table))
  {
    hide ExactE, TruthE, ResolveE;
    forall e, table ensures (ExactE(e) ==> ExactE(ResolveE(e, table))) && (TruthE(e) ==> TruthE(ResolveE(e, table))) {
      ExactResolved(e, table);
    }
  }

  lemma {:induction false} DeclsCareful(ds: seq<Decl>, f: Frame)
    requires ExactDecls(ds)
    ensures ExactDecls(ResolveDecls(ds, f))
    decreases |ds|
  {
    hide ExactE, ResolveE, AllocateDecl;
    ExactAll();
    if ds != [] {
      var n := |ds| - 1;
      DeclsCareful(ds[..n], f);
      var rs := ResolveDecls(ds, f);
      forall i | 0 <= i < |rs| && rs[i].Scalar? ensures ExactO(rs[i].init) {
        if i < n {
          assert rs[i] == ResolveDecls(ds[..n], f)[i];
        } else {
          assert rs[i] == ResolveDecl(ds[n], AllocateDecls(ds[..n], f));
          assert ExactO(ds[n].init);
        }
      }
    }
  }

  lemma {:induction false} ListCareful(ss: seq<Stmt>, f: Frame)
    requires forall i :: 0 <= i < |ss| ==> Careful(ss[i])
    ensures forall i :: 0 <= i < |ss| ==> Careful(ResolveList(ss, f)[i])
    decreases ss, 0
  {
    hide Careful, ResolveS;
    if ss != [] {
      var n := |ss| - 1;
      ListCareful(ss[..n], f);
      CarefulResolved(ss[n], AllocateList(ss[..n], f));
      forall i | 0 <= i < |ss| ensures Careful(ResolveList(ss, f)[i]) {
        if i < n {
          assert ResolveList(ss, f)[i] == ResolveList(ss[..n], f)[i];
        }
      }
    }
  }

  lemma {:induction false} CarefulItems(ss: seq<Stmt>, f: Frame)
    requires forall i :: 0 <= i < |ss| ==> CarefulItem(ss[i])
    ensures forall i :: 0 <= i < |ss| ==> CarefulItem(ResolveList(ss, f)[i])
    decreases ss, 0
  {
    hide CarefulItem, ResolveS;
    if ss != [] {
      var n := |ss| - 1;
      CarefulItems(ss[..n], f);
      ItemCareful(ss[n], AllocateList(ss[..n], f));
      forall i | 0 <= i < |ss| ensures CarefulItem(ResolveList(ss, f)[i]) {
        if i < n {
          assert ResolveList(ss, f)[i] == ResolveList(ss[..n], f)[i];
        }
      }
    }
  }

  lemma {:induction false} ItemCareful(s: Stmt, f: Frame)
    requires CarefulItem(s)
    ensures CarefulItem(ResolveS(s, f))
    decreases s, 2
  {
    hide Careful;
    if s.Case? {
      CarefulResolved(s.labelled, f);
    } else if s.Default? {
      CarefulResolved(s.labelled, f);
    } else {
      CarefulResolved(s, f);
      CarefulNotLabel(s, f);
    }
  }

  lemma CarefulNotLabel(s: Stmt, f: Frame)
    requires !s.Case? && !s.Default? && Careful(ResolveS(s, f))
    ensures CarefulItem(ResolveS(s, f))
  {
  }

  // -------------------------------------------------------------------- whole functions

  /** The parameters of a function, which have values, lie apart from each other and from the globals. */
  lemma {:induction false} ParametersSound(params: seq<Decl>, live: Live, f: Frame)
    requires Sound(live, f) && NewNames(params, live)
    ensures Sound(LiveDecls(params, live), AllocateDecls(params, f))
    ensures AllocateDecls(params, f).inFunction == f.inFunction
    decreases |params|
  {
    hide Sound;
    if params != [] {
      var n := |params| - 1;
      ParametersSound(params[..n], live, f);
      DeclSound(params[n], LiveDecls(params[..n], live), AllocateDecls(params[..n], f));
    }
  }

  predicate NewNames(params: seq<Decl>, live: Live) {
    params == [] ||
    (NewNames(params[..|params| - 1], live) && NameOf(params[|params| - 1]) !in LiveDecls(params[..|params| - 1], live))
  }

  lemma EntrySound(params: seq<Decl>, globals: Live, f: Frame)
    requires Sound(globals, f) && NewNames(params, globals) && !f.inFunction
    requires forall x :: x in globals ==> x in f.table && f.table[x] <= 0
    ensures Sound(Given(LiveDecls(params, globals)), Entry(params, f)) && Entry(params, f).inFunction
  {
    var f' := f.(inFunction := true, displ := DISPL_START, maxLocal := DISPL_START);
    assert Sound(globals, f');
    ParametersSound(params, globals, f');
    SoundSimilar(LiveDecls(params, globals), Given(LiveDecls(params, globals)), Entry(params, f));
  }

  /** How the code ends when the source ends. */
  ghost predicate Follows(memory: seq<int>, st: State, r: IsoResult, live: Live, f: Frame, fuel: nat) {
    match r
    case IsoDone(out, d) =>
      exists left: seq<int>, cells: Data ::
        Returns(memory, st, if out.Returned? then out.value else None, left + st.stack, cells) && Agree(d, cells, live, f)
    case IsoUndefined => Faults(memory, st)
    case IsoOutOfFuel => Outruns(Loaded(memory), st, fuel)
  }

  /**
    * The code of a function, anywhere in the memory, runs as the standard says its
    * source runs: it returns the same value and leaves every variable in scope with
    * the same value, faults exactly where an operation is undefined, and runs on for
    * as long as the source does.
    */
  lemma FunctionMeansSource(
    body: Stmt, live: Live, entry: Frame, memory: seq<int>, front: seq<int>, back: seq<int>, st: State, d: Data, fuel: nat)
    requires Sound(live, entry) && ScopedS(body, live) && Small(AllocateS(body, entry))
    requires Careful(body) && OrderlyS(body) && Confined(body, false, false)
    requires memory == front + FunctionCode(ResolveS(body, entry), AllocateS(body, entry).maxLocal, |front|) + back
    requires st.pc == |front| + 3 && Agree(d, st.data, live, entry)
    ensures Follows(memory, st, IsoExec(body, d, fuel), live, entry, fuel)
  {
    hide Sound, ScopedS, Small, Careful, OrderlyS, Confined, Agree, Returns, Faults, Outruns, Structured, Renamed, Exec, IsoExec,
      ResolveS, AllocateS, FunctionCode;
    var r := ResolveS(body, entry);
    ConfinedResolved(body, entry, false, false);
    OrderlyStructured(body, live, entry);
    CarefulResolved(body, entry);
    FunctionRuns(r, memory, front, AllocateS(body, entry).maxLocal, back, st, fuel);
    IsoCorrect.CarefulSame(r, st.data, fuel);
    Renames(body, live, entry, d, st.data, fuel);
    RunOf(body, live, entry, d, st.data, fuel);
  }
}

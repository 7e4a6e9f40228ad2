/**
  * A program over named variables and the same program over cells do the same, as
  * long as names are used in their scope.
  */
module Renaming {
  import opened Common
  import opened Ast
  import opened Arithmetic
  import opened Machine
  import opened Semantics
  import opened IsoC
  import IsoCorrect
  import opened Frames
  import opened Allocation

  /** Every integer variable in scope holds in its cell what it holds by name. */
  ghost predicate Agree(d: Data, cells: Data, live: Live, f: Frame) {
    forall x :: x in live && live[x].Single? ==> x in f.table && Fetch(d, x) == Fetch(cells, f.table[x])
  }

  lemma AgreeLater(d: Data, cells: Data, live: Live, f: Frame, g: Frame)
    requires Agree(d, cells, live, f) && Extends(live, f, g)
    ensures Agree(d, cells, live, g)
  {
  }

  /** What has a value keeps one. */
  predicate Keeps(live: Live, more: Live) {
    forall x :: x in live && live[x].Single? ==> x in more && more[x].Single?
  }

  /** Back from a later frame, or from more names. */
  lemma AgreeEarlier(d: Data, cells: Data, live: Live, f: Frame, more: Live, g: Frame)
    requires Agree(d, cells, more, g) && Extends(live, f, g)
    requires Keeps(live, more)
    ensures Agree(d, cells, live, f)
  {
  }

  lemma AgreeStore(d: Data, cells: Data, live: Live, f: Frame, x: int, v: int)
    requires Sound(live, f) && Agree(d, cells, live, f) && IsScalar(x, live)
    ensures Agree(d[x := v], cells[f.table[x] := v], live, f)
  {
    var d', cells' := d[x := v], cells[f.table[x] := v];
    forall y | y in live && live[y].Single? ensures Fetch(d', y) == Fetch(cells', f.table[y]) {
      if y != x {
        assert Apart(f.table[x], CellsOf(live[x]), f.table[y], CellsOf(live[y]));
      }
    }
  }

  lemma AgreeFetch(d: Data, cells: Data, live: Live, f: Frame, x: int)
    requires Agree(d, cells, live, f) && IsScalar(x, live)
    ensures x in f.table && Displacement(f.table, x) == f.table[x] && Fetch(d, x) == Fetch(cells, f.table[x])
  {
  }

  // ------------------------------------------------------------------- expressions

  /** Both undefined, or one value with variables that agree. */
  ghost predicate SameValue(r: Option<(int, Data)>, r': Option<(int, Data)>, live: Live, f: Frame) {
    match (r, r')
    case (None, None) => true
    case (Some((v, d)), Some((w, cells))) => v == w && Agree(d, cells, live, f)
    case _ => false
  }

  lemma {:induction false} ExprRenames(e: Expr, live: Live, f: Frame, d: Data, cells: Data)
    requires Sound(live, f) && ScopedE(e, live) && Agree(d, cells, live, f)
    ensures SameValue(IsoEval(e, d), IsoEval(ResolveE(e, f.table), cells), live, f)
    decreases e
  {
    hide Sound, Agree, ApplyUnary, ApplyBinary, ApplyAssign, ApplyStep, Fetch, Displacement;
    match e
    case Lit(_) =>
    case Var(x) => AgreeFetch(d, cells, live, f, x);
    case Unary(_, a) => ExprRenames(a, live, f, d, cells);
    case Step(op, x) =>
      AgreeFetch(d, cells, live, f, x);
      if ApplyStep(op, Fetch(d, x)).Some? {
        AgreeStore(d, cells, live, f, x, ApplyStep(op, Fetch(d, x)).value);
      }
    case Binary(_, a, b) =>
      ExprRenames(a, live, f, d, cells);
      if IsoEval(a, d).Some? {
        ExprRenames(b, live, f, IsoEval(a, d).value.1, IsoEval(ResolveE(a, f.table), cells).value.1);
      }
    case Comma(a, b) =>
      ExprRenames(a, live, f, d, cells);
      if IsoEval(a, d).Some? {
        ExprRenames(b, live, f, IsoEval(a, d).value.1, IsoEval(ResolveE(a, f.table), cells).value.1);
      }
    case Ternary(c, a, b) =>
      ExprRenames(c, live, f, d, cells);
      if IsoEval(c, d).Some? {
        ExprRenames(a, live, f, IsoEval(c, d).value.1, IsoEval(ResolveE(c, f.table), cells).value.1);
        ExprRenames(b, live, f, IsoEval(c, d).value.1, IsoEval(ResolveE(c, f.table), cells).value.1);
      }
    case Assign(op, x, a) => AssignRenames(e, live, f, d, cells);
  }

  /** An expression statement also gives values to the variables that it assigns first. */
  lemma {:induction false} EffectRenames(e: Expr, live: Live, f: Frame, d: Data, cells: Data)
    requires Sound(live, f) && ScopedV(e, live) && Agree(d, cells, live, f)
    ensures SameValue(IsoEval(e, d), IsoEval(ResolveE(e, f.table), cells), LiveE(e, live), f)
    decreases e
  {
    hide Sound, Agree, Fetch, Displacement, ScopedE;
    match e
    case Assign(Set, x, a) =>
      assert live[x].Single? ==> live[x := Single] == live;
      ExprRenames(a, live, f, d, cells);
      if IsoEval(a, d).Some? {
        var (v, d1) := IsoEval(a, d).value;
        AgreeFirst(d1, IsoEval(ResolveE(a, f.table), cells).value.1, live, f, x, v);
      }
    case Comma(a, b) =>
      EffectRenames(a, live, f, d, cells);
      SimilarE(a, live);
      SoundSimilar(live, LiveE(a, live), f);
      if IsoEval(a, d).Some? {
        EffectRenames(b, LiveE(a, live), f, IsoEval(a, d).value.1, IsoEval(ResolveE(a, f.table), cells).value.1);
      }
    case _ =>
      ExprRenames(e, live, f, d, cells);
  }

  lemma AgreeFirst(d: Data, cells: Data, live: Live, f: Frame, x: int, v: int)
    requires Sound(live, f) && Agree(d, cells, live, f) && x in live && !live[x].Several?
    ensures Displacement(f.table, x) == f.table[x]
    ensures Agree(d[x := v], cells[f.table[x] := v], live[x := Single], f)
  {
    var d', cells' := d[x := v], cells[f.table[x] := v];
    var live' := live[x := Single];
    forall y | y in live' && live'[y].Single? ensures y in f.table && Fetch(d', y) == Fetch(cells', f.table[y]) {
      if y != x {
        assert Apart(f.table[x], CellsOf(live[x]), f.table[y], CellsOf(live[y]));
      }
    }
  }

  lemma {:induction false} AssignRenames(e: Expr, live: Live, f: Frame, d: Data, cells: Data)
    requires e.Assign? && Sound(live, f) && ScopedE(e, live) && Agree(d, cells, live, f)
    ensures SameValue(IsoEval(e, d), IsoEval(ResolveE(e, f.table), cells), live, f)
    decreases e, 0
  {
    hide Sound, Agree, ApplyAssign, Fetch, Displacement;
    var x, a := e.dest, e.source;
    ExprRenames(a, live, f, d, cells);
    if IsoEval(a, d).Some? {
      var (v, d1) := IsoEval(a, d).value;
      var cells1 := IsoEval(ResolveE(a, f.table), cells).value.1;
      AgreeFetch(d1, cells1, live, f, x);
      var r := ApplyAssign(e.aop, Fetch(d1, x), v);
      if r.Some? {
        AgreeStore(d1, cells1, live, f, x, r.value);
      }
    }
  }

  // -------------------------------------------------------------------- statements

  /** Two runs end alike, with variables in scope that agree. */
  ghost predicate SameRun(r: IsoResult, r': IsoResult, live: Live, f: Frame) {
    match (r, r')
    case (IsoDone(out, d), IsoDone(out', cells)) => out == out' && Agree(d, cells, live, f)
    case (IsoUndefined, IsoUndefined) => true
    case (IsoOutOfFuel, IsoOutOfFuel) => true
    case _ => false
  }

  /** A run that ends normally also agrees on what the statement declared. */
  ghost predicate After(r: IsoResult, r': IsoResult, live: Live, f: Frame) {
    r.IsoDone? && r'.IsoDone? && r.out.Normal? ==> Agree(r.data, r'.data, live, f)
  }

  ghost predicate Renamed(s: Stmt, live: Live, f: Frame, d: Data, cells: Data, fuel: nat) {
    var r, r' := IsoExec(s, d, fuel), IsoExec(ResolveS(s, f), cells, fuel);
    SameRun(r, r', live, f) && After(r, r', LiveS(s, live), AllocateS(s, f))
  }

  lemma {:induction false} DeclsRename(ds: seq<Decl>, live: Live, f: Frame, d: Data, cells: Data)
    requires Sound(live, f) && ScopedDecls(ds, live) && Agree(d, cells, live, f)
    ensures match (IsoDecls(ds, d), IsoDecls(ResolveDecls(ds, f), cells))
      case (None, None) => true
      case (Some(d1), Some(cells1)) => Agree(d1, cells1, LiveDecls(ds, live), AllocateDecls(ds, f))
      case _ => false
    decreases |ds|
  {
    hide Sound, Agree, IsoEval, ScopedO, ResolveDecl, AllocateDecl, OneDecl, IsoDecls;
    IsoDeclsStep(ds, d);
    if ds == [] {
      IsoDeclsStep([], cells);
    } else {
      var n := |ds| - 1;
      var before, last := ds[..n], ds[n];
      DeclsRename(before, live, f, d, cells);
      DeclsSound(before, live, f);
      var rs := ResolveDecls(ds, f);
      assert rs[..n] == ResolveDecls(before, f) && rs[n] == ResolveDecl(last, AllocateDecls(before, f));
      IsoDeclsStep(rs, cells);
      if IsoDecls(before, d).Some? {
        DeclRenames(last, LiveDecls(before, live), AllocateDecls(before, f), IsoDecls(before, d).value,
          IsoDecls(rs[..n], cells).value);
      }
    }
  }

  /** The meaning of the last declarator. */
  function OneDecl(decl: Decl, d: Data): Option<Data> {
    match decl
    case Scalar(x, Some(e)) =>
      (match IsoEval(e, d)
       case None => None
       case Some((v, d2)) => Some(d2[x := v]))
    case _ => Some(d)
  }

  lemma IsoDeclsStep(ds: seq<Decl>, d: Data)
    ensures ds == [] ==> IsoDecls(ds, d) == Some(d)
    ensures ds != [] ==>
      var n := |ds| - 1;
      IsoDecls(ds, d) == match IsoDecls(ds[..n], d) case None => None case Some(d1) => OneDecl(ds[n], d1)
  {
    hide IsoEval;
  }

  lemma {:induction false} DeclRenames(decl: Decl, live: Live, f: Frame, d: Data, cells: Data)
    requires Sound(live, f) && NameOf(decl) !in live && Agree(d, cells, live, f)
    requires decl.Scalar? ==> ScopedO(decl.init, live)
    ensures match (OneDecl(decl, d), OneDecl(ResolveDecl(decl, f), cells))
      case (None, None) => true
      case (Some(d1), Some(cells1)) => Agree(d1, cells1, live[NameOf(decl) := RoomOf(decl)], AllocateDecl(decl, f))
      case _ => false
  {
    hide Sound, Agree, IsoEval, ScopedE, ResolveE, AllocateDecl;
    var f', live' := AllocateDecl(decl, f), live[NameOf(decl) := RoomOf(decl)];
    DeclSound(decl, live, f);
    match decl
    case Scalar(x, Some(e)) =>
      AgreeLater(d, cells, live, f, f');
      ScopedSame(e, live, f, f');
      ExprRenames(e, live, f, d, cells);
      if IsoEval(e, d).Some? {
        var (v, d1) := IsoEval(e, d).value;
        var cells1 := IsoEval(ResolveE(e, f.table), cells).value.1;
        AgreeFresh(d1, cells1, live, f, decl, v);
      }
    case _ => AgreeUnset(d, cells, live, f, decl);
  }

  /** Expressions over names in scope are resolved alike in a later frame. */
  lemma {:induction false} ScopedSame(e: Expr, live: Live, f: Frame, g: Frame)
    requires ScopedE(e, live) && Extends(live, f, g)
    ensures ResolveE(e, g.table) == ResolveE(e, f.table)
    decreases e
  {
    match e
    case Unary(_, a) => ScopedSame(a, live, f, g);
    case Binary(_, a, b) =>
      ScopedSame(a, live, f, g);
      ScopedSame(b, live, f, g);
    case Comma(a, b) =>
      ScopedSame(a, live, f, g);
      ScopedSame(b, live, f, g);
    case Ternary(c, a, b) =>
      ScopedSame(c, live, f, g);
      ScopedSame(a, live, f, g);
      ScopedSame(b, live, f, g);
    case Assign(_, _, a) => ScopedSame(a, live, f, g);
    case _ =>
  }

  lemma AgreeFresh(d: Data, cells: Data, live: Live, f: Frame, decl: Decl, v: int)
    requires Sound(live, f) && decl.Scalar? && decl.name !in live && Agree(d, cells, live, f)
    ensures var f' := AllocateDecl(decl, f);
      decl.name in f'.table && Agree(d[decl.name := v], cells[f'.table[decl.name] := v], live[decl.name := Single], f')
  {
    var f', live' := AllocateDecl(decl, f), live[decl.name := Single];
    DeclSound(decl, live, f);
    var x := decl.name;
    var d', cells' := d[x := v], cells[f'.table[x] := v];
    forall y | y in live' && live'[y].Single? ensures y in f'.table && Fetch(d', y) == Fetch(cells', f'.table[y]) {
      if y != x {
        assert Apart(f'.table[x], CellsOf(live'[x]), f'.table[y], CellsOf(live'[y]));
      }
    }
  }

  lemma AgreeUnset(d: Data, cells: Data, live: Live, f: Frame, decl: Decl)
    requires Sound(live, f) && !RoomOf(decl).Single? && NameOf(decl) !in live && Agree(d, cells, live, f)
    ensures Agree(d, cells, live[NameOf(decl) := RoomOf(decl)], AllocateDecl(decl, f))
  {
  }

  /** Every statement does the same over names as over cells. */
  lemma {:induction false} Renames(s: Stmt, live: Live, f: Frame, d: Data, cells: Data, fuel: nat)
    requires Sound(live, f) && ScopedS(s, live) && Agree(d, cells, live, f)
    ensures Renamed(s, live, f, d, cells, fuel)
    decreases fuel, s, 2
  {
    hide Sound, Agree, ScopedE, ScopedDecls, Renamed;
    match s
    case Effect(_) => SimpleRenames(s, live, f, d, cells, fuel);
    case Declare(_) => SimpleRenames(s, live, f, d, cells, fuel);
    case Return(_) => SimpleRenames(s, live, f, d, cells, fuel);
    case Null => SimpleRenames(s, live, f, d, cells, fuel);
    case Break => SimpleRenames(s, live, f, d, cells, fuel);
    case Continue => SimpleRenames(s, live, f, d, cells, fuel);
    case Block(ss) => BlockRenames(s, live, f, d, cells, fuel);
    case If(_, _, _) => IfRenames(s, live, f, d, cells, fuel);
    case While(_, _) => WhileRenames(s, live, f, d, cells, fuel);
    case Do(_, _) =>
      DoRenames(s, live, f, d, cells, fuel);
      Inside(s, live, f, d, cells, fuel);
    case For(_, _, _, _) => ForRenames(s, live, f, d, cells, fuel);
    case Switch(_, _) => SwitchRenames(s, live, f, d, cells, fuel);
    case Case(_, _) => LabelRenames(s, live, f, d, cells, fuel);
    case Default(_) => LabelRenames(s, live, f, d, cells, fuel);
  }

  /** A statement that declares nothing for its surroundings: names in scope are all there is to agree on. */
  lemma Inside(s: Stmt, live: Live, f: Frame, d: Data, cells: Data, fuel: nat)
    requires Sound(live, f) && ScopedS(s, live) && !s.Declare?
    requires SameRun(IsoExec(s, d, fuel), IsoExec(ResolveS(s, f), cells, fuel), live, f)
    requires LiveS(s, live) == live || After(IsoExec(s, d, fuel), IsoExec(ResolveS(s, f), cells, fuel), LiveS(s, live), f)
    ensures Renamed(s, live, f, d, cells, fuel)
  {
    hide Sound, Agree, IsoExec, ResolveS, AllocateS, ScopedS, LiveS, Extends;
    AllocationSound(s, live, f);
    SimilarS(s, live);
    ExtendsSimilar(live, LiveS(s, live), f, AllocateS(s, f));
    var r, r' := IsoExec(s, d, fuel), IsoExec(ResolveS(s, f), cells, fuel);
    if r.IsoDone? && r'.IsoDone? && r.out.Normal? {
      AgreeLater(r.data, r'.data, LiveS(s, live), f, AllocateS(s, f));
    }
  }

  lemma ExtendsSimilar(live: Live, more: Live, f: Frame, g: Frame)
    requires Extends(live, f, g) && Similar(live, more)
    ensures Extends(more, f, g)
  {
  }

  /** Variables that have a value at the end of each part have one afterwards. */
  lemma SettleKeeps(live: Live, a: Live, b: Live)
    requires Keeps(live, a) && Keeps(live, b)
    ensures Keeps(Settle(live, a, b), a) && Keeps(Settle(live, a, b), b)
  {
  }

  lemma ForLive(s: Stmt, live: Live)
    requires s.For?
    ensures LiveS(s, live) == Settle(live, LiveO(s.start, live), LiveO(s.start, live))
  {
  }

  lemma NoStatements(live: Live, f: Frame)
    ensures LiveList([], live) == live && AllocateList([], f) == f
  {
  }

  lemma SettleSame(live: Live)
    ensures Settle(live, live, live) == live
  {
  }

  lemma SettleExtends(live: Live, a: Live, b: Live, f: Frame, g: Frame)
    requires Extends(live, f, g)
    ensures Extends(Settle(live, a, b), f, g)
  {
  }

  /** The end of a part, seen from the statement around it. */
  lemma AfterEarlier(r: IsoResult, r': IsoResult, live: Live, f: Frame, more: Live, g: Frame)
    requires After(r, r', more, g) && Extends(live, f, g) && Keeps(live, more)
    ensures After(r, r', live, f)
  {
    hide Agree, Extends, Keeps;
    if r.IsoDone? && r'.IsoDone? && r.out.Normal? {
      AgreeEarlier(r.data, r'.data, live, f, more, g);
    }
  }

  lemma RunOf(s: Stmt, live: Live, f: Frame, d: Data, cells: Data, fuel: nat)
    requires Renamed(s, live, f, d, cells, fuel)
    ensures SameRun(IsoExec(s, d, fuel), IsoExec(ResolveS(s, f), cells, fuel), live, f)
  {
  }

  lemma {:induction false} SimpleRenames(s: Stmt, live: Live, f: Frame, d: Data, cells: Data, fuel: nat)
    requires s.Effect? || s.Declare? || s.Return? || s.Null? || s.Break? || s.Continue?
    requires Sound(live, f) && ScopedS(s, live) && Agree(d, cells, live, f)
    ensures Renamed(s, live, f, d, cells, fuel)
  {
    hide Sound, Agree, IsoEval, IsoDecls, ScopedE, ScopedV, ScopedDecls, LiveDecls, LiveE, AllocateDecls, ResolveDecls, ResolveE;
    match s
    case Effect(e) =>
      EffectRenames(e, live, f, d, cells);
      SimilarE(e, live);
      if IsoEval(e, d).Some? {
        AgreeSimilar(IsoEval(e, d).value.1, IsoEval(ResolveE(e, f.table), cells).value.1, live, LiveE(e, live), f);
      }
    case Return(e) =>
      if e.Some? {
        ExprRenames(e.value, live, f, d, cells);
      }
    case Declare(ds) => DeclareRenames(ds, live, f, d, cells);
    case _ =>
  }

  lemma AgreeSimilar(d: Data, cells: Data, live: Live, more: Live, f: Frame)
    requires Agree(d, cells, more, f) && Similar(live, more)
    ensures Agree(d, cells, live, f)
  {
  }

  lemma DeclareRenames(ds: seq<Decl>, live: Live, f: Frame, d: Data, cells: Data)
    requires Sound(live, f) && ScopedDecls(ds, live) && Agree(d, cells, live, f)
    ensures match (IsoDecls(ds, d), IsoDecls(ResolveDecls(ds, f), cells))
      case (None, None) => true
      case (Some(d1), Some(cells1)) =>
        Agree(d1, cells1, LiveDecls(ds, live), AllocateDecls(ds, f)) && Agree(d1, cells1, live, f)
      case _ => false
  {
    hide Sound, Agree, IsoDecls, ScopedDecls, LiveDecls, AllocateDecls, ResolveDecls;
    DeclsRename(ds, live, f, d, cells);
    DeclsSound(ds, live, f);
    if IsoDecls(ds, d).Some? {
      var d1, cells1 := IsoDecls(ds, d).value, IsoDecls(ResolveDecls(ds, f), cells).value;
      AgreeEarlier(d1, cells1, live, f, LiveDecls(ds, live), AllocateDecls(ds, f));
    }
  }

  lemma {:induction false} IfRenames(s: Stmt, live: Live, f: Frame, d: Data, cells: Data, fuel: nat)
    requires s.If? && Sound(live, f) && ScopedS(s, live) && Agree(d, cells, live, f)
    ensures Renamed(s, live, f, d, cells, fuel)
    decreases fuel, s, 1
  {
    hide Sound, Agree, IsoEval, ScopedE, AllocateS, Renamed, Extends, ResolveE, Settle, SameRun, After;
    var f' := AllocateS(s.yes, f);
    AllocationSound(s.yes, live, f);
    InnerSound(s.yes, live, f);
    ExprRenames(s.cond, live, f, d, cells);
    var r, r' := IsoExec(s, d, fuel), IsoExec(ResolveS(s, f), cells, fuel);
    if IsoEval(s.cond, d).None? {
      Stopped(r, r', live, f, LiveS(s, live));
    } else {
      var (v, d1) := IsoEval(s.cond, d).value;
      var cells1 := IsoEval(ResolveE(s.cond, f.table), cells).value.1;
      if v != 0 {
        YesRenames(s, live, f, d1, cells1, fuel);
      } else if s.no.Some? {
        AgreeLater(d1, cells1, live, f, f');
        NoRenames(s, live, f, d1, cells1, fuel);
      } else {
        assert ResolveS(s, f) == If(ResolveE(s.cond, f.table), ResolveS(s.yes, f), None);
        Passed(r, r', live, f);
      }
    }
    assert s.no.None? ==> LiveS(s, live) == live;
    Inside(s, live, f, d, cells, fuel);
  }

  lemma Stopped(r: IsoResult, r': IsoResult, live: Live, f: Frame, more: Live)
    requires r.IsoUndefined? && r'.IsoUndefined?
    ensures SameRun(r, r', live, f) && After(r, r', more, f)
  {
  }

  lemma Passed(r: IsoResult, r': IsoResult, live: Live, f: Frame)
    requires r.IsoDone? && r'.IsoDone? && r.out == r'.out && Agree(r.data, r'.data, live, f)
    ensures SameRun(r, r', live, f)
  {
  }

  lemma {:induction false} YesRenames(s: Stmt, live: Live, f: Frame, d: Data, cells: Data, fuel: nat)
    requires s.If? && Sound(live, f) && ScopedS(s.yes, live) && Agree(d, cells, live, f)
    requires s.no.Some? ==> ScopedS(s.no.value, live)
    ensures var r, r' := IsoExec(s.yes, d, fuel), IsoExec(ResolveS(s.yes, f), cells, fuel);
      SameRun(r, r', live, f) && (s.no.Some? ==> After(r, r', LiveS(s, live), f))
    decreases fuel, s, 0
  {
    hide Sound, Agree, ScopedS, IsoExec, ResolveS, AllocateS, Renamed, Extends, Settle, SameRun, After, Keeps;
    var r, r' := IsoExec(s.yes, d, fuel), IsoExec(ResolveS(s.yes, f), cells, fuel);
    Renames(s.yes, live, f, d, cells, fuel);
    RunOf(s.yes, live, f, d, cells, fuel);
    AfterOf(s.yes, live, f, d, cells, fuel);
    AllocationSound(s.yes, live, f);
    if s.no.Some? {
      LiveSizes(s.yes, live);
      LiveSizes(s.no.value, live);
      SettleKeeps(live, LiveS(s.yes, live), LiveS(s.no.value, live));
      SettleExtends(live, LiveS(s.yes, live), LiveS(s.no.value, live), f, AllocateS(s.yes, f));
      AfterEarlier(r, r', LiveS(s, live), f, LiveS(s.yes, live), AllocateS(s.yes, f));
    }
  }

  lemma {:induction false} NoRenames(s: Stmt, live: Live, f: Frame, d: Data, cells: Data, fuel: nat)
    requires s.If? && s.no.Some? && Sound(live, f) && ScopedS(s.yes, live) && ScopedS(s.no.value, live)
    requires Sound(live, AllocateS(s.yes, f)) && Extends(live, f, AllocateS(s.yes, f)) && Agree(d, cells, live, AllocateS(s.yes, f))
    ensures var r, r' := IsoExec(s.no.value, d, fuel), IsoExec(ResolveS(s.no.value, AllocateS(s.yes, f)), cells, fuel);
      SameRun(r, r', live, f) && After(r, r', LiveS(s, live), f)
    decreases fuel, s, 0
  {
    hide Sound, Agree, ScopedS, IsoExec, ResolveS, AllocateS, Renamed, Extends, Settle, SameRun, After, Keeps;
    var n, f' := s.no.value, AllocateS(s.yes, f);
    var r, r' := IsoExec(n, d, fuel), IsoExec(ResolveS(n, f'), cells, fuel);
    Renames(n, live, f', d, cells, fuel);
    RunOf(n, live, f', d, cells, fuel);
    AfterOf(n, live, f', d, cells, fuel);
    KeepsItself(live);
    RunEarlier(r, r', live, f, live, f');
    AllocationSound(n, live, f');
    LiveSizes(s.yes, live);
    LiveSizes(n, live);
    SettleKeeps(live, LiveS(s.yes, live), LiveS(n, live));
    ExtendsOn(live, f, f', AllocateS(n, f'));
    SettleExtends(live, LiveS(s.yes, live), LiveS(n, live), f, AllocateS(n, f'));
    AfterEarlier(r, r', LiveS(s, live), f, LiveS(n, live), AllocateS(n, f'));
  }

  lemma KeepsItself(live: Live)
    ensures Keeps(live, live)
  {
  }

  lemma RunEarlier(r: IsoResult, r': IsoResult, live: Live, f: Frame, more: Live, g: Frame)
    requires SameRun(r, r', more, g) && Extends(live, f, g) && Keeps(live, more)
    ensures SameRun(r, r', live, f)
  {
    hide Agree, Extends;
    if r.IsoDone? {
      AgreeEarlier(r.data, r'.data, live, f, more, g);
    }
  }

  /** The test, body and step of a loop; the step is resolved in a later frame. */
  lemma {:induction false} LoopRenames(
    test: Option<Expr>, b: Stmt, next: Option<Expr>, live: Live, f: Frame, g: Frame, d: Data, cells: Data, fuel: nat)
    requires Sound(live, f) && ScopedO(test, live) && ScopedO(next, live) && ScopedS(b, live)
    requires Extends(live, f, g) && Agree(d, cells, live, f)
    ensures SameRun(IsoLoop(test, b, next, d, fuel),
      IsoLoop(ResolveOE(test, f.table), ResolveS(b, f), ResolveOE(next, g.table), cells, fuel), live, f)
    decreases fuel, b, 3
  {
    hide Sound, Agree, IsoTest, IsoNext, IsoExec, IsoLoop, ScopedO, ScopedS, Extends, ResolveS, ResolveOE, Renamed;
    var test', b', next' := ResolveOE(test, f.table), ResolveS(b, f), ResolveOE(next, g.table);
    IsoCorrect.IsoTurn(test, b, next, d, fuel);
    IsoCorrect.IsoTurn(test', b', next', cells, fuel);
    TestRenames(test, live, f, d, cells);
    if IsoTest(test, d).Some? {
      var d1, cells1 := IsoTest(test, d).value.1, IsoTest(test', cells).value.1;
      Renames(b, live, f, d1, cells1, fuel);
      RunOf(b, live, f, d1, cells1, fuel);
      var r, r' := IsoExec(b, d1, fuel), IsoExec(b', cells1, fuel);
      if r.IsoDone? {
        NextRenames(next, live, f, g, r.data, r'.data);
        if IsoNext(next, r.data).Some? && fuel > 0 {
          LoopRenames(test, b, next, live, f, g, IsoNext(next, r.data).value, IsoNext(next', r'.data).value, fuel - 1);
        }
      }
    }
  }

  lemma TestRenames(test: Option<Expr>, live: Live, f: Frame, d: Data, cells: Data)
    requires Sound(live, f) && ScopedO(test, live) && Agree(d, cells, live, f)
    ensures SameValue(IsoTest(test, d), IsoTest(ResolveOE(test, f.table), cells), live, f)
  {
    hide Sound, Agree, IsoEval, ScopedE;
    if test.Some? {
      ExprRenames(test.value, live, f, d, cells);
    }
  }

  lemma NextRenames(next: Option<Expr>, live: Live, f: Frame, g: Frame, d: Data, cells: Data)
    requires Sound(live, f) && ScopedO(next, live) && Extends(live, f, g) && Agree(d, cells, live, f)
    ensures match (IsoNext(next, d), IsoNext(ResolveOE(next, g.table), cells))
      case (None, None) => true
      case (Some(d1), Some(cells1)) => Agree(d1, cells1, live, f)
      case _ => false
  {
    hide Sound, Agree, IsoEval, ScopedE, Extends, ResolveE;
    if next.Some? {
      ScopedSame(next.value, live, f, g);
      ExprRenames(next.value, live, f, d, cells);
    }
  }

  lemma {:induction false} WhileRenames(s: Stmt, live: Live, f: Frame, d: Data, cells: Data, fuel: nat)
    requires s.While? && Sound(live, f) && ScopedS(s, live) && Agree(d, cells, live, f)
    ensures Renamed(s, live, f, d, cells, fuel)
    decreases fuel, s, 1
  {
    hide Sound, Agree, IsoLoop, ScopedE, Renamed;
    SoundExtends(live, f);
    LoopRenames(Some(s.cond), s.loop, None, live, f, f, d, cells, fuel);
    Inside(s, live, f, d, cells, fuel);
  }

  lemma {:induction false} ForRenames(s: Stmt, live: Live, f: Frame, d: Data, cells: Data, fuel: nat)
    requires s.For? && Sound(live, f) && ScopedS(s, live) && Agree(d, cells, live, f)
    ensures Renamed(s, live, f, d, cells, fuel)
    decreases fuel, s, 1
  {
    hide Sound, Agree, IsoLoop, ScopedO, Extends, AllocateS, Renamed, LiveS, IsoDecls;
    var live', f' := LiveO(s.start, live), AllocateO(s.start, f);
    var g := AllocateS(s.loop, f');
    if s.start.None? {
      AllocationSound(s.loop, live', f');
      LoopRenames(s.test, s.loop, s.next, live', f', g, d, cells, fuel);
    } else {
      var start := s.start.value;
      AllocationSound(start, live, f);
      AllocationSound(s.loop, live', f');
      Renames(start, live, f, d, cells, fuel);
      RunOf(start, live, f, d, cells, fuel);
      AfterOf(start, live, f, d, cells, fuel);
      LiveSizes(start, live);
      var r, r' := IsoExec(start, d, fuel), IsoExec(ResolveS(start, f), cells, fuel);
      if r.IsoDone? && r.out.Normal? {
        LoopRenames(s.test, s.loop, s.next, live', f', g, r.data, r'.data, fuel);
        LoopAfter(IsoLoop(s.test, s.loop, s.next, r.data, fuel),
          IsoLoop(ResolveOE(s.test, f'.table), ResolveS(s.loop, f'), ResolveOE(s.next, g.table), r'.data, fuel),
          live, f, live', f');
      }
    }
    ForLive(s, live);
    if s.start.None? {
      SettleSame(live);
    }
    Inside(s, live, f, d, cells, fuel);
  }

  /** The end of a loop, seen from outside. */
  lemma LoopAfter(r: IsoResult, r': IsoResult, live: Live, f: Frame, more: Live, g: Frame)
    requires SameRun(r, r', more, g) && Extends(live, f, g) && Keeps(live, more)
    ensures SameRun(r, r', live, f) && After(r, r', Settle(live, more, more), f)
  {
    hide Agree, Extends, Keeps, Settle;
    RunEarlier(r, r', live, f, more, g);
    SettleKeeps(live, more, more);
    SettleExtends(live, more, more, f, g);
    if r.IsoDone? {
      AgreeEarlier(r.data, r'.data, Settle(live, more, more), f, more, g);
    }
  }

  lemma AfterOf(s: Stmt, live: Live, f: Frame, d: Data, cells: Data, fuel: nat)
    requires Renamed(s, live, f, d, cells, fuel)
    ensures After(IsoExec(s, d, fuel), IsoExec(ResolveS(s, f), cells, fuel), LiveS(s, live), AllocateS(s, f))
  {
  }

  lemma LiveSizes(s: Stmt, live: Live)
    requires ScopedS(s, live)
    ensures Keeps(live, LiveS(s, live))
  {
    hide LiveDecls, LiveE, LiveList;
    if s.Declare? {
      DeclSizes(s.decls, live);
    } else {
      SimilarS(s, live);
    }
  }

  lemma {:induction false} DeclSizes(ds: seq<Decl>, live: Live)
    requires ScopedDecls(ds, live)
    ensures forall x :: x in live ==> x in LiveDecls(ds, live) && LiveDecls(ds, live)[x] == live[x]
    decreases |ds|
  {
    hide ScopedE;
    if ds != [] {
      DeclSizes(ds[..|ds| - 1], live);
    }
  }

  lemma {:induction false} DoRenames(s: Stmt, live: Live, f: Frame, d: Data, cells: Data, fuel: nat)
    requires s.Do? && Sound(live, f) && ScopedS(s, live) && Agree(d, cells, live, f)
    ensures SameRun(IsoExec(s, d, fuel), IsoExec(ResolveS(s, f), cells, fuel), live, f)
    decreases fuel, s, 1
  {
    hide Sound, Agree, IsoEval, ScopedE, AllocateS, Renamed, Extends, ResolveE;
    var g := AllocateS(s.loop, f);
    AllocationSound(s.loop, live, f);
    Renames(s.loop, live, f, d, cells, fuel);
    RunOf(s.loop, live, f, d, cells, fuel);
    var r, r' := IsoExec(s.loop, d, fuel), IsoExec(ResolveS(s.loop, f), cells, fuel);
    if r.IsoDone? {
      ScopedSame(s.cond, live, f, g);
      ExprRenames(s.cond, live, f, r.data, r'.data);
      if IsoEval(s.cond, r.data).Some? && fuel > 0 {
        DoRenames(s, live, f, IsoEval(s.cond, r.data).value.1, IsoEval(ResolveE(s.cond, g.table), r'.data).value.1, fuel - 1);
      }
    }
  }

  // ------------------------------------------------------------------------- lists

  lemma {:induction false} ResolvedItem(ss: seq<Stmt>, f: Frame, i: nat)
    requires i < |ss|
    ensures ResolveList(ss, f)[i] == ResolveS(ss[i], AllocateList(ss[..i], f))
    ensures AllocateList(ss[..i + 1], f) == AllocateS(ss[i], AllocateList(ss[..i], f))
    decreases |ss|
  {
    hide ResolveS, AllocateS;
    var n := |ss| - 1;
    if i < n {
      ResolvedItem(ss[..n], f, i);
      assert ss[..n][..i] == ss[..i];
    }
    assert ss[..i + 1][..i] == ss[..i];
  }

  lemma {:induction false} ScopedPrefix(ss: seq<Stmt>, live: Live, i: nat)
    requires ScopedList(ss, live) && i <= |ss|
    ensures ScopedList(ss[..i], live) && (i < |ss| ==> ScopedS(ss[i], LiveList(ss[..i], live)))
    ensures i < |ss| ==> LiveList(ss[..i + 1], live) == LiveS(ss[i], LiveList(ss[..i], live))
    decreases |ss|
  {
    hide ScopedS, LiveS;
    if i == |ss| {
      assert ss[..i] == ss;
    } else {
      var n := |ss| - 1;
      assert ss[..i + 1][..i] == ss[..i];
      if i < n {
        ScopedPrefix(ss[..n], live, i);
        assert ss[..n][..i] == ss[..i];
      }
    }
  }

  lemma {:induction false} ListSizes(ss: seq<Stmt>, live: Live)
    requires ScopedList(ss, live)
    ensures Keeps(live, LiveList(ss, live))
    decreases |ss|
  {
    hide LiveS, ScopedS;
    if ss != [] {
      var before := ss[..|ss| - 1];
      ListSizes(before, live);
      LiveSizes(ss[|ss| - 1], LiveList(before, live));
    }
  }

  lemma {:induction false} BlockRenames(s: Stmt, live: Live, f: Frame, d: Data, cells: Data, fuel: nat)
    requires s.Block? && Sound(live, f) && ScopedS(s, live) && Agree(d, cells, live, f)
    ensures Renamed(s, live, f, d, cells, fuel)
    decreases fuel, s, 1
  {
    hide Sound, Agree, IsoList, ScopedList, Renamed, LiveList, AllocateList, Settle, Keeps, Extends, After, SameRun;
    var ss := s.body;
    assert ss[..0] == [];
    NoStatements(live, f);
    ListRenames(ss, 0, live, f, d, cells, fuel);
    ListSound(ss, live, f);
    ListSizes(ss, live);
    SettleKeeps(live, LiveList(ss, live), LiveList(ss, live));
    SettleExtends(live, LiveList(ss, live), LiveList(ss, live), f, AllocateList(ss, f));
    AfterEarlier(IsoList(ss, 0, d, fuel), IsoList(ResolveList(ss, f), 0, cells, fuel),
      LiveS(s, live), f, LiveList(ss, live), AllocateList(ss, f));
    Inside(s, live, f, d, cells, fuel);
  }

  /** The rest of a block, from what is in scope there. */
  lemma {:induction false} ListRenames(ss: seq<Stmt>, i: nat, live: Live, f: Frame, d: Data, cells: Data, fuel: nat)
    requires i <= |ss| && Sound(live, f) && ScopedList(ss, live)
    requires Agree(d, cells, LiveList(ss[..i], live), AllocateList(ss[..i], f))
    ensures var r, r' := IsoList(ss, i, d, fuel), IsoList(ResolveList(ss, f), i, cells, fuel);
      SameRun(r, r', live, f) && After(r, r', LiveList(ss, live), AllocateList(ss, f))
    decreases fuel, ss, |ss| - i
  {
    hide Sound, Agree, IsoExec, ResolveS, AllocateS, ScopedS, Renamed, ScopedList, LiveList, AllocateList, ResolveList, LiveS, Extends;
    var live', f' := LiveList(ss[..i], live), AllocateList(ss[..i], f);
    ScopedPrefix(ss, live, i);
    ListSound(ss[..i], live, f);
    ListSizes(ss[..i], live);
    if i == |ss| {
      assert ss[..i] == ss;
      AgreeEarlier(d, cells, live, f, live', f');
    } else {
      ResolvedItem(ss, f, i);
      Renames(ss[i], live', f', d, cells, fuel);
      RunOf(ss[i], live', f', d, cells, fuel);
      AfterOf(ss[i], live', f', d, cells, fuel);
      var r, r' := IsoExec(ss[i], d, fuel), IsoExec(ResolveS(ss[i], f'), cells, fuel);
      RunEarlier(r, r', live, f, live', f');
      if r.IsoDone? && r.out.Normal? {
        ListRenames(ss, i + 1, live, f, r.data, r'.data, fuel);
      }
    }
  }

  // ---------------------------------------------------------------------- switches

  lemma {:induction false} LabelRenames(s: Stmt, live: Live, f: Frame, d: Data, cells: Data, fuel: nat)
    requires (s.Case? || s.Default?) && Sound(live, f) && ScopedS(s, live) && Agree(d, cells, live, f)
    ensures Renamed(s, live, f, d, cells, fuel)
    decreases fuel, s, 1
  {
    hide Sound, Agree, ScopedE, Renamed;
    var b := s.labelled;
    Renames(b, live, f, d, cells, fuel);
    RunOf(b, live, f, d, cells, fuel);
    Inside(s, live, f, d, cells, fuel);
  }

  lemma {:induction false} SwitchRenames(s: Stmt, live: Live, f: Frame, d: Data, cells: Data, fuel: nat)
    requires s.Switch? && Sound(live, f) && ScopedS(s, live) && Agree(d, cells, live, f)
    ensures Renamed(s, live, f, d, cells, fuel)
    decreases fuel, s, 1
  {
    hide Sound, Agree, IsoEval, ScopedE, Renamed, IsoList, Chosen, ResolveE;
    if s.cases.Block? {
      var ss := s.cases.body;
      ExprRenames(s.cond, live, f, d, cells);
      if IsoEval(s.cond, d).Some? {
        var (v, d1) := IsoEval(s.cond, d).value;
        var cells1 := IsoEval(ResolveE(s.cond, f.table), cells).value.1;
        ChosenRenames(ss, v, f);
        ItemsRename(ss, Chosen(ss, v), live, f, d1, cells1, fuel);
      }
    } else {
      NoCases(s, f, d, cells, fuel);
    }
    Inside(s, live, f, d, cells, fuel);
  }

  lemma NoCases(s: Stmt, f: Frame, d: Data, cells: Data, fuel: nat)
    requires s.Switch? && !s.cases.Block?
    ensures IsoExec(s, d, fuel) == IsoUndefined && IsoExec(ResolveS(s, f), cells, fuel) == IsoUndefined
  {
  }

  lemma ChosenRenames(ss: seq<Stmt>, v: int, f: Frame)
    ensures Chosen(ResolveList(ss, f), v) == Chosen(ss, v)
  {
    CaseIndexRenames(ss, v, 0, f);
    DefaultIndexRenames(ss, 0, f);
  }

  lemma {:induction false} CaseIndexRenames(ss: seq<Stmt>, v: int, i: nat, f: Frame)
    requires i <= |ss|
    ensures CaseIndex(ResolveList(ss, f), v, i) == CaseIndex(ss, v, i)
    decreases |ss| - i
  {
    if i < |ss| {
      ResolvedItem(ss, f, i);
      TagRenames(ss[i], v, AllocateList(ss[..i], f));
      CaseIndexRenames(ss, v, i + 1, f);
    }
  }

  lemma TagRenames(s: Stmt, v: int, f: Frame)
    ensures (ResolveS(s, f).Case? && ResolveS(s, f).tag == Lit(v)) == (s.Case? && s.tag == Lit(v))
    ensures ResolveS(s, f).Default? == s.Default?
  {
    hide ResolveList, ResolveDecls;
  }

  lemma {:induction false} DefaultIndexRenames(ss: seq<Stmt>, i: nat, f: Frame)
    requires i <= |ss|
    ensures DefaultIndex(ResolveList(ss, f), i) == DefaultIndex(ss, i)
    decreases |ss| - i
  {
    if i < |ss| {
      ResolvedItem(ss, f, i);
      TagRenames(ss[i], 0, AllocateList(ss[..i], f));
      DefaultIndexRenames(ss, i + 1, f);
    }
  }

  /** The groups of a switch from an index on. */
  lemma {:induction false} ItemsRename(ss: seq<Stmt>, i: nat, live: Live, f: Frame, d: Data, cells: Data, fuel: nat)
    requires i <= |ss| && Sound(live, f) && Agree(d, cells, live, f)
    requires forall k :: 0 <= k < |ss| ==> ScopedS(ss[k], live)
    ensures SameRun(IsoList(ss, i, d, fuel), IsoList(ResolveList(ss, f), i, cells, fuel), live, f)
    decreases fuel, ss, |ss| - i
  {
    hide Sound, Agree, IsoExec, ResolveS, AllocateS, ScopedS, Renamed, AllocateList, ResolveList, Extends;
    if i < |ss| {
      var f' := AllocateList(ss[..i], f);
      ItemsSound(ss[..i], live, f);
      ResolvedItem(ss, f, i);
      AgreeLater(d, cells, live, f, f');
      Renames(ss[i], live, f', d, cells, fuel);
      RunOf(ss[i], live, f', d, cells, fuel);
      var r, r' := IsoExec(ss[i], d, fuel), IsoExec(ResolveS(ss[i], f'), cells, fuel);
      KeepsItself(live);
      RunEarlier(r, r', live, f, live, f');
      if r.IsoDone? && r.out.Normal? {
        ItemsRename(ss, i + 1, live, f, r.data, r'.data, fuel);
      }
    }
  }
}

/**
  * The run of a whole program up to the call of main: the headers lead past every
  * function, and the variables at file level get their values in source order.
  */
module ProgramRuns {
  import opened Common
  import opened Ast
  import opened Arithmetic
  import opened Instructions
  import opened Codegen
  import opened Runs
  import opened Machine
  import opened Semantics
  import opened ExprCorrect
  import opened StmtCorrect
  import opened IsoC
  import IsoCorrect
  import opened Frames
  import opened Functions
  import opened Allocation
  import FrameBounds
  import opened Renaming
  import opened SourceToCode

  // ------------------------------------------------------------------ the language

  /**
    * Sections 5.1.2 and 6.7.9: before main is called, the variables at file level are
    * initialized in their order; one without initializer holds 0.
    */
  function IsoUnits(us: seq<Unit>, d: Data): Option<Data> {
    if us == [] then Some(d)
    else
      match IsoUnits(us[..|us| - 1], d)
      case None => None
      case Some(d1) => if us[|us| - 1].Globals? then IsoDecls(us[|us| - 1].variables, d1) else Some(d1)
  }

  function GlobalRoom(d: Decl): Room {
    if d.Scalar? then Single else Several(d.size)
  }

  /** The names at file level; all their variables have values. */
  function LiveGlobals(ds: seq<Decl>, live: Live): Live {
    if ds == [] then live
    else LiveGlobals(ds[..|ds| - 1], live)[NameOf(ds[|ds| - 1]) := GlobalRoom(ds[|ds| - 1])]
  }

  function LiveUnits(us: seq<Unit>, live: Live): Live {
    if us == [] then live
    else
      var before := LiveUnits(us[..|us| - 1], live);
      if us[|us| - 1].Globals? then LiveGlobals(us[|us| - 1].variables, before) else before
  }

  /** New names, and initializers over the names before them in which `||` and `,` are used with care. */
  predicate ScopedGlobal(d: Decl, live: Live) {
    NameOf(d) !in live && (d.Scalar? ==> ScopedO(d.init, live) && ExactO(d.init) && OrderlyO(d.init))
  }

  predicate ScopedGlobals(ds: seq<Decl>, live: Live) {
    ds == [] || (ScopedGlobals(ds[..|ds| - 1], live) && ScopedGlobal(ds[|ds| - 1], LiveGlobals(ds[..|ds| - 1], live)))
  }

  predicate ScopedUnit(u: Unit, live: Live) {
    match u
    case Globals(ds) => ScopedGlobals(ds, live)
    case Function(params, body) => NewNames(params, live) && ScopedS(body, Given(LiveDecls(params, live)))
  }

  predicate ScopedUnits(us: seq<Unit>, live: Live) {
    us == [] || (ScopedUnits(us[..|us| - 1], live) && ScopedUnit(us[|us| - 1], LiveUnits(us[..|us| - 1], live)))
  }

  // ------------------------------------------------------------- cells not written yet

  /** The frame with nothing given out to locals. */
  function Below(f: Frame): Frame {
    f.(displ := 0)
  }

  /** The variables at file level lie apart, below zero. */
  predicate Outside(live: Live, f: Frame) {
    !f.inFunction && Sound(live, Below(f))
  }

  /** Only declared variables and cells given out have been written. */
  predicate Blank(d: Data, cells: Data, live: Live, f: Frame) {
    (forall x :: x in d ==> x in live) && (forall p :: p in cells ==> -f.maxGlobal < p)
  }

  function Dests(e: Expr): set<int> {
    match e
    case Lit(_) => {}
    case Var(_) => {}
    case Unary(_, a) => Dests(a)
    case Step(_, x) => {x}
    case Binary(_, a, b) => Dests(a) + Dests(b)
    case Comma(a, b) => Dests(a) + Dests(b)
    case Ternary(c, a, b) => Dests(c) + Dests(a) + Dests(b)
    case Assign(_, x, a) => {x} + Dests(a)
  }

  /** An expression writes only what it assigns. */
  lemma {:induction false} EvalWrites(e: Expr, d: Data)
    requires IsoEval(e, d).Some?
    ensures IsoEval(e, d).value.1.Keys <= d.Keys + Dests(e)
    decreases e
  {
    hide ApplyUnary, ApplyBinary, ApplyAssign, ApplyStep;
    match e
    case Unary(_, a) => EvalWrites(a, d);
    case Binary(op, a, b) =>
      EvalWrites(a, d);
      var (v, d1) := IsoEval(a, d).value;
      if IsoEval(b, d1).Some? {
        EvalWrites(b, d1);
      }
    case Comma(a, b) =>
      EvalWrites(a, d);
      EvalWrites(b, IsoEval(a, d).value.1);
    case Ternary(c, a, b) =>
      EvalWrites(c, d);
      EvalWrites(if IsoEval(c, d).value.0 != 0 then a else b, IsoEval(c, d).value.1);
    case Assign(_, _, a) => EvalWrites(a, d);
    case _ =>
  }

  lemma {:induction false} DestsScoped(e: Expr, live: Live, table: map<int, int>)
    requires ScopedE(e, live)
    ensures Dests(e) <= live.Keys
    ensures forall p :: p in Dests(ResolveE(e, table)) ==> exists x :: IsScalar(x, live) && p == Displacement(table, x)
    decreases e
  {
    match e
    case Unary(_, a) => DestsScoped(a, live, table);
    case Binary(_, a, b) =>
      DestsScoped(a, live, table);
      DestsScoped(b, live, table);
    case Comma(a, b) =>
      DestsScoped(a, live, table);
      DestsScoped(b, live, table);
    case Ternary(c, a, b) =>
      DestsScoped(c, live, table);
      DestsScoped(a, live, table);
      DestsScoped(b, live, table);
    case Assign(_, _, a) => DestsScoped(a, live, table);
    case _ =>
  }

  lemma InitBlank(e: Expr, d: Data, cells: Data, live: Live, f: Frame)
    requires Outside(live, f) && ScopedE(e, live) && Blank(d, cells, live, f)
    requires IsoEval(e, d).Some? && IsoEval(ResolveE(e, f.table), cells).Some?
    ensures Blank(IsoEval(e, d).value.1, IsoEval(ResolveE(e, f.table), cells).value.1, live, f)
  {
    hide IsoEval, ScopedE, Dests, ResolveE;
    EvalWrites(e, d);
    EvalWrites(ResolveE(e, f.table), cells);
    DestsScoped(e, live, f.table);
    forall x | IsScalar(x, live) ensures -f.maxGlobal < Displacement(f.table, x) {
      CellGiven(live, f, x);
    }
  }

  lemma CellGiven(live: Live, f: Frame, x: int)
    requires Outside(live, f) && IsScalar(x, live)
    ensures x in f.table && -f.maxGlobal < f.table[x] <= 0
  {
  }

  // ---------------------------------------------------------------- file-level variables

  /** The connection between the variables by name and their cells. */
  ghost predicate Kept(d: Data, cells: Data, live: Live, f: Frame) {
    Outside(live, f) && Agree(d, cells, live, f) && Blank(d, cells, live, f)
  }

  lemma BelowSame(decl: Decl, f: Frame)
    requires !f.inFunction
    ensures AllocateDecl(decl, Below(f)) == Below(AllocateDecl(decl, f)) && !AllocateDecl(decl, f).inFunction
    ensures ResolveDecl(decl, Below(f)) == ResolveDecl(decl, f)
  {
  }

  lemma GlobalOutside(decl: Decl, live: Live, f: Frame)
    requires Outside(live, f) && NameOf(decl) !in live
    ensures Outside(live[NameOf(decl) := GlobalRoom(decl)], AllocateDecl(decl, f))
    ensures Extends(live, Below(f), Below(AllocateDecl(decl, f)))
  {
    hide Sound, AllocateDecl;
    BelowSame(decl, f);
    DeclSound(decl, live, Below(f));
    var live1, live2 := live[NameOf(decl) := RoomOf(decl)], live[NameOf(decl) := GlobalRoom(decl)];
    assert Similar(live1, live2);
    SoundSimilar(live1, live2, Below(AllocateDecl(decl, f)));
  }

  /** A variable at file level gets its initializer by name and in its cell, or holds 0. */
  lemma GlobalRenames(decl: Decl, live: Live, f: Frame, d: Data, cells: Data)
    requires Kept(d, cells, live, f) && ScopedGlobal(decl, live)
    ensures match (OneDecl(decl, d), OneDecl(ResolveDecl(decl, f), cells))
      case (None, None) => true
      case (Some(d1), Some(cells1)) => Kept(d1, cells1, live[NameOf(decl) := GlobalRoom(decl)], AllocateDecl(decl, f))
      case _ => false
  {
    hide Sound, Agree, AllocateDecl, OneDecl, ResolveDecl, Blank, ScopedE, ExactE, OrderlyE;
    BelowSame(decl, f);
    AgreeBelow(d, cells, live, f);
    DeclRenames(decl, live, Below(f), d, cells);
    GlobalOutside(decl, live, f);
    if OneDecl(decl, d).Some? {
      var d1, cells1 := OneDecl(decl, d).value, OneDecl(ResolveDecl(decl, f), cells).value;
      DeclBlank(decl, live, f, d, cells);
      AgreeGiven(decl, live, f, d, cells, d1, cells1);
    }
  }

  lemma AgreeBelow(d: Data, cells: Data, live: Live, f: Frame)
    ensures Agree(d, cells, live, f) == Agree(d, cells, live, Below(f))
  {
  }

  lemma DeclBlank(decl: Decl, live: Live, f: Frame, d: Data, cells: Data)
    requires Outside(live, f) && ScopedGlobal(decl, live) && Blank(d, cells, live, f)
    requires OneDecl(decl, d).Some? && OneDecl(ResolveDecl(decl, f), cells).Some?
    ensures Blank(OneDecl(decl, d).value, OneDecl(ResolveDecl(decl, f), cells).value,
                  live[NameOf(decl) := GlobalRoom(decl)], AllocateDecl(decl, f))
  {
    hide IsoEval, ScopedE, ExactE, OrderlyE, Sound, ResolveE;
    match decl
    case Scalar(x, Some(e)) =>
      GlobalOutside(decl, live, f);
      ScopedSame(e, live, Below(f), Below(AllocateDecl(decl, f)));
      InitBlank(e, d, cells, live, f);
    case _ =>
  }

  /** A variable that no declaration has written yet holds 0 by name and in its cell. */
  lemma AgreeGiven(decl: Decl, live: Live, f: Frame, d: Data, cells: Data, d1: Data, cells1: Data)
    requires Outside(live, f) && NameOf(decl) !in live && Blank(d, cells, live, f)
    requires OneDecl(decl, d) == Some(d1) && OneDecl(ResolveDecl(decl, f), cells) == Some(cells1)
    requires Agree(d1, cells1, live[NameOf(decl) := RoomOf(decl)], Below(AllocateDecl(decl, f)))
    ensures Agree(d1, cells1, live[NameOf(decl) := GlobalRoom(decl)], AllocateDecl(decl, f))
  {
    hide IsoEval;
  }

  lemma {:induction false} GlobalsRename(ds: seq<Decl>, live: Live, f: Frame, d: Data, cells: Data)
    requires Kept(d, cells, live, f) && ScopedGlobals(ds, live)
    ensures match (IsoDecls(ds, d), IsoDecls(ResolveDecls(ds, f), cells))
      case (None, None) => true
      case (Some(d1), Some(cells1)) => Kept(d1, cells1, LiveGlobals(ds, live), AllocateDecls(ds, f))
      case _ => false
    decreases |ds|
  {
    hide Kept, IsoEval, ScopedGlobal, ResolveDecl, AllocateDecl, OneDecl, IsoDecls;
    IsoDeclsStep(ds, d);
    if ds == [] {
      IsoDeclsStep([], cells);
    } else {
      var n := |ds| - 1;
      GlobalsRename(ds[..n], live, f, d, cells);
      var rs := ResolveDecls(ds, f);
      assert rs[..n] == ResolveDecls(ds[..n], f) && rs[n] == ResolveDecl(ds[n], AllocateDecls(ds[..n], f));
      IsoDeclsStep(rs, cells);
      if IsoDecls(ds[..n], d).Some? {
        GlobalRenames(ds[n], LiveGlobals(ds[..n], live), AllocateDecls(ds[..n], f), IsoDecls(ds[..n], d).value,
          IsoDecls(rs[..n], cells).value);
      }
    }
  }

  lemma {:induction false} GlobalsFit(ds: seq<Decl>, live: Live, f: Frame)
    requires ScopedGlobals(ds, live) && Outside(live, f)
    ensures FitsDecls(ResolveDecls(ds, f)) && ExactDecls(ds) && Outside(LiveGlobals(ds, live), AllocateDecls(ds, f))
    decreases |ds|
  {
    hide Sound, ScopedO, ExactO, OrderlyO, FitsO, ResolveOE, Extends, AllocateDecl;
    if ds != [] {
      var n := |ds| - 1;
      var live', f' := LiveGlobals(ds[..n], live), AllocateDecls(ds[..n], f);
      GlobalsFit(ds[..n], live, f);
      GlobalOutside(ds[n], live', f');
      if ds[n].Scalar? {
        InitFits(ds[n].init, live', Below(f'), Below(AllocateDecl(ds[n], f')));
      }
    }
  }

  // -------------------------------------------------------------------------- functions

  lemma {:induction false} TableKept(ds: seq<Decl>, live: Live, f: Frame)
    requires NewNames(ds, live) && f.inFunction
    ensures var g := AllocateDecls(ds, f);
      && g.inFunction && g.maxGlobal == f.maxGlobal && live.Keys <= LiveDecls(ds, live).Keys
      && forall x :: x in live && x in f.table ==> x in g.table && g.table[x] == f.table[x]
    decreases |ds|
  {
    if ds != [] {
      TableKept(ds[..|ds| - 1], live, f);
    }
  }

  /** A function leaves the variables at file level where they are. */
  lemma FunctionKeeps(u: Unit, live: Live, f: Frame)
    requires u.Function? && ScopedUnit(u, live) && Outside(live, f)
    ensures var g := UnitFrame(u, f);
      Outside(live, g) && f.maxGlobal <= g.maxGlobal && forall x :: x in live ==> x in f.table && x in g.table && g.table[x] == f.table[x]
  {
    hide AllocateS, ScopedS, AllocateDecls, LiveDecls, NewNames;
    var entry := Entry(u.params, f);
    OutsideTable(live, f);
    EntrySound(u.params, live, f);
    TableKept(u.params, live, f.(inFunction := true, displ := DISPL_START, maxLocal := DISPL_START));
    AllocationSound(u.body, Given(LiveDecls(u.params, live)), entry);
    KeptOutside(live, f, UnitFrame(u, f));
  }

  lemma OutsideTable(live: Live, f: Frame)
    requires Outside(live, f)
    ensures Sound(live, f) && forall x :: x in live ==> x in f.table && f.table[x] <= 0
  {
  }

  lemma KeptOutside(live: Live, f: Frame, g: Frame)
    requires Outside(live, f) && !g.inFunction && f.maxGlobal <= g.maxGlobal
    requires forall x :: x in live ==> x in f.table && x in g.table && g.table[x] == f.table[x]
    ensures Outside(live, g)
  {
  }

  lemma KeptLater(d: Data, cells: Data, live: Live, f: Frame, g: Frame)
    requires Kept(d, cells, live, f) && Outside(live, g) && f.maxGlobal <= g.maxGlobal
    requires forall x :: x in live ==> x in f.table && x in g.table && g.table[x] == f.table[x]
    ensures Kept(d, cells, live, g)
  {
    hide Sound;
  }

  /** A function from its header to its last return. */
  predicate Encloses(memory: seq<int>, from: nat, end: nat) {
    from + 3 < end <= |memory| && memory[from] == IC_FUNC_BEG && memory[end - 1] == IC_RETURN_VOID
  }

  /** The machine passes from the header of a function to the cell behind its last return, in one step. */
  lemma FunctionPassed(u: Unit, f: Frame, memory: seq<int>, st: State)
    requires u.Function? && Has(memory, st.pc, UnitCode(u, f, st.pc))
    ensures var end := st.pc + |UnitCode(u, f, st.pc)|;
      && Encloses(memory, st.pc, end)
      && StepOnce(memory, st) == Some(st.(pc := end)) && Reaches(Loaded(memory), st, st.(pc := end))
  {
    hide CodeS, ResolveS, AllocateS, Entry;
    var code := UnitCode(u, f, st.pc);
    var end := st.pc + |code|;
    HasCells(memory, st.pc, code);
    assert memory[st.pc + 0] == IC_FUNC_BEG && memory[st.pc + 2] == end && memory[st.pc + (|code| - 1)] == IC_RETURN_VOID;
    Moves(memory, st);
  }

  lemma EntryLeast(params: seq<Decl>, f: Frame)
    ensures Entry(params, f).inFunction && Entry(params, f).maxLocal == Entry(params, f).displ
  {
    FrameBounds.DeclsLeast(params, f.(inFunction := true, displ := DISPL_START, maxLocal := DISPL_START));
  }

  /** The size in the header of a function is the least that bounds the cells given out at every point of its body. */
  lemma HeaderExactly(u: Unit, live: Live, f: Frame, memory: seq<int>, at: nat, bound: int)
    requires u.Function? && ScopedUnit(u, live) && Outside(live, f) && Has(memory, at, UnitCode(u, f, at))
    ensures at + 1 < |memory|
    ensures memory[at + 1] <= bound
      <==> FrameBounds.Throughout(u.body, Given(LiveDecls(u.params, live)), Entry(u.params, f), bound)
  {
    hide CodeS, ResolveS, AllocateS, Entry, FrameBounds.Throughout, ScopedS, NewNames, Sound;
    var code := UnitCode(u, f, at);
    var live', entry := Given(LiveDecls(u.params, live)), Entry(u.params, f);
    HasCells(memory, at, code);
    assert memory[at + 1] == AllocateS(u.body, entry).maxLocal;
    OutsideTable(live, f);
    EntrySound(u.params, live, f);
    EntryLeast(u.params, f);
    if entry.displ <= bound {
      FrameBounds.FrameExactly(u.body, live', entry, bound);
    } else {
      AllocationSound(u.body, live', entry);
      TooSmall(u.body, live', entry, bound);
    }
  }

  lemma TooSmall(s: Stmt, live: Live, f: Frame, bound: int)
    requires bound < f.displ == f.maxLocal && Extends(live, f, AllocateS(s, f))
    ensures AllocateS(s, f).maxLocal > bound && !FrameBounds.Throughout(s, live, f, bound)
  {
    hide AllocateS, Sound;
  }

  // ----------------------------------------------------------------------------- programs

  /** The run comes to an address with the variables that the language gives, or faults where it gives none. */
  ghost predicate Comes(memory: seq<int>, st: State, r: Option<Data>, end: nat, live: Live, f: Frame) {
    match r
    case None => Faults(memory, st)
    case Some(d) => exists cells :: Reaches(Loaded(memory), st, State(end, st.stack, cells)) && Kept(d, cells, live, f)
  }

  lemma GlobalsRun(ds: seq<Decl>, live: Live, f: Frame, memory: seq<int>, st: State, d: Data)
    requires ScopedGlobals(ds, live) && Kept(d, st.data, live, f) && Has(memory, st.pc, CodeDecls(ResolveDecls(ds, f), st.pc))
    ensures Comes(memory, st, IsoDecls(ds, d), st.pc + |CodeDecls(ResolveDecls(ds, f), st.pc)|, LiveGlobals(ds, live), AllocateDecls(ds, f))
  {
    hide ScopedGlobals, Agree, Blank, Outside, Has, CodeDecls, ResolveDecls, AllocateDecls, LiveGlobals, FitsDecls, ExactDecls, IsoDecls, ExecDecls,
      Faults;
    var rs := ResolveDecls(ds, f);
    GlobalsFit(ds, live, f);
    DeclsCareful(ds, f);
    DeclsRun(rs, memory, st);
    IsoCorrect.DeclsSame(rs, st.data);
    GlobalsRename(ds, live, f, d, st.data);
  }

  lemma UnitRuns(u: Unit, live: Live, f: Frame, memory: seq<int>, st: State, d: Data)
    requires ScopedUnit(u, live) && Kept(d, st.data, live, f) && Has(memory, st.pc, UnitCode(u, f, st.pc))
    ensures
      var r := if u.Globals? then IsoDecls(u.variables, d) else Some(d);
      var live' := if u.Globals? then LiveGlobals(u.variables, live) else live;
      Comes(memory, st, r, st.pc + |UnitCode(u, f, st.pc)|, live', UnitFrame(u, f))
  {
    hide Has, Kept, FunctionCode, Faults, ScopedGlobals, CodeDecls;
    if u.Globals? {
      GlobalsRun(u.variables, live, f, memory, st, d);
    } else {
      assert Outside(live, f) by { KeptIs(d, st.data, live, f); }
      FunctionKeeps(u, live, f);
      KeptLater(d, st.data, live, f, UnitFrame(u, f));
      FunctionPassed(u, f, memory, st);
    }
  }

  lemma KeptIs(d: Data, cells: Data, live: Live, f: Frame)
    requires Kept(d, cells, live, f)
    ensures Outside(live, f)
  {
  }

  lemma ComesAfter(memory: seq<int>, st: State, t: State, r: Option<Data>, end: nat, live: Live, f: Frame)
    requires Reaches(Loaded(memory), st, t) && t.stack == st.stack && Comes(memory, t, r, end, live, f)
    ensures Comes(memory, st, r, end, live, f)
  {
    hide Kept;
    if r.None? {
      FaultsAfter(memory, st, t);
    } else {
      var cells :| Reaches(Loaded(memory), t, State(end, t.stack, cells)) && Kept(r.value, cells, live, f);
      ReachesTrans(Loaded(memory), st, t, State(end, t.stack, cells));
    }
  }

  lemma {:induction false} UnitsRun(us: seq<Unit>, live: Live, f: Frame, memory: seq<int>, st: State, d: Data)
    requires ScopedUnits(us, live) && Kept(d, st.data, live, f) && Has(memory, st.pc, UnitsCode(us, f, st.pc))
    ensures Comes(memory, st, IsoUnits(us, d), st.pc + |UnitsCode(us, f, st.pc)|, LiveUnits(us, live), UnitsFrame(us, f))
    decreases |us|
  {
    hide Has, Kept, Faults, ScopedUnit, UnitCode, UnitFrame, IsoDecls;
    if us == [] {
      ReachesSelf(Loaded(memory), st);
    } else {
      var before, last := us[..|us| - 1], us[|us| - 1];
      var code := UnitsCode(before, f, st.pc);
      HasJoin(memory, st.pc, code, UnitCode(last, UnitsFrame(before, f), st.pc + |code|));
      UnitsRun(before, live, f, memory, st, d);
      match IsoUnits(before, d)
      case None =>
      case Some(d1) =>
        var live', f' := LiveUnits(before, live), UnitsFrame(before, f);
        var cells :| Reaches(Loaded(memory), st, State(st.pc + |code|, st.stack, cells)) && Kept(d1, cells, live', f');
        var t := State(st.pc + |code|, st.stack, cells);
        UnitRuns(last, live', f', memory, t, d1);
        ComesAfter(memory, st, t, IsoUnits(us, d), st.pc + |UnitsCode(us, f, st.pc)|, LiveUnits(us, live), UnitsFrame(us, f));
    }
  }

  /** The encoder before anything is emitted. */
  const START: Frame := Frame(map[], 0, 0, DISPL_START, false)

  /** The variables at file level lie one behind the other from the cell -3 downwards. */
  lemma GlobalCells(ds: seq<Decl>, k: nat)
    requires k < |ds| && DistinctNames(ds)
    ensures var g := AllocateDecls(ds, START);
      NameOf(ds[k]) in g.table && g.table[NameOf(ds[k])] == -3 - CellsBefore(ds, k)
  {
    DeclaredInOrder(ds, START, k);
  }

  lemma StartKept()
    ensures Kept(map[], map[], map[], START)
  {
  }

  lemma {:induction false} UnitsPrefix(us: seq<Unit>, i: nat, f: Frame, at: nat)
    requires i <= |us|
    ensures UnitsCode(us[..i], f, at) <= UnitsCode(us, f, at)
    decreases |us|
  {
    hide UnitCode, UnitFrame;
    if i == |us| {
      assert us[..i] == us;
    } else {
      UnitsPrefix(us[..|us| - 1], i, f, at);
      assert us[..|us| - 1][..i] == us[..i];
    }
  }

  lemma HasPrefix(memory: seq<int>, at: nat, a: seq<int>, c: seq<int>)
    requires Has(memory, at, c) && a <= c
    ensures Has(memory, at, a)
  {
    HasJoin(memory, at, a, c[|a|..]);
    assert a + c[|a|..] == c;
  }

  /** What the encoder leaves in the memory for a whole program. */
  function Emitted(us: seq<Unit>, main: int): seq<int> {
    [0, 0, 0, 0] + ProgramCode(us, START, main, 4)
  }

  /** The address behind the first declarations. */
  function Behind(us: seq<Unit>, i: nat): nat
    requires i <= |us|
  {
    4 + |UnitsCode(us[..i], START, 4)|
  }

  /**
    * Run from its first instruction, the memory of a program comes in turn to the address
    * behind each of its declarations, past the last return of every function, with the
    * variables at file level that the language gives at that point.
    */
  lemma ProgramPasses(us: seq<Unit>, main: int, i: nat)
    requires i <= |us| && ScopedUnits(us[..i], map[])
    ensures Comes(Emitted(us, main), State(4, [], map[]), IsoUnits(us[..i], map[]), Behind(us, i), LiveUnits(us[..i], map[]), UnitsFrame(us[..i], START))
    ensures i > 0 && us[i - 1].Function? ==> Encloses(Emitted(us, main), Behind(us, i - 1), Behind(us, i))
  {
    hide UnitsCode, UnitCode, Kept, Comes, ScopedUnits, UnitFrame, Has;
    var memory := Emitted(us, main);
    ProgramHas(us, main);
    UnitsPrefix(us, i, START, 4);
    HasPrefix(memory, 4, UnitsCode(us[..i], START, 4), UnitsCode(us, START, 4));
    StartKept();
    UnitsRun(us[..i], map[], START, memory, State(4, [], map[]), map[]);
    if i > 0 && us[i - 1].Function? {
      LastEnclosed(us, i, memory);
    }
  }

  lemma LastEnclosed(us: seq<Unit>, i: nat, memory: seq<int>)
    requires 0 < i <= |us| && us[i - 1].Function? && Has(memory, 4, UnitsCode(us[..i], START, 4))
    ensures Encloses(memory, Behind(us, i - 1), Behind(us, i))
  {
    hide UnitsCode, UnitCode, UnitFrame, Has;
    var before := UnitsCode(us[..i - 1], START, 4);
    UnitsNext(us, i - 1, START, 4);
    HasJoin(memory, 4, before, UnitCode(us[i - 1], UnitsFrame(us[..i - 1], START), 4 + |before|));
    FunctionPassed(us[i - 1], UnitsFrame(us[..i - 1], START), memory, State(4 + |before|, [], map[]));
  }

  lemma ProgramHas(us: seq<Unit>, main: int)
    ensures Has(Emitted(us, main), 4, UnitsCode(us, START, 4))
    ensures Has(Emitted(us, main), 4 + |UnitsCode(us, START, 4)|, [IC_CALL1, IC_CALL2, main, IC_STOP])
  {
    hide UnitsCode;
    var code := UnitsCode(us, START, 4);
    assert Emitted(us, main)[4..] == code + [IC_CALL1, IC_CALL2, main, IC_STOP];
    assert Has(Emitted(us, main), 4, code + [IC_CALL1, IC_CALL2, main, IC_STOP]);
    HasJoin(Emitted(us, main), 4, code, [IC_CALL1, IC_CALL2, main, IC_STOP]);
  }

  /**
    * The whole program: its run executes exactly the initializers, in source order, and
    * arrives at the call of main with the variables at their values in the standard.
    */
  lemma ProgramRuns(us: seq<Unit>, main: int)
    requires ScopedUnits(us, map[])
    ensures var (memory, end) := (Emitted(us, main), Behind(us, |us|));
      && Comes(memory, State(4, [], map[]), IsoUnits(us, map[]), end, LiveUnits(us, map[]), UnitsFrame(us, START))
      && end + 4 == |memory| && memory[end..] == [IC_CALL1, IC_CALL2, main, IC_STOP]
  {
    hide UnitsCode, Comes, ScopedUnits;
    assert us[..|us|] == us;
    ProgramPasses(us, main, |us|);
    ProgramHas(us, main);
  }
}

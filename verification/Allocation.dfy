/**
  * Variables in scope together never share a cell, and their cells lie inside the
  * frame that the header of the function asks for.
  */
module Allocation {
  import opened Common
  import opened Ast
  import opened Frames

  /** What a name takes: the cell of an integer, with or without a value yet, or the cells of a structure. */
  datatype Room = Unset | Single | Several(cells: nat)

  function CellsOf(r: Room): nat {
    if r.Several? then r.cells else 1
  }

  /** The names in scope. */
  type Live = map<int, Room>

  /** A variable lies among the cells already given out: in the frame, or among the globals below zero. */
  predicate Placed(f: Frame, x: int, size: nat) {
    x in f.table
    && var p := f.table[x];
    if p > 0 then DISPL_START <= p && p + size <= f.displ else DISPL_START <= -p && -p + size <= f.maxGlobal
  }

  function Start(p: int): int {
    if p > 0 then p else -p
  }

  /** Two variables share no cell. */
  predicate Apart(p: int, n: nat, q: int, m: nat) {
    (p > 0) != (q > 0) || Start(p) + n <= Start(q) || Start(q) + m <= Start(p)
  }

  predicate Separate(live: Live, f: Frame) {
    && (forall x :: x in live ==> Placed(f, x, CellsOf(live[x])))
    && (forall x, y :: x in live && y in live && x != y ==> Apart(f.table[x], CellsOf(live[x]), f.table[y], CellsOf(live[y])))
  }

  predicate Sound(live: Live, f: Frame) {
    && Separate(live, f)
    && DISPL_START <= f.maxGlobal
    && (f.inFunction ==> DISPL_START <= f.displ <= f.maxLocal)
  }

  // ------------------------------------------------------------------- scope rules

  /** Every variable of the expression is an integer variable in scope that has a value. */
  predicate ScopedE(e: Expr, live: Live) {
    match e
    case Lit(_) => true
    case Var(x) => IsScalar(x, live)
    case Unary(_, a) => ScopedE(a, live)
    case Step(_, x) => IsScalar(x, live)
    case Binary(_, a, b) => ScopedE(a, live) && ScopedE(b, live)
    case Comma(a, b) => ScopedE(a, live) && ScopedE(b, live)
    case Ternary(c, a, b) => ScopedE(c, live) && ScopedE(a, live) && ScopedE(b, live)
    case Assign(_, x, a) => IsScalar(x, live) && ScopedE(a, live)
  }

  predicate IsScalar(x: int, live: Live) {
    x in live && live[x].Single?
  }

  predicate ScopedO(e: Option<Expr>, live: Live) {
    e.Some? ==> ScopedE(e.value, live)
  }

  function RoomOf(d: Decl): Room {
    match d
    case Scalar(_, init) => if init.Some? then Single else Unset
    case Aggregate(_, size) => Several(size)
  }

  function LiveDecls(ds: seq<Decl>, live: Live): Live {
    if ds == [] then live
    else LiveDecls(ds[..|ds| - 1], live)[NameOf(ds[|ds| - 1]) := RoomOf(ds[|ds| - 1])]
  }

  /** A declaration is of a new name; initializers are over the names before. */
  predicate ScopedDecls(ds: seq<Decl>, live: Live) {
    ds == [] ||
    (&& ScopedDecls(ds[..|ds| - 1], live)
     && var before := LiveDecls(ds[..|ds| - 1], live);
     && NameOf(ds[|ds| - 1]) !in before
     && (ds[|ds| - 1].Scalar? ==> ScopedO(ds[|ds| - 1].init, before)))
  }

  /** What an expression statement gives a value. */
  function LiveE(e: Expr, live: Live): Live {
    match e
    case Assign(Set, x, _) => if x in live && live[x].Unset? then live[x := Single] else live
    case Comma(a, b) => LiveE(b, LiveE(a, live))
    case _ => live
  }

  /** An expression statement: its assignments, one after the other, may give variables their first value. */
  predicate ScopedV(e: Expr, live: Live) {
    match e
    case Assign(Set, x, a) => x in live && !live[x].Several? && ScopedE(a, live)
    case Comma(a, b) => ScopedV(a, live) && ScopedV(b, LiveE(a, live))
    case _ => ScopedE(e, live)
  }

  /** The same names, with a value where they have one in both of the others. */
  function Settle(live: Live, a: Live, b: Live): Live {
    map x | x in live :: if live[x].Unset? && IsScalar(x, a) && IsScalar(x, b) then Single else live[x]
  }

  /** The names in scope after a statement that ends normally. */
  function LiveS(s: Stmt, live: Live): Live
    decreases s, 1
  {
    match s
    case Effect(e) => LiveE(e, live)
    case Declare(ds) => LiveDecls(ds, live)
    case Block(ss) => Settle(live, LiveList(ss, live), LiveList(ss, live))
    case If(_, y, Some(n)) => Settle(live, LiveS(y, live), LiveS(n, live))
    case For(start, _, _, _) => Settle(live, LiveO(start, live), LiveO(start, live))
    case _ => live
  }

  function LiveO(s: Option<Stmt>, live: Live): Live
    decreases s, 2
  {
    if s.Some? then LiveS(s.value, live) else live
  }

  function LiveList(ss: seq<Stmt>, live: Live): Live
    decreases ss, 0
  {
    if ss == [] then live else LiveS(ss[|ss| - 1], LiveList(ss[..|ss| - 1], live))
  }

  /** Names are used in scope and declared once; what a branch or a loop body declares stays inside it. */
  predicate ScopedS(s: Stmt, live: Live)
    decreases s, 1
  {
    match s
    case Null => true
    case Effect(e) => ScopedV(e, live)
    case Declare(ds) => ScopedDecls(ds, live)
    case Block(ss) => ScopedList(ss, live)
    case If(c, y, n) => ScopedE(c, live) && ScopedS(y, live) && (n.Some? ==> ScopedS(n.value, live))
    case While(c, b) => ScopedE(c, live) && ScopedS(b, live)
    case Do(b, c) => ScopedS(b, live) && ScopedE(c, live)
    case For(start, test, next, b) =>
      && (start.Some? ==> ScopedS(start.value, live))
      && var live' := LiveO(start, live);
      && ScopedO(test, live') && ScopedO(next, live') && ScopedS(b, live')
    case Switch(c, b) =>
      ScopedE(c, live) && (if b.Block? then forall i :: 0 <= i < |b.body| ==> ScopedS(b.body[i], live) else ScopedS(b, live))
    case Case(e, b) => ScopedE(e, live) && ScopedS(b, live)
    case Default(b) => ScopedS(b, live)
    case Break => true
    case Continue => true
    case Return(e) => ScopedO(e, live)
  }

  predicate ScopedList(ss: seq<Stmt>, live: Live)
    decreases ss, 0
  {
    ss == [] || (ScopedList(ss[..|ss| - 1], live) && ScopedS(ss[|ss| - 1], LiveList(ss[..|ss| - 1], live)))
  }

  // -------------------------------------------------------------- allocation is sound

  /** The later frame keeps the variables of the first, and has given out no less. */
  predicate Extends(live: Live, f: Frame, f': Frame) {
    && f'.inFunction == f.inFunction && f.maxLocal <= f'.maxLocal && f.maxGlobal <= f'.maxGlobal
    && f.displ <= f'.displ
    && forall x :: x in live ==> x in f.table && x in f'.table && f'.table[x] == f.table[x]
  }

  /** The same names with the same cells; a name that has a value keeps one. */
  predicate Similar(live: Live, more: Live) {
    live.Keys == more.Keys
    && forall x :: x in live ==> CellsOf(more[x]) == CellsOf(live[x]) && (live[x].Single? ==> more[x].Single?)
  }

  lemma {:induction false} SimilarE(e: Expr, live: Live)
    ensures Similar(live, LiveE(e, live))
    decreases e
  {
    if e.Comma? {
      SimilarE(e.first, live);
      SimilarE(e.second, LiveE(e.first, live));
    }
  }

  lemma SimilarS(s: Stmt, live: Live)
    requires !s.Declare?
    ensures Similar(live, LiveS(s, live))
  {
    hide LiveE, LiveDecls, LiveList;
    if s.Effect? {
      SimilarE(s.expr, live);
    }
  }

  lemma SoundSimilar(live: Live, more: Live, f: Frame)
    requires Sound(live, f) && Similar(live, more)
    ensures Sound(more, f)
  {
  }

  lemma ExtendsOn(live: Live, f: Frame, g: Frame, h: Frame)
    requires Extends(live, f, g) && Extends(live, g, h)
    ensures Extends(live, f, h)
  {
  }

  lemma ExtendsLess(live: Live, more: Live, f: Frame, g: Frame)
    requires Extends(more, f, g) && live.Keys <= more.Keys
    ensures Extends(live, f, g)
  {
  }

  /** A new variable lies apart from those in scope. */
  lemma DeclSound(d: Decl, live: Live, f: Frame)
    requires Sound(live, f) && NameOf(d) !in live
    ensures Sound(live[NameOf(d) := RoomOf(d)], AllocateDecl(d, f))
    ensures Extends(live, f, AllocateDecl(d, f))
  {
  }

  lemma {:induction false} DeclsSound(ds: seq<Decl>, live: Live, f: Frame)
    requires Sound(live, f) && ScopedDecls(ds, live)
    ensures Sound(LiveDecls(ds, live), AllocateDecls(ds, f)) && Extends(live, f, AllocateDecls(ds, f))
    ensures live.Keys <= LiveDecls(ds, live).Keys && forall x :: x in live ==> LiveDecls(ds, live)[x] == live[x]
    decreases |ds|
  {
    hide Sound, AllocateDecl, ScopedE;
    if ds == [] {
      assert Extends(live, f, f) by { SoundExtends(live, f); }
    } else {
      var before, last := ds[..|ds| - 1], ds[|ds| - 1];
      DeclsSound(before, live, f);
      DeclSound(last, LiveDecls(before, live), AllocateDecls(before, f));
      ExtendsLess(live, LiveDecls(before, live), AllocateDecls(before, f), AllocateDecls(ds, f));
      ExtendsOn(live, f, AllocateDecls(before, f), AllocateDecls(ds, f));
    }
  }

  lemma SoundExtends(live: Live, f: Frame)
    requires Sound(live, f)
    ensures Extends(live, f, f)
  {
  }

  /** Leaving a block gives the allocator back its entry point. */
  lemma LeaveSound(live: Live, f: Frame, f': Frame)
    requires Sound(live, f) && Extends(live, f, f') && (f'.inFunction ==> f'.displ <= f'.maxLocal)
    ensures Sound(live, f'.(displ := f.displ)) && Extends(live, f, f'.(displ := f.displ))
  {
  }

  /** Variables that stay in scope stay sound while other cells are given out. */
  lemma StaySound(live: Live, f: Frame, f': Frame)
    requires Sound(live, f) && Extends(live, f, f') && (f'.inFunction ==> f'.displ <= f'.maxLocal)
    ensures Sound(live, f')
  {
  }

  lemma SoundBound(live: Live, f: Frame)
    requires Sound(live, f)
    ensures f.inFunction ==> f.displ <= f.maxLocal
  {
  }

  /** Frames of every statement: what is in scope after it lies apart, and what was in scope has not moved. */
  lemma {:induction false} AllocationSound(s: Stmt, live: Live, f: Frame)
    requires Sound(live, f) && ScopedS(s, live)
    ensures Sound(LiveS(s, live), AllocateS(s, f)) && Extends(live, f, AllocateS(s, f))
    decreases s, 2
  {
    hide Sound, ScopedS, Extends, Similar, LiveDecls, AllocateDecls, ScopedDecls;
    if s.Declare? {
      assert ScopedDecls(s.decls, live) by { DeclareScoped(s.decls, live); }
      DeclsSound(s.decls, live, f);
    } else {
      OtherSound(s, live, f);
      SimilarS(s, live);
      SoundSimilar(live, LiveS(s, live), AllocateS(s, f));
    }
  }

  lemma DeclareScoped(ds: seq<Decl>, live: Live)
    requires ScopedS(Declare(ds), live)
    ensures ScopedDecls(ds, live)
  {
  }

  lemma {:induction false} OtherSound(s: Stmt, live: Live, f: Frame)
    requires Sound(live, f) && ScopedS(s, live) && !s.Declare?
    ensures Sound(live, AllocateS(s, f)) && Extends(live, f, AllocateS(s, f))
    decreases s, 1
  {
    hide Sound, ScopedE, ScopedV, AllocateDecls, LiveDecls, ScopedDecls, Extends, LiveS;
    SoundExtends(live, f);
    match s
    case Block(ss) =>
      ListSound(ss, live, f);
      SoundBound(LiveList(ss, live), AllocateList(ss, f));
      LeaveSound(live, f, AllocateList(ss, f));
    case If(_, y, n) =>
      AllocationSound(y, live, f);
      InnerSound(y, live, f);
      if n.Some? {
        AllocationSound(n.value, live, AllocateS(y, f));
        InnerSound(n.value, live, AllocateS(y, f));
        ExtendsOn(live, f, AllocateS(y, f), AllocateS(n.value, AllocateS(y, f)));
      }
    case While(_, b) =>
      AllocationSound(b, live, f);
      InnerSound(b, live, f);
    case Do(b, _) =>
      AllocationSound(b, live, f);
      InnerSound(b, live, f);
    case For(_, _, _, _) => ForSound(s, live, f);
    case Switch(_, b) => SwitchSound(s, live, f);
    case Case(_, b) =>
      AllocationSound(b, live, f);
      InnerSound(b, live, f);
    case Default(b) =>
      AllocationSound(b, live, f);
      InnerSound(b, live, f);
    case _ =>
  }

  /** The names outside a statement, in the frame after it. */
  lemma InnerSound(s: Stmt, live: Live, f: Frame)
    requires Sound(live, f) && Extends(live, f, AllocateS(s, f)) && Sound(LiveS(s, live), AllocateS(s, f))
    ensures Sound(live, AllocateS(s, f))
  {
    hide AllocateS, LiveS, Separate, Extends;
    SoundBound(LiveS(s, live), AllocateS(s, f));
    StaySound(live, f, AllocateS(s, f));
  }

  lemma {:induction false} ForSound(s: Stmt, live: Live, f: Frame)
    requires s.For? && Sound(live, f) && ScopedS(s, live)
    ensures Sound(live, AllocateS(s, f)) && Extends(live, f, AllocateS(s, f))
    decreases s, 0
  {
    hide Sound, ScopedE, Extends, LiveDecls, AllocateDecls, ScopedDecls;
    SoundExtends(live, f);
    var live', f' := LiveO(s.start, live), AllocateO(s.start, f);
    if s.start.Some? {
      AllocationSound(s.start.value, live, f);
      LiveGrows(s.start.value, live);
    }
    AllocationSound(s.loop, live', f');
    var f'' := AllocateS(s.loop, f');
    InnerSound(s.loop, live', f');
    SoundBound(live', f'');
    ExtendsLess(live, live', f', f'');
    ExtendsOn(live, f, f', f'');
    LeaveSound(live, f, f'');
  }

  lemma LiveGrows(s: Stmt, live: Live)
    requires ScopedS(s, live)
    ensures live.Keys <= LiveS(s, live).Keys
  {
    hide LiveDecls, LiveE, LiveList;
    if s.Declare? {
      DeclsGrow(s.decls, live);
    } else {
      SimilarS(s, live);
    }
  }

  lemma {:induction false} DeclsGrow(ds: seq<Decl>, live: Live)
    ensures live.Keys <= LiveDecls(ds, live).Keys
    decreases |ds|
  {
    if ds != [] {
      DeclsGrow(ds[..|ds| - 1], live);
    }
  }

  lemma {:induction false} ListSound(ss: seq<Stmt>, live: Live, f: Frame)
    requires Sound(live, f) && ScopedList(ss, live)
    ensures Sound(LiveList(ss, live), AllocateList(ss, f)) && Extends(live, f, AllocateList(ss, f))
    ensures live.Keys <= LiveList(ss, live).Keys
    decreases ss, 0
  {
    hide Sound, AllocateS, LiveS, ScopedS, Extends;
    SoundExtends(live, f);
    if ss != [] {
      var before, last := ss[..|ss| - 1], ss[|ss| - 1];
      ListSound(before, live, f);
      AllocationSound(last, LiveList(before, live), AllocateList(before, f));
      LiveGrows(last, LiveList(before, live));
      ExtendsLess(live, LiveList(before, live), AllocateList(before, f), AllocateList(ss, f));
      ExtendsOn(live, f, AllocateList(before, f), AllocateList(ss, f));
    }
  }

  lemma {:induction false} SwitchSound(s: Stmt, live: Live, f: Frame)
    requires s.Switch? && Sound(live, f) && ScopedS(s, live)
    ensures Sound(live, AllocateS(s, f)) && Extends(live, f, AllocateS(s, f))
    decreases s, 0
  {
    hide Sound, Extends, LiveS;
    if s.cases.Block? {
      var ss := s.cases.body;
      ItemsSound(ss, live, f);
      SoundBound(live, AllocateList(ss, f));
      LeaveSound(live, f, AllocateList(ss, f));
    } else {
      AllocationSound(s.cases, live, f);
      InnerSound(s.cases, live, f);
    }
  }

  /** The groups of a switch: names declared directly among them are in scope of their own statement only. */
  lemma {:induction false} ItemsSound(ss: seq<Stmt>, live: Live, f: Frame)
    requires Sound(live, f) && forall i :: 0 <= i < |ss| ==> ScopedS(ss[i], live)
    ensures Sound(live, AllocateList(ss, f)) && Extends(live, f, AllocateList(ss, f))
    decreases ss, 0
  {
    hide Sound, AllocateS, LiveS, ScopedS, Extends;
    SoundExtends(live, f);
    if ss != [] {
      var before, last := ss[..|ss| - 1], ss[|ss| - 1];
      ItemsSound(before, live, f);
      AllocationSound(last, live, AllocateList(before, f));
      InnerSound(last, live, AllocateList(before, f));
      ExtendsOn(live, f, AllocateList(before, f), AllocateList(ss, f));
    }
  }
}

/**
  * At every point of a function the variables in scope lie apart, inside the frame
  * whose size the header of the function gives.
  */
module FrameBounds {
  import opened Common
  import opened Ast
  import opened Frames
  import opened Allocation

  /** The variables in scope lie apart, and the cells given out lie below a bound. */
  predicate Fine(live: Live, f: Frame, bound: int) {
    Sound(live, f) && f.inFunction && f.displ <= bound
  }

  /** This holds before and after a statement, and at every statement inside it. */
  predicate Throughout(s: Stmt, live: Live, f: Frame, bound: int)
    decreases s, 1
  {
    && Fine(live, f, bound) && Fine(LiveS(s, live), AllocateS(s, f), bound)
    && match s
       case Block(ss) => ThroughoutList(ss, live, f, bound)
       case If(_, y, n) => Throughout(y, live, f, bound) && (n.Some? ==> Throughout(n.value, live, AllocateS(y, f), bound))
       case While(_, b) => Throughout(b, live, f, bound)
       case Do(b, _) => Throughout(b, live, f, bound)
       case For(start, _, _, b) =>
         && (start.Some? ==> Throughout(start.value, live, f, bound))
         && Throughout(b, LiveO(start, live), AllocateO(start, f), bound)
       case Switch(_, b) => if b.Block? then ThroughoutItems(b.body, live, f, bound) else Throughout(b, live, f, bound)
       case Case(_, b) => Throughout(b, live, f, bound)
       case Default(b) => Throughout(b, live, f, bound)
       case _ => true
  }

  predicate ThroughoutList(ss: seq<Stmt>, live: Live, f: Frame, bound: int)
    decreases ss, 0
  {
    ss == [] ||
    (&& ThroughoutList(ss[..|ss| - 1], live, f, bound)
     && Throughout(ss[|ss| - 1], LiveList(ss[..|ss| - 1], live), AllocateList(ss[..|ss| - 1], f), bound))
  }

  predicate ThroughoutItems(ss: seq<Stmt>, live: Live, f: Frame, bound: int)
    decreases ss, 0
  {
    ss == [] ||
    (&& ThroughoutItems(ss[..|ss| - 1], live, f, bound)
     && Throughout(ss[|ss| - 1], live, AllocateList(ss[..|ss| - 1], f), bound))
  }

  lemma FineEarlier(live: Live, f: Frame, g: Frame, bound: int)
    requires Sound(live, f) && Extends(live, f, g) && g.inFunction && g.maxLocal <= bound
    ensures Fine(live, f, bound) && f.maxLocal <= bound
  {
  }

  lemma FineHere(live: Live, f: Frame, bound: int)
    requires Sound(live, f) && f.inFunction && f.maxLocal <= bound
    ensures Fine(live, f, bound)
  {
  }

  /** The size in the header of a function bounds every cell that is given out anywhere in it. */
  lemma {:induction false} FrameBounds(s: Stmt, live: Live, f: Frame, bound: int)
    requires Sound(live, f) && ScopedS(s, live) && f.inFunction && AllocateS(s, f).maxLocal <= bound
    ensures Throughout(s, live, f, bound)
    decreases s, 1
  {
    hide Sound, ScopedE, Extends, Fine, AllocateDecls, LiveDecls, ScopedDecls;
    AllocationSound(s, live, f);
    assert AllocateS(s, f).inFunction by { StaysInside(live, f, AllocateS(s, f)); }
    FineHere(LiveS(s, live), AllocateS(s, f), bound);
    FineEarlier(live, f, AllocateS(s, f), bound);
    match s
    case Block(ss) => ListBounds(ss, live, f, bound);
    case If(_, y, n) =>
      AllocationSound(y, live, f);
      StaysInside(live, f, AllocateS(y, f));
      if n.Some? {
        InnerSound(y, live, f);
        AllocationSound(n.value, live, AllocateS(y, f));
        StaysInside(live, AllocateS(y, f), AllocateS(n.value, AllocateS(y, f)));
        FineEarlier(live, AllocateS(y, f), AllocateS(n.value, AllocateS(y, f)), bound);
        FrameBounds(n.value, live, AllocateS(y, f), bound);
      }
      FrameBounds(y, live, f, bound);
    case While(_, b) => FrameBounds(b, live, f, bound);
    case Do(b, _) => FrameBounds(b, live, f, bound);
    case For(start, _, _, b) => ForBounds(s, live, f, bound);
    case Switch(_, b) =>
      if b.Block? {
        ItemsBounds(b.body, live, f, bound);
      } else {
        FrameBounds(b, live, f, bound);
      }
    case Case(_, b) => FrameBounds(b, live, f, bound);
    case Default(b) => FrameBounds(b, live, f, bound);
    case _ =>
  }

  lemma StaysInside(live: Live, f: Frame, g: Frame)
    requires Extends(live, f, g) && f.inFunction
    ensures g.inFunction
  {
  }

  lemma {:induction false} ForBounds(s: Stmt, live: Live, f: Frame, bound: int)
    requires s.For? && Sound(live, f) && ScopedS(s, live) && f.inFunction && AllocateS(s, f).maxLocal <= bound
    ensures s.start.Some? ==> Throughout(s.start.value, live, f, bound)
    ensures Throughout(s.loop, LiveO(s.start, live), AllocateO(s.start, f), bound)
    decreases s, 0
  {
    hide Sound, ScopedO, Extends, Throughout, LiveS;
    var live', f' := LiveO(s.start, live), AllocateO(s.start, f);
    if s.start.Some? {
      AllocationSound(s.start.value, live, f);
      StaysInside(live, f, f');
    }
    AllocationSound(s.loop, live', f');
    StaysInside(live', f', AllocateS(s.loop, f'));
    FineEarlier(live', f', AllocateS(s.loop, f'), bound);
    FrameBounds(s.loop, live', f', bound);
    if s.start.Some? {
      FrameBounds(s.start.value, live, f, bound);
    }
  }

  lemma {:induction false} ListBounds(ss: seq<Stmt>, live: Live, f: Frame, bound: int)
    requires Sound(live, f) && ScopedList(ss, live) && f.inFunction && AllocateList(ss, f).maxLocal <= bound
    ensures ThroughoutList(ss, live, f, bound)
    decreases ss, 0
  {
    hide Sound, ScopedS, Extends, Throughout, LiveS, AllocateS;
    if ss != [] {
      var n := |ss| - 1;
      var live', f' := LiveList(ss[..n], live), AllocateList(ss[..n], f);
      ListSound(ss[..n], live, f);
      StaysInside(live, f, f');
      AllocationSound(ss[n], live', f');
      StaysInside(live', f', AllocateList(ss, f));
      FineEarlier(live', f', AllocateList(ss, f), bound);
      ListBounds(ss[..n], live, f, bound);
      FrameBounds(ss[n], live', f', bound);
    }
  }

  lemma {:induction false} ItemsBounds(ss: seq<Stmt>, live: Live, f: Frame, bound: int)
    requires Sound(live, f) && f.inFunction && AllocateList(ss, f).maxLocal <= bound
    requires forall i :: 0 <= i < |ss| ==> ScopedS(ss[i], live)
    ensures ThroughoutItems(ss, live, f, bound)
    decreases ss, 0
  {
    hide Sound, ScopedS, Extends, Throughout, LiveS, AllocateS;
    if ss != [] {
      var n := |ss| - 1;
      var f' := AllocateList(ss[..n], f);
      ItemsSound(ss[..n], live, f);
      StaysInside(live, f, f');
      AllocationSound(ss[n], live, f');
      StaysInside(live, f', AllocateList(ss, f));
      FineEarlier(live, f', AllocateList(ss, f), bound);
      ItemsBounds(ss[..n], live, f, bound);
      FrameBounds(ss[n], live, f', bound);
    }
  }

  // ------------------------------------------------------------------ the least bound

  lemma {:induction false} DeclsLeast(ds: seq<Decl>, f: Frame)
    requires f.inFunction && f.maxLocal >= f.displ
    ensures var g := AllocateDecls(ds, f);
      g.inFunction && f.displ <= g.displ <= g.maxLocal && g.maxLocal == Max(f.maxLocal, g.displ)
    decreases |ds|
  {
    if ds != [] {
      DeclsLeast(ds[..|ds| - 1], f);
    }
  }

  /** No smaller size would do: a bound that holds throughout is at least the size in the header. */
  lemma {:induction false} FrameLeast(s: Stmt, live: Live, f: Frame, bound: int)
    requires Throughout(s, live, f, bound) && f.maxLocal <= bound
    ensures AllocateS(s, f).maxLocal <= bound
    decreases s, 1
  {
    hide Fine, LiveS, LiveList;
    match s
    case Declare(ds) => DeclareLeast(ds, live, f, bound);
    case Block(ss) => ListLeast(ss, live, f, bound);
    case If(_, y, n) =>
      FrameLeast(y, live, f, bound);
      if n.Some? {
        FrameLeast(n.value, live, AllocateS(y, f), bound);
      }
    case While(_, b) => FrameLeast(b, live, f, bound);
    case Do(b, _) => FrameLeast(b, live, f, bound);
    case For(start, _, _, b) =>
      if start.Some? {
        FrameLeast(start.value, live, f, bound);
      }
      FrameLeast(b, LiveO(start, live), AllocateO(start, f), bound);
    case Switch(_, b) =>
      if b.Block? {
        ItemsLeast(b.body, live, f, bound);
      } else {
        FrameLeast(b, live, f, bound);
      }
    case Case(_, b) => FrameLeast(b, live, f, bound);
    case Default(b) => FrameLeast(b, live, f, bound);
    case _ =>
  }

  lemma DeclareLeast(ds: seq<Decl>, live: Live, f: Frame, bound: int)
    requires Throughout(Declare(ds), live, f, bound) && f.maxLocal <= bound
    ensures AllocateDecls(ds, f).maxLocal <= bound
  {
    hide LiveS, Separate;
    DeclsLeast(ds, f);
  }

  lemma {:induction false} ListLeast(ss: seq<Stmt>, live: Live, f: Frame, bound: int)
    requires ThroughoutList(ss, live, f, bound) && f.maxLocal <= bound
    ensures AllocateList(ss, f).maxLocal <= bound
    decreases ss, 0
  {
    hide Throughout, LiveList, AllocateS;
    if ss != [] {
      var n := |ss| - 1;
      ListLeast(ss[..n], live, f, bound);
      FrameLeast(ss[n], LiveList(ss[..n], live), AllocateList(ss[..n], f), bound);
    }
  }

  lemma {:induction false} ItemsLeast(ss: seq<Stmt>, live: Live, f: Frame, bound: int)
    requires ThroughoutItems(ss, live, f, bound) && f.maxLocal <= bound
    ensures AllocateList(ss, f).maxLocal <= bound
    decreases ss, 0
  {
    hide Throughout, AllocateS;
    if ss != [] {
      var n := |ss| - 1;
      ItemsLeast(ss[..n], live, f, bound);
      FrameLeast(ss[n], live, AllocateList(ss[..n], f), bound);
    }
  }

  /** The size that the allocator arrives at is exactly the least bound. */
  lemma FrameExactly(s: Stmt, live: Live, f: Frame, bound: int)
    requires Sound(live, f) && ScopedS(s, live) && f.inFunction && f.maxLocal <= bound
    ensures Throughout(s, live, f, bound) <==> AllocateS(s, f).maxLocal <= bound
  {
    hide Throughout, Sound, ScopedS, AllocateS;
    if Throughout(s, live, f, bound) {
      FrameLeast(s, live, f, bound);
    }
    if AllocateS(s, f).maxLocal <= bound {
      FrameBounds(s, live, f, bound);
    }
  }
}

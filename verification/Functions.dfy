/**
  * Code of whole functions.
  */
module Functions {
  import opened Common
  import opened Ast
  import opened Instructions
  import opened Codegen
  import opened Frames
  import opened Confinement

  /** The allocator at the body of a function: its parameters take the first cells. */
  function Entry(params: seq<Decl>, f: Frame): Frame {
    AllocateDecls(params, f.(inFunction := true, displ := DISPL_START, maxLocal := DISPL_START))
  }

  /** Parameter k lies at cell 3 and the cells of the parameters before it; the body goes on behind them all. */
  lemma ParameterCells(params: seq<Decl>, f: Frame, k: nat)
    requires k < |params| && DistinctNames(params)
    ensures var entry := Entry(params, f);
      && entry.inFunction && entry.displ == 3 + CellsBefore(params, |params|) && entry.maxGlobal == f.maxGlobal
      && NameOf(params[k]) in entry.table
      && entry.table[NameOf(params[k])] == 3 + CellsBefore(params, k)
  {
    var f' := f.(inFunction := true, displ := DISPL_START, maxLocal := DISPL_START);
    DeclaredInOrder(params, f', k);
    GlobalsStay(params, f');
  }

  lemma {:induction false} GlobalsStay(ds: seq<Decl>, f: Frame)
    requires f.inFunction
    ensures AllocateDecls(ds, f).maxGlobal == f.maxGlobal && AllocateDecls(ds, f).inFunction
    decreases |ds|
  {
    if ds != [] {
      GlobalsStay(ds[..|ds| - 1], f);
    }
  }

  /** A header with the size of the frame and the address after the function, the body, and a return. */
  function FunctionCode(body: Stmt, size: int, at: nat): seq<int> {
    var c := Finished(CodeS(body, at + 3));
    [IC_FUNC_BEG, size, at + |c| + 4] + c + [IC_RETURN_VOID]
  }

  // ----------------------------------------------------------- translation units

  /** A declaration at file level: variables, or a function. */
  datatype Unit =
    | Globals(variables: seq<Decl>)
    | Function(params: seq<Decl>, body: Stmt)

  function UnitCode(u: Unit, f: Frame, at: nat): seq<int> {
    match u
    case Globals(ds) => CodeDecls(ResolveDecls(ds, f), at)
    case Function(params, body) =>
      var entry := Entry(params, f);
      FunctionCode(ResolveS(body, entry), AllocateS(body, entry).maxLocal, at)
  }

  function UnitFrame(u: Unit, f: Frame): Frame {
    match u
    case Globals(ds) => AllocateDecls(ds, f)
    case Function(params, body) => AllocateS(body, Entry(params, f)).(inFunction := false)
  }

  function UnitsFrame(us: seq<Unit>, f: Frame): Frame {
    if us == [] then f else UnitFrame(us[|us| - 1], UnitsFrame(us[..|us| - 1], f))
  }

  function UnitsCode(us: seq<Unit>, f: Frame, at: nat): seq<int> {
    if us == [] then []
    else
      var before := us[..|us| - 1];
      var code := UnitsCode(before, f, at);
      code + UnitCode(us[|us| - 1], UnitsFrame(before, f), at + |code|)
  }

  /** The code of a program: its declarations, then a call of main and a stop. */
  function ProgramCode(us: seq<Unit>, f: Frame, main: int, at: nat): seq<int> {
    UnitsCode(us, f, at) + [IC_CALL1, IC_CALL2, main, IC_STOP]
  }

  /** Jumps and labels stand where the parser lets them. */
  predicate ConfinedUnits(us: seq<Unit>) {
    forall i :: 0 <= i < |us| && us[i].Function? ==> Confined(us[i].body, false, false)
  }

  lemma UnitsNext(us: seq<Unit>, i: nat, f: Frame, at: nat)
    requires i < |us|
    ensures
      var before := UnitsCode(us[..i], f, at);
      var f' := UnitsFrame(us[..i], f);
      && UnitsFrame(us[..i + 1], f) == UnitFrame(us[i], f')
      && UnitsCode(us[..i + 1], f, at) == before + UnitCode(us[i], f', at + |before|)
  {
    hide UnitCode, UnitFrame;
    assert us[..i + 1][..i] == us[..i];
  }

  // ------------------------------------------------------------------- allocation

  /** Allocation does not move jumps. */
  lemma {:induction false} ConfinedResolved(s: Stmt, f: Frame, inLoop: bool, inSwitch: bool)
    requires Confined(s, inLoop, inSwitch)
    ensures Confined(ResolveS(s, f), inLoop, inSwitch)
    decreases s, 1
  {
    match s
    case Block(ss) =>
      ConfinedResolvedList(ss, f, inLoop, inSwitch);
      assert ResolveS(s, f) == Block(ResolveList(ss, f));
    case If(_, y, n) =>
      ConfinedResolved(y, f, inLoop, inSwitch);
      if n.Some? {
        ConfinedResolved(n.value, AllocateS(y, f), inLoop, inSwitch);
      }
    case While(_, b) => ConfinedResolved(b, f, true, inSwitch);
    case Do(b, _) => ConfinedResolved(b, f, true, inSwitch);
    case For(start, _, _, b) =>
      if start.Some? {
        ConfinedResolved(start.value, f, inLoop, inSwitch);
      }
      ConfinedResolved(b, AllocateO(start, f), true, inSwitch);
    case Switch(_, b) => ConfinedResolved(b, f, inLoop, true);
    case Case(_, b) => ConfinedResolved(b, f, inLoop, inSwitch);
    case Default(b) => ConfinedResolved(b, f, inLoop, inSwitch);
    case _ =>
  }

  lemma {:induction false} ConfinedResolvedList(ss: seq<Stmt>, f: Frame, inLoop: bool, inSwitch: bool)
    requires forall i :: 0 <= i < |ss| ==> Confined(ss[i], inLoop, inSwitch)
    ensures forall i :: 0 <= i < |ss| ==> Confined(ResolveList(ss, f)[i], inLoop, inSwitch)
    decreases ss, 0
  {
    if ss != [] {
      var n := |ss| - 1;
      ConfinedResolvedList(ss[..n], f, inLoop, inSwitch);
      ConfinedResolved(ss[n], AllocateList(ss[..n], f), inLoop, inSwitch);
      forall i | 0 <= i < |ss| ensures Confined(ResolveList(ss, f)[i], inLoop, inSwitch) {
        if i < n {
          assert ResolveList(ss, f)[i] == ResolveList(ss[..n], f)[i];
        }
      }
    }
  }
}

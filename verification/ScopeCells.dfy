/**
  * The cells that the table of identifiers gives to variables: those in scope
  * together never overlap, and the frame of a function holds all its own.
  */
module ScopeCells {
  import opened Common
  import opened Scopes
  import opened ScopeStack
  import Scoping

  /** A variable of an open level: its entry, its displacement and its size. */
  datatype Place = Place(id: nat, at: int, size: nat)

  const FRAME_START: int := 3

  function Start(p: Place): int {
    if p.at < 0 then -p.at else p.at
  }

  function End(p: Place): int {
    Start(p) + p.size
  }

  /** The variables of the open levels after a step that succeeds. */
  function Track(s: Session, places: seq<seq<Place>>, op: Op): seq<seq<Place>>
    requires places != []
  {
    var t := s.table;
    match op
    case OpenFunction => places + [[]]
    case OpenBlock => places + [[]]
    case CloseFunction => if |places| > 1 then Front(places) else places
    case CloseBlock => if |places| > 1 then Front(places) else places
    case Declare(_, kind, _, _, cells) =>
      if kind > 0 || cells < 0 then places
      else
        var p := if kind == 0 then Place(|t.ids|, t.displ, cells) else Place(|t.ids|, -t.displ, 1);
        Front(places) + [Last(places) + [p]]
  }

  /** Where the cells of a level end: the allocator now, or when the next level was opened. */
  function Limit(s: Session, k: nat): int
    requires k <= |s.saved|
  {
    if k == |s.saved| then s.table.displ else s.saved[k].displ
  }

  /** Where they begin. */
  function Base(s: Session, k: nat): int
    requires k <= |s.saved|
  {
    if k <= 1 then FRAME_START else Limit(s, k - 1)
  }

  /**
    * The variables of a level lie one after another, each where the one before it ends,
    * and fill the cells between its bounds; globals are counted downwards.
    */
  predicate LevelCells(s: Session, places: seq<Place>, k: nat)
    requires k <= |s.saved|
  {
    var limit := if k == 0 then -Limit(s, 0) else Limit(s, k);
    && Base(s, k) <= limit
    && (forall i :: 0 <= i < |places| ==> PlaceCells(s.table.ids, places[i], k, Base(s, k), limit))
    && Packed(places, Base(s, k), limit)
  }

  predicate Packed(places: seq<Place>, base: int, limit: int) {
    && (forall i :: 0 <= i < |places| ==> Follows(places, i, base))
    && limit == EndBefore(places, |places|, base)
  }

  /** The variable begins where the one before it ends. */
  predicate Follows(places: seq<Place>, i: nat, base: int)
    requires i < |places|
  {
    Start(places[i]) == EndBefore(places, i, base)
  }

  function EndBefore(places: seq<Place>, i: nat, base: int): int
    requires i <= |places|
  {
    if i == 0 then base else End(places[i - 1])
  }

  lemma PackedNext(places: seq<Place>, base: int, limit: int, p: Place)
    requires Packed(places, base, limit) && Start(p) == limit
    ensures Packed(places + [p], base, End(p))
  {
    var more := places + [p];
    forall i | 0 <= i < |more| ensures Follows(more, i, base) {
      assert i < |places| ==> Follows(places, i, base);
    }
  }

  predicate PlaceCells(ids: seq<int>, p: Place, k: nat, base: int, limit: int) {
    && p.id + 3 < |ids| && ids[p.id + 3] == p.at
    && base <= Start(p) && End(p) <= limit && (k == 0 ==> p.at < 0)
  }

  ghost predicate Cells(s: Session, places: seq<seq<Place>>) {
    && |places| == |s.saved| + 1
    && (forall k :: 0 <= k <= |s.saved| ==> LevelCells(s, places[k], k))
    && s.table.lg == (if s.saved == [] then -1 else 1) && s.table.maxDisplg == -Limit(s, 0)
    && (forall k :: 1 <= k < |s.saved| ==> s.saved[k].lg == 1)
    && (s.saved != [] ==> s.table.displ <= s.table.maxDispl)
  }

  /** Parameters that are functions belong to functions; sizes are not negative. */
  predicate Sized(op: Op, depth: nat) {
    op.Declare? ==> op.cells >= 0 && (op.kind < 0 ==> depth > 0)
  }

  lemma StartCells(names: map<int, int>)
    ensures Cells(Session(Table([0, 0], names, FIRST, -3, -1, 3, 3, 0, []), []), [[]])
  {
  }

  lemma OpenCells(s: Session, places: seq<seq<Place>>, t: Table, scp: Scope)
    requires Cells(s, places) && t.ids == s.table.ids && scp.displ == s.table.displ
    requires t.lg == 1 && t.displ <= t.maxDispl && (s.saved != [] ==> scp.lg == 1)
    requires t.displ == (if s.saved == [] then FRAME_START else s.table.displ) && t.maxDisplg == s.table.maxDisplg
    ensures Cells(Session(t, s.saved + [scp]), places + [[]])
  {
    var s' := Session(t, s.saved + [scp]);
    var n := |s.saved|;
    forall k | 0 <= k <= n ensures Limit(s', k) == Limit(s, k) && Base(s', k) == Base(s, k) && LevelCells(s', (places + [[]])[k], k) {
      assert LevelCells(s, places[k], k);
    }
    assert Limit(s', n) == s.table.displ;
    assert LevelCells(s, places[n], n);
    assert LevelCells(s', [], n + 1);
  }

  lemma CloseCells(s: Session, places: seq<seq<Place>>, t: Table)
    requires Cells(s, places) && s.saved != [] && t.ids == s.table.ids && t.displ == Last(s.saved).displ
    requires t.lg == (if |s.saved| == 1 then -1 else 1) && t.maxDispl == s.table.maxDispl && t.maxDisplg == s.table.maxDisplg
    ensures Cells(Session(t, Front(s.saved)), Front(places))
  {
    var s' := Session(t, Front(s.saved));
    var n := |s.saved| - 1;
    forall k | 0 <= k <= n ensures LevelCells(s', Front(places)[k], k) {
      assert LevelCells(s, places[k], k);
      assert Limit(s', k) == Limit(s, k);
    }
    assert LevelCells(s, places[n + 1], n + 1);
  }

  lemma DeclareCells(s: Session, places: seq<seq<Place>>, op: Op)
    requires Cells(s, places) && op.Declare? && Sized(op, |s.saved|)
    ensures Cells(Session(Declared(s.table, op.name, op.kind, op.typ, op.funcDef, op.cells), s.saved), Track(s, places, op))
  {
    var t := Declared(s.table, op.name, op.kind, op.typ, op.funcDef, op.cells);
    var s' := Session(t, s.saved);
    var after := Track(s, places, op);
    var n := |s.saved|;
    assert LevelCells(s, places[n], n);
    forall k | 0 <= k < n ensures LevelCells(s', after[k], k) {
      assert LevelCells(s, places[k], k);
    }
    TopCells(s, places, op);
  }

  lemma TopCells(s: Session, places: seq<seq<Place>>, op: Op)
    requires Cells(s, places) && op.Declare? && Sized(op, |s.saved|)
    ensures
      var t := Declared(s.table, op.name, op.kind, op.typ, op.funcDef, op.cells);
      LevelCells(Session(t, s.saved), Last(Track(s, places, op)), |s.saved|)
  {
    hide NameCell, TypeCell, Prototyped;
    var n := |s.saved|;
    assert LevelCells(s, places[n], n);
    if n > 0 {
      BaseBelow(s, places, n);
    }
    var t := Declared(s.table, op.name, op.kind, op.typ, op.funcDef, op.cells);
    assert t.ids[|s.table.ids| + 3] == DisplCell(s.table, op.kind, op.typ);
    assert forall i :: 0 <= i < |s.table.ids| ==> t.ids[i] == s.table.ids[i];
    hide Packed, Declared, DisplCell;
    if op.kind <= 0 {
      var p := if op.kind == 0 then Place(|s.table.ids|, s.table.displ, op.cells) else Place(|s.table.ids|, -s.table.displ, 1);
      PackedNext(places[n], Base(s, n), if n == 0 then -Limit(s, 0) else Limit(s, n), p);
      NextCell(s, op);
    } else {
      NoCell(s, op);
    }
  }

  /** The allocator and the entry after the declaration of a variable. */
  lemma NextCell(s: Session, op: Op)
    requires op.Declare? && op.kind <= 0 && s.table.lg != 0
    ensures
      var t := Declared(s.table, op.name, op.kind, op.typ, op.funcDef, op.cells);
      && t.displ == s.table.displ + (if op.kind < 0 then 1 else s.table.lg * op.cells)
      && DisplCell(s.table, op.kind, op.typ) == if op.kind < 0 then -s.table.displ else s.table.displ
  {
  }

  lemma NoCell(s: Session, op: Op)
    requires op.Declare? && op.kind > 0
    ensures Declared(s.table, op.name, op.kind, op.typ, op.funcDef, op.cells).displ == s.table.displ
  {
  }

  /** Every step keeps the variables of all open levels apart. */
  lemma StepCells(s: Session, places: seq<seq<Place>>, op: Op)
    requires Cells(s, places) && Sized(op, |s.saved|) && Step(s, op).Some?
    ensures Cells(Step(s, op).value, Track(s, places, op))
  {
    hide Replay, AddOutcome, Allowed, Cells, Declared;
    CellsShape(s, places);
    var t := s.table;
    match op
    case OpenFunction =>
      var scp := Scope(t.displ, -1, FIRST);
      assert [scp] == s.saved + [scp];
      OpenCells(s, places, EnterFunction(t), scp);
    case OpenBlock => OpenCells(s, places, EnterBlock(t), Scope(t.displ, t.lg, t.curId));
    case CloseFunction =>
      assert Front(s.saved) == [];
      CloseCells(s, places, ExitFunction(t, s.saved[0].displ));
    case CloseBlock => CloseCells(s, places, ExitBlock(t, Last(s.saved)));
    case Declare(_, _, _, _, _) => DeclareCells(s, places, op);
  }

  lemma CellsShape(s: Session, places: seq<seq<Place>>)
    requires Cells(s, places)
    ensures |places| == |s.saved| + 1 && (s.saved != [] ==> s.table.lg == 1 && s.table.displ <= s.table.maxDispl)
    ensures |s.saved| >= 2 ==> Last(s.saved).lg == 1
  {
  }

  lemma {:induction false} InOrder(places: seq<Place>, base: int, limit: int, i: nat, j: nat)
    requires Packed(places, base, limit) && i < j < |places|
    ensures End(places[i]) <= Start(places[j])
    decreases j
  {
    assert Follows(places, j, base);
    if i < j - 1 {
      InOrder(places, base, limit, i, j - 1);
      assert Start(places[j - 1]) <= End(places[j - 1]);
    }
  }

  lemma LevelApart(places: seq<Place>, base: int, limit: int, p: Place, q: Place)
    requires Packed(places, base, limit) && p in places && q in places && p != q
    ensures End(p) <= Start(q) || End(q) <= Start(p)
  {
    hide Packed;
    var a :| 0 <= a < |places| && places[a] == p;
    var b :| 0 <= b < |places| && places[b] == q;
    if a < b {
      InOrder(places, base, limit, a, b);
    } else {
      InOrder(places, base, limit, b, a);
    }
  }

  /** Two variables of open levels of a function never share a cell, and lie inside its frame. */
  lemma VariablesApart(s: Session, places: seq<seq<Place>>, j: nat, k: nat, p: Place, q: Place)
    requires Cells(s, places) && 1 <= j <= k < |places| && p in places[j] && q in places[k] && p != q
    ensures End(p) <= Start(q) || End(q) <= Start(p)
    ensures FRAME_START <= Start(p) && End(p) <= s.table.maxDispl
  {
    hide Packed;
    assert LevelCells(s, places[j], j) && LevelCells(s, places[k], k);
    LimitsGrow(s, places, j, |s.saved|);
    var a :| 0 <= a < |places[j]| && places[j][a] == p;
    var b :| 0 <= b < |places[k]| && places[k][b] == q;
    BaseBelow(s, places, j);
    if j < k {
      LimitsGrow(s, places, j, k - 1);
    } else {
      LevelApart(places[j], Base(s, j), Limit(s, j), p, q);
    }
  }

  lemma {:induction false} LimitsGrow(s: Session, places: seq<seq<Place>>, j: nat, k: nat)
    requires Cells(s, places) && 1 <= j <= k <= |s.saved|
    ensures Limit(s, j) <= Limit(s, k)
    decreases k
  {
    if j < k {
      LimitsGrow(s, places, j, k - 1);
      assert LevelCells(s, places[k], k);
    }
  }

  lemma {:induction false} BaseBelow(s: Session, places: seq<seq<Place>>, k: nat)
    requires Cells(s, places) && 1 <= k <= |s.saved|
    ensures FRAME_START <= Base(s, k)
    decreases k
  {
    assert LevelCells(s, places[k], k);
    if k > 1 {
      BaseBelow(s, places, k - 1);
      assert LevelCells(s, places[k - 1], k - 1);
    }
  }

  // ------------------------------------------------------------------------- runs

  function TrackRun(s: Session, places: seq<seq<Place>>, ops: seq<Op>): seq<seq<Place>>
    requires places != []
    decreases |ops|
  {
    if ops == [] || Step(s, ops[0]).None? then places
    else
      var after := Track(s, places, ops[0]);
      if after == [] then places else TrackRun(Step(s, ops[0]).value, after, ops[1..])
  }

  predicate SizedRun(s: Session, ops: seq<Op>)
    decreases |ops|
  {
    ops == [] || (Sized(ops[0], |s.saved|) && (Step(s, ops[0]).Some? ==> SizedRun(Step(s, ops[0]).value, ops[1..])))
  }

  /** After any run the variables of the open levels are apart. */
  lemma {:induction false} RunCells(s: Session, places: seq<seq<Place>>, ops: seq<Op>)
    requires Cells(s, places) && SizedRun(s, ops) && Scoping.Run(s, ops).Some?
    ensures Cells(Scoping.Run(s, ops).value, TrackRun(s, places, ops))
    decreases |ops|
  {
    hide Step, Track, Cells;
    CellsShape(s, places);
    if ops != [] {
      StepCells(s, places, ops[0]);
      CellsShape(Step(s, ops[0]).value, Track(s, places, ops[0]));
      RunCells(Step(s, ops[0]).value, Track(s, places, ops[0]), ops[1..]);
    }
  }

  /** The size of a frame never shrinks inside a function, once its function parameters are declared. */
  lemma FrameNeverShrinks(s: Session, places: seq<seq<Place>>, op: Op)
    requires Cells(s, places) && s.saved != [] && Sized(op, |s.saved|) && Step(s, op).Some?
    requires op.Declare? && op.kind < 0 ==> s.table.displ == s.table.maxDispl
    ensures Step(s, op).value.table.maxDispl >= s.table.maxDispl
  {
    hide Replay, AddOutcome, Allowed;
  }

  // -------------------------------------------------------------- the size of a frame

  /** The highest point of the allocator over a run. */
  function Highest(s: Session, ops: seq<Op>): int
    decreases |ops|
  {
    if ops == [] || Step(s, ops[0]).None? then s.table.displ
    else Max(s.table.displ, Highest(Step(s, ops[0]).value, ops[1..]))
  }

  /** The steps stay inside a function, and parameters that are functions come before any block is closed. */
  predicate Within(s: Session, ops: seq<Op>)
    decreases |ops|
  {
    ops == [] ||
    (&& !ops[0].OpenFunction? && !ops[0].CloseFunction?
     && (ops[0].Declare? && ops[0].kind < 0 ==> s.table.displ == s.table.maxDispl)
     && (Step(s, ops[0]).Some? ==> Within(Step(s, ops[0]).value, ops[1..])))
  }

  lemma HighestStep(s: Session, places: seq<seq<Place>>, op: Op)
    requires Cells(s, places) && s.saved != [] && Sized(op, |s.saved|) && Step(s, op).Some?
    requires !op.OpenFunction? && !op.CloseFunction? && (op.Declare? && op.kind < 0 ==> s.table.displ == s.table.maxDispl)
    ensures var s' := Step(s, op).value;
      s'.saved != [] && s'.table.maxDispl == Max(s.table.maxDispl, s'.table.displ) && s'.table.displ <= s'.table.maxDispl
  {
    hide Replay, AddOutcome, Allowed, LevelCells;
    CellsShape(s, places);
    if op.CloseBlock? {
      StepCells(s, places, op);
      CellsShape(Step(s, op).value, Track(s, places, op));
    }
  }

  /** The size of a frame is exactly the highest point that the allocator reaches in the function. */
  lemma {:induction false} FrameIsHighest(s: Session, places: seq<seq<Place>>, ops: seq<Op>)
    requires Cells(s, places) && s.saved != [] && SizedRun(s, ops) && Scoping.Run(s, ops).Some? && Within(s, ops)
    ensures Scoping.Run(s, ops).value.table.maxDispl == Max(s.table.maxDispl, Highest(s, ops))
    decreases |ops|
  {
    hide Step, Track, Cells;
    CellsShape(s, places);
    if ops != [] {
      StepCells(s, places, ops[0]);
      HighestStep(s, places, ops[0]);
      FrameIsHighest(Step(s, ops[0]).value, Track(s, places, ops[0]), ops[1..]);
    }
  }
}

/**
  * The table of identifiers: a growing vector of entries of four cells (the previous
  * meaning of the name, the name, a type and a displacement), and for every name a
  * reference to its current entry.  Entries of closed blocks stay in the vector.
  */
module Scopes {
  import opened Common

  /** The largest item: the reference of a name without a meaning. */
  const ITEM_MAX: int := 0x7fff_ffff_ffff_ffff
  const FIRST: nat := 2

  datatype Table = Table(
    ids: seq<int>,
    refs: map<int, int>,
    curId: nat,
    displ: int, lg: int, maxDispl: int, maxDisplg: int,
    refMain: nat,
    predef: seq<int>)

  /** What is kept by the caller while a block is open. */
  datatype Scope = Scope(displ: int, lg: int, curId: nat)

  datatype Outcome = Added(id: nat) | SecondMain | Repeated

  function Cell(ids: seq<int>, i: int): int {
    if 0 <= i < |ids| then ids[i] else ITEM_MAX
  }

  function Reference(refs: map<int, int>, repr: int): int {
    if repr in refs then refs[repr] else ITEM_MAX
  }

  /** A write to an unknown name, such as the negated name of a prototype, has no effect. */
  function Refer(refs: map<int, int>, repr: int, ref: int): map<int, int> {
    if repr in refs then refs[repr := ref] else refs
  }

  /** The first cell of an entry, and the reference that it stands for. */
  function Encode(ref: int): int {
    if ref == ITEM_MAX then ITEM_MAX - 1 else ref
  }

  function Decode(prev: int): int {
    if prev == ITEM_MAX - 1 then ITEM_MAX else prev
  }

  // ------------------------------------------------------------------- declaring

  /** The name may not be declared again in the open block. */
  predicate Clashes(t: Table, repr: int, kind: int, funcDef: int) {
    var prev := Encode(Reference(t.refs, repr));
    && kind != 1 && prev != ITEM_MAX - 1 && prev >= t.curId
    && (funcDef != 1 || Cell(t.ids + [prev, 0, 0, 0], prev + 1) > 0)
  }

  predicate IsFunction(kind: int, typ: int) {
    1 < kind < 1000 && typ < 1000
  }

  function NameCell(repr: int, kind: int, typ: int, funcDef: int): int {
    if IsFunction(kind, typ) && funcDef == 2 then -repr else repr
  }

  function TypeCell(kind: int, typ: int): int {
    if kind == 1 then 0 else typ
  }

  function DisplCell(t: Table, kind: int, typ: int): int {
    if kind < 0 then -t.displ
    else if kind == 0 then t.displ
    else if kind == 1 then 0
    else if kind >= 1000 || typ < 1000 then kind
    else 0
  }

  /** Clears a name from the list of prototypes. */
  function Cleared(predef: seq<int>, repr: int): (r: seq<int>)
    ensures |r| == |predef|
    ensures forall i :: 0 <= i < |predef| ==> r[i] == if predef[i] == repr then 0 else predef[i]
  {
    if predef == [] then []
    else Cleared(predef[..|predef| - 1], repr) + [if predef[|predef| - 1] == repr then 0 else predef[|predef| - 1]]
  }

  function Max(a: int, b: int): int {
    if a > b then a else b
  }

  /** The allocation of a declaration; size is the number of cells of its type. */
  function Allocated(t: Table, kind: int, size: int): Table {
    if kind < 0 then t.(displ := t.displ + 1, maxDispl := t.displ + 1)
    else if kind == 0 then
      var d := t.displ + t.lg * size;
      if t.lg > 0 then t.(displ := d, maxDispl := Max(d, t.maxDispl)) else t.(displ := d, maxDisplg := -d)
    else t
  }

  function Prototyped(predef: seq<int>, repr: int, kind: int, typ: int, funcDef: int): seq<int> {
    if !IsFunction(kind, typ) then predef
    else if funcDef == 2 then predef + [repr]
    else Cleared(predef, repr)
  }

  /** The table after a declaration that is not rejected. */
  function Declared(t: Table, repr: int, kind: int, typ: int, funcDef: int, size: int): Table {
    var ref := Reference(t.refs, repr);
    Allocated(t, kind, size).(
      ids := t.ids + [Encode(ref), NameCell(repr, kind, typ, funcDef), TypeCell(kind, typ), DisplCell(t, kind, typ)],
      refs := if ref == 0 then t.refs else Refer(t.refs, repr, |t.ids|),
      refMain := if ref == 0 then |t.ids| else t.refMain,
      predef := Prototyped(t.predef, repr, kind, typ, funcDef))
  }

  /** The table after a declaration that is rejected: a half-filled entry stays behind. */
  function Rejected(t: Table, repr: int): Table {
    var ref := Reference(t.refs, repr);
    if ref == 0 then t.(ids := t.ids + [0, 0, 0, 0])
    else t.(ids := t.ids + [Encode(ref), 0, 0, 0], refs := Refer(t.refs, repr, |t.ids|))
  }

  function AddOutcome(t: Table, repr: int, kind: int, funcDef: int): Outcome {
    if Reference(t.refs, repr) == 0 && t.refMain != 0 then SecondMain
    else if Clashes(t, repr, kind, funcDef) then Repeated
    else Added(|t.ids|)
  }

  // -------------------------------------------------------------- opening, closing

  function EnterBlock(t: Table): Table {
    t.(curId := |t.ids|)
  }

  function EnterFunction(t: Table): Table {
    t.(curId := |t.ids|, displ := 3, maxDispl := 3, lg := 1)
  }

  /** Undoes the entries of [from, upto), the last one first. */
  function Replay(ids: seq<int>, from: nat, upto: nat, refs: map<int, int>): (r: map<int, int>)
    decreases upto
  {
    if upto < from + 4 then refs
    else Replay(ids, from, upto - 4, Refer(refs, Cell(ids, upto - 3), Decode(Cell(ids, upto - 4))))
  }

  function ExitBlock(t: Table, scp: Scope): Table {
    t.(refs := Replay(t.ids, t.curId, |t.ids|, t.refs), displ := scp.displ, lg := scp.lg, curId := scp.curId)
  }

  function ExitFunction(t: Table, displ: int): Table {
    t.(refs := Replay(t.ids, t.curId, |t.ids|, t.refs), displ := displ, lg := -1, curId := FIRST)
  }
}

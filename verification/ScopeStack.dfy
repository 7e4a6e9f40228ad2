/**
  * Names as a stack of maps, one for every open block, and the proof that the table
  * of identifiers gives every name the meaning that the stack gives it.
  */
module ScopeStack {
  import opened Common
  import opened Scopes

  /** What a name stands for: its entry, whether that is a prototype, and the type and kind it was declared with. */
  datatype Decl = Decl(id: nat, prototype: bool, typ: int, kind: int)

  datatype Level = Level(start: nat, names: map<int, Decl>)

  /** The open levels, the outermost first, with the size of the table they refer to; main is apart. */
  datatype Stack = Stack(levels: seq<Level>, size: nat, mainKnown: bool, mainDecl: Decl)

  datatype Op =
    | OpenBlock
    | CloseBlock
    | OpenFunction
    | CloseFunction
    | Declare(name: int, kind: int, typ: int, funcDef: int, cells: int)

  /** The table, and what its callers keep while blocks are open. */
  datatype Session = Session(table: Table, saved: seq<Scope>)

  // ---------------------------------------------------------------- the two systems

  /** The size of the table with at least one built-in function. */
  const SOME_BUILTIN: nat := 6

  /** A declaration as the parser makes it: of a known name, no label, and a function only outside functions. */
  predicate Allowed(op: Op, names: set<int>, size: nat, depth: nat) {
    && op.Declare?
    && op.name in names && op.name > 0 && op.kind != 1
    && size + 4 < ITEM_MAX - 1
    && (IsFunction(op.kind, op.typ) ==> depth == 0)
  }

  /** One step of the table; None when a declaration is rejected or the step is not in order. */
  function Step(s: Session, op: Op): Option<Session> {
    var t := s.table;
    match op
    case OpenFunction =>
      if s.saved == [] && |t.ids| >= SOME_BUILTIN then Some(Session(EnterFunction(t), [Scope(t.displ, -1, FIRST)]))
      else None
    case CloseFunction =>
      if |s.saved| == 1 then Some(Session(ExitFunction(t, s.saved[0].displ), [])) else None
    case OpenBlock =>
      if s.saved != [] then Some(Session(EnterBlock(t), s.saved + [Scope(t.displ, t.lg, t.curId)])) else None
    case CloseBlock =>
      if |s.saved| >= 2 then
        Some(Session(ExitBlock(t, s.saved[|s.saved| - 1]), s.saved[..|s.saved| - 1]))
      else None
    case Declare(name, kind, typ, funcDef, cells) =>
      if Allowed(op, t.refs.Keys, |t.ids|, |s.saved|) && AddOutcome(t, name, kind, funcDef).Added? then
        Some(Session(Declared(t, name, kind, typ, funcDef, cells), s.saved))
      else None
  }

  function Last<T>(s: seq<T>): T
    requires s != []
  {
    s[|s| - 1]
  }

  function Front<T>(s: seq<T>): seq<T>
    requires s != []
  {
    s[..|s| - 1]
  }

  /** A name may be declared once in a block; a function may be declared and then defined. */
  predicate Free(st: Stack, main: int, name: int, funcDef: int)
    requires st.levels != []
  {
    if name == main then !st.mainKnown
    else
      var top := Last(st.levels).names;
      name !in top || (funcDef == 1 && top[name].prototype)
  }

  function Bind(st: Stack, main: int, op: Op): Stack
    requires st.levels != [] && op.Declare?
  {
    var d := Decl(st.size, IsFunction(op.kind, op.typ) && op.funcDef == 2, op.typ, op.kind);
    if op.name == main then st.(size := st.size + 4, mainKnown := true, mainDecl := d)
    else
      var top := Last(st.levels);
      st.(levels := Front(st.levels) + [top.(names := top.names[op.name := d])], size := st.size + 4)
  }

  /** One step of the stack of maps. */
  function StackStep(st: Stack, names: set<int>, main: int, op: Op): Option<Stack>
    requires st.levels != []
  {
    var n := |st.levels|;
    match op
    case OpenFunction =>
      if n == 1 && st.size >= SOME_BUILTIN then Some(st.(levels := st.levels + [Level(st.size, map[])])) else None
    case CloseFunction => if n == 2 then Some(st.(levels := Front(st.levels))) else None
    case OpenBlock => if n >= 2 then Some(st.(levels := st.levels + [Level(st.size, map[])])) else None
    case CloseBlock => if n >= 3 then Some(st.(levels := Front(st.levels))) else None
    case Declare(name, _, _, funcDef, _) =>
      if Allowed(op, names, st.size, n - 1) && Free(st, main, name, funcDef) then Some(Bind(st, main, op)) else None
  }

  /** The innermost live declaration of a name. */
  function Meaning(levels: seq<Level>, main: int, name: int): int {
    if name == main then 0
    else if levels == [] then ITEM_MAX
    else if name in Last(levels).names then Last(levels).names[name].id
    else Meaning(Front(levels), main, name)
  }

  // --------------------------------------------------------------- the connection

  function Bound(st: Stack, k: nat): nat
    requires k < |st.levels|
  {
    if k + 1 < |st.levels| then st.levels[k + 1].start else st.size
  }

  /** Every level lies after the one around it, and its entries lie in it. */
  predicate Ordered(st: Stack) {
    && st.levels != [] && st.levels[0].start == FIRST && st.size % 4 == 2 && st.size < ITEM_MAX - 1
    && (forall k :: 0 <= k < |st.levels| ==> LevelOrdered(st, k))
  }

  predicate LevelOrdered(st: Stack, k: nat)
    requires k < |st.levels|
  {
    var l := st.levels[k];
    && l.start % 4 == 2 && FIRST <= l.start <= Bound(st, k)
    && (k > 0 ==> l.start >= SOME_BUILTIN)
    && (forall name :: name in l.names ==> name > 0 && l.start <= l.names[name].id && l.names[name].id + 4 <= Bound(st, k))
  }

  /**
    * The entry of a declaration: the name, negated for a prototype, the type, and for a
    * function its number, or 0 if it was not taken for one.
    */
  predicate EntryIs(ids: seq<int>, d: Decl, name: int) {
    && d.id + 4 <= |ids|
    && ids[d.id + 1] == (if d.prototype then -name else name)
    && ids[d.id + 2] == d.typ
    && (d.kind > 1 ==> ids[d.id + 3] == if d.kind >= 1000 || d.typ < 1000 then d.kind else 0)
  }

  /** The entries of the live declarations. */
  predicate Written(ids: seq<int>, level: Level) {
    forall name :: name in level.names ==> EntryIs(ids, level.names[name], name)
  }

  /** Every name refers to what it means at these levels. */
  predicate Agrees(refs: map<int, int>, levels: seq<Level>, main: int) {
    forall name :: name in refs ==> refs[name] == Meaning(levels, main, name)
  }

  /** Undoing everything since a level was opened gives every name the meaning it had outside. */
  predicate Undone(t: Table, levels: seq<Level>, main: int, k: nat)
    requires k < |levels|
  {
    Agrees(Replay(t.ids, levels[k].start, |t.ids|, t.refs), levels[..k], main)
  }

  predicate Represents(s: Session, st: Stack, main: int) {
    var t := s.table;
    && Ordered(st) && |t.ids| == st.size && |st.levels| == |s.saved| + 1
    && t.curId == Last(st.levels).start && (t.refMain != 0) == st.mainKnown
    && (st.mainKnown ==> t.refMain == st.mainDecl.id && EntryIs(t.ids, st.mainDecl, main))
    && (forall k :: 0 <= k < |s.saved| ==> s.saved[k].curId == st.levels[k].start)
    && (forall k :: 0 <= k < |st.levels| ==> Written(t.ids, st.levels[k]))
    && Agrees(t.refs, st.levels, main)
    && (forall k :: 1 <= k < |st.levels| ==> Undone(t, st.levels, main, k))
  }

  // -------------------------------------------------------------- facts on replays

  /** The previous meaning that the earliest entry of a name in a range holds. */
  function Earliest(ids: seq<int>, from: nat, upto: nat, name: int): Option<int>
    decreases upto
  {
    if upto < from + 4 then None
    else
      match Earliest(ids, from, upto - 4, name)
      case Some(v) => Some(v)
      case None => if Cell(ids, upto - 3) == name then Some(Decode(Cell(ids, upto - 4))) else None
  }

  /** A replay gives a name what its earliest entry says, and leaves other names alone. */
  lemma {:induction false} ReplayIs(ids: seq<int>, from: nat, upto: nat, refs: map<int, int>, name: int)
    requires name in refs
    ensures var r := Replay(ids, from, upto, refs);
      r.Keys == refs.Keys && r[name] == (match Earliest(ids, from, upto, name) case Some(v) => v case None => refs[name])
    decreases upto
  {
    if upto >= from + 4 {
      ReplayIs(ids, from, upto - 4, Refer(refs, Cell(ids, upto - 3), Decode(Cell(ids, upto - 4))), name);
    }
  }

  lemma {:induction false} ReplayKeys(ids: seq<int>, from: nat, upto: nat, refs: map<int, int>)
    ensures Replay(ids, from, upto, refs).Keys == refs.Keys
    decreases upto
  {
    if upto >= from + 4 {
      ReplayKeys(ids, from, upto - 4, Refer(refs, Cell(ids, upto - 3), Decode(Cell(ids, upto - 4))));
    }
  }

  /** Replaying the entries of a closed block a second time changes nothing. */
  lemma {:induction false} ReplayTwice(ids: seq<int>, from: nat, upto: nat, refs: map<int, int>)
    ensures var r := Replay(ids, from, upto, refs); Replay(ids, from, upto, r) == r
  {
    hide Replay, Earliest;
    var r := Replay(ids, from, upto, refs);
    ReplayKeys(ids, from, upto, refs);
    ReplayKeys(ids, from, upto, r);
    forall name | name in refs ensures Replay(ids, from, upto, r)[name] == r[name] {
      ReplayIs(ids, from, upto, refs, name);
      ReplayIs(ids, from, upto, r, name);
    }
  }

  lemma {:induction false} ReplaySplit(ids: seq<int>, from: nat, mid: nat, upto: nat, refs: map<int, int>)
    requires from <= mid <= upto && mid % 4 == upto % 4
    ensures Replay(ids, from, upto, refs) == Replay(ids, from, mid, Replay(ids, mid, upto, refs))
    decreases upto
  {
    if upto >= mid + 4 {
      ReplaySplit(ids, from, mid, upto - 4, Refer(refs, Cell(ids, upto - 3), Decode(Cell(ids, upto - 4))));
    }
  }

  lemma {:induction false} ReplayPrefix(ids: seq<int>, entry: seq<int>, from: nat, upto: nat, refs: map<int, int>)
    requires upto <= |ids|
    ensures Replay(ids + entry, from, upto, refs) == Replay(ids, from, upto, refs)
    decreases upto
  {
    if upto >= from + 4 {
      ReplayPrefix(ids, entry, from, upto - 4, Refer(refs, Cell(ids, upto - 3), Decode(Cell(ids, upto - 4))));
    }
  }

  /** Undoing a declaration first undoes its own entry. */
  lemma ReplayEntry(ids: seq<int>, entry: seq<int>, from: nat, refs: map<int, int>)
    requires |entry| == 4 && from <= |ids|
    ensures Replay(ids + entry, from, |ids| + 4, refs)
      == Replay(ids, from, |ids|, Refer(refs, entry[1], Decode(entry[0])))
  {
    ReplayPrefix(ids, entry, from, |ids|, Refer(refs, entry[1], Decode(entry[0])));
  }

  // ---------------------------------------------------------------- facts on levels

  lemma {:induction false} MeaningRange(st: Stack, k: nat, main: int, name: int)
    requires Ordered(st) && k <= |st.levels|
    ensures var m := Meaning(st.levels[..k], main, name);
      m == 0 || m == ITEM_MAX || (k > 0 && FIRST <= m && m + 4 <= Bound(st, k - 1))
    ensures (Meaning(st.levels[..k], main, name) == 0) == (name == main)
    decreases k
  {
    if k > 0 && name != main {
      assert LevelOrdered(st, k - 1);
      assert st.levels[..k][..k - 1] == st.levels[..k - 1];
      if k > 1 {
        assert LevelOrdered(st, k - 2);
      }
      MeaningRange(st, k - 1, main, name);
    }
  }

  /** Whether a name refers into the innermost level tells whether that level declares it. */
  lemma TopOrNot(st: Stack, main: int, name: int)
    requires Ordered(st) && name != main
    ensures var m := Meaning(st.levels, main, name);
      var top := Last(st.levels);
      && (name in top.names ==> m == top.names[name].id && top.start <= m && m + 4 <= st.size)
      && (name !in top.names ==> m == ITEM_MAX || m < top.start)
  {
    var n := |st.levels| - 1;
    assert LevelOrdered(st, n);
    if name !in st.levels[n].names {
      if n > 0 {
        assert LevelOrdered(st, n - 1);
      }
      MeaningRange(st, n, main, name);
    }
  }

  // -------------------------------------------------------------------- simulation

  /** A declaration is rejected by the table exactly when the stack of maps rejects it. */
  lemma SameOutcome(s: Session, st: Stack, main: int, name: int, kind: int, funcDef: int)
    requires Represents(s, st, main) && name in s.table.refs && kind != 1 && name > 0
    ensures AddOutcome(s.table, name, kind, funcDef).Added? <==> Free(st, main, name, funcDef)
  {
    var t := s.table;
    var n := |st.levels|;
    assert st.levels[..n] == st.levels;
    assert LevelOrdered(st, n - 1);
    MeaningRange(st, n, main, name);
    if name != main {
      TopOrNot(st, main, name);
      assert Written(t.ids, st.levels[n - 1]);
    }
  }

  lemma {:induction false} OpenKeeps(s: Session, st: Stack, main: int, t: Table, scp: Scope)
    requires Represents(s, st, main) && st.size >= SOME_BUILTIN
    requires t.ids == s.table.ids && t.refs == s.table.refs && t.refMain == s.table.refMain && t.curId == |t.ids|
    requires scp.curId == s.table.curId
    ensures Represents(Session(t, s.saved + [scp]), st.(levels := st.levels + [Level(st.size, map[])]), main)
  {
    var n := |st.levels|;
    var inner := st.levels + [Level(st.size, map[])];
    var st' := st.(levels := inner);
    forall k | 0 <= k < n + 1 ensures LevelOrdered(st', k) && Written(t.ids, inner[k]) {
      if k < n {
        assert LevelOrdered(st, k);
        assert Written(t.ids, st.levels[k]);
      }
    }
    assert Front(inner) == st.levels;
    SameMeaning(st.levels, inner, main, t.refs);
    forall k | 1 <= k < n + 1 ensures Undone(t, inner, main, k) {
      if k < n {
        assert Undone(s.table, st.levels, main, k);
        assert inner[..k] == st.levels[..k];
      } else {
        assert inner[..n] == st.levels;
      }
    }
  }

  lemma SameMeaning(levels: seq<Level>, inner: seq<Level>, main: int, refs: map<int, int>)
    requires inner != [] && Front(inner) == levels && Last(inner).names == map[]
    ensures Agrees(refs, levels, main) ==> Agrees(refs, inner, main)
  {
  }

  /** Closing the innermost level; the entries of blocks that were closed inside it are undone again. */
  lemma {:induction false} CloseKeeps(s: Session, st: Stack, main: int, t: Table)
    requires Represents(s, st, main) && |st.levels| >= 2
    requires t.ids == s.table.ids && t.refMain == s.table.refMain && t.curId == Last(s.saved).curId
    requires t.refs == Replay(t.ids, s.table.curId, |t.ids|, s.table.refs)
    ensures Represents(Session(t, Front(s.saved)), st.(levels := Front(st.levels)), main)
  {
    var n := |st.levels| - 1;
    var st' := st.(levels := Front(st.levels));
    assert Undone(s.table, st.levels, main, n);
    assert st.levels[..n] == st'.levels;
    CloseOrdered(st);
    forall k | 0 <= k < n ensures Written(t.ids, st'.levels[k]) {
      assert Written(s.table.ids, st.levels[k]);
    }
    forall k | 1 <= k < n ensures Undone(t, st'.levels, main, k) {
      assert Undone(s.table, st.levels, main, k);
      assert st'.levels[..k] == st.levels[..k];
      LevelsApart(st, k, n);
      UndoneAgain(t.ids, st.levels[k].start, st.levels[n].start, s.table.refs);
    }
  }

  lemma CloseOrdered(st: Stack)
    requires Ordered(st) && |st.levels| >= 2
    ensures Ordered(st.(levels := Front(st.levels)))
  {
    var n := |st.levels| - 1;
    var st' := st.(levels := Front(st.levels));
    assert LevelOrdered(st, n);
    forall k | 0 <= k < n ensures LevelOrdered(st', k) {
      assert LevelOrdered(st, k);
    }
  }

  lemma {:induction false} StartBound(st: Stack, k: nat)
    requires Ordered(st) && k < |st.levels|
    ensures st.levels[k].start <= st.size
    decreases |st.levels| - k
  {
    assert LevelOrdered(st, k);
    if k + 1 < |st.levels| {
      StartBound(st, k + 1);
    }
  }

  lemma {:induction false} LevelsApart(st: Stack, k: nat, n: nat)
    requires Ordered(st) && k <= n < |st.levels|
    ensures st.levels[k].start <= st.levels[n].start <= st.size && st.levels[n].start % 4 == st.size % 4
    decreases n - k
  {
    assert LevelOrdered(st, k) && LevelOrdered(st, n);
    StartBound(st, n);
    if k < n {
      LevelsApart(st, k + 1, n);
    }
  }

  lemma UndoneAgain(ids: seq<int>, outer: nat, inner: nat, refs: map<int, int>)
    requires outer <= inner <= |ids| && inner % 4 == |ids| % 4
    ensures var closed := Replay(ids, inner, |ids|, refs);
      Replay(ids, outer, |ids|, closed) == Replay(ids, outer, |ids|, refs)
  {
    hide Replay;
    var closed := Replay(ids, inner, |ids|, refs);
    ReplaySplit(ids, outer, inner, |ids|, refs);
    ReplaySplit(ids, outer, inner, |ids|, closed);
    ReplayTwice(ids, inner, |ids|, refs);
  }

  lemma {:induction false} DeclareKeeps(s: Session, st: Stack, main: int, op: Op)
    requires Represents(s, st, main) && op.Declare?
    requires Allowed(op, s.table.refs.Keys, |s.table.ids|, |s.saved|)
    ensures var t := Declared(s.table, op.name, op.kind, op.typ, op.funcDef, op.cells);
      Represents(Session(t, s.saved), Bind(st, main, op), main)
  {
    hide Replay, Meaning, Allocated;
    var t := Declared(s.table, op.name, op.kind, op.typ, op.funcDef, op.cells);
    var st' := Bind(st, main, op);
    assert t.curId == s.table.curId by { AllocatedKeeps(s.table, op.kind, op.cells); }
    BindOrdered(st, main, op);
    forall k | 0 <= k < |st.levels| ensures Written(t.ids, st'.levels[k]) {
      assert Written(s.table.ids, st.levels[k]);
    }
    MeaningAll(st, main, op.name);
    assert Agrees(t.refs, st'.levels, main) by { BindAgrees(s, st, main, op); }
    forall k | 1 <= k < |st.levels| ensures Undone(t, st'.levels, main, k) {
      assert Undone(s.table, st.levels, main, k);
      EntryUndone(s, st, main, op, k);
      assert st'.levels[..k] == st.levels[..k];
    }
  }

  lemma AllocatedKeeps(t: Table, kind: int, size: int)
    ensures var u := Allocated(t, kind, size);
      u.ids == t.ids && u.refs == t.refs && u.curId == t.curId && u.refMain == t.refMain && u.predef == t.predef
  {
  }

  lemma MeaningAll(st: Stack, main: int, name: int)
    requires Ordered(st)
    ensures var m := Meaning(st.levels, main, name);
      (m == 0 || m == ITEM_MAX || m < ITEM_MAX - 5) && ((m == 0) == (name == main))
  {
    assert st.levels[..|st.levels|] == st.levels;
    MeaningRange(st, |st.levels|, main, name);
  }

  lemma BindOrdered(st: Stack, main: int, op: Op)
    requires Ordered(st) && op.Declare? && op.name > 0 && st.size + 4 < ITEM_MAX - 1
    ensures Ordered(Bind(st, main, op))
  {
    var st' := Bind(st, main, op);
    var n := |st.levels| - 1;
    forall k | 0 <= k <= n ensures LevelOrdered(st', k) {
      assert LevelOrdered(st, k);
      if k == n {
        StartBound(st, n);
      } else {
        assert LevelOrdered(st, k + 1);
      }
    }
  }

  lemma BindAgrees(s: Session, st: Stack, main: int, op: Op)
    requires Represents(s, st, main) && op.Declare? && op.name in s.table.refs
    ensures var t := Declared(s.table, op.name, op.kind, op.typ, op.funcDef, op.cells);
      Agrees(t.refs, Bind(st, main, op).levels, main)
  {
    hide Replay, Allocated;
    AllocatedKeeps(s.table, op.kind, op.cells);
    MeaningAll(st, main, op.name);
    if op.name != main {
      var t := Declared(s.table, op.name, op.kind, op.typ, op.funcDef, op.cells);
      var inner := Bind(st, main, op).levels;
      assert Front(inner) == Front(st.levels);
      assert t.refs == Refer(s.table.refs, op.name, st.size);
      forall x | x in t.refs ensures t.refs[x] == Meaning(inner, main, x) {
      }
    }
  }

  /** Undoing the new entry leaves the references of before the declaration. */
  lemma EntryUndone(s: Session, st: Stack, main: int, op: Op, k: nat)
    requires Represents(s, st, main) && op.Declare? && 1 <= k < |st.levels|
    requires Allowed(op, s.table.refs.Keys, |s.table.ids|, |s.saved|)
    ensures var t := Declared(s.table, op.name, op.kind, op.typ, op.funcDef, op.cells);
      Replay(t.ids, st.levels[k].start, |t.ids|, t.refs)
      == Replay(s.table.ids, st.levels[k].start, |s.table.ids|, s.table.refs)
  {
    hide Replay, Allocated, Meaning;
    var t := s.table;
    MeaningAll(st, main, op.name);
    StartBound(st, k);
    AllocatedKeeps(t, op.kind, op.cells);
    var after := Declared(t, op.name, op.kind, op.typ, op.funcDef, op.cells);
    var ref := Reference(t.refs, op.name);
    var entry := [Encode(ref), NameCell(op.name, op.kind, op.typ, op.funcDef), TypeCell(op.kind, op.typ),
      DisplCell(t, op.kind, op.typ)];
    assert after.ids == t.ids + entry;
    ReplayEntry(t.ids, entry, st.levels[k].start, after.refs);
    assert Refer(after.refs, entry[1], Decode(entry[0])) == t.refs;
  }

  /** A step of the table and a step of the stack of maps stay together: both are refused, or both succeed. */
  lemma {:induction false} StepSimulates(s: Session, st: Stack, main: int, op: Op)
    requires Represents(s, st, main)
    ensures match (Step(s, op), StackStep(st, s.table.refs.Keys, main, op))
      case (Some(s'), Some(st')) => Represents(s', st', main) && s'.table.refs.Keys == s.table.refs.Keys
      case (None, None) => true
      case _ => false
  {
    hide Represents, Declared, Free, Bind, AddOutcome;
    assert |s.table.ids| == st.size && |st.levels| == |s.saved| + 1 && st.levels != [] by { Sizes(s, st, main); }
    match op
    case Declare(name, kind, typ, funcDef, cells) =>
      if Allowed(op, s.table.refs.Keys, |s.table.ids|, |s.saved|) {
        SameOutcome(s, st, main, name, kind, funcDef);
        DeclareKeeps(s, st, main, op);
        DeclaredKeys(s.table, op);
      }
    case OpenFunction =>
      if Step(s, op).Some? {
        OpenFunctionKeeps(s, st, main);
      }
    case OpenBlock =>
      if Step(s, op).Some? {
        OpenBlockKeeps(s, st, main);
      }
    case CloseFunction =>
      if Step(s, op).Some? {
        CloseFunctionKeeps(s, st, main);
      }
    case CloseBlock =>
      if Step(s, op).Some? {
        CloseBlockKeeps(s, st, main);
      }
  }

  lemma Sizes(s: Session, st: Stack, main: int)
    requires Represents(s, st, main)
    ensures |s.table.ids| == st.size && |st.levels| == |s.saved| + 1 && st.levels != []
  {
  }

  lemma DeclaredKeys(t: Table, op: Op)
    requires op.Declare?
    ensures Declared(t, op.name, op.kind, op.typ, op.funcDef, op.cells).refs.Keys == t.refs.Keys
  {
    hide Allocated;
  }

  lemma OpenFunctionKeeps(s: Session, st: Stack, main: int)
    requires Represents(s, st, main) && s.saved == [] && st.size >= SOME_BUILTIN
    ensures var s' := Step(s, OpenFunction);
      s'.Some? && Represents(s'.value, st.(levels := st.levels + [Level(st.size, map[])]), main)
      && s'.value.table.refs == s.table.refs
  {
    assert s.table.curId == FIRST;
    var scp := Scope(s.table.displ, -1, FIRST);
    assert [scp] == s.saved + [scp];
    OpenKeeps(s, st, main, EnterFunction(s.table), scp);
  }

  lemma OpenBlockKeeps(s: Session, st: Stack, main: int)
    requires Represents(s, st, main) && s.saved != []
    ensures var s' := Step(s, OpenBlock);
      s'.Some? && Represents(s'.value, st.(levels := st.levels + [Level(st.size, map[])]), main)
      && s'.value.table.refs == s.table.refs
  {
    var scp := Scope(s.table.displ, s.table.lg, s.table.curId);
    LevelsApart(st, 1, |st.levels| - 1);
    assert LevelOrdered(st, 1);
    OpenKeeps(s, st, main, EnterBlock(s.table), scp);
  }

  lemma CloseFunctionKeeps(s: Session, st: Stack, main: int)
    requires Represents(s, st, main) && |s.saved| == 1
    ensures var s' := Step(s, CloseFunction);
      s'.Some? && Represents(s'.value, st.(levels := Front(st.levels)), main) && s'.value.table.refs.Keys == s.table.refs.Keys
  {
    hide Replay;
    assert s.saved[0].curId == st.levels[0].start;
    CloseKeeps(s, st, main, ExitFunction(s.table, s.saved[0].displ));
    ReplayKeys(s.table.ids, s.table.curId, |s.table.ids|, s.table.refs);
  }

  lemma CloseBlockKeeps(s: Session, st: Stack, main: int)
    requires Represents(s, st, main) && |s.saved| >= 2
    ensures var s' := Step(s, CloseBlock);
      s'.Some? && Represents(s'.value, st.(levels := Front(st.levels)), main) && s'.value.table.refs.Keys == s.table.refs.Keys
  {
    hide Replay;
    CloseKeeps(s, st, main, ExitBlock(s.table, Last(s.saved)));
    ReplayKeys(s.table.ids, s.table.curId, |s.table.ids|, s.table.refs);
  }
}

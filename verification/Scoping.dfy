/**
  * Whole runs of the table of identifiers.
  */
module Scoping {
  import opened Common
  import opened Scopes
  import opened ScopeStack

  function Run(s: Session, ops: seq<Op>): Option<Session>
    decreases |ops|
  {
    if ops == [] then Some(s)
    else
      match Step(s, ops[0])
      case None => None
      case Some(s') => Run(s', ops[1..])
  }

  function StackRun(st: Stack, names: set<int>, main: int, ops: seq<Op>): Option<Stack>
    requires st.levels != []
    decreases |ops|
  {
    if ops == [] then Some(st)
    else
      match StackStep(st, names, main, ops[0])
      case None => None
      case Some(st') =>
        assert st'.levels != [];
        StackRun(st', names, main, ops[1..])
  }

  /** The table before anything is declared: no name has a meaning, apart from main. */
  function Start(names: map<int, int>): Session {
    Session(Table([0, 0], names, FIRST, -3, -1, 3, 3, 0, []), [])
  }

  const EMPTY: Stack := Stack([Level(FIRST, map[])], FIRST, false, Decl(0, false, 0, 0))

  predicate Undeclared(names: map<int, int>, main: int) {
    forall x :: x in names ==> names[x] == if x == main then 0 else ITEM_MAX
  }

  lemma StartRepresents(names: map<int, int>, main: int)
    requires Undeclared(names, main)
    ensures Represents(Start(names), EMPTY, main)
  {
    assert LevelOrdered(EMPTY, 0);
    assert Front(EMPTY.levels) == [];
    forall x | x in names ensures names[x] == Meaning(EMPTY.levels, main, x) {
      assert Meaning([], main, x) == if x == main then 0 else ITEM_MAX;
    }
  }

  lemma {:induction false} RunSimulates(s: Session, st: Stack, main: int, ops: seq<Op>)
    requires Represents(s, st, main)
    ensures match (Run(s, ops), StackRun(st, s.table.refs.Keys, main, ops))
      case (Some(s'), Some(st')) => Represents(s', st', main) && s'.table.refs.Keys == s.table.refs.Keys
      case (None, None) => true
      case _ => false
    decreases |ops|
  {
    hide Represents, Step, StackStep;
    Sizes(s, st, main);
    if ops != [] {
      StepSimulates(s, st, main, ops[0]);
      if Step(s, ops[0]).Some? {
        Sizes(Step(s, ops[0]).value, StackStep(st, s.table.refs.Keys, main, ops[0]).value, main);
        RunSimulates(Step(s, ops[0]).value, StackStep(st, s.table.refs.Keys, main, ops[0]).value, main, ops[1..]);
      }
    }
  }

  /** After any run, every name refers to its innermost live declaration; runs fail only together. */
  lemma Resolves(names: map<int, int>, main: int, ops: seq<Op>)
    requires Undeclared(names, main)
    ensures var s, st := Run(Start(names), ops), StackRun(EMPTY, names.Keys, main, ops);
      && (s.Some? <==> st.Some?)
      && (s.Some? ==> forall x :: x in names ==> Reference(s.value.table.refs, x) == Meaning(st.value.levels, main, x))
  {
    hide Run, StackRun, Meaning, Ordered, Written, Undone;
    StartRepresents(names, main);
    RunSimulates(Start(names), EMPTY, main, ops);
  }

  /** The innermost live declaration of a name. */
  function Innermost(st: Stack, main: int, name: int): Option<Decl> {
    if name == main then (if st.mainKnown then Some(st.mainDecl) else None) else InnermostIn(st.levels, name)
  }

  function InnermostIn(levels: seq<Level>, name: int): Option<Decl> {
    if levels == [] then None
    else if name in Last(levels).names then Some(Last(levels).names[name])
    else InnermostIn(Front(levels), name)
  }

  lemma {:induction false} InnermostWritten(ids: seq<int>, levels: seq<Level>, main: int, name: int)
    requires name != main && forall k :: 0 <= k < |levels| ==> Written(ids, levels[k])
    ensures match InnermostIn(levels, name)
      case Some(d) => Meaning(levels, main, name) == d.id && EntryIs(ids, d, name)
      case None => Meaning(levels, main, name) == ITEM_MAX
    decreases |levels|
  {
    hide EntryIs;
    if levels != [] && name !in Last(levels).names {
      InnermostWritten(ids, Front(levels), main, name);
    } else if levels != [] {
      assert Written(ids, levels[|levels| - 1]);
    }
  }

  /**
    * After any run, whatever was declared and closed in between, the entry that a name
    * refers to holds the name, the type, and for a function the number of its innermost
    * live declaration; main has an entry of its own.
    */
  lemma EntriesStay(names: map<int, int>, main: int, ops: seq<Op>, x: int)
    requires Undeclared(names, main) && x in names && Run(Start(names), ops).Some?
    ensures StackRun(EMPTY, names.Keys, main, ops).Some?
    ensures var t, st := Run(Start(names), ops).value.table, StackRun(EMPTY, names.Keys, main, ops).value;
      match Innermost(st, main, x)
      case None => Reference(t.refs, x) == if x == main then 0 else ITEM_MAX
      case Some(d) => EntryIs(t.ids, d, x) && (if x == main then t.refMain else Reference(t.refs, x)) == d.id
  {
    hide Run, StackRun, Undone, Written, EntryIs;
    StartRepresents(names, main);
    RunSimulates(Start(names), EMPTY, main, ops);
    var t, st := Run(Start(names), ops).value.table, StackRun(EMPTY, names.Keys, main, ops).value;
    if x != main {
      InnermostWritten(t.ids, st.levels, main, x);
    }
  }

  /** A variable is rejected exactly when its name is already declared in the open block. */
  lemma RejectedExactly(names: map<int, int>, main: int, ops: seq<Op>, name: int, typ: int, funcDef: int, cells: int)
    requires Undeclared(names, main) && name in names && name > 0 && name != main && funcDef != 1
    requires Run(Start(names), ops).Some? && |Run(Start(names), ops).value.table.ids| + 4 < ITEM_MAX - 1
    ensures var s, st := Run(Start(names), ops).value, StackRun(EMPTY, names.Keys, main, ops);
      && st.Some? && st.value.levels != []
      && (Step(s, Declare(name, 0, typ, funcDef, cells)).None? <==> name in Last(st.value.levels).names)
  {
    hide Run, StackRun, Represents, AddOutcome, Declared;
    StartRepresents(names, main);
    RunSimulates(Start(names), EMPTY, main, ops);
    var s, st := Run(Start(names), ops).value, StackRun(EMPTY, names.Keys, main, ops).value;
    Sizes(s, st, main);
    SameOutcome(s, st, main, name, 0, funcDef);
  }

  // ------------------------------------------------------------------ closed blocks

  /** Steps that open and close blocks in pairs, after some blocks that are still to be closed. */
  predicate Closes(ops: seq<Op>, depth: nat) {
    if ops == [] then depth == 0
    else
      match ops[0]
      case OpenBlock => Closes(ops[1..], depth + 1)
      case OpenFunction => Closes(ops[1..], depth + 1)
      case CloseBlock => depth > 0 && Closes(ops[1..], depth - 1)
      case CloseFunction => depth > 0 && Closes(ops[1..], depth - 1)
      case Declare(_, _, _, _, _) => Closes(ops[1..], depth)
  }

  /** Paired steps leave alone what was open before them. */
  lemma {:induction false} OuterKept(s: Session, st: Stack, main: int, ops: seq<Op>, depth: nat, outer: nat)
    requires Represents(s, st, main) && Closes(ops, depth) && Run(s, ops).Some?
    requires |s.saved| == outer + depth
    ensures var s', st' := Run(s, ops).value, StackRun(st, s.table.refs.Keys, main, ops);
      st'.Some? && Represents(s', st'.value, main) && s'.saved == s.saved[..outer]
      && s'.table.refs.Keys == s.table.refs.Keys
      && |st'.value.levels| == outer + 1 && st'.value.levels[..outer] == st.levels[..outer]
    decreases |ops|
  {
    hide Represents, AddOutcome, Declared, Allowed, Free;
    Sizes(s, st, main);
    StepSimulates(s, st, main, if ops == [] then OpenBlock else ops[0]);
    if ops != [] {
      var s1, st1 := Step(s, ops[0]).value, StackStep(st, s.table.refs.Keys, main, ops[0]).value;
      Sizes(s1, st1, main);
      OneStepKept(s, st, main, ops[0], outer);
      var after := match ops[0]
        case OpenBlock => depth + 1
        case OpenFunction => depth + 1
        case CloseBlock => depth - 1
        case CloseFunction => depth - 1
        case Declare(_, _, _, _, _) => depth;
      OuterKept(s1, st1, main, ops[1..], after, outer);
    }
  }

  lemma OneStepKept(s: Session, st: Stack, main: int, op: Op, outer: nat)
    requires st.levels != [] && |st.levels| == |s.saved| + 1 && outer <= |s.saved|
    requires Step(s, op).Some? && StackStep(st, s.table.refs.Keys, main, op).Some?
    requires op.CloseBlock? || op.CloseFunction? ==> outer < |s.saved|
    ensures var s', st' := Step(s, op).value, StackStep(st, s.table.refs.Keys, main, op).value;
      && outer <= |s'.saved| && s'.saved[..outer] == s.saved[..outer]
      && |s'.saved| == (match op
        case OpenBlock => |s.saved| + 1
        case OpenFunction => |s.saved| + 1
        case CloseBlock => |s.saved| - 1
        case CloseFunction => |s.saved| - 1
        case Declare(_, _, _, _, _) => |s.saved|)
      && outer <= |st'.levels| && st'.levels[..outer] == st.levels[..outer]
  {
    hide AddOutcome, Declared, Allowed, Free;
  }

  lemma {:induction false} RunJoins(s: Session, first: seq<Op>, second: seq<Op>)
    ensures Run(s, first + second) == match Run(s, first) case None => None case Some(m) => Run(m, second)
    decreases |first|
  {
    hide Step;
    if first == [] {
      assert first + second == second;
    } else {
      assert (first + second)[1..] == first[1..] + second;
      if Step(s, first[0]).Some? {
        RunJoins(Step(s, first[0]).value, first[1..], second);
      }
    }
  }

  /**
    * A block gives every name back the meaning it had, whatever was declared and
    * closed inside; the allocator and the block number are back as well.
    */
  lemma BlockRestores(s: Session, st: Stack, main: int, body: seq<Op>)
    requires Represents(s, st, main) && Closes(body, 0)
    requires Run(s, [OpenBlock] + body + [CloseBlock]).Some?
    ensures var s' := Run(s, [OpenBlock] + body + [CloseBlock]).value;
      && s'.table.refs == s.table.refs && s'.saved == s.saved
      && s'.table.curId == s.table.curId && s'.table.displ == s.table.displ && s'.table.lg == s.table.lg
  {
    hide Represents, Meaning, Replay, Closes;
    Sizes(s, st, main);
    Around(s, OpenBlock, body, CloseBlock);
    var s1, st1 := Step(s, OpenBlock).value, StackStep(st, s.table.refs.Keys, main, OpenBlock).value;
    StepSimulates(s, st, main, OpenBlock);
    OuterKept(s1, st1, main, body, 0, |s1.saved|);
    var s2, st2 := Run(s1, body).value, StackRun(st1, s.table.refs.Keys, main, body).value;
    StepSimulates(s2, st2, main, CloseBlock);
    var s3, st3 := Step(s2, CloseBlock).value, StackStep(st2, s.table.refs.Keys, main, CloseBlock).value;
    assert s2.saved == s1.saved;
    assert st3.levels == st.levels;
    SameReferences(s, s3, st, st3, main);
  }

  /** Entering a function, running its body and leaving it. */
  lemma FunctionRestores(s: Session, st: Stack, main: int, body: seq<Op>)
    requires Represents(s, st, main) && Closes(body, 0)
    requires Run(s, [OpenFunction] + body + [CloseFunction]).Some?
    ensures var s' := Run(s, [OpenFunction] + body + [CloseFunction]).value;
      && s'.table.refs == s.table.refs && s'.saved == s.saved
      && s'.table.curId == s.table.curId && s'.table.displ == s.table.displ
  {
    hide Represents, Meaning, Replay, Closes;
    Sizes(s, st, main);
    Around(s, OpenFunction, body, CloseFunction);
    var s1, st1 := Step(s, OpenFunction).value, StackStep(st, s.table.refs.Keys, main, OpenFunction).value;
    StepSimulates(s, st, main, OpenFunction);
    OuterKept(s1, st1, main, body, 0, |s1.saved|);
    var s2, st2 := Run(s1, body).value, StackRun(st1, s.table.refs.Keys, main, body).value;
    StepSimulates(s2, st2, main, CloseFunction);
    var s3, st3 := Step(s2, CloseFunction).value, StackStep(st2, s.table.refs.Keys, main, CloseFunction).value;
    assert s2.saved == s1.saved;
    assert st3.levels == st.levels;
    SameReferences(s, s3, st, st3, main);
  }

  lemma Around(s: Session, open: Op, body: seq<Op>, close: Op)
    requires Run(s, [open] + body + [close]).Some?
    ensures Step(s, open).Some? && Run(Step(s, open).value, body).Some?
    ensures Step(Run(Step(s, open).value, body).value, close).Some?
    ensures Run(s, [open] + body + [close]) == Step(Run(Step(s, open).value, body).value, close)
  {
    hide Step;
    assert ([open] + body + [close])[1..] == body + [close];
    RunJoins(Step(s, open).value, body, [close]);
    assert [close][1..] == [];
  }

  lemma SameReferences(s: Session, s': Session, st: Stack, st': Stack, main: int)
    requires Represents(s, st, main) && Represents(s', st', main) && st.levels == st'.levels
    requires s.table.refs.Keys == s'.table.refs.Keys
    ensures s.table.refs == s'.table.refs && s.table.curId == s'.table.curId
  {
    hide Meaning, Ordered, Written, Undone;
    forall x | x in s.table.refs ensures s.table.refs[x] == s'.table.refs[x] {
    }
  }

  // --------------------------------------------------------------------- prototypes

  predicate IsPrototype(st: Stack, name: int) {
    st.levels != [] && name in st.levels[0].names && st.levels[0].names[name].prototype
  }

  predicate ListedAt(t: Table, st: Stack, main: int, stuck: set<int>, name: int) {
    && (name in t.predef ==> name >= 0) && (name in stuck ==> name > 0)
    && (name > 0 ==> (name in t.predef <==> IsPrototype(st, name) || name in stuck))
    && (name == main ==> !IsPrototype(st, name))
    && (name in stuck && name != main ==> st.levels != [] && name in st.levels[0].names && !IsPrototype(st, name))
  }

  /**
    * The list of prototypes without a definition, as the table keeps it: the names that
    * the file level knows as prototypes only, and names that are stuck on it.
    */
  ghost predicate Listed(t: Table, st: Stack, main: int, stuck: set<int>) {
    && (main in stuck ==> st.mainKnown)
    && (forall name :: ListedAt(t, st, main, stuck, name))
  }

  /** Defining a prototyped name with a number or a type that is not taken for a function's, or a prototype of main. */
  predicate Sticks(st: Stack, main: int, op: Op) {
    && op.Declare? && |st.levels| == 1
    && if op.name == main then IsFunction(op.kind, op.typ) && op.funcDef == 2
       else IsPrototype(st, op.name) && !IsFunction(op.kind, op.typ)
  }

  function Stuck(st: Stack, main: int, op: Op, stuck: set<int>): set<int> {
    if Sticks(st, main, op) then stuck + {op.name} else stuck
  }

  lemma PrototypesMember(predef: seq<int>, repr: int, name: int)
    ensures name in Cleared(predef, repr) <==> (name in predef && name != repr) || (name == 0 && repr in predef)
  {
    var r := Cleared(predef, repr);
    if name in predef && name != repr {
      var i :| 0 <= i < |predef| && predef[i] == name;
      assert r[i] == name;
    }
    if name == 0 && repr in predef {
      var i :| 0 <= i < |predef| && predef[i] == repr;
      assert r[i] == name;
    }
    if name in r {
      var i :| 0 <= i < |r| && r[i] == name;
      assert predef[i] == name || (predef[i] == repr && name == 0);
    }
  }

  /** Every step keeps the list to the prototypes and to the names that are stuck. */
  lemma StepLists(s: Session, st: Stack, main: int, op: Op, stuck: set<int>)
    requires Represents(s, st, main) && Listed(s.table, st, main, stuck) && Step(s, op).Some?
    ensures var st' := StackStep(st, s.table.refs.Keys, main, op);
      st'.Some? && Listed(Step(s, op).value.table, st'.value, main, Stuck(st, main, op, stuck))
  {
    hide Represents, Replay, AddOutcome, Cleared, Listed, Declared, Bind;
    Sizes(s, st, main);
    StepSimulates(s, st, main, op);
    if op.Declare? {
      DeclareLists(s, st, main, op, stuck);
    } else {
      ScopeLists(s, st, main, op, stuck);
    }
  }

  lemma ScopeLists(s: Session, st: Stack, main: int, op: Op, stuck: set<int>)
    requires |st.levels| == |s.saved| + 1 && Listed(s.table, st, main, stuck) && !op.Declare? && Step(s, op).Some?
    requires StackStep(st, s.table.refs.Keys, main, op).Some?
    ensures Listed(Step(s, op).value.table, StackStep(st, s.table.refs.Keys, main, op).value, main, stuck)
  {
    hide Replay;
    var st' := StackStep(st, s.table.refs.Keys, main, op).value;
    assert st'.levels[0] == st.levels[0] && st'.mainKnown == st.mainKnown;
    assert Step(s, op).value.table.predef == s.table.predef;
    forall name ensures ListedAt(Step(s, op).value.table, st', main, stuck, name) {
      assert ListedAt(s.table, st, main, stuck, name);
    }
  }

  /** What a declaration makes of the file level. */
  lemma BindPrototype(st: Stack, main: int, op: Op, name: int)
    requires st.levels != [] && op.Declare?
    ensures var st' := Bind(st, main, op);
      var here := name == op.name && op.name != main && |st.levels| == 1;
      && st'.levels != []
      && (name in st'.levels[0].names <==> here || name in st.levels[0].names)
      && IsPrototype(st', name) == (if here then IsFunction(op.kind, op.typ) && op.funcDef == 2 else IsPrototype(st, name))
  {
    if op.name != main && |st.levels| > 1 {
      assert (Front(st.levels) + [Last(st.levels)])[0] == st.levels[0];
    }
  }

  lemma DeclareLists(s: Session, st: Stack, main: int, op: Op, stuck: set<int>)
    requires |st.levels| == |s.saved| + 1 && Listed(s.table, st, main, stuck) && op.Declare?
    requires Allowed(op, s.table.refs.Keys, |s.table.ids|, |s.saved|) && Free(st, main, op.name, op.funcDef)
    ensures var t := Declared(s.table, op.name, op.kind, op.typ, op.funcDef, op.cells);
      Listed(t, Bind(st, main, op), main, Stuck(st, main, op, stuck))
  {
    hide Cleared, Allocated, Bind;
    AllocatedKeeps(s.table, op.kind, op.cells);
    var t := Declared(s.table, op.name, op.kind, op.typ, op.funcDef, op.cells);
    assert t.predef == Prototyped(s.table.predef, op.name, op.kind, op.typ, op.funcDef);
    var st' := Bind(st, main, op);
    assert st'.mainKnown == (st.mainKnown || op.name == main) by { BindMain(st, main, op); }
    forall name ensures ListedAt(t, st', main, Stuck(st, main, op, stuck), name) {
      assert ListedAt(s.table, st, main, stuck, name);
      PrototypesMember(s.table.predef, op.name, name);
      BindPrototype(st, main, op, name);
    }
  }

  lemma BindMain(st: Stack, main: int, op: Op)
    requires st.levels != [] && op.Declare?
    ensures Bind(st, main, op).mainKnown == (st.mainKnown || op.name == main)
  {
  }

  /** The names that are stuck after a run. */
  function StuckRun(st: Stack, names: set<int>, main: int, ops: seq<Op>, stuck: set<int>): set<int>
    requires st.levels != []
    decreases |ops|
  {
    if ops == [] then stuck
    else
      match StackStep(st, names, main, ops[0])
      case None => stuck
      case Some(st') =>
        assert st'.levels != [];
        StuckRun(st', names, main, ops[1..], Stuck(st, main, ops[0], stuck))
  }

  lemma {:induction false} RunListed(s: Session, st: Stack, main: int, ops: seq<Op>, stuck: set<int>)
    requires Represents(s, st, main) && Listed(s.table, st, main, stuck) && Run(s, ops).Some?
    ensures st.levels != []
    ensures var s', st', names := Run(s, ops).value, StackRun(st, s.table.refs.Keys, main, ops), s.table.refs.Keys;
      st'.Some? && Represents(s', st'.value, main) && Listed(s'.table, st'.value, main, StuckRun(st, names, main, ops, stuck))
    decreases |ops|
  {
    hide Represents, Listed, Step, StackStep, Stuck;
    Sizes(s, st, main);
    if ops != [] {
      StepSimulates(s, st, main, ops[0]);
      StepLists(s, st, main, ops[0], stuck);
      RunListed(Step(s, ops[0]).value, StackStep(st, s.table.refs.Keys, main, ops[0]).value, main, ops[1..],
                Stuck(st, main, ops[0], stuck));
    }
  }

  /** What the compiler asks of the table at the end of a program. */
  predicate Complete(t: Table) {
    t.refMain != 0 && forall i :: 0 <= i < |t.predef| ==> t.predef[i] == 0
  }

  /**
    * A program is accepted as complete if and only if main is declared, no name is left
    * as a prototype, and no declaration of the run was one that sticks.
    */
  lemma CompleteExactly(names: map<int, int>, main: int, ops: seq<Op>)
    requires Undeclared(names, main) && Run(Start(names), ops).Some?
    ensures StackRun(EMPTY, names.Keys, main, ops).Some?
    ensures var t, st := Run(Start(names), ops).value.table, StackRun(EMPTY, names.Keys, main, ops).value;
      Complete(t) <==>
        st.mainKnown && (forall name :: name > 0 ==> !IsPrototype(st, name)) && StuckRun(EMPTY, names.Keys, main, ops, {}) == {}
  {
    hide Represents, Run, StackRun, StuckRun;
    StartRepresents(names, main);
    StartListed(names, main);
    RunListed(Start(names), EMPTY, main, ops, {});
    var t, st := Run(Start(names), ops).value.table, StackRun(EMPTY, names.Keys, main, ops).value;
    var stuck := StuckRun(EMPTY, names.Keys, main, ops, {});
    MainKnown(Run(Start(names), ops).value, st, main);
    EmptyList(t, st, main, stuck);
  }

  lemma StartListed(names: map<int, int>, main: int)
    ensures Listed(Start(names).table, EMPTY, main, {})
  {
  }

  lemma MainKnown(s: Session, st: Stack, main: int)
    requires Represents(s, st, main)
    ensures st.mainKnown == (s.table.refMain != 0)
  {
    hide Agrees, Undone, Written, Ordered;
  }

  lemma EmptyList(t: Table, st: Stack, main: int, stuck: set<int>)
    requires Listed(t, st, main, stuck)
    ensures (forall i :: 0 <= i < |t.predef| ==> t.predef[i] == 0)
      <==> (forall name :: name > 0 ==> !IsPrototype(st, name)) && stuck == {}
  {
    hide IsPrototype;
    if forall i :: 0 <= i < |t.predef| ==> t.predef[i] == 0 {
      forall name | name > 0 ensures !IsPrototype(st, name) {
        assert ListedAt(t, st, main, stuck, name);
      }
      forall name ensures name !in stuck {
        assert ListedAt(t, st, main, stuck, name);
      }
    } else {
      var i :| 0 <= i < |t.predef| && t.predef[i] != 0;
      assert ListedAt(t, st, main, stuck, t.predef[i]);
    }
  }

  /** The definition of a listed function takes it off the list if and only if it is taken for one. */
  lemma DefinitionUnlists(t: Table, name: int, kind: int, typ: int, cells: int)
    requires name in t.predef && name > 0
    ensures name !in Declared(t, name, kind, typ, 1, cells).predef <==> IsFunction(kind, typ)
  {
    hide Cleared, Allocated;
    AllocatedKeeps(t, kind, cells);
    PrototypesMember(t.predef, name, name);
  }

  /** A number that has reached 1000, and a type whose index has reached 1000, for which the entry is left at 0. */
  lemma LateDefinitionStaysListed(t: Table, name: int)
    requires name in t.predef && name > 0
    ensures name in Declared(t, name, 1000, 15, 1, 0).predef
    ensures var t' := Declared(t, name, 2, 1000, 1, 0); name in t'.predef && t'.ids[|t.ids| + 3] == 0
  {
    DefinitionUnlists(t, name, 1000, 15, 0);
    DefinitionUnlists(t, name, 2, 1000, 0);
  }
}

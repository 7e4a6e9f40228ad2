/**
  * The jumps of statements and the calls of prototypes live in one memory.  What the
  * encoder does for a statement without calls, in any context, is a legal run among
  * the calls: it adds instructions and sets operands that were left open.
  */
module SharedMemory {
  import opened Common
  import opened Ast
  import opened Instructions
  import opened Codegen
  import opened Threading
  import opened Patching
  import opened Emitting
  import opened EmissionRules
  import opened Lists
  import opened Calls
  import opened CallRuns

  // ------------------------------------------------- code starts with an instruction

  predicate Starts(cells: seq<Cell>) {
    cells != [] ==> cells[0].Val? && cells[0].v >= MIN_INSTRUCTION_CODE
  }

  lemma {:induction false} ExprStarts(e: Expr, at: nat)
    ensures CodeE(e, at)[0] >= MIN_INSTRUCTION_CODE
    decreases e, 0
  {
    match e
    case Unary(_, a) => ExprStarts(a, at);
    case Binary(_, a, _) => ExprStarts(a, at);
    case Comma(a, b) =>
      VoidStarts(a, at);
      ExprStarts(b, at + |CodeV(a, at)|);
    case Ternary(c, _, _) => ExprStarts(c, at);
    case Assign(_, _, a) => ExprStarts(a, at);
    case _ =>
  }

  lemma {:induction false} VoidStarts(e: Expr, at: nat)
    ensures CodeV(e, at) == [] || CodeV(e, at)[0] >= MIN_INSTRUCTION_CODE
    decreases e, 1
  {
    hide CodeE;
    if !e.Var? {
      ExprStarts(e, at);
    }
  }

  lemma StartsJoin(a: seq<Cell>, b: seq<Cell>)
    ensures Starts(a) && Starts(b) ==> Starts(a + b)
  {
  }

  lemma ValsStart(c: seq<int>)
    ensures Starts(Vals(c)) <==> c == [] || c[0] >= MIN_INSTRUCTION_CODE
  {
  }

  lemma FillStarts(cells: seq<Cell>, tag: Option<nat>)
    ensures Starts(cells) ==> Starts(Fill(cells, tag))
  {
  }

  lemma CloseStarts(cells: seq<Cell>, hole: Cell, target: int)
    requires !hole.Val?
    ensures Starts(cells) ==> Starts(Close(cells, hole, target))
  {
  }

  lemma DeclStarts(d: Decl, at: nat)
    ensures CodeD(d, at) == [] || CodeD(d, at)[0] >= MIN_INSTRUCTION_CODE
  {
    hide CodeE;
    if d.Scalar? && d.init.Some? {
      ExprStarts(d.init.value, at);
    }
  }

  lemma {:induction false} DeclsStart(ds: seq<Decl>, at: nat)
    ensures CodeDecls(ds, at) == [] || CodeDecls(ds, at)[0] >= MIN_INSTRUCTION_CODE
    decreases |ds|
  {
    hide CodeD;
    if ds != [] {
      var n := |ds| - 1;
      DeclsStart(ds[..n], at);
      DeclStarts(ds[n], at + |CodeDecls(ds[..n], at)|);
    }
  }

  lemma TestStarts(test: Option<Expr>, at: nat)
    ensures Starts(CodeTest(test, at))
  {
    hide CodeE;
    if test.Some? {
      ExprStarts(test.value, at);
    }
  }

  lemma NextStarts(next: Option<Expr>, at: nat)
    ensures CodeNext(next, at) == [] || CodeNext(next, at)[0] >= MIN_INSTRUCTION_CODE
  {
    hide CodeV;
    if next.Some? {
      VoidStarts(next.value, at);
    }
  }

  /** The code of any statement is empty or starts with an instruction. */
  lemma {:induction false} StmtStarts(s: Stmt, at: nat)
    ensures Starts(CodeS(s, at))
    decreases s, 2
  {
    match s
    case Block(ss) => ListStarts(ss, at);
    case If(_, _, _) => IfStarts(s, at);
    case While(_, _) => LoopStarts(s, at);
    case Do(_, _) => LoopStarts(s, at);
    case For(_, _, _, _) => LoopStarts(s, at);
    case Switch(_, _) => SwitchStarts(s, at);
    case Case(_, _) => CaseStarts(s, at);
    case Default(b) => StmtStarts(b, at);
    case _ => PlainStarts(s, at);
  }

  lemma PlainStarts(s: Stmt, at: nat)
    requires s.Null? || s.Effect? || s.Declare? || s.Break? || s.Continue? || s.Return?
    ensures Starts(CodeS(s, at))
  {
    hide CodeE, CodeV, CodeDecls;
    match s
    case Effect(e) => VoidStarts(e, at);
    case Declare(ds) => DeclsStart(ds, at);
    case Return(e) =>
      if e.Some? {
        ExprStarts(e.value, at);
      }
    case _ =>
  }

  lemma IfStarts(s: Stmt, at: nat)
    requires s.If?
    ensures Starts(CodeS(s, at))
  {
    hide CodeE, CodeS, FirstLabel, Close;
    ExprStarts(s.cond, at);
    if s.no.None? {
      ShapeIf(s, at);
    } else {
      ShapeIfElse(s, at);
    }
  }

  lemma {:induction false} LoopStarts(s: Stmt, at: nat)
    requires s.While? || s.Do? || s.For?
    ensures Starts(CodeS(s, at))
    decreases s, 1
  {
    hide CodeE, CodeTest, CodeNext, Close, Starts, Fill, FirstLabel, CodeV;
    match s
    case While(c, b) =>
      var t := CodeTest(Some(c), at);
      TestStarts(Some(c), at);
      StmtStarts(b, at + |t|);
      WhileStarts(t, CodeS(b, at + |t|), at);
    case Do(b, c) =>
      StmtStarts(b, at);
      var body := CodeS(b, at);
      ExprStarts(c, at + |body|);
      DoStarts(body, CodeE(c, at + |body|), at);
    case For(start, test, next, b) => ForStarts(s, at);
  }

  lemma WhileStarts(t: seq<Cell>, body: seq<Cell>, at: nat)
    requires Starts(t) && Starts(body)
    ensures Starts(WhileCells(t, body, at))
  {
    hide Close, Starts;
    StartsJoin(t, body);
    CloseStarts(t + body, ContinueHole, at);
    ValsStart([IC_B, at]);
    StartsJoin(Close(t + body, ContinueHole, at), Vals([IC_B, at]));
    CloseStarts(Close(t + body, ContinueHole, at) + Vals([IC_B, at]), BreakHole, at + |t| + |body| + 2);
  }

  lemma DoStarts(body: seq<Cell>, t: seq<int>, at: nat)
    requires Starts(body) && t != [] && t[0] >= MIN_INSTRUCTION_CODE
    ensures Starts(DoCells(body, t, at))
  {
    hide Close, Starts;
    var c := t + [IC_BNE0, at];
    assert c[0] == t[0];
    CloseStarts(body, ContinueHole, at + |body|);
    ValsStart(c);
    StartsJoin(Close(body, ContinueHole, at + |body|), Vals(c));
    CloseStarts(Close(body, ContinueHole, at + |body|) + Vals(c), BreakHole, at + |body| + |t| + 2);
  }

  lemma ForCellsStart(t: seq<Cell>, body: seq<Cell>, step: seq<int>, top: nat)
    requires Starts(t) && Starts(body) && (step == [] || step[0] >= MIN_INSTRUCTION_CODE)
    ensures Starts(ForCells(t, body, step, top))
  {
    hide Close, Starts;
    var (next, c) := (top + |t| + |body|, step + [IC_B, top]);
    assert c[0] == if step == [] then IC_B else step[0];
    StartsJoin(t, body);
    CloseStarts(t + body, ContinueHole, next);
    ValsStart(c);
    StartsJoin(Close(t + body, ContinueHole, next), Vals(c));
    CloseStarts(Close(t + body, ContinueHole, next) + Vals(c), BreakHole, next + |step| + 2);
  }

  lemma {:induction false} ForStarts(s: Stmt, at: nat)
    requires s.For?
    ensures Starts(CodeS(s, at))
    decreases s, 0
  {
    hide CodeE, CodeTest, CodeNext, Close, Starts, Fill, FirstLabel, CodeV, ForCells;
    var init := CodeO(s.start, at);
    if s.start.Some? {
      StmtStarts(s.start.value, at);
    } else {
      assert Starts(init) by { NothingStarts(); }
    }
    var top := at + |init|;
    var t := CodeTest(s.test, top);
    TestStarts(s.test, top);
    StmtStarts(s.loop, top + |t|);
    var body := CodeS(s.loop, top + |t|);
    NextStarts(s.next, top + |t| + |body|);
    var step := CodeNext(s.next, top + |t| + |body|);
    ForCellsStart(t, body, step, top);
    FillStarts(init, FirstLabel(s.loop, top + |t|));
    StartsJoin(Fill(init, FirstLabel(s.loop, top + |t|)), ForCells(t, body, step, top));
  }

  lemma NothingStarts()
    ensures Starts([])
  {
  }

  lemma SwitchStarts(s: Stmt, at: nat)
    requires s.Switch?
    ensures Starts(CodeS(s, at))
  {
    hide CodeE, Close, Starts;
    var t := CodeE(s.cond, at);
    ExprStarts(s.cond, at);
    var body := CodeS(s.cases, at + |t|);
    var end := at + |t| + |body|;
    assert Starts(Vals(t) + body) by { FirstStays(t, body); }
    CloseStarts(Vals(t) + body, CaseHole, end);
    CloseStarts(Close(Vals(t) + body, CaseHole, end), BreakHole, end);
  }

  lemma FirstStays(t: seq<int>, body: seq<Cell>)
    requires t != [] && t[0] >= MIN_INSTRUCTION_CODE
    ensures Starts(Vals(t) + body)
  {
  }

  lemma CaseStarts(s: Stmt, at: nat)
    requires s.Case?
    ensures Starts(CodeS(s, at))
  {
    hide CodeE, Close, FirstLabel, Starts;
    var test := CodeCase(s.tag, at);
    var e := CodeE(s.tag, at + 1);
    FirstStays([IC_DUPLICATE] + e + [IC_EQ, IC_BE0], [CaseHole]);
    FillStarts(test, FirstLabel(s.labelled, at + |test|));
    var filled := Fill(test, FirstLabel(s.labelled, at + |test|));
    assert Starts(filled + CodeS(s.labelled, at + |test|)) by { MoreStarts(filled, CodeS(s.labelled, at + |test|)); }
  }

  lemma MoreStarts(a: seq<Cell>, b: seq<Cell>)
    requires a != [] && Starts(a)
    ensures Starts(a + b)
  {
  }

  lemma {:induction false} ListStarts(ss: seq<Stmt>, at: nat)
    ensures Starts(CodeList(ss, at))
    decreases ss, 0
  {
    hide CodeS, Fill, FirstLabel, Starts;
    if ss == [] {
      NothingStarts();
    } else {
      var before := CodeList(ss[..|ss| - 1], at);
      var last := ss[|ss| - 1];
      ListStarts(ss[..|ss| - 1], at);
      StmtStarts(last, at + |before|);
      FillStarts(before, FirstLabel(last, at + |before|));
      StartsJoin(Fill(before, FirstLabel(last, at + |before|)), CodeS(last, at + |before|));
    }
  }

  // --------------------------------------------------------------- statements as runs

  /** Code as one addition to the memory: holes are operands that are set later. */
  function Operands(em: Emission, cells: seq<Cell>): (r: seq<Operand>)
    requires cells != []
    ensures |r| == |cells| - 1
  {
    var values := Thread(cells, |em.memory|, em.breaks, em.conts);
    seq(|cells| - 1, i requires 0 <= i < |cells| - 1 =>
      if cells[i + 1].Val? then Final(values[i + 1]) else Later(values[i + 1]))
  }

  function CodeOps(em: Emission, cells: seq<Cell>): seq<Op> {
    if cells == [] || !cells[0].Val? then [] else [Emit(cells[0].v, Operands(em, cells))]
  }

  function LabelOps(em: Emission, tag: Option<nat>): seq<Op> {
    if tag.Some? && em.pending != 0 then [Op.Set(em.pending, tag.value)] else []
  }

  /** The list heads of the encoder stand in the same memory as the calls, and their cells are open. */
  predicate Shared(em: Emission, s: Linking, t: Track, breakStop: nat, contStop: nat) {
    && Ready(em) && em.memory == s.memory && |t.tags| == |s.memory| && Sound(em, breakStop, contStop)
    && (forall i :: i in Links(em.memory, em.breaks, breakStop) ==> 0 <= i < |t.tags| && t.tags[i] == Open)
    && (forall i :: i in Links(em.memory, em.conts, contStop) ==> 0 <= i < |t.tags| && t.tags[i] == Open)
    && (em.pending != 0 ==> t.tags[em.pending] == Open)
  }

  lemma CodeRun(em: Emission, cells: seq<Cell>, tag: Option<nat>, s: Linking, t: Track)
    requires Ready(em) && em.memory == s.memory && Starts(cells)
    ensures var (ops, after) := (LabelOps(em, tag) + CodeOps(em, cells), s.(memory := After(em, cells, tag).memory));
      && Run(s, ops) == Some(after)
      && (Legal(s, t, Emit(IC_B, [])) && (em.pending != 0 ==> em.pending < |t.tags| && t.tags[em.pending] == Open) ==> LegalRun(s, t, ops))
  {
    hide Thread, Last;
    var (first, code) := (LabelOps(em, tag), CodeOps(em, cells));
    var s1 := s.(memory := Patched(em.memory, em.pending, tag));
    CodeAppends(em, cells, s1);
    var s2 := s1.(memory := s1.memory + Thread(cells, |em.memory|, em.breaks, em.conts));
    NoStep(s2, FollowRun(t, first + code));
    if code != [] {
      assert code[1..] == [];
      OneStep(s1, t, code);
      NoStep(s2, Follow(t, code[0]));
    } else {
      NoStep(s1, t);
    }
    if first != [] {
      assert first + code == first[..1] + code && (first + code)[1..] == code;
      OneStep(s, t, first + code);
    } else {
      assert first + code == code && s1 == s;
    }
  }

  lemma CodeAppends(em: Emission, cells: seq<Cell>, s: Linking)
    requires Starts(cells)
    ensures var code := CodeOps(em, cells);
      var s' := s.(memory := s.memory + Thread(cells, |em.memory|, em.breaks, em.conts));
      if code == [] then s' == s else |code| == 1 && Calls.Step(s, code[0]) == Some(s') && code[0].Emit? && code[0].code >= MIN_INSTRUCTION_CODE
  {
    hide Last;
    var values := Thread(cells, |em.memory|, em.breaks, em.conts);
    if cells == [] {
      assert s.memory + values == s.memory;
    } else {
      assert values[0] == cells[0].v;
      assert Values(Operands(em, cells)) == values[1..];
      assert s.memory + [cells[0].v] + values[1..] == s.memory + values;
    }
  }

  /** The cells of holes are open after the run. */
  lemma CodeTags(em: Emission, cells: seq<Cell>, tag: Option<nat>, t: Track)
    requires Starts(cells)
    ensures var t' := FollowRun(t, LabelOps(em, tag) + CodeOps(em, cells));
      && t'.sites == t.sites && |t'.tags| == |t.tags| + |cells| && t'.tags[..|t.tags|] == t.tags
      && forall i :: 0 <= i < |cells| && !cells[i].Val? ==> t'.tags[|t.tags| + i] == Open
  {
    hide Thread;
    var (first, code) := (LabelOps(em, tag), CodeOps(em, cells));
    if first != [] {
      assert (first + code)[0] == first[0] && (first + code)[1..] == code;
      assert FollowRun(t, first + code) == FollowRun(t, code);
    } else {
      assert first + code == code;
    }
    if code != [] {
      assert code[1..] == [];
      assert FollowRun(t, code) == Follow(t, code[0]);
    }
  }

  /**
    * Code with open jumps, emitted at any point of any context, is a legal run that
    * leaves the calls of every prototype as they are.
    */
  lemma CodeShares(em: Emission, cells: seq<Cell>, tag: Option<nat>, s: Linking, t: Track, breakStop: nat, contStop: nat)
    requires Invariant(s, t) && Shared(em, s, t, breakStop, contStop) && Starts(cells)
    requires Bounded(cells, BreakHole, |em.memory|, breakStop) && Bounded(cells, ContinueHole, |em.memory|, contStop)
    ensures var (ops, after) := (LabelOps(em, tag) + CodeOps(em, cells), s.(memory := After(em, cells, tag).memory));
      && LegalRun(s, t, ops) && Run(s, ops) == Some(after) && FollowRun(t, ops).sites == t.sites
      && Invariant(after, FollowRun(t, ops)) && Shared(After(em, cells, tag), after, FollowRun(t, ops), breakStop, contStop)
  {
    hide Invariant, Sound, Links, Holes, Bounded, LegalRun, Run, FollowRun, LabelOps, CodeOps, Starts, Thread, Last;
    var ops := LabelOps(em, tag) + CodeOps(em, cells);
    CodeRun(em, cells, tag, s, t);
    CodeTags(em, cells, tag, t);
    RunKeeps(s, t, ops);
    EmissionKeepsLists(em, cells, tag, breakStop, contStop);
    var (t', after) := (FollowRun(t, ops), After(em, cells, tag));
    HolesOpen(cells, BreakHole, t, t');
    HolesOpen(cells, ContinueHole, t, t');
    PendingOpen(em, cells, tag, t, t');
  }

  lemma HolesOpen(cells: seq<Cell>, hole: Cell, t: Track, t': Track)
    requires !hole.Val? && |t'.tags| == |t.tags| + |cells|
    requires forall i :: 0 <= i < |cells| && !cells[i].Val? ==> t'.tags[|t.tags| + i] == Open
    ensures forall i :: i in Holes(cells, hole, |t.tags|) ==> 0 <= i < |t'.tags| && t'.tags[i] == Open
  {
  }

  lemma PendingOpen(em: Emission, cells: seq<Cell>, tag: Option<nat>, t: Track, t': Track)
    requires Ready(em) && |t.tags| == |em.memory| && |t'.tags| == |t.tags| + |cells| && t'.tags[..|t.tags|] == t.tags
    requires forall i :: 0 <= i < |cells| && !cells[i].Val? ==> t'.tags[|t.tags| + i] == Open
    requires em.pending != 0 ==> t.tags[em.pending] == Open
    ensures var pending := After(em, cells, tag).pending; pending != 0 ==> t'.tags[pending] == Open
  {
    hide Thread;
    LastIsLast(cells, CaseHole, |em.memory|, 0);
    if tag.None? && em.pending != 0 {
      assert t'.tags[em.pending] == t'.tags[..|t.tags|][em.pending];
    }
  }

  /**
    * A whole statement without calls, in any context and with everything in it, patches
    * and drops included, is a legal run that leaves every call as it is.
    */
  lemma StatementShares(em: Emission, st: Stmt, s: Linking, t: Track)
    requires Invariant(s, t) && Shared(em, s, t, 0, 0)
    ensures
      var (cells, tag) := (CodeS(st, |em.memory|), FirstLabel(st, |em.memory|));
      var (ops, after) := (LabelOps(em, tag) + CodeOps(em, cells), s.(memory := Emits(em, st).memory));
      && LegalRun(s, t, ops) && Run(s, ops) == Some(after) && FollowRun(t, ops).sites == t.sites
      && Invariant(after, FollowRun(t, ops)) && Shared(Emits(em, st), after, FollowRun(t, ops), 0, 0)
  {
    hide Invariant, Shared, LegalRun, Run, FollowRun, LabelOps, CodeOps, Starts, CodeS, FirstLabel, After;
    StmtStarts(st, |em.memory|);
    assert em.memory != [] by { SharedReady(em, s, t, 0, 0); }
    CodeShares(em, CodeS(st, |em.memory|), FirstLabel(st, |em.memory|), s, t, 0, 0);
  }

  lemma SharedReady(em: Emission, s: Linking, t: Track, breakStop: nat, contStop: nat)
    requires Shared(em, s, t, breakStop, contStop)
    ensures Ready(em)
  {
  }

  // ------------------------------------------------------------------ patching as a run

  /** The writes of a walk over a list of unfinished jumps. */
  function Patches(memory: seq<int>, head: int, stop: nat, target: int): seq<Op>
    requires Chain(memory, head, stop)
    decreases head
  {
    if head == stop then []
    else
      ChainFrame(memory, head, target, memory[head], stop);
      [Op.Set(head, target)] + Patches(memory[head := target], memory[head], stop, target)
  }

  /** Walking a list of open operands is a legal run. */
  lemma {:induction false} PatchShares(s: Linking, t: Track, head: int, stop: nat, target: int)
    requires Invariant(s, t) && Chain(s.memory, head, stop)
    requires forall i :: i in Links(s.memory, head, stop) ==> 0 <= i < |t.tags| && t.tags[i] == Open
    ensures var ops := Patches(s.memory, head, stop, target);
      && LegalRun(s, t, ops) && FollowRun(t, ops) == t
      && Run(s, ops) == Some(s.(memory := Repoint(s.memory, head, stop, target)))
      && Invariant(Run(s, ops).value, t)
    decreases head
  {
    hide Invariant, LegalRun, Run;
    var ops := Patches(s.memory, head, stop, target);
    if head == stop {
      NoStep(s, t);
    } else {
      var s' := s.(memory := s.memory[head := target]);
      assert head in Links(s.memory, head, stop);
      SetKeeps(s, t, head, target);
      ChainFrame(s.memory, head, target, s.memory[head], stop);
      PatchShares(s', t, s.memory[head], stop, target);
      assert ops[1..] == Patches(s'.memory, s.memory[head], stop, target);
      OneStep(s, t, ops);
    }
  }

  // ---------------------------------------------------------------- calls among jumps

  lemma StartShares()
    ensures Shared(Emission([0, 0, 0, 0], 0, 0, 0), START, FRESH, 0, 0)
  {
  }

  /** Neither of the two cells that a drop may replace is an open operand. */
  predicate EndsFinal(t: Track) {
    |t.tags| >= 2 && t.tags[|t.tags| - 1] != Open && t.tags[|t.tags| - 2] != Open
  }

  /** What a step that is not a jump leaves: open operands as they were. */
  lemma OpenKept(s: Linking, t: Track, op: Op)
    requires Invariant(s, t) && Legal(s, t, op) && !op.Set? && (op.Drop? ==> EndsFinal(t))
    ensures Calls.Step(s, op).Some?
    ensures var (s', t') := (Calls.Step(s, op).value, Follow(t, op));
      && |t.tags| <= |t'.tags| && |t'.tags| == |s'.memory|
      && forall i :: 0 <= i < |t.tags| && t.tags[i] == Open ==> t'.tags[i] == Open && s'.memory[i] == s.memory[i]
  {
    hide Holds, Cells, Content, Head, Intact, AddFunction;
    StepKeeps(s, t, op);
    if op.Drop? {
      var k := DropCell(s.memory);
    } else if op.Define? {
      if op.prototype in t.sites {
        DefineEnds(s, t, op.id, op.prototype);
        assert ListOk(s, t, op.prototype);
      } else {
        NewFunction(s, op.id, op.prototype);
      }
    }
  }

  lemma ListKept(memory: seq<int>, after: seq<int>, tags: seq<Tag>, tags': seq<Tag>, head: int, stop: nat)
    requires Chain(memory, head, stop) && |tags| == |memory| <= |after| == |tags'|
    requires forall i :: i in Links(memory, head, stop) ==> 0 <= i < |tags| && tags[i] == Open
    requires forall i :: 0 <= i < |tags| && tags[i] == Open ==> tags'[i] == Open && after[i] == memory[i]
    ensures Chain(after, head, stop) && Links(after, head, stop) == Links(memory, head, stop)
    ensures forall i :: i in Links(after, head, stop) ==> 0 <= i < |tags'| && tags'[i] == Open
  {
    hide Links, Chain;
    var front := after[..|memory|];
    ChainOutside(memory, front, head, stop);
    ChainAppend(front, after[|memory|..], head, stop);
    assert front + after[|memory|..] == after;
  }

  /** Calls, drops and definitions leave the unfinished jumps as they are. */
  lemma CallShares(em: Emission, s: Linking, t: Track, op: Op, breakStop: nat, contStop: nat)
    requires Invariant(s, t) && Shared(em, s, t, breakStop, contStop)
    requires Legal(s, t, op) && !op.Set? && (op.Drop? ==> EndsFinal(t))
    ensures Calls.Step(s, op).Some?
    ensures var s' := Calls.Step(s, op).value;
      Shared(em.(memory := s'.memory), s', Follow(t, op), breakStop, contStop)
  {
    hide Invariant, Legal, Links, Chain, Calls.Step, Follow;
    OpenKept(s, t, op);
    var (s', t') := (Calls.Step(s, op).value, Follow(t, op));
    ListKept(s.memory, s'.memory, t.tags, t'.tags, em.breaks, breakStop);
    ListKept(s.memory, s'.memory, t.tags, t'.tags, em.conts, contStop);
  }
}

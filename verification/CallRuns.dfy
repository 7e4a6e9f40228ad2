/**
  * Whole runs of the encoder with calls: one memory that holds finished instructions,
  * operands that are still open, and the lists of the calls of every prototype.
  */
module CallRuns {
  import opened Common
  import opened Instructions
  import opened Codegen
  import opened Patching
  import opened Calls

  /** What a cell of the memory is for. */
  datatype Tag = Instr | Fixed | Open | Link(id: int)

  datatype Track = Track(tags: seq<Tag>, sites: map<int, seq<Site>>)

  function OperandTags(operands: seq<Operand>): (r: seq<Tag>)
    ensures |r| == |operands|
    ensures forall i :: 0 <= i < |operands| ==> r[i] == if operands[i].Later? then Open else Fixed
  {
    seq(|operands|, i requires 0 <= i < |operands| => if operands[i].Later? then Open else Fixed)
  }

  function Closed(tags: seq<Tag>, id: int): (r: seq<Tag>)
    ensures |r| == |tags|
    ensures forall i :: 0 <= i < |tags| ==> r[i] == if tags[i] == Link(id) then Fixed else tags[i]
  {
    seq(|tags|, i requires 0 <= i < |tags| => if tags[i] == Link(id) then Fixed else tags[i])
  }

  /** The last instruction in the memory is a call of the prototype. */
  predicate EndsInCall(t: Track, id: int) {
    |t.tags| >= 2 && t.tags[|t.tags| - 1] == Link(id) && id in t.sites && t.sites[id] != []
  }

  function MarkLast(sites: seq<Site>): seq<Site>
    requires sites != []
  {
    sites[|sites| - 1 := Site(Head(sites), true)]
  }

  function Follow(t: Track, op: Op): Track {
    match op
    case Emit(_, operands) => t.(tags := t.tags + [Instr] + OperandTags(operands))
    case Set(_, _) => t
    case Drop =>
      if |t.tags| >= 2 && t.tags[|t.tags| - 1].Link? && EndsInCall(t, t.tags[|t.tags| - 1].id) then
        var id := t.tags[|t.tags| - 1].id;
        t.(sites := t.sites[id := MarkLast(t.sites[id])])
      else t
    case Place(_, _) => t
    case Call(id) =>
      if id in t.sites then
        Track(t.tags + [Instr, Link(id)], t.sites[id := t.sites[id] + [Site(|t.tags| + 1, false)]])
      else t.(tags := t.tags + [Instr, Fixed])
    case CallParameter(_) => t.(tags := t.tags + [Instr, Fixed])
    case Define(_, prototype) =>
      if prototype in t.sites then Track(Closed(t.tags, prototype), t.sites - {prototype}) else t
  }

  // --------------------------------------------------------------------- the invariant

  predicate CellOk(memory: seq<int>, t: Track, i: nat)
    requires |t.tags| == |memory| && i < |memory|
  {
    match t.tags[i]
    case Instr => memory[i] >= MIN_INSTRUCTION_CODE
    case Link(id) =>
      && i >= 1 && t.tags[i - 1] == Instr && memory[i - 1] == IC_CALL2
      && (i + 1 < |memory| ==> t.tags[i + 1] == Instr)
      && id in t.sites && i in Cells(t.sites[id])
    case _ => true
  }

  /** The calls of a prototype: its head is the last of them, and they hold what calls hold. */
  predicate ListOk(s: Linking, t: Track, id: int)
    requires |t.tags| == |s.memory| && id in t.sites
  {
    && -Displ(s, id) == Head(t.sites[id])
    && Holds(s.memory, t.sites[id])
    && (forall i :: i in Cells(t.sites[id]) ==> 0 < i < |t.tags| && t.tags[i] == Link(id))
  }

  predicate Invariant(s: Linking, t: Track) {
    && |t.tags| == |s.memory|
    && (forall i :: 0 <= i < |s.memory| ==> CellOk(s.memory, t, i))
    && (forall id :: id in t.sites ==> ListOk(s, t, id))
  }

  /**
    * The rules of the encoder: instructions start with a code, only open operands are
    * set, a function has an identifier of its own, and its prototype was not lost.
    */
  predicate Legal(s: Linking, t: Track, op: Op) {
    match op
    case Emit(code, _) => code >= MIN_INSTRUCTION_CODE
    case Set(at, _) => at < |t.tags| && t.tags[at] == Open
    case Place(id, _) => id !in t.sites
    case Define(id, prototype) =>
      id !in t.sites && id != prototype && if prototype in t.sites then Intact(t.sites[prototype]) else Displ(s, prototype) >= 0
    case _ => true
  }

  lemma HoldsAt(s: Linking, t: Track, id: int)
    requires Invariant(s, t) && id in t.sites
    ensures forall k :: 0 <= k < |t.sites[id]| ==>
      t.sites[id][k].at in Cells(t.sites[id]) && t.sites[id][k].at < |s.memory| && t.tags[t.sites[id][k].at] == Link(id)
  {
    assert ListOk(s, t, id);
    forall k | 0 <= k < |t.sites[id]| ensures t.sites[id][k].at in Cells(t.sites[id]) {
    }
  }

  /** Code that is added after what is there keeps all lists. */
  lemma AppendKeeps(s: Linking, t: Track, s': Linking, t': Track, code: int, values: seq<int>, tags: seq<Tag>)
    requires Invariant(s, t) && code >= MIN_INSTRUCTION_CODE && |values| == |tags|
    requires forall i :: 0 <= i < |tags| ==> tags[i] == Fixed || tags[i] == Open
    requires s'.memory == s.memory + [code] + values && t' == t.(tags := t.tags + [Instr] + tags)
    requires forall id :: id in t.sites ==> Displ(s', id) == Displ(s, id)
    ensures Invariant(s', t')
  {
    hide Holds, Cells, Head;
    forall id | id in t'.sites ensures ListOk(s', t', id) {
      assert ListOk(s, t, id);
      HoldsAt(s, t, id);
      OutsideHolds(s.memory, s'.memory, t.sites[id]);
    }
    forall i | 0 <= i < |s'.memory| ensures CellOk(s'.memory, t', i) {
      if i < |s.memory| {
        assert CellOk(s.memory, t, i);
      }
    }
  }

  lemma SetKeeps(s: Linking, t: Track, at: nat, v: int)
    requires Invariant(s, t) && at < |t.tags| && t.tags[at] == Open
    ensures Invariant(s.(memory := s.memory[at := v]), t)
  {
    hide Holds, Cells, Head;
    var s' := s.(memory := s.memory[at := v]);
    forall id | id in t.sites ensures ListOk(s', t, id) {
      assert ListOk(s, t, id);
      HoldsAt(s, t, id);
      OutsideHolds(s.memory, s'.memory, t.sites[id]);
    }
    forall i | 0 <= i < |s'.memory| ensures CellOk(s'.memory, t, i) {
      assert CellOk(s.memory, t, i);
    }
  }

  /** A new call of a prototype becomes the head of its list. */
  lemma CallKeeps(s: Linking, t: Track, id: int)
    requires Invariant(s, t) && id in t.sites
    ensures Invariant(AddCall(s, id), Follow(t, Call(id)))
  {
    hide Holds, Cells, Head;
    var (s', t') := (AddCall(s, id), Follow(t, Call(id)));
    assert ListOk(s, t, id);
    assert Displ(s, id) <= 0;
    NewSite(s.memory, t.sites[id], Abs(Displ(s, id)));
    var n := |s.memory|;
    forall other | other in t'.sites ensures ListOk(s', t', other) {
      assert ListOk(s, t, other);
      HoldsAt(s, t, other);
      OutsideHolds(s.memory, s'.memory, t.sites[other]);
    }
    forall i | 0 <= i < |s'.memory| ensures CellOk(s'.memory, t', i) {
      if i < n {
        assert CellOk(s.memory, t, i);
      }
    }
  }

  lemma NewSite(memory: seq<int>, sites: seq<Site>, head: int)
    requires Holds(memory, sites) && head == Head(sites)
    ensures var (memory', sites') := (memory + [IC_CALL2, head], sites + [Site(|memory| + 1, false)]);
      Holds(memory', sites') && Head(sites') == |memory| + 1 && Cells(sites') == Cells(sites) + {|memory| + 1}
  {
    var (memory', sites') := (memory + [IC_CALL2, head], sites + [Site(|memory| + 1, false)]);
    var n := |sites|;
    assert sites'[..n] == sites;
    CellsLast(sites');
    forall k | 0 <= k < |sites'| ensures SiteHolds(memory', sites', k) {
      if k < n {
        assert SiteHolds(memory, sites, k);
        assert sites'[..k] == sites[..k];
        ContentPrefix(sites', n, k);
      } else if n > 0 {
        assert SiteHolds(memory, sites, n - 1);
      }
    }
  }

  // ------------------------------------------------------------- expression statements

  /** The cell that the void drop replaces. */
  function DropCell(memory: seq<int>): (k: nat)
    requires |memory| >= 2
    ensures |memory| - 2 <= k < |memory|
    ensures Dropped(memory) == memory[k := ToVoid(memory[k])]
  {
    if memory[|memory| - 1] < MIN_INSTRUCTION_CODE then |memory| - 2 else |memory| - 1
  }

  /** A drop changes an operand of a call only when the call is the last instruction. */
  lemma DropMisses(s: Linking, t: Track, i: nat)
    requires Invariant(s, t) && |s.memory| >= 2 && i < |s.memory| - 1
    ensures t.tags[i].Link? ==> Dropped(s.memory)[i] == s.memory[i]
    ensures t.tags[i].Instr? ==> Dropped(s.memory)[i] >= MIN_INSTRUCTION_CODE
    ensures t.tags[i].Instr? && s.memory[i] == IC_CALL2 ==> Dropped(s.memory)[i] == IC_CALL2
  {
    hide Cells;
    assert CellOk(s.memory, t, i);
    assert CellOk(s.memory, t, |s.memory| - 1);
    var k := DropCell(s.memory);
  }

  lemma LastSite(s: Linking, t: Track, id: int)
    requires Invariant(s, t) && id in t.sites
    requires |t.tags| >= 2 && t.tags[|t.tags| - 1] == Link(id)
    ensures t.sites[id] != [] && Head(t.sites[id]) == |s.memory| - 1
  {
    assert ListOk(s, t, id);
    assert CellOk(s.memory, t, |t.tags| - 1);
    var k :| 0 <= k < |t.sites[id]| && t.sites[id][k].at == |t.tags| - 1;
    if k < |t.sites[id]| - 1 {
      Increasing(s.memory, t.sites[id], k, |t.sites[id]| - 1);
      HoldsAt(s, t, id);
    }
  }

  /** Dropping the result of the last call. */
  lemma MarkHolds(memory: seq<int>, after: seq<int>, sites: seq<Site>)
    requires Holds(memory, sites) && sites != [] && |after| == |memory| && Head(sites) < |memory|
    requires after[Head(sites)] == ToVoid(memory[Head(sites)])
    requires forall k :: 0 <= k < |sites| - 1 && sites[k].at < |memory| ==> after[sites[k].at] == memory[sites[k].at]
    ensures Holds(after, MarkLast(sites)) && Head(MarkLast(sites)) == Head(sites) && Cells(MarkLast(sites)) == Cells(sites)
  {
    var (n, marked) := (|sites| - 1, MarkLast(sites));
    assert marked[..n] == sites[..n];
    CellsLast(sites);
    CellsLast(marked);
    forall k | 0 <= k < |sites| ensures SiteHolds(after, marked, k) {
      assert SiteHolds(memory, sites, k);
      assert marked[..k] == sites[..k];
      VoidTwice(Head(sites[..k]));
      if k < n {
        ContentPrefix(sites, n, k);
        ContentPrefix(marked, n, k);
      }
    }
  }

  lemma DropKeepsList(s: Linking, t: Track, id: int)
    requires Invariant(s, t) && |s.memory| >= 2 && id in t.sites
    ensures ListOk(s.(memory := Dropped(s.memory)), Follow(t, Drop), id)
  {
    hide Holds, Cells, Head, Dropped;
    var s' := s.(memory := Dropped(s.memory));
    assert ListOk(s, t, id);
    HoldsAt(s, t, id);
    var n := |s.memory| - 1;
    forall k | 0 <= k < |t.sites[id]| && t.sites[id][k].at < n ensures s'.memory[t.sites[id][k].at] == s.memory[t.sites[id][k].at] {
      DropMisses(s, t, t.sites[id][k].at);
    }
    if t.tags[n] == Link(id) {
      LastSite(s, t, id);
      assert CellOk(s.memory, t, n);
      LastDropped(s, t, id);
      forall k | 0 <= k < |t.sites[id]| - 1 ensures t.sites[id][k].at < n {
        BelowHead(s.memory, t.sites[id]);
      }
      MarkHolds(s.memory, s'.memory, t.sites[id]);
    } else {
      OutsideHolds(s.memory, s'.memory, t.sites[id]);
    }
  }

  lemma LastDropped(s: Linking, t: Track, id: int)
    requires Invariant(s, t) && |s.memory| >= 2 && t.tags[|t.tags| - 1] == Link(id)
    ensures Dropped(s.memory)[|s.memory| - 1] == ToVoid(s.memory[|s.memory| - 1])
  {
    VoidTwice(s.memory[|s.memory| - 1]);
  }

  lemma DropKeeps(s: Linking, t: Track)
    requires Invariant(s, t) && |s.memory| >= 2
    ensures Invariant(s.(memory := Dropped(s.memory)), Follow(t, Drop))
  {
    hide Holds, Cells, Head, Dropped, ListOk;
    var (s', t') := (s.(memory := Dropped(s.memory)), Follow(t, Drop));
    forall id | id in t'.sites ensures ListOk(s', t', id) {
      DropKeepsList(s, t, id);
    }
    forall i | 0 <= i < |s'.memory| ensures CellOk(s'.memory, t', i) {
      DropKeepsCell(s, t, i);
    }
  }

  lemma DropKeepsCell(s: Linking, t: Track, i: nat)
    requires Invariant(s, t) && |s.memory| >= 2 && i < |s.memory|
    ensures CellOk(Dropped(s.memory), Follow(t, Drop), i)
  {
    hide Holds, Cells, Head, Dropped;
    assert CellOk(s.memory, t, i);
    MarkCells(t);
    if i < |s.memory| - 1 {
      DropMisses(s, t, i);
    } else if t.tags[i].Instr? {
      assert DropCell(s.memory) == i;
    }
    if t.tags[i].Link? {
      DropMisses(s, t, i - 1);
    }
  }

  lemma MarkCells(t: Track)
    ensures var t' := Follow(t, Drop);
      t'.tags == t.tags && t'.sites.Keys == t.sites.Keys && forall id :: id in t.sites ==> Cells(t'.sites[id]) == Cells(t.sites[id])
  {
    hide Cells;
    var t' := Follow(t, Drop);
    forall id | id in t.sites ensures Cells(t'.sites[id]) == Cells(t.sites[id]) {
      if t'.sites[id] != t.sites[id] {
        var sites := t.sites[id];
        CellsLast(sites);
        CellsLast(MarkLast(sites));
        assert MarkLast(sites)[..|sites| - 1] == sites[..|sites| - 1];
      }
    }
  }

  // ------------------------------------------------------------------------ definitions

  lemma DefineEnds(s: Linking, t: Track, id: int, prototype: int)
    requires Invariant(s, t) && prototype in t.sites && Intact(t.sites[prototype]) && id != prototype
    ensures var r := AddFunction(s, id, prototype);
      && r.Some? && |r.value.memory| == |s.memory|
      && r.value.displacements == s.displacements[id := |s.functions|]
      && forall i :: 0 <= i < |s.memory| ==>
        r.value.memory[i] == if i in Cells(t.sites[prototype]) then |s.functions| else s.memory[i]
  {
    hide Holds, Cells, Intact;
    var (sites, number) := (t.sites[prototype], |s.functions|);
    assert ListOk(s, t, prototype);
    WalkIntact(s.memory, sites, number, |sites|);
    var head := -Displ(s, prototype);
    if head == 0 {
      assert Walk(s.memory, 0, number, |sites|) == Some(s.memory);
    } else {
      assert Ends(s.memory, head, number);
      var turns := Turns(s.memory, head, number);
      if turns <= |sites| {
        WalkMore(s.memory, head, number, turns, |sites|);
      } else {
        WalkMore(s.memory, head, number, |sites|, turns);
      }
    }
  }

  lemma DefineKeeps(s: Linking, t: Track, id: int, prototype: int)
    requires Invariant(s, t) && prototype in t.sites && Intact(t.sites[prototype]) && id !in t.sites
    ensures var r := AddFunction(s, id, prototype); r.Some? && Invariant(r.value, Follow(t, Define(id, prototype)))
  {
    hide Holds, Cells, Intact, Head, AddFunction;
    DefineEnds(s, t, id, prototype);
    var (s', t') := (AddFunction(s, id, prototype).value, Follow(t, Define(id, prototype)));
    assert ListOk(s, t, prototype);
    forall other | other in t'.sites ensures ListOk(s', t', other) {
      assert ListOk(s, t, other);
      HoldsAt(s, t, other);
      OutsideHolds(s.memory, s'.memory, t.sites[other]);
    }
    forall i | 0 <= i < |s'.memory| ensures CellOk(s'.memory, t', i) {
      assert CellOk(s.memory, t, i);
    }
  }

  lemma NewFunctionKeeps(s: Linking, t: Track, id: int, prototype: int)
    requires Invariant(s, t) && prototype !in t.sites && Displ(s, prototype) >= 0 && id !in t.sites && id != prototype
    ensures var r := AddFunction(s, id, prototype); r.Some? && Invariant(r.value, t)
  {
    hide Holds, Cells, Head;
    var s' := AddFunction(s, id, prototype).value;
    forall other | other in t.sites ensures ListOk(s', t, other) {
      assert ListOk(s, t, other);
    }
  }

  /** Every write of the encoder keeps the calls of every prototype, broken links included. */
  lemma StepKeeps(s: Linking, t: Track, op: Op)
    requires Invariant(s, t) && Legal(s, t, op)
    ensures Step(s, op).Some? && Invariant(Step(s, op).value, Follow(t, op))
  {
    hide Invariant, AddFunction, Dropped, Intact;
    match op
    case Emit(code, operands) =>
      AppendKeeps(s, t, Step(s, op).value, Follow(t, op), code, Values(operands), OperandTags(operands));
    case Set(at, v) => SetKeeps(s, t, at, v);
    case Drop =>
      assert |s.memory| == |t.tags| by { SameSize(s, t); }
      if |s.memory| >= 2 {
        DropKeeps(s, t);
      }
    case Place(id, d) => PlaceKeeps(s, t, id, d);
    case Call(id) =>
      if id in t.sites {
        CallKeeps(s, t, id);
      } else {
        assert s.memory + [IC_CALL2, Abs(Displ(s, id))] == s.memory + [IC_CALL2] + [Abs(Displ(s, id))];
        assert t.tags + [Instr, Fixed] == t.tags + [Instr] + [Fixed];
        AppendKeeps(s, t, Step(s, op).value, Follow(t, op), IC_CALL2, [Abs(Displ(s, id))], [Fixed]);
      }
    case CallParameter(id) =>
      assert s.memory + [IC_CALL2, Displ(s, id)] == s.memory + [IC_CALL2] + [Displ(s, id)];
      assert t.tags + [Instr, Fixed] == t.tags + [Instr] + [Fixed];
      AppendKeeps(s, t, Step(s, op).value, Follow(t, op), IC_CALL2, [Displ(s, id)], [Fixed]);
    case Define(id, prototype) =>
      if prototype in t.sites {
        DefineKeeps(s, t, id, prototype);
      } else {
        NewFunctionKeeps(s, t, id, prototype);
      }
  }

  lemma SameSize(s: Linking, t: Track)
    requires Invariant(s, t)
    ensures |s.memory| == |t.tags|
  {
  }

  lemma PlaceKeeps(s: Linking, t: Track, id: int, d: int)
    requires Invariant(s, t) && id !in t.sites
    ensures Invariant(s.(displacements := s.displacements[id := d]), t)
  {
    hide Holds, Cells, Head;
    forall other | other in t.sites ensures ListOk(s.(displacements := s.displacements[id := d]), t, other) {
      assert ListOk(s, t, other);
    }
  }

  // ------------------------------------------------------------------------------ runs

  ghost function Run(s: Linking, ops: seq<Op>): Option<Linking>
    decreases |ops|
  {
    if ops == [] then Some(s)
    else
      match Step(s, ops[0])
      case None => None
      case Some(s') => Run(s', ops[1..])
  }

  function FollowRun(t: Track, ops: seq<Op>): Track
    decreases |ops|
  {
    if ops == [] then t else FollowRun(Follow(t, ops[0]), ops[1..])
  }

  ghost predicate LegalRun(s: Linking, t: Track, ops: seq<Op>)
    decreases |ops|
  {
    ops == [] ||
    (Legal(s, t, ops[0]) && Step(s, ops[0]).Some? && LegalRun(Step(s, ops[0]).value, Follow(t, ops[0]), ops[1..]))
  }

  lemma {:induction false} RunKeeps(s: Linking, t: Track, ops: seq<Op>)
    requires Invariant(s, t) && LegalRun(s, t, ops)
    ensures Run(s, ops).Some? && Invariant(Run(s, ops).value, FollowRun(t, ops))
    decreases |ops|
  {
    hide Invariant, Legal, Step, Follow;
    if ops != [] {
      StepKeeps(s, t, ops[0]);
      RunKeeps(Step(s, ops[0]).value, Follow(t, ops[0]), ops[1..]);
    }
  }

  predicate NotYetDefined(ops: seq<Op>, id: int) {
    forall i :: 0 <= i < |ops| && ops[i].Define? ==> ops[i].prototype != id
  }

  /** The operands of the calls that a run makes of an identifier. */
  ghost function CallsOf(s: Linking, ops: seq<Op>, id: int): set<int>
    decreases |ops|
  {
    if ops == [] || Step(s, ops[0]).None? then {}
    else (if ops[0] == Call(id) then {|s.memory| + 1} else {}) + CallsOf(Step(s, ops[0]).value, ops[1..], id)
  }

  /** The step is not an expression statement that ends in a call with a link that looks like an instruction with a result. */
  predicate Safe(s: Linking, t: Track, op: Op, id: int) {
    op.Drop? && EndsInCall(t, id) && |s.memory| == |t.tags| ==>
      s.memory[|s.memory| - 1] < MIN_INSTRUCTION_CODE || !HasVoidVersion(s.memory[|s.memory| - 1])
  }

  ghost predicate SafeRun(s: Linking, t: Track, ops: seq<Op>, id: int)
    decreases |ops|
  {
    ops == [] || Step(s, ops[0]).None? ||
    (Safe(s, t, ops[0], id) && SafeRun(Step(s, ops[0]).value, Follow(t, ops[0]), ops[1..], id))
  }

  lemma IntactMarked(sites: seq<Site>)
    requires sites != []
    ensures Intact(MarkLast(sites)) <==>
      Intact(sites) && ToVoid(Content(sites, |sites| - 1)) == Content(sites, |sites| - 1)
  {
    hide Content;
    var (n, marked) := (|sites| - 1, MarkLast(sites));
    assert marked[..n] == sites[..n];
    VoidTwice(Head(sites[..n]));
    MarkContent(sites);
    forall k | 0 <= k < n ensures Content(marked, k) == Content(sites, k) && marked[..k] == sites[..k] {
      assert marked[..k] == sites[..k];
      ContentPrefix(sites, n, k);
      ContentPrefix(marked, n, k);
    }
  }

  lemma MarkContent(sites: seq<Site>)
    requires sites != []
    ensures var n := |sites| - 1;
      var head := Head(sites[..n]);
      && Content(MarkLast(sites), n) == ToVoid(head) && Content(sites, n) == if sites[n].dropped then ToVoid(head) else head
  {
    assert MarkLast(sites)[..|sites| - 1] == sites[..|sites| - 1];
  }

  lemma IntactNew(sites: seq<Site>, at: nat)
    ensures Intact(sites + [Site(at, false)]) <==> Intact(sites)
  {
    hide Content;
    var (n, more) := (|sites|, sites + [Site(at, false)]);
    assert more[..n] == sites && more[..n + 1] == more;
    assert Content(more, n) == Head(more[..n]) by { NotDropped(more); }
    IntactNext(more, n);
    if Intact(more) {
      IntactPrefix(more, n);
    }
  }

  lemma NotDropped(sites: seq<Site>)
    requires sites != [] && !sites[|sites| - 1].dropped
    ensures Content(sites, |sites| - 1) == Head(sites[..|sites| - 1])
  {
  }

  /** A list is broken by exactly the steps that are not safe. */
  lemma IntactStep(s: Linking, t: Track, op: Op, id: int)
    requires Invariant(s, t) && id in t.sites && (op.Define? ==> op.prototype != id)
    ensures id in Follow(t, op).sites
    ensures Intact(Follow(t, op).sites[id]) <==> Intact(t.sites[id]) && Safe(s, t, op, id)
  {
    hide Intact, Holds, Cells, Content, Head;
    if op == Call(id) {
      IntactNew(t.sites[id], |t.tags| + 1);
    } else if op.Drop? && EndsInCall(t, id) {
      LastSite(s, t, id);
      IntactMarked(t.sites[id]);
      assert ListOk(s, t, id);
      assert SiteHolds(s.memory, t.sites[id], |t.sites[id]| - 1) by { HeldSite(s.memory, t.sites[id], |t.sites[id]| - 1); }
      VoidTwice(s.memory[|s.memory| - 1]);
      assert t.sites[id][|t.sites[id]| - 1].at == |s.memory| - 1 by { HeadIs(t.sites[id]); }
    }
  }

  lemma HeadIs(sites: seq<Site>)
    requires sites != []
    ensures Head(sites) == sites[|sites| - 1].at
  {
  }

  lemma HeldSite(memory: seq<int>, sites: seq<Site>, k: nat)
    requires Holds(memory, sites) && k < |sites|
    ensures SiteHolds(memory, sites, k)
  {
  }

  /** After any run the list of a prototype is intact if and only if it was and every step was safe. */
  lemma {:induction false} IntactExactly(s: Linking, t: Track, ops: seq<Op>, id: int)
    requires Invariant(s, t) && LegalRun(s, t, ops) && id in t.sites && NotYetDefined(ops, id)
    ensures var t' := FollowRun(t, ops);
      id in t'.sites && (Intact(t'.sites[id]) <==> Intact(t.sites[id]) && SafeRun(s, t, ops, id))
    decreases |ops|
  {
    hide Invariant, Legal, Step, Follow, Intact, Safe;
    if ops != [] {
      StepKeeps(s, t, ops[0]);
      assert ops[0].Define? ==> ops[0].prototype != id;
      IntactStep(s, t, ops[0], id);
      assert NotYetDefined(ops[1..], id);
      IntactExactly(Step(s, ops[0]).value, Follow(t, ops[0]), ops[1..], id);
    }
  }

  lemma CellsStep(s: Linking, t: Track, op: Op, id: int)
    requires Invariant(s, t) && id in t.sites && (op.Define? ==> op.prototype != id)
    ensures id in Follow(t, op).sites
    ensures Cells(Follow(t, op).sites[id]) == Cells(t.sites[id]) + if op == Call(id) then {|s.memory| + 1} else {}
  {
    hide Holds, Cells, Content, Head;
    if op == Call(id) {
      var sites := t.sites[id];
      assert ListOk(s, t, id);
      NewSite(s.memory, sites, -Displ(s, id));
    } else if op.Drop? {
      MarkCells(t);
    }
  }

  /** The calls that the list of a prototype should hold are those that were made. */
  lemma {:induction false} CellsExactly(s: Linking, t: Track, ops: seq<Op>, id: int)
    requires Invariant(s, t) && LegalRun(s, t, ops) && id in t.sites && NotYetDefined(ops, id)
    ensures id in FollowRun(t, ops).sites
    ensures Cells(FollowRun(t, ops).sites[id]) == Cells(t.sites[id]) + CallsOf(s, ops, id)
    decreases |ops|
  {
    hide Invariant, Legal, Step, Follow, Cells;
    if ops != [] {
      StepKeeps(s, t, ops[0]);
      assert ops[0].Define? ==> ops[0].prototype != id;
      CellsStep(s, t, ops[0], id);
      assert NotYetDefined(ops[1..], id);
      CellsExactly(Step(s, ops[0]).value, Follow(t, ops[0]), ops[1..], id);
    }
  }

  /**
    * After any run the links from the head of a prototype are a list of exactly the calls
    * made of it, if and only if every step was safe for it.
    */
  lemma RunLists(s: Linking, t: Track, ops: seq<Op>, id: int)
    requires Invariant(s, t) && LegalRun(s, t, ops) && NotYetDefined(ops, id) && id in t.sites && t.sites[id] == []
    ensures Run(s, ops).Some?
    ensures var s' := Run(s, ops).value;
      var head := -Displ(s', id);
      SafeRun(s, t, ops, id) <==> Chain(s'.memory, head, 0) && Links(s'.memory, head, 0) == CallsOf(s, ops, id)
  {
    hide Holds, Cells, Content, Intact, Links, Chain, LegalRun, FollowRun, Run, CallsOf, SafeRun;
    RunKeeps(s, t, ops);
    IntactExactly(s, t, ops, id);
    CellsExactly(s, t, ops, id);
    assert Intact(t.sites[id]) && Cells(t.sites[id]) == {} by { EmptyList(); }
    var (s', t') := (Run(s, ops).value, FollowRun(t, ops));
    assert ListOk(s', t', id);
    ListExactly(s'.memory, t'.sites[id]);
  }

  lemma EmptyList()
    ensures Intact([]) && Cells([]) == {}
  {
  }

  /**
    * The definition that follows any run ends and writes into exactly the calls made of
    * its prototype, if and only if no expression statement of the run ended in such a
    * call whose link looked like an instruction with a result.
    */
  lemma ForwardCallsExactly(s: Linking, t: Track, ops: seq<Op>, prototype: int)
    requires Invariant(s, t) && LegalRun(s, t, ops) && NotYetDefined(ops, prototype)
    requires prototype in t.sites && t.sites[prototype] == []
    requires Run(s, ops).Some? ==> 0 < |Run(s, ops).value.functions| < MIN_INSTRUCTION_CODE
    ensures Run(s, ops).Some?
    ensures var before := Run(s, ops).value;
      var (head, number) := (-Displ(before, prototype), |before.functions|);
      SafeRun(s, t, ops, prototype) <==>
        Ends(before.memory, head, number)
        && Written(before.memory, head, number, Turns(before.memory, head, number)) == CallsOf(s, ops, prototype)
  {
    hide Holds, Cells, Content, Intact, LegalRun, FollowRun, Run, CallsOf, SafeRun, Written, Ends;
    RunKeeps(s, t, ops);
    IntactExactly(s, t, ops, prototype);
    CellsExactly(s, t, ops, prototype);
    assert Intact(t.sites[prototype]) && Cells(t.sites[prototype]) == {} by { EmptyList(); }
    var (s', t') := (Run(s, ops).value, FollowRun(t, ops));
    assert ListOk(s', t', prototype);
    WritesExactly(s'.memory, t'.sites[prototype], |s'.functions|);
  }

  /** After a safe run the definition gives its number to exactly the calls of its prototype. */
  lemma ForwardCallsResolve(s: Linking, t: Track, ops: seq<Op>, id: int, prototype: int)
    requires Invariant(s, t) && LegalRun(s, t, ops) && NotYetDefined(ops, prototype) && SafeRun(s, t, ops, prototype)
    requires prototype in t.sites && t.sites[prototype] == [] && id != prototype
    ensures Run(s, ops).Some? && Step(Run(s, ops).value, Define(id, prototype)).Some?
    ensures var before := Run(s, ops).value;
      var after := Step(before, Define(id, prototype)).value;
      && |after.memory| == |before.memory|
      && forall i :: 0 <= i < |before.memory| ==>
        after.memory[i] == if i in CallsOf(s, ops, prototype) then |before.functions| else before.memory[i]
  {
    hide Holds, Cells, Content, Intact, Invariant, LegalRun, FollowRun, Run, CallsOf, SafeRun, AddFunction;
    RunKeeps(s, t, ops);
    IntactExactly(s, t, ops, prototype);
    CellsExactly(s, t, ops, prototype);
    assert Intact(t.sites[prototype]) && Cells(t.sites[prototype]) == {} by { EmptyList(); }
    DefineEnds(Run(s, ops).value, FollowRun(t, ops), id, prototype);
  }

  // ------------------------------------------------------------------ after a definition

  lemma FixedStep(s: Linking, t: Track, op: Op, i: nat)
    requires Invariant(s, t) && Legal(s, t, op) && i + 2 < |s.memory| && t.tags[i] == Fixed
    ensures Step(s, op).Some?
    ensures var (s', t') := (Step(s, op).value, Follow(t, op));
      |s.memory| <= |s'.memory| && |t'.tags| >= |t.tags| && t'.tags[i] == Fixed && s'.memory[i] == s.memory[i]
  {
    hide Holds, Cells, Content, Head, Intact, AddFunction;
    StepKeeps(s, t, op);
    if op.Drop? {
      var k := DropCell(s.memory);
    } else if op.Define? {
      if op.prototype in t.sites {
        DefineEnds(s, t, op.id, op.prototype);
        assert ListOk(s, t, op.prototype);
      } else {
        assert Step(s, op).value.memory == s.memory by { NewFunction(s, op.id, op.prototype); }
      }
    }
  }

  lemma NewFunction(s: Linking, id: int, prototype: int)
    requires Displ(s, prototype) >= 0 && id != prototype
    ensures AddFunction(s, id, prototype).Some? && AddFunction(s, id, prototype).value.memory == s.memory
  {
  }

  /** A final operand stays as it is to the end, once two cells have been added after it. */
  lemma {:induction false} FixedStays(s: Linking, t: Track, ops: seq<Op>, i: nat)
    requires Invariant(s, t) && LegalRun(s, t, ops) && i + 2 < |s.memory| && t.tags[i] == Fixed
    ensures Run(s, ops).Some? && |s.memory| <= |Run(s, ops).value.memory| && Run(s, ops).value.memory[i] == s.memory[i]
    decreases |ops|
  {
    hide Legal, Step, Follow, Holds, Cells, Content, Head;
    if ops != [] {
      StepKeeps(s, t, ops[0]);
      FixedStep(s, t, ops[0], i);
      FixedStays(Step(s, ops[0]).value, Follow(t, ops[0]), ops[1..], i);
    }
  }

  /** Calls that have got the number of their function keep it, whatever is emitted after the header of the function. */
  lemma ResolvedStay(s: Linking, t: Track, id: int, prototype: int, header: Op, ops: seq<Op>, call: nat)
    requires Invariant(s, t) && prototype in t.sites && call in Cells(t.sites[prototype])
    requires Legal(s, t, Define(id, prototype)) && Step(s, Define(id, prototype)).Some?
    requires header.Emit? && |header.operands| == 2 && header.code == IC_FUNC_BEG
    requires var (s1, t1) := (Step(s, Define(id, prototype)).value, Follow(t, Define(id, prototype)));
      LegalRun(Step(s1, header).value, Follow(t1, header), ops)
    ensures var r := Run(Step(Step(s, Define(id, prototype)).value, header).value, ops);
      r.Some? && call < |r.value.memory| && r.value.memory[call] == |s.functions|
  {
    hide LegalRun, Run, AddFunction, Intact, Cells, Invariant;
    var define := Define(id, prototype);
    var (s1, t1) := (Step(s, define).value, Follow(t, define));
    assert ListOk(s, t, prototype) by { ListOf(s, t, prototype); }
    DefineEnds(s, t, id, prototype);
    StepKeeps(s, t, define);
    SameSize(s, t);
    SameSize(s1, t1);
    assert t1.tags[call] == Fixed;
    StepKeeps(s1, t1, header);
    FixedStays(Step(s1, header).value, Follow(t1, header), ops, call);
  }

  lemma ListOf(s: Linking, t: Track, id: int)
    requires Invariant(s, t) && id in t.sites
    ensures |s.memory| == |t.tags| && ListOk(s, t, id)
  {
  }

  // ------------------------------------------------------------- the table of functions

  /** The sizes that the memory has when functions are defined, in the order of a run. */
  ghost function Addresses(s: Linking, ops: seq<Op>): seq<int>
    decreases |ops|
  {
    if ops == [] || Step(s, ops[0]).None? then []
    else (if ops[0].Define? then [|s.memory|] else []) + Addresses(Step(s, ops[0]).value, ops[1..])
  }

  lemma TableStep(s: Linking, op: Op)
    requires Step(s, op).Some?
    ensures var s' := Step(s, op).value;
      s'.functions == (if op.Define? then s.functions + [|s.memory|] else s.functions)
      && (op.Define? ==> Displ(s', op.id) == |s.functions|)
  {
    hide Ends, Walk, Dropped;
  }

  /** After any run the table of functions holds the size of the memory at each definition, in order. */
  lemma {:induction false} TableExactly(s: Linking, ops: seq<Op>)
    requires Run(s, ops).Some?
    ensures Run(s, ops).value.functions == s.functions + Addresses(s, ops)
    decreases |ops|
  {
    hide Step;
    if ops != [] {
      TableStep(s, ops[0]);
      TableExactly(Step(s, ops[0]).value, ops[1..]);
    }
  }

  /** An instruction without a version that drops its result. */
  predicate Keeps(s: Linking, t: Track, i: nat, code: int) {
    i < |s.memory| && |t.tags| == |s.memory| && t.tags[i] == Instr && s.memory[i] == code
  }

  lemma InstrStep(s: Linking, t: Track, op: Op, i: nat, code: int)
    requires Invariant(s, t) && Legal(s, t, op) && Keeps(s, t, i, code) && !HasVoidVersion(code)
    ensures Step(s, op).Some? && Keeps(Step(s, op).value, Follow(t, op), i, code)
  {
    hide Holds, Cells, Content, Head, Intact, AddFunction;
    StepKeeps(s, t, op);
    if op.Drop? && |s.memory| >= 2 {
      var k := DropCell(s.memory);
    } else if op.Define? {
      if op.prototype in t.sites {
        DefineEnds(s, t, op.id, op.prototype);
        assert ListOk(s, t, op.prototype);
      } else {
        NewFunction(s, op.id, op.prototype);
      }
    }
  }

  lemma {:induction false} InstrStays(s: Linking, t: Track, ops: seq<Op>, i: nat, code: int)
    requires Invariant(s, t) && LegalRun(s, t, ops) && Keeps(s, t, i, code) && !HasVoidVersion(code)
    ensures Run(s, ops).Some? && Keeps(Run(s, ops).value, FollowRun(t, ops), i, code)
    decreases |ops|
  {
    hide Invariant, Legal, Step, Follow, Keeps;
    if ops != [] {
      StepKeeps(s, t, ops[0]);
      InstrStep(s, t, ops[0], i, code);
      InstrStays(Step(s, ops[0]).value, Follow(t, ops[0]), ops[1..], i, code);
    }
  }

  /** The steps declare and define other identifiers. */
  predicate Others(ops: seq<Op>, id: int) {
    forall i :: 0 <= i < |ops| ==> (ops[i].Place? || ops[i].Define? ==> ops[i].id != id)
  }

  lemma NumberStep(s: Linking, op: Op, id: int)
    requires Step(s, op).Some? && Displ(s, id) > 0 && (op.Place? || op.Define? ==> op.id != id)
    ensures Displ(Step(s, op).value, id) == Displ(s, id)
  {
    hide Ends, Walk, Dropped;
  }

  lemma {:induction false} NumberStays(s: Linking, ops: seq<Op>, id: int)
    requires Run(s, ops).Some? && Displ(s, id) > 0 && Others(ops, id)
    ensures Displ(Run(s, ops).value, id) == Displ(s, id)
    decreases |ops|
  {
    hide Step, Displ;
    if ops != [] {
      NumberStep(s, ops[0], id);
      assert Others(ops[1..], id);
      NumberStays(Step(s, ops[0]).value, ops[1..], id);
    }
  }

  lemma {:induction false} TableGrows(s: Linking, ops: seq<Op>, k: nat)
    requires Run(s, ops).Some? && k < |s.functions|
    ensures k < |Run(s, ops).value.functions| && Run(s, ops).value.functions[k] == s.functions[k]
  {
    hide Step, Run, Addresses;
    TableExactly(s, ops);
  }

  /**
    * A function that is defined, and whose header is emitted next, has to the end of the
    * program a number that indexes its own entry, and the entry is the address of its header.
    */
  lemma FunctionFound(s: Linking, t: Track, id: int, prototype: int, header: Op, ops: seq<Op>)
    requires Invariant(s, t) && Legal(s, t, Define(id, prototype)) && Step(s, Define(id, prototype)).Some? && s.functions != []
    requires header.Emit? && header.code == IC_FUNC_BEG && Others(ops, id)
    requires var (s1, t1) := (Step(s, Define(id, prototype)).value, Follow(t, Define(id, prototype)));
      LegalRun(Step(s1, header).value, Follow(t1, header), ops)
    ensures Run(Step(Step(s, Define(id, prototype)).value, header).value, ops).Some?
    ensures var r := Run(Step(Step(s, Define(id, prototype)).value, header).value, ops).value;
      var number := Displ(r, id);
      && 0 <= number < |r.functions|
      && 0 <= r.functions[number] < |r.memory| && r.memory[r.functions[number]] == IC_FUNC_BEG
      && number == |s.functions| && r.functions[number] == |s.memory|
  {
    hide LegalRun, Run, AddFunction, Invariant, Intact;
    var define := Define(id, prototype);
    var (s1, t1) := (Step(s, define).value, Follow(t, define));
    StepKeeps(s, t, define);
    TableStep(s, define);
    StepKeeps(s1, t1, header);
    TableStep(s1, header);
    SameSize(s1, t1);
    SameMemory(s, t, define);
    var (s2, t2) := (Step(s1, header).value, Follow(t1, header));
    NumberStep(s1, header, id);
    assert Keeps(s2, t2, |s.memory|, IC_FUNC_BEG);
    RunKeeps(s2, t2, ops);
    InstrStays(s2, t2, ops, |s.memory|, IC_FUNC_BEG);
    NumberStays(s2, ops, id);
    TableGrows(s2, ops, |s.functions|);
  }

  /** So every call that was made of the prototype leads through the table to the header of the function. */
  lemma CallsFind(s: Linking, t: Track, id: int, prototype: int, header: Op, ops: seq<Op>, call: nat)
    requires Invariant(s, t) && prototype in t.sites && call in Cells(t.sites[prototype]) && s.functions != []
    requires Legal(s, t, Define(id, prototype)) && Step(s, Define(id, prototype)).Some?
    requires header.Emit? && |header.operands| == 2 && header.code == IC_FUNC_BEG && Others(ops, id)
    requires var (s1, t1) := (Step(s, Define(id, prototype)).value, Follow(t, Define(id, prototype)));
      LegalRun(Step(s1, header).value, Follow(t1, header), ops)
    ensures Run(Step(Step(s, Define(id, prototype)).value, header).value, ops).Some?
    ensures var r := Run(Step(Step(s, Define(id, prototype)).value, header).value, ops).value;
      && call < |r.memory| && 0 <= r.memory[call] < |r.functions|
      && r.functions[r.memory[call]] == |s.memory| && |s.memory| < |r.memory| && r.memory[|s.memory|] == IC_FUNC_BEG
  {
    hide LegalRun, Run, AddFunction, Intact, Cells, Invariant, Step;
    ResolvedStay(s, t, id, prototype, header, ops, call);
    FunctionFound(s, t, id, prototype, header, ops);
  }

  lemma SameMemory(s: Linking, t: Track, op: Op)
    requires Invariant(s, t) && Legal(s, t, op) && op.Define?
    ensures Step(s, op).Some? && |Step(s, op).value.memory| == |s.memory|
  {
    hide Holds, Cells, Content, Head, Intact, AddFunction;
    if op.prototype in t.sites {
      DefineEnds(s, t, op.id, op.prototype);
    } else {
      NewFunction(s, op.id, op.prototype);
    }
  }

  // ------------------------------------------------------------------- a run that fails

  /** The encoder before anything is emitted, with one prototype. */
  const START: Linking := Linking([0, 0, 0, 0], [0, 0], map[])
  const FRESH: Track := Track([Fixed, Fixed, Fixed, Fixed], map[5 := []])

  function Zeros(n: nat): seq<Operand> {
    seq(n, i => Final(0))
  }

  /** A long program, a call, and a call that is a statement. */
  function FarCalls(): seq<Op> {
    [Emit(IC_LI, Zeros(9001)), Call(5), Call(5), Drop]
  }

  lemma StartOk()
    ensures Invariant(START, FRESH)
  {
    NoCells();
  }

  lemma FarMemory(s: Linking)
    requires s == START.(memory := START.memory + [IC_LI] + Values(Zeros(9001)))
    ensures |s.memory| == 9006 && AddCall(AddCall(s, 5), 5).memory == s.memory + [IC_CALL2, 0] + [IC_CALL2, 9007]
    ensures Displ(AddCall(AddCall(s, 5), 5), 5) == -9009
  {
    assert |Values(Zeros(9001))| == 9001;
  }

  /** The second call links to the cell 9007, which is taken for an assignment. */
  lemma FarCallsRun()
    ensures LegalRun(START, FRESH, FarCalls()) && Run(START, FarCalls()).Some?
    ensures var s := Run(START, FarCalls()).value;
      |s.memory| == 9010 && s.functions == [0, 0] && Displ(s, 5) == -9009 && s.memory[9007] == 0 && s.memory[9009] == 9207
  {
    hide Values, Zeros, LegalRun, Run;
    var (a, b, c, d) := (Emit(IC_LI, Zeros(9001)), Call(5), Call(5), Drop);
    var s1 := START.(memory := START.memory + [IC_LI] + Values(Zeros(9001)));
    FarMemory(s1);
    var (s2, s3) := (AddCall(s1, 5), AddCall(AddCall(s1, 5), 5));
    var t1 := Follow(FRESH, a);
    var (t2, t3) := (Follow(t1, b), Follow(Follow(t1, b), c));
    assert Step(START, a) == Some(s1) && Step(s1, b) == Some(s2) && Step(s2, c) == Some(s3);
    assert Dropped(s3.memory) == s3.memory[9009 := 9207];
    var s4 := s3.(memory := Dropped(s3.memory));
    assert Step(s3, d) == Some(s4);
    hide Step, Follow, Dropped, AddCall;
    assert FarCalls()[1..] == [b, c, d] && [b, c, d][1..] == [c, d] && [c, d][1..] == [d] && [d][1..] == [];
    OneStep(START, FRESH, FarCalls());
    OneStep(s1, t1, [b, c, d]);
    OneStep(s2, t2, [c, d]);
    OneStep(s3, t3, [d]);
    NoStep(s4, Follow(t3, d));
  }

  lemma OneStep(s: Linking, t: Track, ops: seq<Op>)
    requires ops != [] && Step(s, ops[0]).Some?
    ensures Run(s, ops) == Run(Step(s, ops[0]).value, ops[1..])
    ensures LegalRun(s, t, ops) <==> Legal(s, t, ops[0]) && LegalRun(Step(s, ops[0]).value, Follow(t, ops[0]), ops[1..])
  {
    hide Step, Follow, Legal;
  }

  lemma NoStep(s: Linking, t: Track)
    ensures Run(s, []) == Some(s) && LegalRun(s, t, [])
  {
  }

  /** If the function is defined next, the walk leaves the memory and the compiler never ends. */
  lemma FarCallsHang()
    ensures Run(START, FarCalls()).Some? && Step(Run(START, FarCalls()).value, Define(7, 5)) == None
  {
    hide Run;
    FarCallsRun();
    var s := Run(START, FarCalls()).value;
    forall turns: nat ensures Walk(s.memory, 9009, 2, turns).None? {
      if turns > 0 {
        assert Walk(s.memory[9009 := 2], 9207, 2, turns - 1).None?;
      }
    }
  }

  /**
    * If the program goes on past the cell 9207 first, the walk ends there: the first call
    * keeps 0 and an operand of other code becomes the number of the function.
    */
  lemma FarCallsLost()
    ensures Run(START, FarCalls()).Some?
    ensures var s := Step(Run(START, FarCalls()).value, Emit(IC_LI, Zeros(300))).value;
      var r := Step(s, Define(7, 5));
      && |s.memory| == 9311 && s.memory[9007] == 0 && s.memory[9207] == 0
      && r.Some? && |r.value.memory| == 9311
      && r.value.memory[9007] == 0 && r.value.memory[9009] == 2 && r.value.memory[9207] == 2
  {
    hide Run;
    FarCallsRun();
    var s0 := Run(START, FarCalls()).value;
    var s := Step(s0, Emit(IC_LI, Zeros(300))).value;
    assert |s.memory| == 9311 && s.memory[9207] == 0;
    var (m1, m2) := (s.memory[9009 := 2], s.memory[9009 := 2][9207 := 2]);
    assert Walk(m2, 0, 2, 0) == Some(m2);
    assert Walk(m1, 9207, 2, 1) == Some(m2);
    assert Walk(s.memory, 9009, 2, 2) == Some(m2);
    assert Ends(s.memory, 9009, 2);
    var turns := Turns(s.memory, 9009, 2);
    if turns <= 2 {
      WalkMore(s.memory, 9009, 2, turns, 2);
    } else {
      WalkMore(s.memory, 9009, 2, 2, turns);
    }
  }
}

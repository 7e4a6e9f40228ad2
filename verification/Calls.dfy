/**
  * Calls of functions that are not defined yet.  Their operands form lists in the
  * code, one for every prototype; the definition of the function walks its list.
  *
  * The other writes of the encoder go to the same memory: instructions are added,
  * operands that were left open are set, and the last instruction of an expression
  * statement is replaced.  The last of these can hit the operand of a call.
  */
module Calls {
  import opened Common
  import opened Instructions
  import opened Codegen
  import opened Patching

  /** The parts of the encoder that calls work on. */
  datatype Linking = Linking(memory: seq<int>, functions: seq<int>, displacements: map<int, int>)

  /** An operand that is final, or one that is set later: a jump target, a list link, a frame size. */
  datatype Operand = Final(value: int) | Later(value: int)

  datatype Op =
    | Emit(code: int, operands: seq<Operand>)
    | Set(at: nat, value: int)
    | Drop
    | Place(id: int, displacement: int)
    | Call(callee: int)
    | CallParameter(callee: int)
    | Define(id: int, prototype: int)

  /** The displacement of an identifier; the table starts with zeros. */
  function Displ(s: Linking, id: int): int {
    if id in s.displacements then s.displacements[id] else 0
  }

  function Abs(v: int): nat {
    if v < 0 then -v else v
  }

  function Values(operands: seq<Operand>): (r: seq<int>)
    ensures |r| == |operands|
    ensures forall i :: 0 <= i < |operands| ==> r[i] == operands[i].value
  {
    seq(|operands|, i requires 0 <= i < |operands| => operands[i].value)
  }

  /** Adds a call: a call of a function without a number joins the list of its prototype. */
  function AddCall(s: Linking, id: int): Linking {
    var d := Displ(s, id);
    s.(memory := s.memory + [IC_CALL2, Abs(d)],
       displacements := if d <= 0 then s.displacements[id := -(|s.memory| + 1)] else s.displacements)
  }

  /** A parameter that is a function is called through its own cell. */
  function AddParameterCall(s: Linking, id: int): Linking {
    s.(memory := s.memory + [IC_CALL2, Displ(s, id)])
  }

  // ----------------------------------------------------------------------- the walk

  /**
    * Follows the links from an address down to 0 and writes the number into every cell
    * on the way, whatever the cells hold.  An address outside the memory reads as
    * another one, so from there the walk never ends.
    */
  function Walk(memory: seq<int>, address: int, number: int, turns: nat): Option<seq<int>>
    decreases turns
  {
    if address == 0 then Some(memory)
    else if address < 0 || address >= |memory| || turns == 0 then None
    else Walk(memory[address := number], memory[address], number, turns - 1)
  }

  /** The cells that a walk writes. */
  function Written(memory: seq<int>, address: int, number: int, turns: nat): set<int>
    decreases turns
  {
    if address <= 0 || address >= |memory| || turns == 0 then {}
    else {address} + Written(memory[address := number], memory[address], number, turns - 1)
  }

  lemma {:induction false} WalkMore(memory: seq<int>, address: int, number: int, turns: nat, more: nat)
    requires Walk(memory, address, number, turns).Some? && turns <= more
    ensures Walk(memory, address, number, more) == Walk(memory, address, number, turns)
    ensures Written(memory, address, number, more) == Written(memory, address, number, turns)
    decreases turns
  {
    if address != 0 {
      WalkMore(memory[address := number], memory[address], number, turns - 1, more - 1);
    }
  }

  ghost predicate Ends(memory: seq<int>, address: int, number: int) {
    exists turns: nat :: Walk(memory, address, number, turns).Some?
  }

  ghost function Turns(memory: seq<int>, address: int, number: int): (turns: nat)
    requires Ends(memory, address, number)
    ensures Walk(memory, address, number, turns).Some?
  {
    var turns: nat :| Walk(memory, address, number, turns).Some?;
    turns
  }

  /** Numbers a function, and gives the number to the calls of its prototype; None when the walk never ends. */
  ghost function AddFunction(s: Linking, id: int, prototype: int): Option<Linking> {
    var number := |s.functions|;
    var s' := s.(functions := s.functions + [|s.memory|], displacements := s.displacements[id := number]);
    var d := Displ(s', prototype);
    if d >= 0 then Some(s')
    else if !Ends(s.memory, -d, number) then None
    else Some(s'.(memory := Walk(s.memory, -d, number, Turns(s.memory, -d, number)).value))
  }

  ghost function Step(s: Linking, op: Op): Option<Linking> {
    match op
    case Emit(code, operands) => Some(s.(memory := s.memory + [code] + Values(operands)))
    case Set(at, v) => Some(if at < |s.memory| then s.(memory := s.memory[at := v]) else s)
    case Drop => Some(if |s.memory| >= 2 then s.(memory := Dropped(s.memory)) else s)
    case Place(id, d) => Some(s.(displacements := s.displacements[id := d]))
    case Call(id) => Some(AddCall(s, id))
    case CallParameter(id) => Some(AddParameterCall(s, id))
    case Define(id, prototype) => AddFunction(s, id, prototype)
  }

  // ------------------------------------------------------------ lists of one prototype

  /** The operand of a call, and whether it was the last instruction of an expression statement. */
  datatype Site = Site(at: nat, dropped: bool)

  function Head(sites: seq<Site>): nat {
    if sites == [] then 0 else sites[|sites| - 1].at
  }

  /** What the operand of a call holds: the call before it, as the void version of an instruction if the call was dropped. */
  function Content(sites: seq<Site>, k: nat): int
    requires k < |sites|
  {
    if sites[k].dropped then ToVoid(Head(sites[..k])) else Head(sites[..k])
  }

  function Cells(sites: seq<Site>): set<int> {
    set k | 0 <= k < |sites| :: sites[k].at as int
  }

  predicate SiteHolds(memory: seq<int>, sites: seq<Site>, k: nat)
    requires k < |sites|
  {
    0 < sites[k].at < |memory| && Head(sites[..k]) < sites[k].at && memory[sites[k].at] == Content(sites, k)
  }

  /** The calls in the order in which they were made, with their operands in the memory. */
  predicate Holds(memory: seq<int>, sites: seq<Site>) {
    forall k :: 0 <= k < |sites| ==> SiteHolds(memory, sites, k)
  }

  /** No dropped call has a link that is taken for an instruction with a void version. */
  predicate Intact(sites: seq<Site>) {
    forall k :: 0 <= k < |sites| ==> Content(sites, k) == Head(sites[..k])
  }

  lemma VoidTwice(v: int)
    ensures ToVoid(ToVoid(v)) == ToVoid(v)
    ensures ToVoid(v) == v <==> v < MIN_INSTRUCTION_CODE || !HasVoidVersion(v)
    ensures ToVoid(v) != v ==> ToVoid(v) == v + DISPL_TO_VOID && v >= MIN_INSTRUCTION_CODE
  {
  }

  lemma PrefixHolds(memory: seq<int>, sites: seq<Site>, k: nat)
    requires k <= |sites| && Holds(memory, sites)
    ensures Holds(memory, sites[..k])
    ensures forall j :: 0 <= j < k ==> Content(sites[..k], j) == Content(sites, j)
  {
    hide Content;
    forall j | 0 <= j < k ensures Content(sites[..k], j) == Content(sites, j) && SiteHolds(memory, sites[..k], j) {
      assert sites[..k][..j] == sites[..j];
      ContentPrefix(sites, k, j);
      assert SiteHolds(memory, sites, j);
    }
  }

  lemma ContentPrefix(sites: seq<Site>, k: nat, j: nat)
    requires j < k <= |sites|
    ensures Content(sites[..k], j) == Content(sites, j)
  {
    assert sites[..k][..j] == sites[..j];
  }

  lemma {:induction false} Increasing(memory: seq<int>, sites: seq<Site>, j: nat, k: nat)
    requires Holds(memory, sites) && j < k < |sites|
    ensures sites[j].at < sites[k].at
    decreases k
  {
    assert SiteHolds(memory, sites, k);
    if j < k - 1 {
      Increasing(memory, sites, j, k - 1);
    }
  }

  /** A write to other cells keeps a list. */
  lemma OutsideHolds(memory: seq<int>, after: seq<int>, sites: seq<Site>)
    requires Holds(memory, sites) && |memory| <= |after|
    requires forall k :: 0 <= k < |sites| && sites[k].at < |memory| ==> after[sites[k].at] == memory[sites[k].at]
    ensures Holds(after, sites)
  {
    forall k | 0 <= k < |sites| ensures SiteHolds(after, sites, k) {
      assert SiteHolds(memory, sites, k);
    }
  }

  lemma CellsLast(sites: seq<Site>)
    requires sites != []
    ensures Cells(sites) == Cells(sites[..|sites| - 1]) + {Head(sites)}
  {
    var init := sites[..|sites| - 1];
    forall c | c in Cells(sites) ensures c in Cells(init) + {Head(sites) as int} {
      var k :| 0 <= k < |sites| && sites[k].at == c;
      assert k < |sites| - 1 ==> init[k].at == c;
    }
    forall c | c in Cells(init) ensures c in Cells(sites) {
      var k :| 0 <= k < |init| && init[k].at == c;
      assert sites[k].at == c;
    }
  }

  /** Walking an intact list writes exactly the calls. */
  lemma {:induction false} WalkIntact(memory: seq<int>, sites: seq<Site>, number: int, turns: nat)
    requires Holds(memory, sites) && Intact(sites) && |sites| <= turns
    ensures var w := Walk(memory, Head(sites), number, turns);
      && w.Some? && |w.value| == |memory| && Written(memory, Head(sites), number, turns) == Cells(sites)
      && forall i :: 0 <= i < |memory| ==> w.value[i] == if i in Cells(sites) then number else memory[i]
    decreases |sites|
  {
    hide Cells, Content;
    if sites == [] {
      assert Cells(sites) == {} by { NoCells(); }
    } else {
      var (n, a) := (|sites| - 1, Head(sites));
      var init := sites[..n];
      assert SiteHolds(memory, sites, n);
      PrefixHolds(memory, sites, n);
      BelowHead(memory, sites);
      OutsideHolds(memory, memory[a := number], init);
      assert Intact(init) by { IntactPrefix(sites, n); }
      WalkIntact(memory[a := number], init, number, turns - 1);
      CellsLast(sites);
    }
  }

  lemma NoCells()
    ensures Cells([]) == {}
  {
  }

  lemma IntactPrefix(sites: seq<Site>, k: nat)
    requires Intact(sites) && k <= |sites|
    ensures Intact(sites[..k])
  {
    hide Content;
    forall j | 0 <= j < k ensures Content(sites[..k], j) == Head(sites[..k][..j]) {
      assert sites[..k][..j] == sites[..j];
      ContentPrefix(sites, k, j);
    }
  }

  lemma BelowHead(memory: seq<int>, sites: seq<Site>)
    requires Holds(memory, sites) && sites != []
    ensures forall j :: 0 <= j < |sites| - 1 ==> sites[j].at < Head(sites)
  {
    forall j | 0 <= j < |sites| - 1 ensures sites[j].at < Head(sites) {
      Increasing(memory, sites, j, |sites| - 1);
    }
  }

  // --------------------------------------------------------------------- broken lists

  /** The walk has reached the calls below an index; those from it on hold the number already. */
  predicate Walked(memory: seq<int>, sites: seq<Site>, k: nat, number: int)
    requires k <= |sites|
  {
    && Holds(memory, sites[..k])
    && (forall i, j :: 0 <= i < j < |sites| ==> sites[i].at < sites[j].at)
    && (forall j :: k <= j < |sites| ==> 0 < sites[j].at < |memory| && memory[sites[j].at] == number)
  }

  lemma {:induction false} SmallIntact(memory: seq<int>, sites: seq<Site>)
    requires Holds(memory, sites) && (forall k :: 0 <= k < |sites| ==> sites[k].at < MIN_INSTRUCTION_CODE)
    ensures Intact(sites)
  {
    forall k | 0 <= k < |sites| ensures Content(sites, k) == Head(sites[..k]) {
      assert SiteHolds(memory, sites, k);
      VoidTwice(Head(sites[..k]));
    }
  }

  /** From a small number on the walk never comes back to a large cell of the list. */
  lemma FromNumber(memory: seq<int>, sites: seq<Site>, k: nat, number: int, turns: nat)
    requires k < |sites| && Walked(memory, sites, k + 1, number)
    requires 0 < number < MIN_INSTRUCTION_CODE <= sites[k].at
    requires Walk(memory, number, number, turns).Some?
    ensures sites[k].at !in Written(memory, number, number, turns) || exists c :: c in Written(memory, number, number, turns) && c !in Cells(sites)
  {
    hide Content;
    var w := Written(memory, number, number, turns);
    assert number in w;
    if number in Cells(sites) {
      var m :| 0 <= m < |sites| && sites[m].at == number;
      assert m < k;
      var low := sites[..m + 1];
      assert low == sites[..k + 1][..m + 1];
      PrefixHolds(memory, sites[..k + 1], m + 1);
      SmallIntact(memory, low);
      WalkIntact(memory, low, number, if turns > |low| then turns else |low|);
      WalkMore(memory, number, number, turns, if turns > |low| then turns else |low|);
      assert sites[k].at !in Cells(low);
    }
  }

  /** At a broken link the walk leaves the list and does not come back to the call that was linked. */
  lemma AtBroken(memory: seq<int>, sites: seq<Site>, k: nat, number: int, turns: nat)
    requires 0 < k < |sites| && Walked(memory, sites, k, number) && Content(sites, k) != sites[k - 1].at
    requires 0 < number < MIN_INSTRUCTION_CODE
    requires Walk(memory, Content(sites, k), number, turns).Some?
    ensures var w := Written(memory, Content(sites, k), number, turns);
      sites[k - 1].at !in w || exists c :: c in w && c !in Cells(sites)
  {
    var (x, y) := (sites[k - 1].at, Content(sites, k));
    VoidTwice(x);
    assert Head(sites[..k]) == x;
    assert y == x + DISPL_TO_VOID && turns > 0 && y < |memory|;
    var w := Written(memory, y, number, turns);
    assert y in w;
    if y in Cells(sites) {
      var m :| 0 <= m < |sites| && sites[m].at == y;
      assert m >= k;
      assert memory[y := number] == memory;
      FromNumber(memory, sites, k - 1, number, turns - 1);
    }
  }

  /** A walk that meets a broken link leaves out a call or writes another cell. */
  lemma {:induction false} WalkBroken(memory: seq<int>, sites: seq<Site>, k: nat, number: int, turns: nat)
    requires k <= |sites| && Walked(memory, sites, k, number) && !Intact(sites[..k])
    requires 0 < number < MIN_INSTRUCTION_CODE
    requires Walk(memory, Head(sites[..k]), number, turns).Some?
    ensures var w := Written(memory, Head(sites[..k]), number, turns);
      || (exists j :: 0 <= j < k && sites[j].at !in w)
      || (exists c :: c in w && c !in Cells(sites))
    decreases k
  {
    hide Content, Cells;
    var j := k - 1;
    var a := sites[j].at;
    assert Head(sites[..k]) == a;
    assert SiteHolds(memory, sites[..k], j);
    ContentPrefix(sites, k, j);
    assert sites[..k][..j] == sites[..j];
    var memory' := memory[a := number];
    PrefixHolds(memory, sites[..k], j);
    OutsideHolds(memory, memory', sites[..j]);
    assert Walked(memory', sites, j, number);
    if Content(sites, j) == Head(sites[..j]) {
      IntactNext(sites, j);
      WalkBroken(memory', sites, j, number, turns - 1);
    } else {
      FirstContent(sites);
      AtBroken(memory', sites, j, number, turns - 1);
    }
  }

  lemma IntactNext(sites: seq<Site>, j: nat)
    requires j < |sites| && Content(sites, j) == Head(sites[..j])
    ensures Intact(sites[..j]) ==> Intact(sites[..j + 1])
  {
    hide Content;
    if Intact(sites[..j]) {
      var next := sites[..j + 1];
      forall i | 0 <= i <= j ensures Content(next, i) == Head(next[..i]) {
        assert next[..i] == sites[..i];
        ContentPrefix(sites, j + 1, i);
        if i < j {
          assert sites[..j][..i] == sites[..i];
          ContentPrefix(sites, j, i);
        }
      }
    }
  }

  lemma FirstContent(sites: seq<Site>)
    requires sites != []
    ensures Content(sites, 0) == Head(sites[..0])
  {
  }

  /** Numbering the function writes exactly the calls of its prototype if and only if no link was broken. */
  lemma WritesExactly(memory: seq<int>, sites: seq<Site>, number: int)
    requires Holds(memory, sites) && 0 < number < MIN_INSTRUCTION_CODE
    ensures Intact(sites) <==>
      Ends(memory, Head(sites), number)
      && Written(memory, Head(sites), number, Turns(memory, Head(sites), number)) == Cells(sites)
  {
    assert sites[..|sites|] == sites;
    if Intact(sites) {
      WalkIntact(memory, sites, number, |sites|);
      var (turns, more) := (Turns(memory, Head(sites), number), |sites|);
      if turns <= more {
        WalkMore(memory, Head(sites), number, turns, more);
      } else {
        WalkMore(memory, Head(sites), number, more, turns);
      }
    } else if Ends(memory, Head(sites), number) {
      forall i, j | 0 <= i < j < |sites| ensures sites[i].at < sites[j].at {
        Increasing(memory, sites, i, j);
      }
      var turns := Turns(memory, Head(sites), number);
      WalkBroken(memory, sites, |sites|, number, turns);
      assert forall j :: 0 <= j < |sites| ==> sites[j].at in Cells(sites);
    }
  }

  /** The links are a list of exactly the calls under the same condition. */
  lemma {:induction false} ListExactly(memory: seq<int>, sites: seq<Site>)
    requires Holds(memory, sites)
    ensures Intact(sites) <==> Chain(memory, Head(sites), 0) && Links(memory, Head(sites), 0) == Cells(sites)
    decreases |sites|
  {
    hide Content, Cells, Links;
    if sites == [] {
      NoCells();
      NoLinks(memory);
    } else {
      var n := |sites| - 1;
      var (init, a) := (sites[..n], Head(sites));
      assert SiteHolds(memory, sites, n);
      assert sites[..n + 1] == sites;
      PrefixHolds(memory, sites, n);
      ListExactly(memory, init);
      CellsLast(sites);
      CellsBelow(memory, init);
      LinksNext(memory, a);
      if Content(sites, n) == Head(init) {
        IntactNext(sites, n);
        if Intact(sites) {
          IntactPrefix(sites, n);
        }
      } else {
        VoidTwice(Head(init));
        assert !Intact(sites) && memory[a] == Content(sites, n) > Head(init) by { BrokenContent(sites, n); }
        if Chain(memory, a, 0) {
          BrokenLink(memory, memory[a]);
        }
      }
    }
  }

  lemma BrokenContent(sites: seq<Site>, n: nat)
    requires n < |sites| && Content(sites, n) != Head(sites[..n])
    ensures Content(sites, n) > Head(sites[..n]) && !Intact(sites)
  {
    VoidTwice(Head(sites[..n]));
  }

  lemma NoLinks(memory: seq<int>)
    ensures Links(memory, 0, 0) == {}
  {
  }

  lemma CellsBelow(memory: seq<int>, sites: seq<Site>)
    requires Holds(memory, sites)
    ensures forall c :: c in Cells(sites) ==> c <= Head(sites)
  {
    if sites != [] {
      BelowHead(memory, sites);
    }
  }

  lemma LinksNext(memory: seq<int>, a: int)
    requires 0 < a < |memory|
    ensures Chain(memory, a, 0) <==> memory[a] < a && Chain(memory, memory[a], 0)
    ensures Chain(memory, a, 0) ==> Links(memory, a, 0) == {a} + Links(memory, memory[a], 0) && a !in Links(memory, memory[a], 0)
  {
  }

  lemma BrokenLink(memory: seq<int>, y: int)
    requires y != 0 && Chain(memory, y, 0)
    ensures y in Links(memory, y, 0)
  {
  }

  // ------------------------------------------------------- calls that are statements

  /** What is done to the last instruction of an expression that is a statement. */
  lemma CallStatementExactly(c: seq<int>, link: int)
    ensures var code := c + [IC_CALL2, link];
      Dropped(code) == code <==> link < MIN_INSTRUCTION_CODE || !HasVoidVersion(link)
  {
    var code := c + [IC_CALL2, link];
    assert code[|code| - 1] == link && code[|code| - 2] == IC_CALL2;
    if link >= MIN_INSTRUCTION_CODE && HasVoidVersion(link) {
      assert Dropped(code)[|code| - 1] != link;
    } else {
      assert Dropped(code) == code;
    }
  }

  // ------------------------------------------------------------- the encoder's part

  class CallEncoder {
    var memory: seq<int>
    var functions: seq<int>
    var displacements: map<int, int>
    /** The parameters of the function that is being encoded. */
    var parameters: seq<int>

    function State(): Linking
      reads this
    {
      Linking(memory, functions, displacements)
    }

    constructor ()
      ensures State() == Linking([0, 0, 0, 0], [0, 0], map[]) && parameters == []
    {
      memory := [0, 0, 0, 0];
      functions := [0, 0];
      displacements := map[];
      parameters := [];
    }

    method DisplacementsGet(id: int) returns (d: int)
      ensures d == Displ(State(), id)
    {
      d := if id in displacements then displacements[id] else 0;
    }

    /** Numbers a function, and walks from the head of its prototype, whatever the cells there hold. */
    method FunctionsAdd(id: int, prototype: int)
      requires var d := Displ(State().(displacements := displacements[id := |functions|]), prototype);
        d < 0 ==> Ends(memory, -d, |functions|)
      modifies `memory, `functions, `displacements
      ensures AddFunction(old(State()), id, prototype) == Some(State())
    {
      var number := |functions|;
      functions := functions + [|memory|];
      displacements := displacements[id := number];
      var d := DisplacementsGet(prototype);
      if d < 0 {
        var address: int := Abs(d);
        ghost var turns := Turns(memory, -d, number);
        while address != 0
          invariant functions == old(functions) + [|old(memory)|]
          invariant displacements == old(displacements)[id := number]
          invariant Walk(memory, address, number, turns).Some?
          invariant Walk(memory, address, number, turns) == Walk(old(memory), -d, number, Turns(old(memory), -d, number))
          decreases turns
        {
          var ref := memory[address];
          memory := memory[address := number];
          address := ref;
          turns := turns - 1;
        }
      }
    }

    method FunctionsGet(id: int) returns (number: int)
      modifies `displacements
      ensures id in parameters ==> number == Displ(State(), id) && displacements == old(displacements)
      ensures id !in parameters ==> number == Abs(Displ(old(State()), id))
      ensures id !in parameters ==>
        displacements == (if Displ(old(State()), id) <= 0 then old(displacements)[id := -|memory|] else old(displacements))
    {
      var d := DisplacementsGet(id);
      for i := 0 to |parameters|
        invariant id !in parameters[..i]
        invariant displacements == old(displacements)
      {
        if parameters[i] == id {
          return d;
        }
        assert parameters[..i + 1] == parameters[..i] + [parameters[i]];
      }
      assert parameters[..|parameters|] == parameters;
      if d <= 0 {
        displacements := displacements[id := -|memory|];
      }
      number := Abs(d);
    }

    /** The end of a call, after its arguments. */
    method EmitCallee(id: int)
      modifies `memory, `displacements
      ensures Step(old(State()), if id in parameters then CallParameter(id) else Call(id)) == Some(State())
    {
      memory := memory + [IC_CALL2];
      var number := FunctionsGet(id);
      memory := memory + [number];
      assert memory == old(memory) + [IC_CALL2, number];
    }

    /** The end of an expression statement. */
    method DropResult()
      requires |memory| >= 2
      modifies `memory
      ensures Step(old(State()), Drop) == Some(State())
    {
      var index := if memory[|memory| - 1] < MIN_INSTRUCTION_CODE then |memory| - 2 else |memory| - 1;
      memory := memory[index := ToVoid(memory[index])];
    }
  }
}

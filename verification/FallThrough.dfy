/**
  * Switches whose items carry one literal label each, in any order and whether or not
  * their groups leave the switch: what the generated code runs, and exactly when that
  * is what section 6.8.4.2 of ISO/IEC 9899:2011 asks for.
  */
module FallThrough {
  import opened Common
  import opened Ast
  import opened Machine
  import opened Semantics
  import opened IsoC
  import opened IsoCorrect
  import opened StackNeutral

  /** Where the code goes on at an item: a case label with another value sends it to the next label. */
  function Entered(ss: seq<Stmt>, v: int, i: nat): (j: nat)
    requires i <= |ss|
    ensures i <= j <= |ss|
    decreases |ss| - i
  {
    if i < |ss| && ss[i].Case? && ss[i].tag != Lit(v) then Entered(ss, v, NextLabel(ss, i + 1)) else i
  }

  /** What an item leaves on the stack. */
  function LeftBy(s: Stmt, d: Data, fuel: nat): seq<int> {
    Stack(Trail(if IsLabel(s) then s.labelled else s, d, fuel))
  }

  /**
    * The groups that the code runs from an item on.  Each item runs as the standard
    * says; a case label that control falls into and that differs from the value on top
    * of the stack sends it on to a later label.
    */
  function GroupsRun(ss: seq<Stmt>, j: nat, stack: seq<int>, d: Data, fuel: nat): IsoResult
    requires j <= |ss| && stack != []
    decreases |ss| - j
  {
    if j == |ss| then IsoDone(Normal, d)
    else
      var r := IsoExec(ss[j], d, fuel);
      if !r.IsoDone? || !r.out.Normal? then r
      else
        var stack' := LeftBy(ss[j], d, fuel) + stack;
        GroupsRun(ss, Entered(ss, stack'[0], j + 1), stack', r.data, fuel)
  }

  /** Literal labels, one to an item, and careful bodies. */
  predicate Labelled(ss: seq<Stmt>) {
    forall k :: 0 <= k < |ss| ==> CarefulItem(ss[k])
  }

  lemma PassedOver(ss: seq<Stmt>, i: nat, top: int, d: Data, fuel: nat)
    requires i < |ss| && CarefulItem(ss[i]) && ss[i].Case? && ss[i].tag != Lit(top)
    ensures ExecItem(ss[i], top, d, fuel) == Skipped(d)
  {
    CarefulCase(ss[i]);
    assert Eval(ss[i].tag, d) == Some((ss[i].tag.value, d));
  }

  lemma ItemLeft(s: Stmt, top: int, d: Data, fuel: nat)
    requires CarefulItem(s) && (s.Case? ==> s.tag == Lit(top))
    ensures var r := ExecItem(s, top, d, fuel);
      r.Ran? && (r.result.Done? ==> r.result.left == LeftBy(s, d, fuel))
  {
    hide Exec, Trail, Careful;
    if IsLabel(s) {
      LabelPassed(s, top, d, fuel);
    }
    var b := if IsLabel(s) then s.labelled else s;
    LeavesExactly(b, d, fuel);
    LeavesStack(Exec(b, d, fuel), Trail(b, d, fuel));
  }

  lemma ItemsTurn(ss: seq<Stmt>, i: nat, stack: seq<int>, d: Data, fuel: nat)
    requires i < |ss| && stack != []
    ensures ExecItems(ss, i, stack, d, fuel) ==
      match ExecItem(ss[i], stack[0], d, fuel)
      case Skipped(d1) => ExecItems(ss, NextLabel(ss, i + 1), stack, d1, fuel)
      case Ran(r) =>
        if !r.Done? then r
        else if !r.out.Normal? then Above(r, stack)
        else ExecItems(ss, i + 1, r.left + stack, r.data, fuel)
  {
    hide ExecItem, NextLabel;
  }

  /** The generated code runs exactly these groups. */
  lemma {:induction false} ItemsAreGroups(ss: seq<Stmt>, i: nat, stack: seq<int>, d: Data, fuel: nat)
    requires i <= |ss| && stack != [] && Labelled(ss)
    ensures Forget(ExecItems(ss, i, stack, d, fuel)) == GroupsRun(ss, Entered(ss, stack[0], i), stack, d, fuel)
    decreases |ss| - i
  {
    hide IsoExec, ExecItem, CarefulItem, LeftBy, NextLabel;
    if i < |ss| {
      hide ExecItems;
      ItemsTurn(ss, i, stack, d, fuel);
      if ss[i].Case? && ss[i].tag != Lit(stack[0]) {
        PassedOver(ss, i, stack[0], d, fuel);
        ItemsAreGroups(ss, NextLabel(ss, i + 1), stack, d, fuel);
      } else {
        RanSame(ss[i], stack[0], d, fuel);
        ItemLeft(ss[i], stack[0], d, fuel);
        var r := ExecItem(ss[i], stack[0], d, fuel).result;
        if r.Done? && r.out.Normal? {
          ItemsAreGroups(ss, i + 1, r.left + stack, r.data, fuel);
        }
      }
    }
  }

  // ------------------------------------------------------------------ the first group

  lemma {:induction false} EnteredFirst(ss: seq<Stmt>, v: int, i: nat)
    requires i <= |ss| && (i == |ss| || IsLabel(ss[i]))
    ensures Entered(ss, v, i) == if CaseIndex(ss, v, i) < DefaultIndex(ss, i) then CaseIndex(ss, v, i) else DefaultIndex(ss, i)
    decreases |ss| - i
  {
    if i < |ss| && ss[i].Case? && ss[i].tag != Lit(v) {
      var k := NextLabel(ss, i + 1);
      CaseIndexSkips(ss, v, i + 1, k);
      EnteredFirst(ss, v, k);
    }
  }

  lemma {:induction false} IndexIsLabel(ss: seq<Stmt>, v: int, i: nat)
    requires i <= |ss|
    ensures CaseIndex(ss, v, i) < |ss| ==> ss[CaseIndex(ss, v, i)].Case?
    ensures DefaultIndex(ss, i) < |ss| ==> ss[DefaultIndex(ss, i)].Default?
    decreases |ss| - i
  {
    if i < |ss| {
      IndexIsLabel(ss, v, i + 1);
    }
  }

  /**
    * The code starts with the group that the standard chooses if and only if nothing
    * stands before the first label, and no default label before the label of the value.
    */
  lemma ChosenExactly(ss: seq<Stmt>, v: int)
    ensures Entered(ss, v, 0) == Chosen(ss, v) <==>
      ss == [] || (IsLabel(ss[0]) && (CaseIndex(ss, v, 0) < |ss| ==> CaseIndex(ss, v, 0) < DefaultIndex(ss, 0)))
  {
    IndexIsLabel(ss, v, 0);
    if ss != [] && IsLabel(ss[0]) {
      EnteredFirst(ss, v, 0);
    }
  }

  // --------------------------------------------------------------------- falling through

  /** Where control first falls into a label that the code does not let it pass. */
  datatype Fall = Fall(at: nat, stack: seq<int>, data: Data)

  function FirstFall(ss: seq<Stmt>, j: nat, stack: seq<int>, d: Data, fuel: nat): (f: Option<Fall>)
    requires j <= |ss| && stack != []
    ensures f.Some? ==> f.value.at < |ss| && f.value.stack != [] && ss[f.value.at].Case?
    decreases |ss| - j
  {
    if j == |ss| then None
    else
      var r := IsoExec(ss[j], d, fuel);
      if !r.IsoDone? || !r.out.Normal? then None
      else
        var stack' := LeftBy(ss[j], d, fuel) + stack;
        if Entered(ss, stack'[0], j + 1) != j + 1 then Some(Fall(j + 1, stack', r.data))
        else FirstFall(ss, j + 1, stack', r.data, fuel)
  }

  /** A break leaves the switch. */
  function Outside(r: IsoResult): IsoResult {
    if r.IsoDone? && r.out.Broke? then r.(out := Normal) else r
  }

  /** The standard's run of the rest from a label on, and the code's. */
  predicate SameAfter(ss: seq<Stmt>, f: Fall, fuel: nat)
    requires f.at <= |ss| && f.stack != []
  {
    Outside(IsoList(ss, f.at, f.data, fuel)) == Outside(GroupsRun(ss, Entered(ss, f.stack[0], f.at), f.stack, f.data, fuel))
  }

  lemma {:induction false} AgreesExactly(ss: seq<Stmt>, j: nat, stack: seq<int>, d: Data, fuel: nat)
    requires j <= |ss| && stack != []
    ensures Outside(IsoList(ss, j, d, fuel)) == Outside(GroupsRun(ss, j, stack, d, fuel)) <==>
      match FirstFall(ss, j, stack, d, fuel)
      case None => true
      case Some(f) => SameAfter(ss, f, fuel)
    decreases |ss| - j
  {
    hide IsoExec, LeftBy, Entered;
    if j < |ss| {
      var r := IsoExec(ss[j], d, fuel);
      if r.IsoDone? && r.out.Normal? {
        AgreesExactly(ss, j + 1, LeftBy(ss[j], d, fuel) + stack, r.data, fuel);
      }
    }
  }

  /** The items that the standard runs, from one on. */
  function IsoPath(ss: seq<Stmt>, j: nat, d: Data, fuel: nat): seq<nat>
    requires j <= |ss|
    decreases |ss| - j
  {
    if j == |ss| then []
    else
      var r := IsoExec(ss[j], d, fuel);
      [j] + if r.IsoDone? && r.out.Normal? then IsoPath(ss, j + 1, r.data, fuel) else []
  }

  /** The items that the code runs. */
  function CodePath(ss: seq<Stmt>, j: nat, stack: seq<int>, d: Data, fuel: nat): seq<nat>
    requires j <= |ss| && stack != []
    decreases |ss| - j
  {
    if j == |ss| then []
    else
      var r := IsoExec(ss[j], d, fuel);
      var stack' := LeftBy(ss[j], d, fuel) + stack;
      [j] + if r.IsoDone? && r.out.Normal? then CodePath(ss, Entered(ss, stack'[0], j + 1), stack', r.data, fuel) else []
  }

  lemma PathsStart(ss: seq<Stmt>, j: nat, stack: seq<int>, d: Data, fuel: nat)
    requires j <= |ss| && stack != []
    ensures j == |ss| ==> IsoPath(ss, j, d, fuel) == [] && CodePath(ss, j, stack, d, fuel) == []
    ensures j < |ss| ==>
      && IsoPath(ss, j, d, fuel) != [] && IsoPath(ss, j, d, fuel)[0] == j
      && CodePath(ss, j, stack, d, fuel) != [] && CodePath(ss, j, stack, d, fuel)[0] == j
  {
  }

  /** The code runs the items that the standard runs if and only if control never falls into a label that stops it. */
  lemma {:induction false} PathsExactly(ss: seq<Stmt>, j: nat, stack: seq<int>, d: Data, fuel: nat)
    requires j <= |ss| && stack != []
    ensures IsoPath(ss, j, d, fuel) == CodePath(ss, j, stack, d, fuel) <==> FirstFall(ss, j, stack, d, fuel) == None
    decreases |ss| - j
  {
    hide IsoExec, LeftBy;
    if j < |ss| {
      var r := IsoExec(ss[j], d, fuel);
      var (iso, code) := (IsoPath(ss, j, d, fuel), CodePath(ss, j, stack, d, fuel));
      if r.IsoDone? && r.out.Normal? {
        var stack' := LeftBy(ss[j], d, fuel) + stack;
        var k := Entered(ss, stack'[0], j + 1);
        if k == j + 1 {
          PathsExactly(ss, j + 1, stack', r.data, fuel);
          assert iso[1..] == IsoPath(ss, j + 1, r.data, fuel) && code[1..] == CodePath(ss, j + 1, stack', r.data, fuel);
        } else {
          PathsStart(ss, j + 1, stack', r.data, fuel);
          PathsStart(ss, k, stack', r.data, fuel);
          assert iso[1..] == IsoPath(ss, j + 1, r.data, fuel) && code[1..] == CodePath(ss, k, stack', r.data, fuel);
        }
      }
    }
  }

  /**
    * A switch that starts with the right group runs as the standard says if and only if
    * its run never falls into a label that differs from the value on top of the stack,
    * or what it then leaves out makes no difference.
    */
  lemma SwitchExactly(s: Stmt, d: Data, fuel: nat)
    requires s.Switch? && s.cases.Block? && ExactE(s.cond) && Labelled(s.cases.body) && Eval(s.cond, d).Some?
    requires var v := Eval(s.cond, d).value.0; Entered(s.cases.body, v, 0) == Chosen(s.cases.body, v)
    ensures
      var (v, d1) := Eval(s.cond, d).value;
      IsoExec(s, d, fuel) == Forget(Exec(s, d, fuel)) <==>
        match FirstFall(s.cases.body, Chosen(s.cases.body, v), [v], d1, fuel)
        case None => true
        case Some(f) => SameAfter(s.cases.body, f, fuel)
  {
    hide IsoEval, Eval, ExactE, IsoList, ExecItems, CarefulItem, Chosen, GroupsRun, FirstFall, Entered, SameAfter;
    ExactSame(s.cond, d);
    var (v, d1) := Eval(s.cond, d).value;
    ItemsAreGroups(s.cases.body, 0, [v], d1, fuel);
    AgreesExactly(s.cases.body, Chosen(s.cases.body, v), [v], d1, fuel);
  }

  // -------------------------------------------------- groups that keep the stack in order

  /** Labels with distinct values, default last, and groups that leave nothing on the stack. */
  predicate Plain(ss: seq<Stmt>) {
    && Labelled(ss)
    && (ss != [] ==> IsLabel(ss[0]))
    && (forall i, j :: 0 <= i < j < |ss| && ss[i].Case? && ss[j].Case? ==> ss[i].tag != ss[j].tag)
    && (forall i, j :: 0 <= i < j < |ss| && ss[i].Default? ==> !IsLabel(ss[j]))
    && (forall i :: 0 <= i < |ss| ==> Clear(ss[i], false))
  }

  /** The first case label that the standard's run from an item on falls into. */
  function FallsInto(ss: seq<Stmt>, j: nat, d: Data, fuel: nat): (f: Option<(nat, Data)>)
    requires j <= |ss|
    ensures f.Some? ==> j < f.value.0 < |ss| && ss[f.value.0].Case?
    decreases |ss| - j
  {
    if j == |ss| then None
    else
      var r := IsoExec(ss[j], d, fuel);
      if !r.IsoDone? || !r.out.Normal? then None
      else if j + 1 < |ss| && ss[j + 1].Case? then Some((j + 1, r.data))
      else FallsInto(ss, j + 1, r.data, fuel)
  }

  predicate NoCase(ss: seq<Stmt>, v: int, j: nat) {
    forall k :: j <= k < |ss| && ss[k].Case? ==> ss[k].tag != Lit(v)
  }

  lemma ClearLeft(s: Stmt, d: Data, fuel: nat)
    requires Clear(s, false)
    ensures LeftBy(s, d, fuel) == []
  {
    var b := if IsLabel(s) then s.labelled else s;
    KeepsSelectors(b, false, d, fuel);
    NoSelectors(Trail(b, d, fuel));
  }

  lemma {:induction false} FallIs(ss: seq<Stmt>, j: nat, v: int, d: Data, fuel: nat)
    requires j <= |ss| && Plain(ss) && NoCase(ss, v, j + 1)
    ensures FirstFall(ss, j, [v], d, fuel) ==
      match FallsInto(ss, j, d, fuel)
      case None => None
      case Some((k, d1)) => Some(Fall(k, [v], d1))
    decreases |ss| - j
  {
    hide IsoExec, LeftBy, Clear, CarefulItem;
    if j < |ss| {
      ClearLeft(ss[j], d, fuel);
      assert [] + [v] == [v];
      var r := IsoExec(ss[j], d, fuel);
      if r.IsoDone? && r.out.Normal? {
        FallIs(ss, j + 1, v, r.data, fuel);
      }
    }
  }

  /** Without further labels the code runs what the standard runs. */
  lemma {:induction false} NoLabels(ss: seq<Stmt>, j: nat, stack: seq<int>, d: Data, fuel: nat)
    requires j <= |ss| && stack != [] && forall k :: j < k < |ss| ==> !IsLabel(ss[k])
    ensures GroupsRun(ss, j, stack, d, fuel) == IsoList(ss, j, d, fuel)
    decreases |ss| - j
  {
    hide IsoExec, LeftBy;
    if j < |ss| {
      var r := IsoExec(ss[j], d, fuel);
      if r.IsoDone? && r.out.Normal? {
        NoLabels(ss, j + 1, LeftBy(ss[j], d, fuel) + stack, r.data, fuel);
      }
    }
  }

  lemma {:induction false} NoCaseIndex(ss: seq<Stmt>, v: int, i: nat)
    requires i <= |ss| && NoCase(ss, v, i)
    ensures CaseIndex(ss, v, i) == |ss|
    decreases |ss| - i
  {
    if i < |ss| {
      NoCaseIndex(ss, v, i + 1);
    }
  }

  lemma {:induction false} CaseIndexTag(ss: seq<Stmt>, v: int, i: nat)
    requires i <= |ss|
    ensures var k := CaseIndex(ss, v, i); k < |ss| ==> ss[k].Case? && ss[k].tag == Lit(v)
    ensures CaseIndex(ss, v, i) == |ss| ==> NoCase(ss, v, i)
    decreases |ss| - i
  {
    if i < |ss| {
      CaseIndexTag(ss, v, i + 1);
    }
  }

  lemma PlainChosen(ss: seq<Stmt>, v: int)
    requires Plain(ss)
    ensures Entered(ss, v, 0) == Chosen(ss, v) && NoCase(ss, v, Chosen(ss, v) + 1)
  {
    hide Clear, CarefulItem;
    CaseIndexTag(ss, v, 0);
    IndexIsLabel(ss, v, 0);
    ChosenExactly(ss, v);
  }

  lemma AfterFall(ss: seq<Stmt>, v: int, f: Fall, fuel: nat)
    requires Plain(ss) && f.at < |ss| && IsLabel(ss[f.at]) && f.stack == [v] && NoCase(ss, v, f.at)
    ensures SameAfter(ss, f, fuel) <==>
      Outside(IsoList(ss, f.at, f.data, fuel)) == Outside(IsoList(ss, DefaultIndex(ss, f.at), f.data, fuel))
  {
    hide IsoExec, Clear, CarefulItem;
    NoCaseIndex(ss, v, f.at);
    EnteredFirst(ss, v, f.at);
    IndexIsLabel(ss, v, f.at);
    NoLabels(ss, DefaultIndex(ss, f.at), f.stack, f.data, fuel);
  }

  /**
    * For groups with distinct labels, default last, that leave nothing on the stack: the
    * code does what the standard says if and only if the chosen group does not fall into
    * a case label, or running the case groups that follow, which the code leaves out,
    * comes to the same as running only the default group.
    */
  lemma PlainExactly(s: Stmt, d: Data, fuel: nat)
    requires s.Switch? && s.cases.Block? && ExactE(s.cond) && Plain(s.cases.body) && Eval(s.cond, d).Some?
    ensures
      var (ss, (v, d1)) := (s.cases.body, Eval(s.cond, d).value);
      IsoExec(s, d, fuel) == Forget(Exec(s, d, fuel)) <==>
        match FallsInto(ss, Chosen(ss, v), d1, fuel)
        case None => true
        case Some((k, d2)) => Outside(IsoList(ss, k, d2, fuel)) == Outside(IsoList(ss, DefaultIndex(ss, k), d2, fuel))
  {
    hide Eval, IsoExec, Exec, Plain, Chosen, FallsInto, FirstFall, SameAfter, Entered, ExactE;
    var (ss, (v, d1)) := (s.cases.body, Eval(s.cond, d).value);
    assert Labelled(ss) by { PlainLabelled(ss); }
    PlainChosen(ss, v);
    SwitchExactly(s, d, fuel);
    FallIs(ss, Chosen(ss, v), v, d1, fuel);
    match FallsInto(ss, Chosen(ss, v), d1, fuel)
    case None =>
    case Some((k, d2)) => AfterFall(ss, v, Fall(k, [v], d2), fuel);
  }

  lemma PlainLabelled(ss: seq<Stmt>)
    requires Plain(ss)
    ensures Labelled(ss)
  {
  }

  // ------------------------------------------------------------ a default that is not last

  /** `switch (1) { default: x = 0; break; case 1: x = 1; }` */
  function DefaultFirst(x: int): Stmt {
    Switch(Lit(1), Block([
      Default(Block([Effect(Assign(Set, x, Lit(0))), Break])),
      Case(Lit(1), Effect(Assign(Set, x, Lit(1))))]))
  }

  /** The code enters the default group although a later label has the value. */
  lemma DefaultFirstDiffers(x: int, d: Data, fuel: nat)
    ensures Forget(Exec(DefaultFirst(x), d, fuel)) == IsoDone(Normal, d[x := 0])
    ensures IsoExec(DefaultFirst(x), d, fuel) == IsoDone(Normal, d[x := 1])
  {
    hide ExecItems;
    var ss := DefaultFirst(x).cases.body;
    assert Eval(Lit(1), d) == Some((1, d)) && IsoEval(Lit(1), d) == Some((1, d));
    DefaultFirstItems(x, d, fuel);
    assert CaseIndex(ss, 1, 1) == 1;
    assert IsoEval(Assign(Set, x, Lit(1)), d) == Some((1, d[x := 1]));
    assert IsoExec(ss[1], d, fuel) == IsoDone(Normal, d[x := 1]);
    assert IsoList(ss, 2, d[x := 1], fuel) == IsoDone(Normal, d[x := 1]);
  }

  lemma DefaultFirstItems(x: int, d: Data, fuel: nat)
    ensures Forget(ExecItems(DefaultFirst(x).cases.body, 0, [1], d, fuel)) == IsoDone(Broke, d[x := 0])
  {
    var ss := DefaultFirst(x).cases.body;
    var b := ss[0].labelled.body;
    assert Eval(Lit(0), d) == Some((0, d));
    assert Eval(b[0].expr, d) == Some((0, d[x := 0]));
    assert EvalTail(b[0].expr, d) == Some(([], d[x := 0]));
    assert Exec(b[0], d, fuel) == Done(Normal, [], d[x := 0]);
    assert Exec(b[1], d[x := 0], fuel) == Done(Broke, [], d[x := 0]);
    assert ExecList(b, 1, d[x := 0], fuel) == Done(Broke, [], d[x := 0]);
    assert ExecList(b, 0, d, fuel) == Done(Broke, [], d[x := 0]);
    assert Exec(ss[0].labelled, d, fuel) == Done(Broke, [], d[x := 0]);
    assert ExecItem(ss[0], 1, d, fuel) == Ran(Done(Broke, [], d[x := 0]));
  }
}

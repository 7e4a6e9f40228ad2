/**
  * Lists of unfinished jumps inside the memory, and the loops that finish them.
  */
module Patching {
  import opened Common
  import opened Codegen
  import opened Threading

  /** A list of operand cells at strictly decreasing addresses that ends with the stop value. */
  predicate Chain(memory: seq<int>, head: int, stop: nat)
    decreases head
  {
    || head == stop
    || (stop < head < |memory| && memory[head] < head && Chain(memory, memory[head], stop))
  }

  /** The cells of a list. */
  function Links(memory: seq<int>, head: int, stop: nat): (r: set<int>)
    requires Chain(memory, head, stop)
    ensures forall i :: i in r ==> stop < i <= head && i < |memory|
    decreases head
  {
    if head == stop then {} else {head} + Links(memory, memory[head], stop)
  }

  /** Walks a list and writes the target into each of its cells. */
  function Repoint(memory: seq<int>, head: int, stop: nat, target: int): (r: seq<int>)
    requires Chain(memory, head, stop)
    ensures |r| == |memory|
    decreases head
  {
    if head == stop then memory
    else
      ChainFrame(memory, head, target, memory[head], stop);
      Repoint(memory[head := target], memory[head], stop, target)
  }

  lemma {:induction false} ChainFrame(memory: seq<int>, p: int, v: int, head: int, stop: nat)
    requires 0 <= p < |memory| && head < p
    requires Chain(memory, head, stop)
    ensures Chain(memory[p := v], head, stop)
    ensures Links(memory[p := v], head, stop) == Links(memory, head, stop)
    decreases head
  {
    if head != stop {
      ChainFrame(memory, p, v, memory[head], stop);
    }
  }

  /** Code that is added leaves a list as it is. */
  lemma {:induction false} ChainAppend(memory: seq<int>, more: seq<int>, head: int, stop: nat)
    requires Chain(memory, head, stop)
    ensures Chain(memory + more, head, stop) && Links(memory + more, head, stop) == Links(memory, head, stop)
    decreases head
  {
    if head != stop {
      ChainAppend(memory, more, memory[head], stop);
    }
  }

  /** So do writes outside the list. */
  lemma {:induction false} ChainOutside(memory: seq<int>, after: seq<int>, head: int, stop: nat)
    requires Chain(memory, head, stop) && |after| == |memory|
    requires forall i :: i in Links(memory, head, stop) ==> after[i] == memory[i]
    ensures Chain(after, head, stop) && Links(after, head, stop) == Links(memory, head, stop)
    decreases head
  {
    if head != stop {
      ChainOutside(memory, after, memory[head], stop);
    }
  }

  /** Patching changes the cells of its own list and no others. */
  lemma {:induction false} RepointExactly(memory: seq<int>, head: int, stop: nat, target: int)
    requires Chain(memory, head, stop)
    ensures forall i :: 0 <= i < |memory| ==>
      Repoint(memory, head, stop, target)[i] == if i in Links(memory, head, stop) then target else memory[i]
    decreases head
  {
    if head != stop {
      ChainFrame(memory, head, target, memory[head], stop);
      RepointExactly(memory[head := target], memory[head], stop, target);
    }
  }

  /** The list of one kind of hole may be walked down to its start value. */
  predicate Bounded(cells: seq<Cell>, hole: Cell, at: nat, stop: nat) {
    stop < at || (stop == at && (cells == [] || cells[0] != hole))
  }

  function StartOf(hole: Cell, breaks: nat, conts: nat): nat {
    if hole == BreakHole then breaks else conts
  }

  lemma ThreadInit(cells: seq<Cell>, at: nat, breaks: nat, conts: nat)
    requires cells != []
    ensures Thread(cells, at, breaks, conts)
      == Thread(cells[..|cells| - 1], at, breaks, conts) + [Link(cells, |cells| - 1, at, breaks, conts)]
  {
    var init := cells[..|cells| - 1];
    forall i | 0 <= i < |init|
      ensures Link(cells, i, at, breaks, conts) == Link(init, i, at, breaks, conts)
    {
      assert cells[..i] == init[..i];
    }
  }

  /** One turn of the patching loop. */
  lemma RepointTurn(memory: seq<int>, p: nat, link: int, stop: nat, target: int)
    requires stop < p < |memory| && link < p && memory[p] == target
    requires Chain(memory, link, stop)
    ensures Chain(memory[p := link], p, stop)
    ensures Repoint(memory[p := link], p, stop, target) == Repoint(memory, link, stop, target)
  {
    ChainFrame(memory, p, link, link, stop);
    assert memory[p := link][p := target] == memory;
  }

  /** The last cell of threaded code before and after the holes of one kind are closed. */
  lemma LinkClosed(cells: seq<Cell>, hole: Cell, target: int, at: nat, breaks: nat, conts: nat)
    requires cells != [] && (hole == BreakHole || hole == ContinueHole)
    ensures
      var n := |cells| - 1;
      Link(Close(cells, hole, target), n, at, breaks, conts)
      == if cells[n] == hole then target else Link(cells, n, at, breaks, conts)
  {
    var n := |cells| - 1;
    assert Close(cells, hole, target)[..n] == Close(cells[..n], hole, target);
    var other := if hole == BreakHole then ContinueHole else BreakHole;
    LastClosed(cells[..n], hole, target, other, at, StartOf(other, breaks, conts));
  }

  /** Patching the holes of one kind in threaded code leaves the threaded code of the closed cells. */
  lemma {:induction false} RepointThread(
    front: seq<int>, cells: seq<Cell>, back: seq<int>, hole: Cell, breaks: nat, conts: nat, target: int)
    requires hole == BreakHole || hole == ContinueHole
    requires Bounded(cells, hole, |front|, StartOf(hole, breaks, conts))
    ensures
      var at, stop := |front|, StartOf(hole, breaks, conts);
      var memory := front + Thread(cells, at, breaks, conts) + back;
      var head := Last(cells, hole, at, stop);
      && Chain(memory, head, stop)
      && Repoint(memory, head, stop, target) == front + Thread(Close(cells, hole, target), at, breaks, conts) + back
    decreases |cells|
  {
    hide Thread, Link;
    var at, stop := |front|, StartOf(hole, breaks, conts);
    var closed := Close(cells, hole, target);
    if cells == [] {
      assert closed == cells;
    } else {
      var n := |cells| - 1;
      var init := cells[..n];
      CloseInit(cells, hole, target);
      var x, y := Link(cells, n, at, breaks, conts), Link(closed, n, at, breaks, conts);
      LinkClosed(cells, hole, target, at, breaks, conts);
      RepointThread(front, init, [y] + back, hole, breaks, conts, target);
      ThreadInit(cells, at, breaks, conts);
      ThreadInit(closed, at, breaks, conts);
      var open' := Thread(init, at, breaks, conts);
      Regroup(front, open', x, back);
      Regroup(front, Thread(closed[..n], at, breaks, conts), y, back);
      if cells[n] == hole {
        LinkOfHole(cells, hole, at, breaks, conts);
        Rewrite(front, open', x, y, back);
        RepointTurn(front + open' + ([y] + back), at + n, x, stop, target);
      }
    }
  }

  lemma LinkOfHole(cells: seq<Cell>, hole: Cell, at: nat, breaks: nat, conts: nat)
    requires cells != [] && cells[|cells| - 1] == hole && (hole == BreakHole || hole == ContinueHole)
    ensures Link(cells, |cells| - 1, at, breaks, conts) == Last(cells[..|cells| - 1], hole, at, StartOf(hole, breaks, conts))
  {
    hide Last;
  }

  lemma CloseInit(cells: seq<Cell>, hole: Cell, target: int)
    requires cells != []
    ensures Close(cells, hole, target)[..|cells| - 1] == Close(cells[..|cells| - 1], hole, target)
  {
  }

  lemma Regroup(front: seq<int>, a: seq<int>, x: int, back: seq<int>)
    ensures front + (a + [x]) + back == front + a + ([x] + back)
  {
  }

  lemma Rewrite(front: seq<int>, a: seq<int>, x: int, y: int, back: seq<int>)
    ensures
      var memory := front + a + ([y] + back);
      var p := |front| + |a|;
      memory[p] == y && memory[p := x] == front + a + ([x] + back)
  {
  }

  /** What patching all the breaks, or all the continues, makes of the emission state. */
  lemma PatchAfter(em: Emission, cells: seq<Cell>, tag: Option<nat>, hole: Cell, target: int)
    requires Started(em)
    requires hole == BreakHole || hole == ContinueHole
    requires Bounded(cells, hole, |em.memory|, StartOf(hole, em.breaks, em.conts))
    ensures
      var stop := StartOf(hole, em.breaks, em.conts);
      var open, closed := After(em, cells, tag), After(em, Close(cells, hole, target), tag);
      var head := if hole == BreakHole then open.breaks else open.conts;
      && Chain(open.memory, head, stop)
      && closed.memory == Repoint(open.memory, head, stop, target)
      && closed.breaks == (if hole == BreakHole then stop else open.breaks)
      && closed.conts == (if hole == ContinueHole then stop else open.conts)
      && closed.pending == open.pending
  {
    var at := |em.memory|;
    var front := Patched(em.memory, em.pending, tag);
    var closed := Close(cells, hole, target);
    var other := if hole == BreakHole then ContinueHole else BreakHole;
    RepointThread(front, cells, [], hole, em.breaks, em.conts, target);
    assert After(em, cells, tag).memory == front + Thread(cells, at, em.breaks, em.conts) + [];
    assert After(em, closed, tag).memory == front + Thread(closed, at, em.breaks, em.conts) + [];
    LastClosed(cells, hole, target, other, at, StartOf(other, em.breaks, em.conts));
    LastClosed(cells, hole, target, CaseHole, at, 0);
    LastAbsent(closed, hole, at, StartOf(hole, em.breaks, em.conts));
  }
}

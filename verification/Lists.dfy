/**
  * The lists of unfinished breaks and continues over the whole emission of a program.
  */
module Lists {
  import opened Common
  import opened Ast
  import opened Codegen
  import opened Threading
  import opened Patching
  import opened Emitting
  import opened EmissionRules

  /** The cells of one kind of unfinished jump in code at an address. */
  function Holes(cells: seq<Cell>, hole: Cell, at: nat): set<int> {
    set i | 0 <= i < |cells| && cells[i] == hole :: at + i
  }

  /**
    * Both heads start lists that end at their stop value; no cell is in both, and the
    * case test that waits for a label is in neither.
    */
  predicate Sound(em: Emission, breakStop: nat, contStop: nat) {
    && Chain(em.memory, em.breaks, breakStop) && Chain(em.memory, em.conts, contStop)
    && Links(em.memory, em.breaks, breakStop) !! Links(em.memory, em.conts, contStop)
    && em.pending !in Links(em.memory, em.breaks, breakStop) && em.pending !in Links(em.memory, em.conts, contStop)
  }

  lemma HolesInit(cells: seq<Cell>, hole: Cell, at: nat)
    requires cells != []
    ensures
      var n := |cells| - 1;
      Holes(cells, hole, at) == Holes(cells[..n], hole, at) + (if cells[n] == hole then {at + n} else {})
  {
    var n := |cells| - 1;
    forall x | x in Holes(cells, hole, at)
      ensures x in Holes(cells[..n], hole, at) + (if cells[n] == hole then {at + n} else {})
    {
      var i :| 0 <= i < |cells| && cells[i] == hole && x == at + i;
      assert i < n ==> cells[..n][i] == hole;
    }
    forall x | x in Holes(cells[..n], hole, at) ensures x in Holes(cells, hole, at) {
      var i :| 0 <= i < n && cells[..n][i] == hole && x == at + i;
      assert cells[i] == hole;
    }
  }

  /** Threading code behind a list makes one list of the old cells and the new ones. */
  lemma {:induction false} ThreadLinks(
    front: seq<int>, cells: seq<Cell>, hole: Cell, breaks: nat, conts: nat, stop: nat)
    requires hole == BreakHole || hole == ContinueHole
    requires Chain(front, StartOf(hole, breaks, conts), stop) && Bounded(cells, hole, |front|, stop)
    ensures
      var at := |front|;
      var memory := front + Thread(cells, at, breaks, conts);
      var head := Last(cells, hole, at, StartOf(hole, breaks, conts));
      && Chain(memory, head, stop)
      && Links(memory, head, stop) == Links(front, StartOf(hole, breaks, conts), stop) + Holes(cells, hole, at)
    decreases |cells|
  {
    hide Thread, Link, Holes, Chain, Links;
    var at, start := |front|, StartOf(hole, breaks, conts);
    if cells == [] {
      assert Holes([], hole, at) == {} by { NoHoles(hole, at); }
      assert front + Thread(cells, at, breaks, conts) == front;
    } else {
      var n := |cells| - 1;
      var init := cells[..n];
      ThreadLinks(front, init, hole, breaks, conts, stop);
      ThreadInit(cells, at, breaks, conts);
      HolesInit(cells, hole, at);
      var before := front + Thread(init, at, breaks, conts);
      var x := Link(cells, n, at, breaks, conts);
      assert front + Thread(cells, at, breaks, conts) == before + [x];
      if cells[n] == hole {
        LinkOfHole(cells, hole, at, breaks, conts);
        NewHead(before, x, stop);
      } else {
        ChainAppend(before, [x], Last(init, hole, at, start), stop);
      }
    }
  }

  lemma NoHoles(hole: Cell, at: nat)
    ensures Holes([], hole, at) == {}
  {
  }

  /** A new cell that links to the head becomes the head. */
  lemma NewHead(memory: seq<int>, head: int, stop: nat)
    requires Chain(memory, head, stop) && stop < |memory|
    ensures Chain(memory + [head], |memory|, stop)
    ensures Links(memory + [head], |memory|, stop) == Links(memory, head, stop) + {|memory|}
  {
    ChainAppend(memory, [head], head, stop);
    assert (memory + [head])[|memory|] == head;
  }

  /** One of the lists after some code. */
  lemma EmissionLinks(em: Emission, cells: seq<Cell>, tag: Option<nat>, hole: Cell, stop: nat)
    requires Started(em) && (hole == BreakHole || hole == ContinueHole)
    requires var head := StartOf(hole, em.breaks, em.conts);
      Chain(em.memory, head, stop) && em.pending !in Links(em.memory, head, stop)
    requires Bounded(cells, hole, |em.memory|, stop)
    ensures
      var after := After(em, cells, tag);
      var head := StartOf(hole, after.breaks, after.conts);
      && Chain(after.memory, head, stop)
      && Links(after.memory, head, stop)
        == Links(em.memory, StartOf(hole, em.breaks, em.conts), stop) + Holes(cells, hole, |em.memory|)
  {
    hide Thread, Last, Chain, Holes;
    var front := Patched(em.memory, em.pending, tag);
    ChainOutside(em.memory, front, StartOf(hole, em.breaks, em.conts), stop);
    ThreadLinks(front, cells, hole, em.breaks, em.conts, stop);
  }

  /** The code of any statement keeps both lists exact: each has its old cells and the unfinished jumps of the statement. */
  lemma EmissionKeepsLists(em: Emission, cells: seq<Cell>, tag: Option<nat>, breakStop: nat, contStop: nat)
    requires Started(em) && Sound(em, breakStop, contStop)
    requires Bounded(cells, BreakHole, |em.memory|, breakStop) && Bounded(cells, ContinueHole, |em.memory|, contStop)
    ensures
      var at := |em.memory|;
      var after := After(em, cells, tag);
      && Sound(after, breakStop, contStop)
      && Links(after.memory, after.breaks, breakStop) == Links(em.memory, em.breaks, breakStop) + Holes(cells, BreakHole, at)
      && Links(after.memory, after.conts, contStop) == Links(em.memory, em.conts, contStop) + Holes(cells, ContinueHole, at)
  {
    hide Thread, Last, Chain, Holes;
    EmissionLinks(em, cells, tag, BreakHole, breakStop);
    EmissionLinks(em, cells, tag, ContinueHole, contStop);
    LastIsLast(cells, CaseHole, |em.memory|, 0);
    HolesApart(cells, |em.memory|);
  }

  lemma HolesApart(cells: seq<Cell>, at: nat)
    ensures Holes(cells, BreakHole, at) !! Holes(cells, ContinueHole, at)
    ensures forall i :: 0 <= i < |cells| && cells[i] == CaseHole ==>
      at + i !in Holes(cells, BreakHole, at) && at + i !in Holes(cells, ContinueHole, at)
    ensures forall x :: x in Holes(cells, BreakHole, at) || x in Holes(cells, ContinueHole, at) ==> x >= at
  {
  }

  /** For a statement emitted in the ordinary way, with lists that end at 0. */
  lemma StatementKeepsLists(em: Emission, s: Stmt)
    requires Ready(em) && Sound(em, 0, 0)
    ensures
      var at := |em.memory|;
      var after := Emits(em, s);
      && Sound(after, 0, 0)
      && Links(after.memory, after.breaks, 0) == Links(em.memory, em.breaks, 0) + Holes(CodeS(s, at), BreakHole, at)
      && Links(after.memory, after.conts, 0) == Links(em.memory, em.conts, 0) + Holes(CodeS(s, at), ContinueHole, at)
  {
    hide Sound, After, Links, Holes, CodeS, FirstLabel;
    EmissionKeepsLists(em, CodeS(s, |em.memory|), FirstLabel(s, |em.memory|), 0, 0);
  }

  /**
    * Inside a loop the lists start anew.  However much is emitted there, the lists set
    * aside keep their cells, which the new lists never share.
    */
  lemma SavedListsApart(em: Emission, cells: seq<Cell>, tag: Option<nat>, breakStop: nat, contStop: nat, saved: nat, savedStop: nat)
    requires Started(em) && Sound(em, breakStop, contStop)
    requires Bounded(cells, BreakHole, |em.memory|, breakStop) && Bounded(cells, ContinueHole, |em.memory|, contStop)
    requires Chain(em.memory, saved, savedStop) && em.pending !in Links(em.memory, saved, savedStop)
    requires Links(em.memory, saved, savedStop) !! Links(em.memory, em.breaks, breakStop)
    requires Links(em.memory, saved, savedStop) !! Links(em.memory, em.conts, contStop)
    ensures
      var after := After(em, cells, tag);
      && Sound(after, breakStop, contStop) && Chain(after.memory, saved, savedStop)
      && Links(after.memory, saved, savedStop) == Links(em.memory, saved, savedStop)
      && Links(after.memory, saved, savedStop) !! Links(after.memory, after.breaks, breakStop)
      && Links(after.memory, saved, savedStop) !! Links(after.memory, after.conts, contStop)
  {
    hide Thread, Last, Chain, Holes;
    var at := |em.memory|;
    var front := Patched(em.memory, em.pending, tag);
    ChainOutside(em.memory, front, saved, savedStop);
    ChainAppend(front, Thread(cells, at, em.breaks, em.conts), saved, savedStop);
    EmissionKeepsLists(em, cells, tag, breakStop, contStop);
    HolesApart(cells, at);
  }
}

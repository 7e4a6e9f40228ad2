/**
  * How unfinished code looks in the encoder's memory.
  *
  * Operand cells that wait for the same target form a list: each holds the address
  * of the cell before it, and the encoder keeps the address of the last one.
  */
module Threading {
  import opened Common
  import opened Codegen

  /** The part of the encoder's state that emission of statements reads and changes. */
  datatype Emission = Emission(memory: seq<int>, breaks: nat, conts: nat, pending: nat)

  /** Address of the last hole of one kind, or the start value. */
  function Last(cells: seq<Cell>, hole: Cell, at: nat, start: nat): (p: nat)
    ensures p == start || at <= p < at + |cells|
  {
    if cells == [] then start
    else
      var n := |cells| - 1;
      if cells[n] == hole then at + n else Last(cells[..n], hole, at, start)
  }

  /** What an unfinished cell holds: a link to the previous hole of its kind. */
  function Link(cells: seq<Cell>, i: nat, at: nat, breaks: nat, conts: nat): int
    requires i < |cells|
  {
    match cells[i]
    case Val(v) => v
    case BreakHole => Last(cells[..i], BreakHole, at, breaks)
    case ContinueHole => Last(cells[..i], ContinueHole, at, conts)
    case CaseHole => 0
  }

  function Thread(cells: seq<Cell>, at: nat, breaks: nat, conts: nat): (r: seq<int>)
    ensures |r| == |cells|
    ensures forall i :: 0 <= i < |cells| ==> r[i] == Link(cells, i, at, breaks, conts)
  {
    seq(|cells|, i requires 0 <= i < |cells| => Link(cells, i, at, breaks, conts))
  }

  /** The pending case test, if any, gets the address of a label. */
  function Patched(memory: seq<int>, pending: nat, tag: Option<nat>): (r: seq<int>)
    requires pending < |memory|
    ensures |r| == |memory|
  {
    if tag.Some? && pending != 0 then memory[pending := tag.value] else memory
  }

  predicate Started(em: Emission) {
    em.pending < |em.memory|
  }

  /** The state after emitting the given code, whose first label is at the given address. */
  function After(em: Emission, cells: seq<Cell>, tag: Option<nat>): (r: Emission)
    requires Started(em)
    ensures |r.memory| == |em.memory| + |cells|
    ensures Started(r)
  {
    var at := |em.memory|;
    Emission(
      Patched(em.memory, em.pending, tag) + Thread(cells, at, em.breaks, em.conts),
      Last(cells, BreakHole, at, em.breaks),
      Last(cells, ContinueHole, at, em.conts),
      if tag.Some? then Last(cells, CaseHole, at, 0) else em.pending)
  }

  /** At most one case test is pending, and only if there is a label. */
  ghost predicate Tidy(cells: seq<Cell>, tag: Option<nat>) {
    && (forall i, j :: 0 <= i < j < |cells| && cells[i] == CaseHole ==> cells[j] != CaseHole)
    && (tag.None? ==> CaseHole !in cells)
  }

  // ---------------------------------------------------------------- emitting in two parts

  lemma {:induction false} LastJoin(a: seq<Cell>, b: seq<Cell>, hole: Cell, at: nat, start: nat)
    ensures Last(a + b, hole, at, start) == Last(b, hole, at + |a|, Last(a, hole, at, start))
    decreases |b|
  {
    if b == [] {
      assert a + b == a;
    } else {
      var n := |b| - 1;
      assert (a + b)[..|a| + n] == a + b[..n];
      LastJoin(a, b[..n], hole, at, start);
    }
  }

  lemma ThreadJoin(a: seq<Cell>, b: seq<Cell>, at: nat, breaks: nat, conts: nat)
    ensures Thread(a + b, at, breaks, conts)
         == Thread(a, at, breaks, conts)
            + Thread(b, at + |a|, Last(a, BreakHole, at, breaks), Last(a, ContinueHole, at, conts))
  {
    forall i | 0 <= i < |a + b|
      ensures Link(a + b, i, at, breaks, conts)
           == if i < |a| then Link(a, i, at, breaks, conts)
              else Link(b, i - |a|, at + |a|, Last(a, BreakHole, at, breaks), Last(a, ContinueHole, at, conts))
    {
      if i < |a| {
        assert (a + b)[..i] == a[..i];
      } else {
        assert (a + b)[..i] == a + b[..i - |a|];
        LastJoin(a, b[..i - |a|], BreakHole, at, breaks);
        LastJoin(a, b[..i - |a|], ContinueHole, at, conts);
      }
    }
  }

  lemma {:induction false} LastClosed(cells: seq<Cell>, other: Cell, target: int, hole: Cell, at: nat, start: nat)
    requires hole != other && !hole.Val?
    ensures Last(Close(cells, other, target), hole, at, start) == Last(cells, hole, at, start)
    decreases |cells|
  {
    if cells != [] {
      var n := |cells| - 1;
      assert Close(cells, other, target)[..n] == Close(cells[..n], other, target);
      LastClosed(cells[..n], other, target, hole, at, start);
    }
  }

  /** The address found is that of the last hole, and the start value means there is none. */
  lemma {:induction false} LastIsLast(cells: seq<Cell>, hole: Cell, at: nat, start: nat)
    ensures
      var p := Last(cells, hole, at, start);
      || (p == start && forall i :: 0 <= i < |cells| ==> cells[i] != hole)
      || (at <= p < at + |cells| && cells[p - at] == hole && forall i :: p - at < i < |cells| ==> cells[i] != hole)
  {
    if cells != [] {
      var n := |cells| - 1;
      LastIsLast(cells[..n], hole, at, start);
      assert forall i :: 0 <= i < n ==> cells[..n][i] == cells[i];
    }
  }

  lemma LastAbsent(cells: seq<Cell>, hole: Cell, at: nat, start: nat)
    requires hole !in cells
    ensures Last(cells, hole, at, start) == start
  {
  }

  /** The pending test is the only one. */
  lemma PendingOnly(cells: seq<Cell>, tag: nat, at: nat)
    requires at > 0 && Tidy(cells, Some(tag))
    ensures
      var p := Last(cells, CaseHole, at, 0);
      if p == 0 then forall i :: 0 <= i < |cells| ==> cells[i] != CaseHole
      else at <= p < at + |cells| && forall i :: 0 <= i < |cells| ==> (cells[i] == CaseHole <==> i == p - at)
  {
    hide Last;
    LastIsLast(cells, CaseHole, at, 0);
  }

  lemma LinkFilled(cells: seq<Cell>, tag: nat, i: nat, at: nat, breaks: nat, conts: nat)
    requires i < |cells|
    ensures Link(Close(cells, CaseHole, tag), i, at, breaks, conts)
         == if cells[i] == CaseHole then tag else Link(cells, i, at, breaks, conts)
  {
    hide Last;
    var closed := Close(cells, CaseHole, tag);
    assert closed[..i] == Close(cells[..i], CaseHole, tag);
    LastClosed(cells[..i], CaseHole, tag, BreakHole, at, breaks);
    LastClosed(cells[..i], CaseHole, tag, ContinueHole, at, conts);
  }

  /** Filling the one pending test is a single write into the threaded cells. */
  lemma ThreadFill(cells: seq<Cell>, tag: nat, at: nat, breaks: nat, conts: nat)
    requires at > 0
    requires Tidy(cells, Some(tag))
    ensures
      var p := Last(cells, CaseHole, at, 0);
      var open := Thread(cells, at, breaks, conts);
      Thread(Close(cells, CaseHole, tag), at, breaks, conts) == if p != 0 then open[p - at := tag] else open
  {
    hide Link, Thread;
    var closed := Close(cells, CaseHole, tag);
    var p := Last(cells, CaseHole, at, 0);
    forall i | 0 <= i < |cells|
      ensures Link(closed, i, at, breaks, conts)
           == if cells[i] == CaseHole then tag else Link(cells, i, at, breaks, conts)
    {
      LinkFilled(cells, tag, i, at, breaks, conts);
    }
    PendingOnly(cells, tag, at);
  }

  lemma TidyJoin(a: seq<Cell>, la: Option<nat>, b: seq<Cell>, lb: Option<nat>)
    requires Tidy(a, la) && Tidy(b, lb)
    ensures Tidy(Fill(a, lb) + b, Either(la, lb))
  {
    var all := Fill(a, lb) + b;
    if lb.Some? {
      assert forall i :: 0 <= i < |a| ==> all[i] != CaseHole;
    } else {
      assert forall i :: |a| <= i < |all| ==> all[i] == b[i - |a|] && b[i - |a|] in b;
    }
  }

  /** The memory after two pieces, when the second brings a label. */
  lemma PatchJoin(em: Emission, a: seq<Cell>, la: Option<nat>, tag: nat)
    requires Started(em) && em.memory != [] && Tidy(a, la)
    ensures var mid := After(em, a, la);
      Patched(mid.memory, mid.pending, Some(tag))
      == Patched(em.memory, em.pending, Either(la, Some(tag)))
         + Thread(Close(a, CaseHole, tag), |em.memory|, em.breaks, em.conts)
  {
    hide Thread, Link;
    var at := |em.memory|;
    var mid := After(em, a, la);
    var before := Patched(em.memory, em.pending, la);
    var cells := Thread(a, at, em.breaks, em.conts);
    ThreadFill(a, tag, at, em.breaks, em.conts);
    if la.None? {
      LastAbsent(a, CaseHole, at, 0);
      assert mid.memory == before + cells;
    } else {
      var p := mid.pending;
      assert mid.memory == before + cells;
      if p != 0 {
        assert (before + cells)[p := tag] == before + cells[p - at := tag];
      }
    }
  }

  lemma MemoryJoin(em: Emission, a: seq<Cell>, la: Option<nat>, b: seq<Cell>, lb: Option<nat>)
    requires Started(em) && em.memory != []
    requires Tidy(a, la) && Tidy(b, lb)
    ensures After(After(em, a, la), b, lb).memory == After(em, Fill(a, lb) + b, Either(la, lb)).memory
  {
    var at := |em.memory|;
    var a' := Fill(a, lb);
    var mid := After(em, a, la);
    var front := Patched(em.memory, em.pending, Either(la, lb));
    var first := Thread(a', at, em.breaks, em.conts);
    var second := Thread(b, at + |a|, mid.breaks, mid.conts);
    assert Thread(a' + b, at, em.breaks, em.conts) == first + second by {
      ThreadJoin(a', b, at, em.breaks, em.conts);
      if lb.Some? {
        LastClosed(a, CaseHole, lb.value, BreakHole, at, em.breaks);
        LastClosed(a, CaseHole, lb.value, ContinueHole, at, em.conts);
      }
    }
    assert Patched(mid.memory, mid.pending, lb) == front + first by {
      if lb.Some? {
        PatchJoin(em, a, la, lb.value);
      }
    }
    assert front + (first + second) == (front + first) + second;
  }

  lemma HeadsJoin(em: Emission, a: seq<Cell>, la: Option<nat>, b: seq<Cell>, lb: Option<nat>)
    requires Started(em) && em.memory != []
    requires Tidy(a, la) && Tidy(b, lb)
    ensures After(After(em, a, la), b, lb).(memory := []) == After(em, Fill(a, lb) + b, Either(la, lb)).(memory := [])
  {
    hide Last, Thread;
    var at := |em.memory|;
    var a' := Fill(a, lb);
    FilledLast(a, lb, BreakHole, at, em.breaks);
    FilledLast(a, lb, ContinueHole, at, em.conts);
    LastJoin(a', b, BreakHole, at, em.breaks);
    LastJoin(a', b, ContinueHole, at, em.conts);
    LastJoin(a', b, CaseHole, at, 0);
    if lb.Some? {
      LastAbsent(a', CaseHole, at, 0);
    } else {
      LastAbsent(b, CaseHole, at + |a|, Last(a, CaseHole, at, 0));
    }
  }

  lemma FilledLast(a: seq<Cell>, lb: Option<nat>, hole: Cell, at: nat, start: nat)
    requires hole == BreakHole || hole == ContinueHole
    ensures Last(Fill(a, lb), hole, at, start) == Last(a, hole, at, start)
  {
    hide Last;
    if lb.Some? {
      LastClosed(a, CaseHole, lb.value, hole, at, start);
    }
  }

  /** Emitting one piece of code after another is emitting their composition. */
  lemma AfterJoin(em: Emission, a: seq<Cell>, la: Option<nat>, b: seq<Cell>, lb: Option<nat>)
    requires Started(em) && em.memory != []
    requires Tidy(a, la) && Tidy(b, lb)
    ensures After(After(em, a, la), b, lb) == After(em, Fill(a, lb) + b, Either(la, lb))
  {
    MemoryJoin(em, a, la, b, lb);
    HeadsJoin(em, a, la, b, lb);
    var x, y := After(After(em, a, la), b, lb), After(em, Fill(a, lb) + b, Either(la, lb));
    assert x == x.(memory := []).(memory := x.memory);
    assert y == y.(memory := []).(memory := y.memory);
  }
}

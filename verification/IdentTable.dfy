/**
  * The table of identifiers as the program keeps it: vectors that grow and are
  * written in place.
  */
module IdentTable {
  import opened Scopes

  class IdentTable {
    var ids: seq<int>
    var refs: map<int, int>
    var curId: nat
    var displ: int
    var lg: int
    var maxDispl: int
    var maxDisplg: int
    var refMain: nat
    var predef: seq<int>

    function State(): Table
      reads this
    {
      Table(ids, refs, curId, displ, lg, maxDispl, maxDisplg, refMain, predef)
    }

    /** An empty table over the names that the reader knows. */
    constructor (names: map<int, int>)
      ensures State() == Table([0, 0], names, FIRST, -3, -1, 3, 3, 0, [])
    {
      ids := [0, 0];
      refs := names;
      curId := FIRST;
      displ, lg, maxDispl, maxDisplg := -3, -1, 3, 3;
      refMain := 0;
      predef := [];
    }

    method SetReference(repr: int, ref: int)
      modifies this`refs
      ensures refs == Refer(old(refs), repr, ref)
    {
      if repr in refs {
        refs := refs[repr := ref];
      }
    }

    /** Takes the cells of a variable, upwards in a function and downwards outside. */
    method GetStatic(size: int) returns (place: int)
      modifies this`displ, this`maxDispl, this`maxDisplg
      ensures place == old(displ) && State() == Allocated(old(State()), 0, size)
    {
      place := displ;
      displ := displ + lg * size;
      if lg > 0 {
        maxDispl := if displ > maxDispl then displ else maxDispl;
      } else {
        maxDisplg := -displ;
      }
    }

    /** Takes a name off the list of prototypes. */
    method ClearPrototype(repr: int)
      modifies this`predef
      ensures predef == Cleared(old(predef), repr)
    {
      for i := 0 to |predef|
        invariant |predef| == |old(predef)|
        invariant forall k :: 0 <= k < i ==> predef[k] == Cleared(old(predef), repr)[k]
        invariant forall k :: i <= k < |predef| ==> predef[k] == old(predef)[k]
      {
        if predef[i] == repr {
          predef := predef[i := 0];
        }
      }
    }

    /** Adds an entry for a name in the open block. */
    method IdentAdd(repr: int, kind: int, typ: int, funcDef: int, size: int) returns (outcome: Outcome)
      requires curId > 0
      modifies this
      ensures outcome == AddOutcome(old(State()), repr, kind, funcDef)
      ensures outcome.Added? ==> outcome.id == |old(ids)| && State() == Declared(old(State()), repr, kind, typ, funcDef, size)
      ensures !outcome.Added? ==> State() == Rejected(old(State()), repr)
    {
      hide Cleared, Allocated, Prototyped, NameCell, TypeCell, DisplCell;
      var last := |ids|;
      var ref := Reference(refs, repr);
      ids := ids + [Encode(ref), 0, 0, 0];
      if ref == 0 {
        if refMain != 0 {
          return SecondMain;
        }
        refMain := last;
      }
      var prev := ids[last];
      if prev != 0 {
        SetReference(repr, last);
      }
      if kind != 1 && prev != ITEM_MAX - 1 && prev >= curId && (funcDef != 1 || Cell(ids, prev + 1) > 0) {
        return Repeated;
      }
      FilledIs(old(State()), repr, kind, typ, funcDef, size);
      assert State() == Started(old(State()), repr);
      Fill(repr, kind, typ, funcDef, size);
      outcome := Added(last);
    }

    method Fill(repr: int, kind: int, typ: int, funcDef: int, size: int)
      requires |ids| >= 4 && ids[|ids| - 1] == 0
      modifies this`ids, this`displ, this`maxDispl, this`maxDisplg, this`predef
      ensures State() == Allocated(old(State()), kind, size).(
        ids := old(ids)[..|old(ids)| - 3]
          + [NameCell(repr, kind, typ, funcDef), TypeCell(kind, typ), DisplCell(old(State()), kind, typ)],
        predef := Prototyped(old(predef), repr, kind, typ, funcDef))
    {
      hide Cleared;
      var at := |ids| - 3;
      var displacement := DisplCell(State(), kind, typ);
      ids := ids[at := repr];
      ids := ids[at + 1 := TypeCell(kind, typ)];
      if kind < 0 {
        ids := ids[at + 2 := -displ];
        displ := displ + 1;
        maxDispl := displ;
      } else if kind == 0 {
        var place := GetStatic(size);
        ids := ids[at + 2 := place];
      } else if kind == 1 {
        ids := ids[at + 2 := 0];
      } else if kind >= 1000 {
        ids := ids[at + 2 := kind];
      } else if typ < 1000 {
        ids := ids[at + 2 := kind];
        if funcDef == 2 {
          ids := ids[at := -ids[at]];
          predef := predef + [repr];
        } else {
          ClearPrototype(repr);
        }
      }
      ThreeCells(old(ids), NameCell(repr, kind, typ, funcDef), TypeCell(kind, typ), displacement);
    }

    method ScopeBlockEnter() returns (scp: Scope)
      modifies this`curId
      ensures State() == EnterBlock(old(State())) && scp == Scope(displ, lg, old(curId))
    {
      var previous := curId;
      curId := |ids|;
      scp := Scope(displ, lg, previous);
    }

    /** Gives the names of the entries from the start of the block their previous meanings. */
    method Undo()
      requires |ids| >= 4 && curId >= 4
      modifies this`refs
      ensures refs == Replay(ids, curId, |ids|, old(refs))
    {
      var i: int := |ids| - 4;
      while i >= curId
        invariant -1 < i + 4 <= |ids|
        invariant Replay(ids, curId, i + 4, refs) == Replay(ids, curId, |ids|, old(refs))
      {
        var prev := Cell(ids, i);
        SetReference(Cell(ids, i + 1), if prev == ITEM_MAX - 1 then ITEM_MAX else prev);
        i := i - 4;
      }
    }

    method ScopeBlockExit(scp: Scope)
      requires |ids| >= 4 && curId >= 4
      modifies this`refs, this`displ, this`lg, this`curId
      ensures State() == ExitBlock(old(State()), scp)
    {
      Undo();
      displ := scp.displ;
      lg := scp.lg;
      curId := scp.curId;
    }

    method ScopeFuncEnter() returns (outer: int)
      modifies this`curId, this`displ, this`maxDispl, this`lg
      ensures State() == EnterFunction(old(State())) && outer == old(displ)
    {
      outer := displ;
      curId := |ids|;
      displ := 3;
      maxDispl := 3;
      lg := 1;
    }

    method ScopeFuncExit(outer: int) returns (most: int)
      requires |ids| >= 4 && curId >= 4
      modifies this`refs, this`displ, this`lg, this`curId
      ensures State() == ExitFunction(old(State()), outer) && most == maxDispl
    {
      Undo();
      curId := FIRST;
      lg := -1;
      displ := outer;
      most := maxDispl;
    }
  }

  /** The table with a new entry that holds only the previous meaning of its name. */
  ghost function Started(t: Table, repr: int): Table {
    var ref := Reference(t.refs, repr);
    t.(ids := t.ids + [Encode(ref), 0, 0, 0],
       refs := if ref == 0 then t.refs else Refer(t.refs, repr, |t.ids|),
       refMain := if ref == 0 then |t.ids| else t.refMain)
  }

  lemma FilledIs(t: Table, repr: int, kind: int, typ: int, funcDef: int, size: int)
    ensures var s := Started(t, repr);
      Allocated(s, kind, size).(
        ids := s.ids[..|s.ids| - 3] + [NameCell(repr, kind, typ, funcDef), TypeCell(kind, typ), DisplCell(s, kind, typ)],
        predef := Prototyped(s.predef, repr, kind, typ, funcDef))
      == Declared(t, repr, kind, typ, funcDef, size)
  {
    hide Prototyped, NameCell, TypeCell;
    var s := Started(t, repr);
    assert s.ids[..|s.ids| - 3] == t.ids + [Encode(Reference(t.refs, repr))];
  }

  lemma ThreeCells(ids: seq<int>, a: int, b: int, c: int)
    requires |ids| >= 3
    ensures var n := |ids| - 3; ids[n := a][n + 1 := b][n + 2 := c] == ids[..n] + [a, b, c]
  {
  }
}

/**
  * The listing of a whole program shows its instructions, and its jumps go to lines
  * of the listing.
  */
module Disassembly {
  import opened Common
  import opened Ast
  import opened Instructions
  import opened Codegen
  import opened ExprCorrect
  import opened Standing
  import opened Confinement
  import opened Frames
  import opened Functions
  import Compile
  import opened Decode
  import opened WellFormed
  import opened WellFormedStatements

  lemma HasSplit(memory: seq<int>, at: nat, c: seq<int>)
    requires Has(memory, at, c)
    ensures at + |c| <= |memory| && memory == memory[..at] + c + memory[at + |c|..]
  {
  }

  /** The body of a function. */
  lemma BodyFormed(memory: seq<int>, body: Stmt, at: nat)
    requires Confined(body, false, false) && Has(memory, at, Finished(CodeS(body, at)))
    ensures Formed(memory, at, at + |CodeS(body, at)|, {})
  {
    hide CodeS, Formed, Confined, Has, Stands;
    var cells := CodeS(body, at);
    HasSplit(memory, at, Finished(cells));
    Compile.ConfinedVals(body, at);
    var end := at + |cells|;
    var g := Targets(end, end, end);
    FinishedStands(memory, memory[..at], cells, memory[end..], g);
    StmtDecodes(memory, body, at, g);
    BodyEnds(memory, at, end, g, FirstLabel(body, at));
  }

  lemma BodyEnds(memory: seq<int>, at: nat, end: nat, g: Targets, tag: Option<nat>)
    requires g == Targets(end, end, end) && Decodes(memory, at, end, g, tag)
    ensures Formed(memory, at, end, {})
  {
    FormedWider(memory, at, end, Outs(g), {});
  }

  lemma FunctionFormed(memory: seq<int>, body: Stmt, size: int, at: nat)
    requires Confined(body, false, false) && Has(memory, at, FunctionCode(body, size, at))
    ensures Formed(memory, at, at + |FunctionCode(body, size, at)|, {})
  {
    hide CodeS, Formed, Confined, Has, Points;
    var c := Finished(CodeS(body, at + 3));
    var end := at + |c| + 4;
    HasJoin(memory, at, [IC_FUNC_BEG, size, end] + c, [IC_RETURN_VOID]);
    HasJoin(memory, at, [IC_FUNC_BEG, size, end], c);
    HeaderFormed(memory, at, size, end);
    BodyFormed(memory, body, at + 3);
    HasFormed(memory, end - 1, [IC_RETURN_VOID], {end});
    FormedFrom(memory, at + 3, end - 1, {}, {end});
    FormedJoinOut(memory, at, at + 3, end - 1, {end});
    FormedJoinOut(memory, at, end - 1, end, {end});
    Ends(memory, at, end, {end});
    FormedWider(memory, at, end, {end}, {});
  }

  lemma HeaderFormed(memory: seq<int>, at: nat, size: int, end: nat)
    requires Has(memory, at, [IC_FUNC_BEG, size, end])
    ensures Formed(memory, at, at + 3, {end})
  {
    HasCells(memory, at, [IC_FUNC_BEG, size, end]);
    assert memory[at + 0] == IC_FUNC_BEG && memory[at + 2] == end;
    FormedOne(memory, at, {end});
  }

  lemma UnitFormed(memory: seq<int>, u: Unit, f: Frame, at: nat)
    requires u.Function? ==> Confined(u.body, false, false)
    requires Has(memory, at, UnitCode(u, f, at))
    ensures Formed(memory, at, at + |UnitCode(u, f, at)|, {})
  {
    hide Formed, Confined, Has, CodeDecls, FunctionCode;
    match u
    case Globals(ds) => DeclsFormed(memory, ResolveDecls(ds, f), at);
    case Function(params, body) =>
      ConfinedResolved(body, Entry(params, f), false, false);
      FunctionFormed(memory, ResolveS(body, Entry(params, f)), AllocateS(body, Entry(params, f)).maxLocal, at);
  }

  lemma {:induction false} UnitsFormed(memory: seq<int>, us: seq<Unit>, f: Frame, at: nat)
    requires ConfinedUnits(us) && Has(memory, at, UnitsCode(us, f, at))
    ensures Formed(memory, at, at + |UnitsCode(us, f, at)|, {})
    decreases |us|
  {
    hide Formed, Has, UnitCode, Confined;
    HasWithin(memory, at, UnitsCode(us, f, at));
    if us == [] {
      FormedNone(memory, at);
    } else {
      var before, last := us[..|us| - 1], us[|us| - 1];
      var code := UnitsCode(before, f, at);
      HasJoin(memory, at, code, UnitCode(last, UnitsFrame(before, f), at + |code|));
      UnitsFormed(memory, before, f, at);
      UnitFormed(memory, last, UnitsFrame(before, f), at + |code|);
      FormedJoinOut(memory, at, at + |code|, at + |UnitsCode(us, f, at)|, {});
    }
  }

  /** The code of a whole program reads back up to its last cell. */
  lemma ProgramFormed(memory: seq<int>, us: seq<Unit>, f: Frame, main: int, at: nat)
    requires ConfinedUnits(us) && Has(memory, at, ProgramCode(us, f, main, at))
    ensures Formed(memory, at, at + |ProgramCode(us, f, main, at)|, {})
  {
    hide Formed, Has, UnitsCode;
    var code := UnitsCode(us, f, at);
    var k := at + |code|;
    var tail := [IC_CALL1] + [IC_CALL2, main] + [IC_STOP];
    assert tail == [IC_CALL1, IC_CALL2, main, IC_STOP];
    HasJoin(memory, at, code, tail);
    HasJoin(memory, k, [IC_CALL1] + [IC_CALL2, main], [IC_STOP]);
    HasJoin(memory, k, [IC_CALL1], [IC_CALL2, main]);
    UnitsFormed(memory, us, f, at);
    HasFormed(memory, k, [IC_CALL1], {});
    HasFormed(memory, k + 1, [IC_CALL2, main], {});
    HasFormed(memory, k + 3, [IC_STOP], {});
    FormedJoinOut(memory, at, k, k + 1, {});
    FormedJoinOut(memory, at, k + 1, k + 3, {});
    FormedJoinOut(memory, at, k + 3, k + 4, {});
  }

  // ------------------------------------------------------------------------ listing

  function Flatten(lines: seq<Line>): seq<int> {
    if lines == [] then [] else [lines[0].code] + lines[0].operands + Flatten(lines[1..])
  }

  /** A line that shows an instruction, with a target that is another line or the end. */
  ghost predicate Shows(line: Line, lines: seq<Line>, end: nat) {
    && IsCode(line.code)
    && (line.code == IC_B || line.code == IC_BE0 || line.code == IC_BNE0 ==>
        line.operands != [] && IsLine(line.operands[0], lines, end))
    && (line.code == IC_FUNC_BEG ==> |line.operands| == 2 && IsLine(line.operands[1], lines, end))
  }

  ghost predicate IsLine(target: int, lines: seq<Line>, end: nat) {
    target == end || exists k :: 0 <= k < |lines| && lines[k].pc == target
  }

  lemma CellsAre(memory: seq<int>, at: nat, n: nat)
    requires at + n <= |memory|
    ensures OperandCells(memory, at, n) == memory[at..at + n]
  {
    var cells, part := OperandCells(memory, at, n), memory[at..at + n];
    assert |cells| == |part|;
    forall i | 0 <= i < n ensures cells[i] == part[i] {
      assert cells[i] == Nth(memory, at + i);
    }
  }

  lemma FirstLine(memory: seq<int>, at: nat, n: nat, rest: seq<Line>)
    requires at < |memory| && at + 1 + n <= |memory| && Flatten(rest) == memory[at + 1 + n..]
    ensures Flatten([Line(at, memory[at], OperandCells(memory, at + 1, n))] + rest) == memory[at..]
    ensures ([Line(at, memory[at], OperandCells(memory, at + 1, n))] + rest)[1..] == rest
  {
    var next := at + 1 + n;
    var lines := [Line(at, memory[at], OperandCells(memory, at + 1, n))] + rest;
    assert lines[1..] == rest;
    CellsAre(memory, at + 1, n);
    assert memory[at..] == [memory[at]] + memory[at + 1..next] + memory[next..];
  }

  /** The lines from an address on, and the addresses of instructions there. */
  lemma ListingTurn(memory: seq<int>, at: nat)
    requires at < |memory| && Sweeps(memory, at, |memory|)
    ensures var n := Operands(memory[at]);
      var (line, next) := (Line(at, memory[at], OperandCells(memory, at + 1, n)), at + 1 + n);
      && next <= |memory| && Sweeps(memory, next, |memory|) && IsCode(memory[at])
      && Listing(memory, at) == [line] + Listing(memory, next)
      && Starts(memory, at, |memory|) == {at as int} + Starts(memory, next, |memory|)
  {
    hide IsCode, Operands, OperandCells;
    SweepBound(memory, at + 1 + Operands(memory[at]), |memory|);
  }

  lemma LineLater(i: int, first: Line, rest: seq<Line>, end: nat)
    ensures IsLine(i, rest, end) || i == first.pc ==> IsLine(i, [first] + rest, end)
  {
    var lines := [first] + rest;
    if i == first.pc {
      assert lines[0].pc == i;
    } else if i != end && IsLine(i, rest, end) {
      var k :| 0 <= k < |rest| && rest[k].pc == i;
      assert lines[k + 1].pc == i;
    }
  }

  /** The lines of well-formed code: one for every instruction, and together they are the memory. */
  lemma {:induction false} ListingIs(memory: seq<int>, at: nat)
    requires at <= |memory| && Sweeps(memory, at, |memory|)
    ensures var lines := Listing(memory, at);
      && Flatten(lines) == memory[at..]
      && (forall k :: 0 <= k < |lines| ==> lines[k].pc in Starts(memory, at, |memory|))
      && (forall i :: i in Starts(memory, at, |memory|) ==> IsLine(i, lines, |memory|))
      && (forall k :: 0 <= k < |lines| ==> LineAt(lines[k], memory))
    decreases |memory| - at
  {
    hide IsCode, Operands, OperandCells, IsLine;
    if at < |memory| {
      var n := Operands(memory[at]);
      var next := at + 1 + n;
      ListingTurn(memory, at);
      hide Listing, Starts, Sweeps, Flatten;
      ListingIs(memory, next);
      var first, rest := Line(at, memory[at], OperandCells(memory, at + 1, n)), Listing(memory, next);
      FirstLine(memory, at, n, rest);
      forall i | i in Starts(memory, at, |memory|) ensures IsLine(i, [first] + rest, |memory|) {
        LineLater(i, first, rest, |memory|);
      }
    }
  }

  /** A line holds what the memory has at its address. */
  predicate LineAt(line: Line, memory: seq<int>) {
    && line.pc < |memory| && line.code == memory[line.pc] && IsCode(line.code)
    && line.operands == OperandCells(memory, line.pc + 1, Operands(line.code))
  }

  /** The listing of well-formed code: every line is an instruction, and every jump goes to a line or to the end. */
  lemma FormedListing(memory: seq<int>, at: nat)
    requires Formed(memory, at, |memory|, {})
    ensures var lines := Listing(memory, at);
      Flatten(lines) == memory[at..] && forall k :: 0 <= k < |lines| ==> Shows(lines[k], lines, |memory|)
  {
    hide Sweeps, Starts, Listing, Flatten, IsCode;
    ListingIs(memory, at);
    var lines := Listing(memory, at);
    forall k | 0 <= k < |lines| ensures Shows(lines[k], lines, |memory|) {
      var line := lines[k];
      assert LineAt(line, memory);
      if Target(memory, line.pc).Some? {
        assert Target(memory, line.pc).value in Points(memory, at, |memory|);
      }
    }
  }

  lemma ZerosListed(memory: seq<int>, at: nat)
    requires at < |memory| && memory[at] == 0
    ensures Listing(memory, at) == [Line(at, 0, [])] + Listing(memory, at + 1)
  {
    assert OperandCells(memory, at + 1, 0) == [];
  }

  /**
    * The whole listing that the compiler writes: four reserved cells, then exactly the
    * instructions of the program, cell for cell, with every jump on a line.
    */
  lemma ProgramListing(us: seq<Unit>, f: Frame, main: int)
    requires ConfinedUnits(us)
    ensures var memory := [0, 0, 0, 0] + ProgramCode(us, f, main, 4);
      var lines := Listing(memory, 4);
      && Listing(memory, 0) == [Line(0, 0, []), Line(1, 0, []), Line(2, 0, []), Line(3, 0, [])] + lines
      && Flatten(lines) == ProgramCode(us, f, main, 4)
      && forall k :: 0 <= k < |lines| ==> Shows(lines[k], lines, |memory|)
  {
    hide Formed, ProgramCode, Listing, Shows, Flatten;
    var code := ProgramCode(us, f, main, 4);
    var memory := [0, 0, 0, 0] + code;
    assert memory[4..] == code;
    assert Has(memory, 4, code);
    ProgramFormed(memory, us, f, main, 4);
    FormedListing(memory, 4);
    ZerosListed(memory, 3);
    ZerosListed(memory, 2);
    ZerosListed(memory, 1);
    ZerosListed(memory, 0);
  }
}

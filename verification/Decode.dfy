/**
  * Reading code back, instruction by instruction, as the disassembler does.
  */
module Decode {
  import opened Common
  import opened Ast
  import opened Instructions
  import opened Codegen
  import opened ExprCorrect

  const ITEM_MAX: int := 0x7fff_ffff_ffff_ffff

  /** A line of the listing: an address, an instruction, and its operands. */
  datatype Line = Line(pc: nat, code: int, operands: seq<int>)

  function Nth(memory: seq<int>, i: int): int {
    if 0 <= i < |memory| then memory[i] else ITEM_MAX
  }

  function OperandCells(memory: seq<int>, at: nat, n: nat): seq<int> {
    seq(n, i requires 0 <= i < n => Nth(memory, at + i))
  }

  /** The listing of a memory from an address on. */
  function Listing(memory: seq<int>, at: nat): seq<Line>
    decreases |memory| - at
  {
    if at >= |memory| then []
    else
      var n := Operands(memory[at]);
      [Line(at, memory[at], OperandCells(memory, at + 1, n))] + Listing(memory, at + 1 + n)
  }

  /** Reads one instruction; operands that lie past the end read as the largest item. */
  method WriteInstruction(memory: seq<int>, at: nat) returns (line: Line, next: nat)
    requires at < |memory|
    ensures line == Line(at, memory[at], OperandCells(memory, at + 1, Operands(memory[at])))
    ensures next == at + 1 + Operands(memory[at])
  {
    var code := memory[at];
    next := at + 1;
    var operands := [];
    for j := 0 to Operands(code)
      invariant next == at + 1 + j && operands == OperandCells(memory, at + 1, j)
    {
      operands := operands + [Nth(memory, next)];
      next := next + 1;
    }
    line := Line(at, code, operands);
  }

  /** Lists the whole memory. */
  method WriteCodes(memory: seq<int>) returns (lines: seq<Line>)
    ensures lines == Listing(memory, 0)
  {
    lines := [];
    var i := 0;
    while i < |memory|
      invariant lines + Listing(memory, i) == Listing(memory, 0)
      decreases |memory| - i
    {
      var line, next := WriteInstruction(memory, i);
      lines := lines + [line];
      i := next;
    }
  }

  // -------------------------------------------------------------------- sweeps

  /** The instructions of the generated code. */
  predicate IsCode(c: int) {
    || c in {IC_LI, IC_LOAD, IC_STOP, IC_FUNC_BEG, IC_CALL1, IC_CALL2, IC_RETURN_VAL, IC_RETURN_VOID, IC_B, IC_BE0, IC_BNE0}
    || c in {IC_DUPLICATE, IC_ABSI, IC_UNMINUS, IC_NOT, IC_LOG_NOT}
    || IC_REM_ASSIGN <= c <= IC_DIV_ASSIGN || IC_ASSIGN_V <= c <= IC_DIV_ASSIGN_V
    || IC_REM <= c <= IC_PRE_DEC || IC_POST_INC_V <= c <= IC_PRE_DEC_V
  }

  /** Reading from one address lands exactly on another, and meets only instructions on the way. */
  predicate Sweeps(memory: seq<int>, from: nat, end: nat)
    decreases end - from
  {
    from == end ||
    (from < end <= |memory| && IsCode(memory[from]) && Sweeps(memory, from + 1 + Operands(memory[from]), end))
  }

  /** The addresses of the instructions met. */
  function Starts(memory: seq<int>, from: nat, end: nat): set<int>
    decreases end - from
  {
    if from >= end || from >= |memory| then {} else {from} + Starts(memory, from + 1 + Operands(memory[from]), end)
  }

  function Points(memory: seq<int>, from: nat, end: nat): set<int> {
    Starts(memory, from, end) + {end}
  }

  /** The address that the instruction at an address may go to. */
  function Target(memory: seq<int>, i: int): Option<int> {
    var c := Nth(memory, i);
    if c == IC_B || c == IC_BE0 || c == IC_BNE0 then Some(Nth(memory, i + 1))
    else if c == IC_FUNC_BEG then Some(Nth(memory, i + 2))
    else None
  }

  /** A piece of code reads back, and its jumps go to its instructions, to its end, or to given addresses. */
  predicate Formed(memory: seq<int>, from: nat, end: nat, outside: set<int>) {
    && from <= end <= |memory| && Sweeps(memory, from, end)
    && forall i :: i in Starts(memory, from, end) && Target(memory, i).Some? ==>
      Target(memory, i).value in Points(memory, from, end) + outside
  }

  // --------------------------------------------------------------- putting together

  lemma {:induction false} SweepJoin(memory: seq<int>, a: nat, b: nat, c: nat)
    requires a <= b <= c && Sweeps(memory, a, b) && Sweeps(memory, b, c)
    ensures Sweeps(memory, a, c) && Starts(memory, a, c) == Starts(memory, a, b) + Starts(memory, b, c)
    decreases b - a
  {
    if a < b {
      SweepJoin(memory, a + 1 + Operands(memory[a]), b, c);
    }
  }

  /** Two pieces in a row, that may also jump into each other. */
  lemma FormedJoin(memory: seq<int>, a: nat, b: nat, c: nat, outside: set<int>)
    requires Formed(memory, a, b, outside + Points(memory, b, c))
    requires Formed(memory, b, c, outside + Points(memory, a, b))
    ensures Formed(memory, a, c, outside)
    ensures Points(memory, a, c) == Points(memory, a, b) + Points(memory, b, c)
  {
    SweepJoin(memory, a, b, c);
    StartsHead(memory, b, c);
  }

  lemma StartsHead(memory: seq<int>, from: nat, end: nat)
    requires from <= end <= |memory|
    ensures from in Points(memory, from, end)
  {
  }

  lemma FormedWider(memory: seq<int>, a: nat, b: nat, outside: set<int>, wider: set<int>)
    requires Formed(memory, a, b, outside) && outside <= wider + Points(memory, a, b)
    ensures Formed(memory, a, b, wider)
  {
  }

  /** One instruction whose target is known. */
  lemma FormedOne(memory: seq<int>, a: nat, outside: set<int>)
    requires a < |memory| && IsCode(memory[a]) && a + 1 + Operands(memory[a]) <= |memory|
    requires Target(memory, a).Some? ==> Target(memory, a).value in outside
    ensures Formed(memory, a, a + 1 + Operands(memory[a]), outside)
    ensures Starts(memory, a, a + 1 + Operands(memory[a])) == {a}
  {
    var end := a + 1 + Operands(memory[a]);
    assert Starts(memory, end, end) == {};
    assert Sweeps(memory, end, end);
  }

  lemma FormedNone(memory: seq<int>, a: nat)
    requires a <= |memory|
    ensures Formed(memory, a, a, {})
  {
  }

  // ------------------------------------------------------------- changing the last one

  /** A sweep depends only on the cells it covers. */
  lemma {:induction false} SweepFrame(memory: seq<int>, other: seq<int>, from: nat, end: nat)
    requires Sweeps(memory, from, end) && end <= |memory| == |other|
    requires forall i :: from <= i < end ==> other[i] == memory[i]
    ensures Sweeps(other, from, end) && Starts(other, from, end) == Starts(memory, from, end)
    ensures forall i :: i in Starts(memory, from, end) ==>
      from <= i < |memory| && i + 1 + Operands(memory[i]) <= end
    decreases end - from
  {
    if from < end {
      var next := from + 1 + Operands(memory[from]);
      SweepBound(memory, next, end);
      SweepFrame(memory, other, next, end);
    }
  }

  lemma SweepBound(memory: seq<int>, from: nat, end: nat)
    requires Sweeps(memory, from, end)
    ensures from <= end
  {
  }

  lemma {:induction false} SweepSplit(memory: seq<int>, from: nat, end: nat, i: nat)
    requires Sweeps(memory, from, end) && i in Starts(memory, from, end)
    ensures from <= i < end && Sweeps(memory, from, i) && Sweeps(memory, i, end)
    decreases end - from
  {
    var next := from + 1 + Operands(memory[from]);
    if i != from {
      SweepBound(memory, next, end);
      SweepSplit(memory, next, end, i);
    }
  }

  /** The last instruction is no jump, and has one operand or none. */
  ghost predicate LastPlain(memory: seq<int>, from: nat, end: nat) {
    exists i :: PlainAt(memory, from, end, i)
  }

  predicate PlainAt(memory: seq<int>, from: nat, end: nat, i: int) {
    && i in Starts(memory, from, end) && 0 <= i < |memory| && Target(memory, i).None?
    && Operands(memory[i]) <= 1 && i + 1 + Operands(memory[i]) == end
  }

  lemma LastPlainJoin(memory: seq<int>, a: nat, b: nat, c: nat)
    requires a <= b <= c && Sweeps(memory, a, b) && Sweeps(memory, b, c) && LastPlain(memory, b, c)
    ensures LastPlain(memory, a, c)
  {
    SweepJoin(memory, a, b, c);
    var i :| PlainAt(memory, b, c, i);
    assert PlainAt(memory, a, c, i);
  }

  /** The last instruction may be replaced by another of its shape, with any operand. */
  lemma LastReplaced(memory: seq<int>, other: seq<int>, from: nat, end: nat, i: nat)
    requires Formed(memory, from, end, {}) && PlainAt(memory, from, end, i)
    requires |other| == |memory| && forall k :: from <= k < i ==> other[k] == memory[k]
    requires IsCode(other[i]) && Operands(other[i]) == Operands(memory[i]) && Target(other, i).None?
    ensures Formed(other, from, end, {})
  {
    SweepSplit(memory, from, end, i);
    SweepFrame(memory, other, from, i);
    SweepJoin(memory, from, i, end);
    FormedOne(memory, i, {});
    FormedOne(other, i, {});
    SweepJoin(other, from, i, end);
    forall j | j in Starts(other, from, end) && Target(other, j).Some?
      ensures Target(other, j).value in Points(other, from, end)
    {
      assert j in Starts(memory, from, i);
      assert Target(other, j) == Target(memory, j);
    }
  }

  // --------------------------------------------------------------------- expressions

  lemma HasFormed(memory: seq<int>, at: nat, c: seq<int>, outside: set<int>)
    requires Has(memory, at, c) && |c| > 0 && IsCode(c[0]) && |c| == 1 + Operands(c[0])
    requires |c| == 2 && (c[0] == IC_B || c[0] == IC_BE0 || c[0] == IC_BNE0) ==> c[1] in outside
    requires c[0] != IC_FUNC_BEG
    ensures Formed(memory, at, at + |c|, outside) && Starts(memory, at, at + |c|) == {at}
    ensures c[0] != IC_B && c[0] != IC_BE0 && c[0] != IC_BNE0 ==> LastPlain(memory, at, at + |c|)
  {
    HasCells(memory, at, c);
    assert memory[at + 0] == c[0];
    if |c| == 2 {
      assert memory[at + 1] == c[1];
    }
    FormedOne(memory, at, outside);
    if c[0] != IC_B && c[0] != IC_BE0 && c[0] != IC_BNE0 {
      assert Operands(c[0]) <= 1;
      assert PlainAt(memory, at, at + |c|, at);
    }
  }

  lemma CodesKnown(e: Expr)
    ensures e.Unary? ==> IsCode(UnaryCode(e.uop)) && Operands(UnaryCode(e.uop)) == 0
    ensures e.Step? ==> IsCode(StepCode(e.sop)) && Operands(StepCode(e.sop)) == 1
    ensures e.Binary? ==> IsCode(BinaryCode(e.bop)) && Operands(BinaryCode(e.bop)) == 0
    ensures e.Assign? ==> IsCode(AssignCode(e.aop)) && Operands(AssignCode(e.aop)) == 1
  {
    CodesOfOperators();
  }

  lemma CodesOfOperators()
    ensures forall op: UnaryOp :: IsCode(UnaryCode(op)) && Operands(UnaryCode(op)) == 0
    ensures forall op: StepOp :: IsCode(StepCode(op)) && Operands(StepCode(op)) == 1
    ensures forall op: BinaryOp :: IsCode(BinaryCode(op)) && Operands(BinaryCode(op)) == 0
    ensures forall op: AssignOp :: IsCode(AssignCode(op)) && Operands(AssignCode(op)) == 1
  {
  }
}

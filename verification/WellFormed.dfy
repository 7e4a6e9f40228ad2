/**
  * The code of every tree reads back instruction by instruction, and its jumps go to
  * instructions.
  */
module WellFormed {
  import opened Common
  import opened Ast
  import opened Instructions
  import opened Codegen
  import opened ExprCorrect
  import opened Decode

  // --------------------------------------------------------------------- expressions

  /** The code of an expression is well formed, and ends with an instruction whose result can be dropped. */
  ghost predicate Reads(memory: seq<int>, at: nat, end: nat) {
    at <= end && Formed(memory, at, end, {}) && LastPlain(memory, at, end)
  }

  lemma ReadsJoin(memory: seq<int>, a: nat, b: nat, c: nat)
    requires a <= b <= c && Formed(memory, a, b, {}) && Reads(memory, b, c)
    ensures Reads(memory, a, c)
  {
    hide Sweeps, Starts, LastPlain, Target;
    FormedWider(memory, a, b, {}, {} + Points(memory, b, c));
    FormedWider(memory, b, c, {}, {} + Points(memory, a, b));
    FormedJoin(memory, a, b, c, {});
    LastPlainJoin(memory, a, b, c);
  }

  /** A piece that ends the code of an expression. */
  lemma ReadsOne(memory: seq<int>, at: nat, c: seq<int>)
    requires Has(memory, at, c) && |c| > 0 && IsCode(c[0]) && |c| == 1 + Operands(c[0])
    requires c[0] != IC_FUNC_BEG && c[0] != IC_B && c[0] != IC_BE0 && c[0] != IC_BNE0
    ensures Reads(memory, at, at + |c|)
  {
    HasFormed(memory, at, c, {});
  }

  /** One more instruction. */
  lemma ReadsMore(memory: seq<int>, at: nat, front: seq<int>, c: seq<int>)
    requires Has(memory, at, front + c) && Formed(memory, at, at + |front|, {})
    requires |c| > 0 && IsCode(c[0]) && |c| == 1 + Operands(c[0])
    requires c[0] != IC_FUNC_BEG && c[0] != IC_B && c[0] != IC_BE0 && c[0] != IC_BNE0
    ensures Reads(memory, at, at + |front + c|)
  {
    hide Formed, LastPlain;
    HasJoin(memory, at, front, c);
    ReadsOne(memory, at + |front|, c);
    ReadsJoin(memory, at, at + |front|, at + |front| + |c|);
  }

  lemma {:induction false} ExprReads(memory: seq<int>, e: Expr, at: nat)
    requires Has(memory, at, CodeE(e, at))
    ensures Reads(memory, at, at + |CodeE(e, at)|)
    decreases e, 2
  {
    hide Reads, Formed, LastPlain, IsCode, Has;
    CodesKnown(e);
    match e
    case Lit(v) => LeafReads(memory, e, at);
    case Var(x) => LeafReads(memory, e, at);
    case Step(op, x) => LeafReads(memory, e, at);
    case Unary(op, a) =>
      HasJoin(memory, at, CodeE(a, at), [UnaryCode(op)]);
      ExprReads(memory, a, at);
      AppliesReads(memory, at, CodeE(a, at), [UnaryCode(op)]);
    case Assign(op, x, a) =>
      HasJoin(memory, at, CodeE(a, at), [AssignCode(op), x]);
      ExprReads(memory, a, at);
      AppliesReads(memory, at, CodeE(a, at), [AssignCode(op), x]);
    case Binary(op, a, b) => BinaryReads(memory, e, at);
    case Comma(a, b) => CommaReads(memory, e, at);
    case Ternary(c, a, b) => TernaryReads(memory, e, at);
  }

  lemma LeafReads(memory: seq<int>, e: Expr, at: nat)
    requires (e.Lit? || e.Var? || e.Step?) && Has(memory, at, CodeE(e, at))
    ensures Reads(memory, at, at + 2)
  {
    CodesKnown(e);
    ReadsOne(memory, at, CodeE(e, at));
  }

  /** An operator after its operand. */
  lemma AppliesReads(memory: seq<int>, at: nat, front: seq<int>, c: seq<int>)
    requires Has(memory, at, front + c) && Reads(memory, at, at + |front|)
    requires 1 <= |c| <= 2 && IsCode(c[0]) && Operands(c[0]) == |c| - 1 && !IsJump(c[0])
    ensures Reads(memory, at, at + |front + c|)
  {
    ReadsMore(memory, at, front, c);
  }

  predicate IsJump(c: int) {
    c == IC_B || c == IC_BE0 || c == IC_BNE0 || c == IC_FUNC_BEG
  }

  lemma OperatorsDoNotJump(e: Expr)
    ensures e.Unary? ==> !IsJump(UnaryCode(e.uop))
    ensures e.Binary? ==> !IsJump(BinaryCode(e.bop))
    ensures e.Assign? ==> !IsJump(AssignCode(e.aop))
  {
  }

  lemma {:induction false} BinaryReads(memory: seq<int>, e: Expr, at: nat)
    requires e.Binary? && Has(memory, at, CodeE(e, at))
    ensures Reads(memory, at, at + |CodeE(e, at)|)
    decreases e, 1
  {
    hide Reads, Formed, LastPlain, IsCode, Has;
    CodesKnown(e);
    OperatorsDoNotJump(e);
    var l := CodeE(e.left, at);
    if IsLogical(e.bop) {
      LogicalReads(memory, e, at);
    } else {
      var r := CodeE(e.right, at + |l|);
      HasJoin(memory, at, l + r, [BinaryCode(e.bop)]);
      HasJoin(memory, at, l, r);
      ExprReads(memory, e.left, at);
      ExprReads(memory, e.right, at + |l|);
      ReadsTwo(memory, at, at + |l|, at + |l + r|);
      AppliesReads(memory, at, l + r, [BinaryCode(e.bop)]);
    }
  }

  lemma ReadsTwo(memory: seq<int>, a: nat, b: nat, c: nat)
    requires Reads(memory, a, b) && Reads(memory, b, c)
    ensures Reads(memory, a, c)
  {
    hide Formed, LastPlain;
    ReadsJoin(memory, a, b, c);
  }

  /** A conditional jump over a piece of code, to its end. */
  lemma JumpOver(memory: seq<int>, a: nat, b: nat, c: nat)
    requires a <= b <= c && Formed(memory, a, b, {c}) && Reads(memory, b, c)
    ensures Reads(memory, a, c)
  {
    hide Sweeps, Starts, LastPlain, Target;
    FormedWider(memory, a, b, {c}, {} + Points(memory, b, c));
    FormedWider(memory, b, c, {}, {} + Points(memory, a, b));
    FormedJoin(memory, a, b, c, {});
    LastPlainJoin(memory, a, b, c);
  }

  lemma {:induction false} LogicalReads(memory: seq<int>, e: Expr, at: nat)
    requires e.Binary? && IsLogical(e.bop) && Has(memory, at, CodeE(e, at))
    ensures Reads(memory, at, at + |CodeE(e, at)|)
    decreases e, 0
  {
    hide Reads, Formed, LastPlain, Has, UnaryCode, StepCode, AssignCode;
    var l := CodeE(e.left, at);
    var r := CodeE(e.right, at + |l| + 3);
    var jump := if e.bop == LogAnd then IC_BE0 else IC_BNE0;
    var end := at + |l| + |r| + 4;
    LogicalHas(memory, e, at);
    ExprReads(memory, e.left, at);
    ExprReads(memory, e.right, at + |l| + 3);
    CodesKnown(e);
    OperatorsDoNotJump(e);
    AppliesReads(memory, at + |l| + 3, r, [BinaryCode(e.bop)]);
    HasFormed(memory, at + |l| + 1, [jump, end], {end});
    JumpOver(memory, at + |l| + 1, at + |l| + 3, end);
    ReadsOne(memory, at + |l|, [IC_DUPLICATE]);
    ReadsTwo(memory, at + |l|, at + |l| + 1, end);
    ReadsTwo(memory, at, at + |l|, end);
  }

  lemma LogicalHas(memory: seq<int>, e: Expr, at: nat)
    requires e.Binary? && IsLogical(e.bop) && Has(memory, at, CodeE(e, at))
    ensures
      var l := CodeE(e.left, at);
      var r := CodeE(e.right, at + |l| + 3);
      var jump := if e.bop == LogAnd then IC_BE0 else IC_BNE0;
      var end := at + |l| + |r| + 4;
      && Has(memory, at, l) && Has(memory, at + |l|, [IC_DUPLICATE]) && Has(memory, at + |l| + 1, [jump, end])
      && Has(memory, at + |l| + 3, r) && Has(memory, at + |l| + 3, r + [BinaryCode(e.bop)])
      && end == at + |CodeE(e, at)|
  {
    hide Has, BinaryCode;
    var l := CodeE(e.left, at);
    var r := CodeE(e.right, at + |l| + 3);
    var jump := if e.bop == LogAnd then IC_BE0 else IC_BNE0;
    var end := at + |l| + |r| + 4;
    var head := [IC_DUPLICATE] + [jump, end];
    assert [IC_DUPLICATE, jump, end] == head;
    assert CodeE(e, at) == l + head + r + [BinaryCode(e.bop)];
    HasJoin(memory, at, l + head + r, [BinaryCode(e.bop)]);
    HasJoin(memory, at, l + head, r);
    HasJoin(memory, at, l, head);
    HasJoin(memory, at + |l|, [IC_DUPLICATE], [jump, end]);
    HasJoin(memory, at + |l| + 3, r, [BinaryCode(e.bop)]);
  }

  lemma {:induction false} CommaReads(memory: seq<int>, e: Expr, at: nat)
    requires e.Comma? && Has(memory, at, CodeE(e, at))
    ensures Reads(memory, at, at + |CodeE(e, at)|)
    decreases e, 1
  {
    hide Formed, Reads, Has, LastPlain;
    var l := CodeV(e.first, at);
    HasJoin(memory, at, l, CodeE(e.second, at + |l|));
    VoidFormed(memory, e.first, at);
    ExprReads(memory, e.second, at + |l|);
    AfterVoid(memory, at, at + |l|, at + |CodeE(e, at)|);
  }

  lemma AfterVoid(memory: seq<int>, a: nat, b: nat, c: nat)
    requires a <= b && Formed(memory, a, b, {}) && Reads(memory, b, c)
    ensures Reads(memory, a, c)
  {
    hide Formed, LastPlain;
    ReadsJoin(memory, a, b, c);
  }

  lemma {:induction false} TernaryReads(memory: seq<int>, e: Expr, at: nat)
    requires e.Ternary? && Has(memory, at, CodeE(e, at))
    ensures Reads(memory, at, at + |CodeE(e, at)|)
    decreases e, 1
  {
    hide Reads, Formed, LastPlain, Has, CodeE, IsCode, Operands;
    TernaryCode(e, at);
    var t := CodeE(e.cond, at);
    var a := CodeE(e.yes, at + |t| + 2);
    var noAt := at + |t| + |a| + 4;
    var b := CodeE(e.no, noAt);
    var end := noAt + |b|;
    BranchesHave(memory, at, t, a, b);
    ExprReads(memory, e.cond, at);
    ExprReads(memory, e.yes, at + |t| + 2);
    ExprReads(memory, e.no, noAt);
    JumpFormed(memory, at + |t|, IC_BE0, noAt);
    JumpFormed(memory, noAt - 2, IC_B, end);
    BranchesRead(memory, at, at + |t|, noAt, end);
  }

  lemma JumpFormed(memory: seq<int>, at: nat, jump: int, target: int)
    requires Has(memory, at, [jump, target]) && (jump == IC_B || jump == IC_BE0 || jump == IC_BNE0)
    ensures Formed(memory, at, at + 2, {target})
  {
    HasFormed(memory, at, [jump, target], {target});
  }

  /** Condition, jump, first branch, jump, second branch. */
  lemma BranchesRead(memory: seq<int>, at: nat, test: nat, noAt: nat, end: nat)
    requires Reads(memory, at, test) && Formed(memory, test, test + 2, {noAt})
    requires noAt >= 2 && Reads(memory, test + 2, noAt - 2) && Formed(memory, noAt - 2, noAt, {end})
    requires Reads(memory, noAt, end)
    ensures Reads(memory, at, end)
  {
    hide Sweeps, Starts, LastPlain, Target;
    JumpOver(memory, noAt - 2, noAt, end);
    FormedJoinOut(memory, test + 2, noAt - 2, end, {});
    StartsHead(memory, noAt, end);
    PointIn(memory, test + 2, noAt - 2, noAt, end);
    FormedWider(memory, test, test + 2, {noAt}, {} + Points(memory, test + 2, end));
    FormedWider(memory, test + 2, end, {}, {} + Points(memory, test, test + 2));
    FormedJoin(memory, test, test + 2, end, {});
    LastPlainJoin(memory, test + 2, noAt - 2, end);
    LastPlainJoin(memory, test, test + 2, end);
    ReadsTwo(memory, at, test, end);
  }

  lemma FormedJoinOut(memory: seq<int>, a: nat, b: nat, c: nat, outside: set<int>)
    requires Formed(memory, a, b, outside) && Formed(memory, b, c, outside)
    ensures Formed(memory, a, c, outside) && Points(memory, a, c) == Points(memory, a, b) + Points(memory, b, c)
  {
    FormedWider(memory, a, b, outside, outside + Points(memory, b, c));
    FormedWider(memory, b, c, outside, outside + Points(memory, a, b));
    FormedJoin(memory, a, b, c, outside);
  }

  lemma PointIn(memory: seq<int>, a: nat, b: nat, p: nat, c: nat)
    requires a <= b <= p <= c && Sweeps(memory, a, b) && Sweeps(memory, b, p) && Sweeps(memory, p, c) && c <= |memory|
    ensures p in Points(memory, a, c)
  {
    SweepJoin(memory, b, p, c);
    SweepJoin(memory, a, b, c);
    StartsHead(memory, p, c);
  }

  /** Dropping the result keeps the code readable, also where the drop misses its instruction. */
  lemma {:induction false} VoidFormed(memory: seq<int>, e: Expr, at: nat)
    requires Has(memory, at, CodeV(e, at))
    ensures Formed(memory, at, at + |CodeV(e, at)|, {})
    decreases e, 3
  {
    hide Formed, LastPlain, Has, CodeE;
    HasWithin(memory, at, CodeV(e, at));
    if e.Var? {
      FormedNone(memory, at);
    } else {
      var c := CodeE(e, at);
      var before := memory[..at] + c + memory[at + |c|..];
      assert Has(memory, at, Dropped(c));
      Restored(memory, at, c);
      ExprReads(before, e, at);
      DropFormed(before, memory, at, c);
    }
  }

  lemma HasWithin(memory: seq<int>, at: nat, c: seq<int>)
    requires Has(memory, at, c)
    ensures at + |c| <= |memory|
  {
  }

  lemma Restored(memory: seq<int>, at: nat, c: seq<int>)
    requires |c| >= 2 && Has(memory, at, Dropped(c))
    ensures at + |c| <= |memory|
    ensures var before := memory[..at] + c + memory[at + |c|..];
      |before| == |memory| && Has(before, at, c) && forall i :: 0 <= i < |memory| && (i < at || at + |c| <= i) ==> before[i] == memory[i]
  {
    hide Dropped;
    var before := memory[..at] + c + memory[at + |c|..];
    assert before[at..at + |c|] == c;
  }

  lemma ToVoidShape(code: int)
    requires IsCode(code)
    ensures IsCode(ToVoid(code)) && Operands(ToVoid(code)) == Operands(code)
    ensures !IsJump(code) ==> !IsJump(ToVoid(code))
    ensures Operands(code) == 0 ==> ToVoid(code) == code
  {
  }

  lemma DropFormed(before: seq<int>, memory: seq<int>, at: nat, c: seq<int>)
    requires |c| >= 2 && Has(before, at, c) && Has(memory, at, Dropped(c)) && |before| == |memory|
    requires Reads(before, at, at + |c|)
    ensures Formed(memory, at, at + |c|, {})
  {
    hide Sweeps, Starts, Formed, IsCode, ToVoid, Operands;
    var end := at + |c|;
    var i :| PlainAt(before, at, end, i);
    HasCells(before, at, c);
    HasCells(memory, at, Dropped(c));
    PlainCode(before, at, end, i);
    assert before[i] == c[i - at];
    ToVoidShape(before[i]);
    assert memory[at + (i - at)] == Dropped(c)[i - at];
    DroppedAt(c, i - at);
    assert forall k :: at <= k < i ==> memory[k] == before[k] by {
      forall k | at <= k < i ensures memory[k] == before[k] {
        assert before[at + (k - at)] == c[k - at];
        assert memory[at + (k - at)] == Dropped(c)[k - at];
      }
    }
    NoTarget(memory, i);
    LastReplaced(before, memory, at, end, i);
  }

  lemma NoTarget(memory: seq<int>, i: nat)
    requires i < |memory| && !IsJump(memory[i])
    ensures Target(memory, i).None?
  {
  }

  lemma PlainCode(memory: seq<int>, from: nat, end: nat, i: nat)
    requires Formed(memory, from, end, {}) && PlainAt(memory, from, end, i)
    ensures from <= i < end && IsCode(memory[i]) && !IsJump(memory[i])
  {
    SweepSplit(memory, from, end, i);
  }

  /** Where the last cells change, when the last instruction starts at an index. */
  lemma DroppedAt(c: seq<int>, i: nat)
    requires |c| >= 2 && i < |c| && IsCode(c[i]) && i + 1 + Operands(c[i]) == |c| && Operands(c[i]) <= 1
    ensures forall k :: 0 <= k < i ==> Dropped(c)[k] == c[k]
    ensures Dropped(c)[i] == c[i] || Dropped(c)[i] == ToVoid(c[i])
  {
  }
}

/**
  * A step semantics of the virtual machine for the instructions that the modelled
  * part of the encoder emits.  The machine itself is not part of the repository:
  * instruction names, codes and operand counts come from its tables, and what each
  * instruction does is an assumption of this model.
  */
module Machine {
  import opened Common
  import opened Ast
  import opened Arithmetic
  import opened Instructions
  import opened Runs

  /** Variables by displacement; a cell that was never written holds 0. */
  type Data = map<int, int>

  function Fetch(data: Data, name: int): int {
    if name in data then data[name] else 0
  }

  /** The operand stack grows at its front. */
  datatype State = State(pc: nat, stack: seq<int>, data: Data)

  function ArithmeticCode(code: int): Option<BinaryOp> {
    if code == IC_REM then Some(Rem)
    else if code == IC_SHL then Some(Shl)
    else if code == IC_SHR then Some(Shr)
    else if code == IC_AND then Some(And)
    else if code == IC_XOR then Some(Xor)
    else if code == IC_OR then Some(Or)
    else if code == IC_LOG_AND then Some(LogAnd)
    else if code == IC_LOG_OR then Some(LogOr)
    else if code == IC_EQ then Some(Eq)
    else if code == IC_NE then Some(Ne)
    else if code == IC_LT then Some(Lt)
    else if code == IC_GT then Some(Gt)
    else if code == IC_LE then Some(Le)
    else if code == IC_GE then Some(Ge)
    else if code == IC_ADD then Some(Add)
    else if code == IC_SUB then Some(Sub)
    else if code == IC_MUL then Some(Mul)
    else if code == IC_DIV then Some(Div)
    else None
  }

  function UnaryArithmeticCode(code: int): Option<UnaryOp> {
    if code == IC_UNMINUS then Some(Minus)
    else if code == IC_NOT then Some(BitNot)
    else if code == IC_LOG_NOT then Some(LogNot)
    else if code == IC_ABSI then Some(Abs)
    else None
  }

  /** Assignment to a variable, and whether the stored value stays on the stack. */
  function AssignmentCode(code: int): Option<(AssignOp, bool)> {
    if code == IC_ASSIGN then Some((Set, true))
    else if code == IC_MUL_ASSIGN then Some((MulSet, true))
    else if code == IC_DIV_ASSIGN then Some((DivSet, true))
    else if code == IC_REM_ASSIGN then Some((RemSet, true))
    else if code == IC_ADD_ASSIGN then Some((AddSet, true))
    else if code == IC_SUB_ASSIGN then Some((SubSet, true))
    else if code == IC_SHL_ASSIGN then Some((ShlSet, true))
    else if code == IC_SHR_ASSIGN then Some((ShrSet, true))
    else if code == IC_AND_ASSIGN then Some((AndSet, true))
    else if code == IC_XOR_ASSIGN then Some((XorSet, true))
    else if code == IC_OR_ASSIGN then Some((OrSet, true))
    else if code == IC_ASSIGN_V then Some((Set, false))
    else if code == IC_ADD_ASSIGN_V then Some((AddSet, false))
    else if code == IC_SUB_ASSIGN_V then Some((SubSet, false))
    else if code == IC_MUL_ASSIGN_V then Some((MulSet, false))
    else if code == IC_DIV_ASSIGN_V then Some((DivSet, false))
    else None
  }

  function SteppingCode(code: int): Option<(StepOp, bool)> {
    if code == IC_POST_INC then Some((PostInc, true))
    else if code == IC_POST_DEC then Some((PostDec, true))
    else if code == IC_PRE_INC then Some((PreInc, true))
    else if code == IC_PRE_DEC then Some((PreDec, true))
    else if code == IC_POST_INC_V then Some((PostInc, false))
    else if code == IC_POST_DEC_V then Some((PostDec, false))
    else if code == IC_PRE_INC_V then Some((PreInc, false))
    else if code == IC_PRE_DEC_V then Some((PreDec, false))
    else None
  }

  /** Instructions followed by one operand cell, other than jumps. */
  function StepWithOperand(code: int, x: int, s: State): Option<State> {
    if code == IC_LI then
      Some(State(s.pc + 2, [x] + s.stack, s.data))
    else if code == IC_LOAD then
      Some(State(s.pc + 2, [Fetch(s.data, x)] + s.stack, s.data))
    else if SteppingCode(code).Some? then
      var (op, keeps) := SteppingCode(code).value;
      var before := Fetch(s.data, x);
      match ApplyStep(op, before)
      case None => None
      case Some(after) =>
        var result := if IsPostfix(op) then before else after;
        Some(State(s.pc + 2, (if keeps then [result] else []) + s.stack, s.data[x := after]))
    else if AssignmentCode(code).Some? && s.stack != [] then
      var (op, keeps) := AssignmentCode(code).value;
      match ApplyAssign(op, Fetch(s.data, x), s.stack[0])
      case None => None
      case Some(after) =>
        Some(State(s.pc + 2, (if keeps then [after] else []) + s.stack[1..], s.data[x := after]))
    else
      None
  }

  function StepJump(code: int, x: int, s: State): Option<State> {
    if x < 0 then None
    else if code == IC_B then Some(s.(pc := x))
    else if s.stack == [] then None
    else
      var taken := (code == IC_BE0) == (s.stack[0] == 0);
      Some(State(if taken then x else s.pc + 2, s.stack[1..], s.data))
  }

  /** Instructions without operands. */
  function StepPlain(code: int, s: State): Option<State> {
    if s.stack == [] then None
    else if code == IC_DUPLICATE then
      Some(State(s.pc + 1, [s.stack[0]] + s.stack, s.data))
    else if UnaryArithmeticCode(code).Some? then
      match ApplyUnary(UnaryArithmeticCode(code).value, s.stack[0])
      case None => None
      case Some(v) => Some(State(s.pc + 1, [v] + s.stack[1..], s.data))
    else if ArithmeticCode(code).Some? && |s.stack| >= 2 then
      match ApplyBinary(ArithmeticCode(code).value, s.stack[1], s.stack[0])
      case None => None
      case Some(v) => Some(State(s.pc + 1, [v] + s.stack[2..], s.data))
    else
      None
  }

  /**
    * One instruction.  The header of a function is passed over: the machine goes on at
    * the address in its second operand.  There is no step from a return (it leaves the
    * function), from an undefined operation, or from a cell that holds no modelled
    * instruction.
    */
  function StepOnce(memory: seq<int>, s: State): Option<State> {
    if s.pc >= |memory| then None
    else
      var code := memory[s.pc];
      if code == IC_RETURN_VAL || code == IC_RETURN_VOID then None
      else if Operands(code) == 0 then StepPlain(code, s)
      else if s.pc + 1 >= |memory| then None
      else if code == IC_FUNC_BEG then
        if s.pc + 2 >= |memory| || memory[s.pc + 2] < 0 then None else Some(s.(pc := memory[s.pc + 2]))
      else if code == IC_B || code == IC_BE0 || code == IC_BNE0 then StepJump(code, memory[s.pc + 1], s)
      else StepWithOperand(code, memory[s.pc + 1], s)
  }

  /** The machine loaded with a memory of finished code. */
  function Loaded(memory: seq<int>): State -> Option<State> {
    s => StepOnce(memory, s)
  }

  predicate IsReturn(code: int) {
    code == IC_RETURN_VAL || code == IC_RETURN_VOID
  }

  /** The run arrives at an operation that has no defined result. */
  ghost predicate Faults(memory: seq<int>, s: State) {
    exists t :: Reaches(Loaded(memory), s, t) && FaultsNow(memory, t)
  }

  predicate FaultsNow(memory: seq<int>, t: State) {
    t.pc < |memory| && !IsReturn(memory[t.pc]) && StepOnce(memory, t) == None
  }

  lemma FaultsAfter(memory: seq<int>, s: State, t: State)
    requires Reaches(Loaded(memory), s, t) && Faults(memory, t)
    ensures Faults(memory, s)
  {
    var u :| Reaches(Loaded(memory), t, u) && FaultsNow(memory, u);
    ReachesTrans(Loaded(memory), s, t, u);
  }

  lemma FaultsAt(memory: seq<int>, s: State)
    requires FaultsNow(memory, s)
    ensures Faults(memory, s)
  {
    ReachesSelf(Loaded(memory), s);
  }
}

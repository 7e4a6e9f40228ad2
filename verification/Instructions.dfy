/**
  * Instruction codes of the virtual machine and the tables that choose between
  * them: operator to instruction, and instruction to the version that drops its
  * result.
  */
module Instructions {
  import opened Ast

  const MIN_INSTRUCTION_CODE: int := 9000

  const IC_REM_ASSIGN: int := 9001
  const IC_SHL_ASSIGN: int := 9002
  const IC_SHR_ASSIGN: int := 9003
  const IC_AND_ASSIGN: int := 9004
  const IC_XOR_ASSIGN: int := 9005
  const IC_OR_ASSIGN: int := 9006
  const IC_ASSIGN: int := 9007
  const IC_ADD_ASSIGN: int := 9008
  const IC_SUB_ASSIGN: int := 9009
  const IC_MUL_ASSIGN: int := 9010
  const IC_DIV_ASSIGN: int := 9011
  const IC_DIV_ASSIGN_AT: int := 9022
  const IC_REM: int := 9023
  const IC_SHL: int := 9024
  const IC_SHR: int := 9025
  const IC_AND: int := 9026
  const IC_XOR: int := 9027
  const IC_OR: int := 9028
  const IC_LOG_AND: int := 9029
  const IC_LOG_OR: int := 9030
  const IC_EQ: int := 9031
  const IC_NE: int := 9032
  const IC_LT: int := 9033
  const IC_GT: int := 9034
  const IC_LE: int := 9035
  const IC_GE: int := 9036
  const IC_ADD: int := 9037
  const IC_SUB: int := 9038
  const IC_MUL: int := 9039
  const IC_DIV: int := 9040
  const IC_POST_INC: int := 9041
  const IC_POST_DEC: int := 9042
  const IC_PRE_INC: int := 9043
  const IC_PRE_DEC: int := 9044
  const IC_PRE_DEC_AT: int := 9048
  const IC_UNMINUS: int := 9049
  const IC_NOT: int := 9052
  const IC_LOG_NOT: int := 9053
  const IC_ASSIGN_R: int := 9057
  const IC_DIV_ASSIGN_AT_R: int := 9072
  const IC_POST_INC_R: int := 9091
  const IC_PRE_DEC_AT_R: int := 9098
  const IC_ASSIGN_V: int := 9207
  const IC_ADD_ASSIGN_V: int := 9208
  const IC_SUB_ASSIGN_V: int := 9209
  const IC_MUL_ASSIGN_V: int := 9210
  const IC_DIV_ASSIGN_V: int := 9211
  const IC_POST_INC_V: int := 9241
  const IC_POST_DEC_V: int := 9242
  const IC_PRE_INC_V: int := 9243
  const IC_PRE_DEC_V: int := 9244
  const IC_LI: int := 9455
  const IC_LOAD: int := 9457
  const IC_STOP: int := 9461
  const IC_FUNC_BEG: int := 9463
  const IC_CALL1: int := 9465
  const IC_CALL2: int := 9466
  const IC_RETURN_VAL: int := 9467
  const IC_RETURN_VOID: int := 9468
  const IC_B: int := 9469
  const IC_BE0: int := 9470
  const IC_BNE0: int := 9471
  const IC_DUPLICATE: int := 9475
  const IC_ABSI: int := 9651

  const DISPL_TO_VOID: int := 200

  function UnaryCode(op: UnaryOp): int {
    match op
    case Minus => IC_UNMINUS
    case BitNot => IC_NOT
    case LogNot => IC_LOG_NOT
    case Abs => IC_ABSI
  }

  function StepCode(op: StepOp): int {
    match op
    case PostInc => IC_POST_INC
    case PostDec => IC_POST_DEC
    case PreInc => IC_PRE_INC
    case PreDec => IC_PRE_DEC
  }

  function BinaryCode(op: BinaryOp): int {
    match op
    case Mul => IC_MUL
    case Div => IC_DIV
    case Rem => IC_REM
    case Add => IC_ADD
    case Sub => IC_SUB
    case Shl => IC_SHL
    case Shr => IC_SHR
    case Lt => IC_LT
    case Gt => IC_GT
    case Le => IC_LE
    case Ge => IC_GE
    case Eq => IC_EQ
    case Ne => IC_NE
    case And => IC_AND
    case Xor => IC_XOR
    case Or => IC_OR
    case LogAnd => IC_LOG_AND
    case LogOr => IC_LOG_OR
  }

  function AssignCode(op: AssignOp): int {
    match op
    case Set => IC_ASSIGN
    case MulSet => IC_MUL_ASSIGN
    case DivSet => IC_DIV_ASSIGN
    case RemSet => IC_REM_ASSIGN
    case AddSet => IC_ADD_ASSIGN
    case SubSet => IC_SUB_ASSIGN
    case ShlSet => IC_SHL_ASSIGN
    case ShrSet => IC_SHR_ASSIGN
    case AndSet => IC_AND_ASSIGN
    case XorSet => IC_XOR_ASSIGN
    case OrSet => IC_OR_ASSIGN
  }

  /** The instructions for which a version without a result exists in the table. */
  predicate HasVoidVersion(code: int) {
    || IC_ASSIGN <= code <= IC_DIV_ASSIGN_AT
    || IC_POST_INC <= code <= IC_PRE_DEC_AT
    || IC_ASSIGN_R <= code <= IC_DIV_ASSIGN_AT_R
    || IC_POST_INC_R <= code <= IC_PRE_DEC_AT_R
  }

  function ToVoid(code: int): int {
    if HasVoidVersion(code) then code + DISPL_TO_VOID else code
  }

  /** The number of operand cells the disassembler takes after a code. */
  function Operands(code: int): nat {
    if code in {IC_LI, IC_LOAD, IC_B, IC_BE0, IC_BNE0, IC_RETURN_VAL, IC_CALL2} then 1
    else if code == IC_FUNC_BEG then 2
    else if IC_REM_ASSIGN <= code <= IC_DIV_ASSIGN || IC_ASSIGN_V <= code <= IC_DIV_ASSIGN_V then 1
    else if IC_POST_INC <= code <= IC_PRE_DEC || IC_POST_INC_V <= code <= IC_PRE_DEC_V then 1
    else 0
  }
}

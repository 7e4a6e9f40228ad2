/**
  * Expression and statement trees over integer variables.
  *
  * A variable carries an integer name.  In a tree that comes from the parser the
  * name is an index of the identifiers table; in a tree whose variables have been
  * allocated it is a displacement (positive in a frame, negative for a global).
  */
module Ast {
  import opened Common

  /** Operators that have one operand and no effect on variables. */
  datatype UnaryOp = Minus | BitNot | LogNot | Abs

  /** Increments and decrements. */
  datatype StepOp = PostInc | PostDec | PreInc | PreDec

  datatype BinaryOp =
    | Mul | Div | Rem | Add | Sub | Shl | Shr
    | Lt | Gt | Le | Ge | Eq | Ne
    | And | Xor | Or | LogAnd | LogOr

  datatype AssignOp =
    | Set | MulSet | DivSet | RemSet | AddSet | SubSet
    | ShlSet | ShrSet | AndSet | XorSet | OrSet

  datatype Expr =
    | Lit(value: int)
    | Var(name: int)
    | Unary(uop: UnaryOp, operand: Expr)
    | Step(sop: StepOp, target: int)
    | Binary(bop: BinaryOp, left: Expr, right: Expr)
    | Comma(first: Expr, second: Expr)
    | Ternary(cond: Expr, yes: Expr, no: Expr)
    | Assign(aop: AssignOp, dest: int, source: Expr)

  /** A declarator: an integer variable, or a structure variable of a given size. */
  datatype Decl =
    | Scalar(name: int, init: Option<Expr>)
    | Aggregate(name: int, size: nat)

  datatype Stmt =
    | Null
    | Effect(expr: Expr)
    | Declare(decls: seq<Decl>)
    | Block(body: seq<Stmt>)
    | If(cond: Expr, yes: Stmt, no: Option<Stmt>)
    | While(cond: Expr, loop: Stmt)
    | Do(loop: Stmt, cond: Expr)
    | For(start: Option<Stmt>, test: Option<Expr>, next: Option<Expr>, loop: Stmt)
    | Switch(cond: Expr, cases: Stmt)
    | Case(tag: Expr, labelled: Stmt)
    | Default(labelled: Stmt)
    | Break
    | Continue
    | Return(result: Option<Expr>)

  predicate IsLogical(op: BinaryOp) {
    op == LogAnd || op == LogOr
  }
}

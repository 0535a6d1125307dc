/** The operand and statement trees of ACLM/ast_nodes.py that the model covers. */
module Ast {
  datatype BinOp = Plus | Minus | Times

  datatype Expr =
    | Num(value: int)
    | RegName(name: string)
    | Ident(name: string)
    | FieldRef(struct: string, field: string)
    | Str(text: string)
    | Bin(op: BinOp, left: Expr, right: Expr)

  /** `cpu:` operations with a destination and an operand. */
  datatype CpuOp =
    | Set | AddOp | SubOp | AndOp | OrOp | XorOp | MulOp
    | ShlOp | ShrOp | SarOp | SalOp | RolOp | RorOp | RclOp | RcrOp
    | DivOp | ModOp

  datatype CpuUnaryOp = NotOp | NegOp | IncOp | DecOp

  /** A system call by number or by name. */
  datatype SysNum = Numbered(number: int) | Named(name: string)

  datatype Stmt =
    | Label(name: string)
    | Goto(target: string)
    | JumpIf(cond: string, target: string)
    | Cmp(left: Expr, right: Expr)
    | CpuBin(op: CpuOp, dest: string, value: Expr)
    | CpuUnary(uop: CpuUnaryOp, dest: string)
    | CallFn(callee: string, args: seq<Expr>)
    | SysCall(num: SysNum, args: seq<Expr>)
    | Ret
    | RetVal(result: Expr)
    | StackPush(value: Expr)
    | StackPop(dest: string)
}

/** Shell arithmetic: the tokens of `$(( ))` text, its syntax trees, and the trees the
    grammar can produce. */
module ArithAst {
  /** A number, an identifier, or a punctuator by its spelling. */
  datatype Token = Num(n: nat) | Id(x: string) | Sym(s: string)

  datatype Ast =
    | Number(n: int)
    | Var(x: string)
    | Index(x: string, key: Ast)
    | Bin(op: string, l: Ast, r: Ast)
    | Un(op: string, e: Ast)
    | Cond(test: Ast, thn: Ast, els: Ast)
    | Assign(x: string, op: string, rhs: Ast)
    | IncDec(x: string, delta: int, prefix: bool)

  const MAX_INT64: int := 0x7FFF_FFFF_FFFF_FFFF

  // Precedence levels, loosest first: 0 ternary, 1..10 binary, 11 power, 12 unary, 13 primary.
  const TERNARY: nat := 0
  const POWER: nat := 11
  const UNARY: nat := 12
  const PRIMARY: nat := 13

  /** The operators of binary level k, section 6.5 of C11 from `||` to `*`. */
  function OpsOf(k: nat): set<string>
    requires 1 <= k <= 10
  {
    match k
    case 1 => {"||"}
    case 2 => {"&&"}
    case 3 => {"|"}
    case 4 => {"^"}
    case 5 => {"&"}
    case 6 => {"==", "!="}
    case 7 => {"<", ">", "<=", ">="}
    case 8 => {"<<", ">>"}
    case 9 => {"+", "-"}
    case _ => {"*", "/", "%"}
  }

  /** The binary level of an operator, 0 if it is none. */
  function LevelOfOp(op: string): (k: nat)
    ensures k <= 10
    ensures k > 0 ==> op in OpsOf(k)
  {
    if op == "||" then 1
    else if op == "&&" then 2
    else if op == "|" then 3
    else if op == "^" then 4
    else if op == "&" then 5
    else if op in {"==", "!="} then 6
    else if op in {"<", ">", "<=", ">="} then 7
    else if op in {"<<", ">>"} then 8
    else if op in {"+", "-"} then 9
    else if op in {"*", "/", "%"} then 10
    else 0
  }

  const UNARY_OPS: set<string> := {"-", "+", "!", "~"}
  const ASSIGN_OPS: set<string> := {"=", "+=", "-=", "*="}

  /** The loosest level at which the tree prints without brackets. */
  function Level(e: Ast): (k: nat)
    ensures k <= PRIMARY
  {
    match e
    case Bin(op, _, _) => if op == "**" then POWER else LevelOfOp(op)
    case Un(_, _) => UNARY
    case Cond(_, _, _) => TERNARY
    case IncDec(_, _, prefix) => if prefix then UNARY else PRIMARY
    case Assign(_, _, _) => TERNARY
    case _ => PRIMARY
  }

  /** The trees of the grammar below the top: no assignment, known operators, int64 literals. */
  predicate IsTree(e: Ast) {
    match e
    case Number(n) => 0 <= n <= MAX_INT64
    case Var(_) => true
    case Index(_, key) => IsTree(key)
    case Bin(op, l, r) => (op == "**" || LevelOfOp(op) > 0) && IsTree(l) && IsTree(r)
    case Un(op, a) => op in UNARY_OPS && IsTree(a)
    case Cond(t, a, b) => IsTree(t) && IsTree(a) && IsTree(b)
    case Assign(_, _, _) => false
    case IncDec(_, d, _) => d == 1 || d == -1
  }

  /** The trees of the grammar: assignments chain at the top only. */
  predicate IsTop(e: Ast) {
    if e.Assign? then e.op in ASSIGN_OPS && IsTop(e.rhs) else IsTree(e)
  }
}

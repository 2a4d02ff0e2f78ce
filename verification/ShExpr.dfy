/** The right-hand sides of shell assignments, as the whole-program analyses see them. */
module ShExpr {
  import opened ArithAst

  /** Interpolated texts are sequences of parts; the literal ones are Str. Other stands for
      calls and arrays whose value the analyses know nothing about. */
  datatype Expr =
    | Str(s: string)
    | IntE(n: int)
    | VarE(x: string)
    | GetVar(x: string)
    | Interp(parts: seq<Expr>)
    | Concat(l: Expr, r: Expr)
    | Compare(l: Expr, r: Expr)
    | Numeric(l: Expr, r: Expr)
    | ArithE(e: Ast)
    | Capture
    | Other
}

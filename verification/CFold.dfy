/** Folding a call of a user function with literal arguments: a small interpreter whose answer
    replaces the call, against the meaning of C with unbounded loops. */
module CFold {
  import opened Int64
  import opened Options

  /** A folded value: a number in canonical decimal, or text that is not one. */
  datatype Value = Int(n: int) | Text(s: string)

  type Env = map<string, Value>

  datatype ArithOp = Add | Sub | Mul | Div | Mod

  datatype CmpOp = Eq | Ne | Lt | Le | Gt | Ge

  datatype Expr =
    | Lit(v: Value)
    | Var(x: string)
    | PostInc(x: string, up: bool)
    | PreInc(x: string, up: bool)
    | Cond(test: Expr, thn: Expr, els: Expr)
    | Arith(aop: ArithOp, l: Expr, r: Expr)
    | Compare(cop: CmpOp, l: Expr, r: Expr)
    | And(l: Expr, r: Expr)
    | Or(l: Expr, r: Expr)
    | Not(e: Expr)
    | VaArg

  /** The assignment operators the parser lets into a body: `=`, or `op=`. */
  datatype AssignOp = Set | With(op: ArithOp)

  datatype Stmt =
    | Skip
    | Assign(x: string, aop: AssignOp, e: Expr)
    | While(cond: Expr, body: seq<Stmt>)
    | Ret(e: Expr)

  // ---------------------------------------------------------------- operators

  /** What a value parses to as an int64. */
  function Number(v: Value): Option<int> {
    if v.Int? && Fits(v.n) then Some(v.n) else None
  }

  function Bool(b: bool): Value { Int(if b then 1 else 0) }

  /** int64 arithmetic, division truncating; undefined by zero. */
  function Compute(op: ArithOp, a: int, b: int): Option<int> {
    match op
    case Add => Some(Wrap(a + b))
    case Sub => Some(Wrap(a - b))
    case Mul => Some(Wrap(a * b))
    case Div => if b == 0 then None else Some(Quo(a, b))
    case Mod => if b == 0 then None else Some(a - TruncDiv(a, b) * b)
  }

  /** Numbers compare by value, other values by equality of text only. */
  function CompareValues(op: CmpOp, a: Value, b: Value): Option<Value> {
    if Number(a).Some? && Number(b).Some? then
      Some(Bool(match op
                case Eq => a.n == b.n
                case Ne => a.n != b.n
                case Lt => a.n < b.n
                case Le => a.n <= b.n
                case Gt => a.n > b.n
                case Ge => a.n >= b.n))
    else if op.Eq? then Some(Bool(a == b))
    else if op.Ne? then Some(Bool(a != b))
    else None
  }

  function Step(n: int, up: bool): int { Wrap(if up then n + 1 else n - 1) }

  // ---------------------------------------------------------------- the folding interpreter

  predicate IsBinary(e: Expr) {
    e.Arith? || e.Compare? || e.And? || e.Or?
  }

  function FoldConst(e: Expr, env: Env): Option<(Value, Env)>
    decreases e, 1
  {
    match e
    case Lit(v) => Some((v, env))
    case Var(x) => if x in env then Some((env[x], env)) else None
    case PostInc(x, up) =>
      if x in env && Number(env[x]).Some? then Some((env[x], env[x := Int(Step(env[x].n, up))])) else None
    case PreInc(x, up) =>
      if x in env && Number(env[x]).Some? then
        var v := Int(Step(env[x].n, up));
        Some((v, env[x := v]))
      else None
    case Cond(t, a, b) =>
      (match FoldConst(t, env)
       case None => None
       case Some((c, env1)) =>
         if Number(c).None? then None
         else if c.n != 0 then FoldConst(a, env1)
         else FoldConst(b, env1))
    case Arith(op, l, r) =>
      (match FoldBoth(e, env)
       case None => None
       case Some((a, b, env2)) =>
         if Number(a).None? || Number(b).None? || Compute(op, a.n, b.n).None? then None
         else Some((Int(Compute(op, a.n, b.n).value), env2)))
    case Compare(op, l, r) =>
      (match FoldBoth(e, env)
       case None => None
       case Some((a, b, env2)) =>
         var v := CompareValues(op, a, b);
         if v.None? then None else Some((v.value, env2)))
    case And(l, r) =>
      (match FoldBoth(e, env)
       case None => None
       case Some((a, b, env2)) =>
         if Number(a).None? || Number(b).None? then None else Some((Bool(a.n != 0 && b.n != 0), env2)))
    case Or(l, r) =>
      (match FoldBoth(e, env)
       case None => None
       case Some((a, b, env2)) =>
         if Number(a).None? || Number(b).None? then None else Some((Bool(a.n != 0 || b.n != 0), env2)))
    case Not(a) =>
      (match FoldConst(a, env)
       case None => None
       case Some((v, env1)) => if Number(v).None? then None else Some((Bool(v.n == 0), env1)))
    case VaArg => None
  }

  /** Both operands, always. */
  function FoldBoth(e: Expr, env: Env): Option<(Value, Value, Env)>
    requires IsBinary(e)
    decreases e, 0
  {
    match FoldConst(e.l, env)
    case None => None
    case Some((a, env1)) =>
      match FoldConst(e.r, env1)
      case None => None
      case Some((b, env2)) => Some((a, b, env2))
  }

  /** A statement's expression: a va_arg that is the whole expression takes the next argument. */
  function FoldTop(e: Expr, env: Env, rest: seq<Value>): Option<(Value, Env, seq<Value>)> {
    if e.VaArg? then
      if rest == [] then None else Some((rest[0], env, rest[1..]))
    else
      match FoldConst(e, env)
      case None => None
      case Some((v, env1)) => Some((v, env1, rest))
  }

  datatype Flow = Refused | Next(env: Env, rest: seq<Value>) | Done(v: Value)

  function FoldStmt(limit: nat, s: Stmt, env: Env, rest: seq<Value>): Flow
    decreases s, 0, 0
  {
    match s
    case Skip => Next(env, rest)
    case Assign(x, op, e) =>
      (match FoldTop(e, env, rest)
       case None => Refused
       case Some((v, env1, rest1)) =>
         if op.Set? then Next(env1[x := v], rest1)
         else if x !in env1 || Number(env1[x]).None? || Number(v).None? then Refused
         else if op.op == Add then Next(env1[x := Int(Wrap(env1[x].n + v.n))], rest1)
         else Next(env1[x := Int(Wrap(env1[x].n - v.n))], rest1))
    case While(c, body) => FoldWhile(limit, limit, c, body, env, rest)
    case Ret(e) =>
      (match FoldTop(e, env, rest)
       case None => Refused
       case Some((v, _, _)) => Done(v))
  }

  /** A loop that may still make so many tests; a condition that is no number counts as false. */
  function FoldWhile(limit: nat, tests: nat, c: Expr, body: seq<Stmt>, env: Env, rest: seq<Value>): Flow
    decreases body, 1, tests
  {
    if tests == 0 then Refused
    else
      match FoldTop(c, env, rest)
      case None => Refused
      case Some((v, env1, rest1)) =>
        if Number(v).None? || v.n == 0 then Next(env1, rest1)
        else
          match FoldStmts(limit, body, env1, rest1)
          case Next(env2, rest2) => FoldWhile(limit, tests - 1, c, body, env2, rest2)
          case f => f
  }

  function FoldStmts(limit: nat, ss: seq<Stmt>, env: Env, rest: seq<Value>): Flow
    decreases ss, 0, 0
  {
    if ss == [] then Next(env, rest)
    else
      match FoldStmt(limit, ss[0], env, rest)
      case Next(env1, rest1) => FoldStmts(limit, ss[1..], env1, rest1)
      case f => f
  }

  /** Parameters bound in order. */
  function Bind(params: seq<string>, args: seq<Value>): Env
    requires |params| <= |args|
  {
    if params == [] then map[]
    else Bind(params[..|params| - 1], args)[params[|params| - 1] := args[|params| - 1]]
  }

  /** The folded call: the value of the return reached, if every step could be folded. */
  function FoldBody(limit: nat, params: seq<string>, body: seq<Stmt>, args: seq<Value>): Option<Value>
    requires |params| <= |args|
  {
    match FoldStmts(limit, body, Bind(params, args), args[|params|..])
    case Done(v) => Some(v)
    case _ => None
  }

  /** How many tests a loop may make before the fold gives up. */
  const GUARD: nat := 100000

  /** The interpreter as the source runs it, over an environment and a list of variadic arguments that
      it updates in place. */
  class Interpreter {
    var env: Env
    var rest: seq<Value>
    const limit: nat

    constructor (limit: nat)
      ensures this.limit == limit && env == map[] && rest == []
    {
      this.limit, env, rest := limit, map[], [];
    }

    method EvalConst(e: Expr) returns (r: Option<Value>)
      modifies this`env
      ensures match FoldConst(e, old(env))
              case None => r.None?
              case Some((v, env1)) => r == Some(v) && env == env1
      decreases e, 1
    {
      match e {
        case Lit(v) => r := Some(v);
        case Var(x) => r := if x in env then Some(env[x]) else None;
        case PostInc(x, up) =>
          if x !in env || Number(env[x]).None? {
            return None;
          }
          r := Some(env[x]);
          env := env[x := Int(Step(env[x].n, up))];
        case PreInc(x, up) =>
          if x !in env || Number(env[x]).None? {
            return None;
          }
          env := env[x := Int(Step(env[x].n, up))];
          r := Some(env[x]);
        case Cond(t, a, b) =>
          var c := EvalConst(t);
          if c.None? || Number(c.value).None? {
            return None;
          }
          if c.value.n != 0 {
            r := EvalConst(a);
          } else {
            r := EvalConst(b);
          }
        case Not(a) =>
          var v := EvalConst(a);
          if v.None? || Number(v.value).None? {
            return None;
          }
          r := Some(Bool(v.value.n == 0));
        case VaArg => r := None;
        case _ => r := EvalBinary(e);
      }
    }

    method EvalBinary(e: Expr) returns (r: Option<Value>)
      requires IsBinary(e)
      modifies this`env
      ensures match FoldConst(e, old(env))
              case None => r.None?
              case Some((v, env1)) => r == Some(v) && env == env1
      decreases e, 0
    {
      var a := EvalConst(e.l);
      if a.None? {
        return None;
      }
      var b := EvalConst(e.r);
      if b.None? {
        return None;
      }
      assert FoldBoth(e, old(env)) == Some((a.value, b.value, env));
      if e.Compare? {
        return CompareValues(e.cop, a.value, b.value);
      }
      if Number(a.value).None? || Number(b.value).None? {
        return None;
      }
      var m, n := a.value.n, b.value.n;
      if e.And? {
        r := Some(Bool(m != 0 && n != 0));
      } else if e.Or? {
        r := Some(Bool(m != 0 || n != 0));
      } else {
        var v := Compute(e.aop, m, n);
        r := if v.None? then None else Some(Int(v.value));
      }
    }

    method EvalTop(e: Expr) returns (r: Option<Value>)
      modifies this
      ensures match FoldTop(e, old(env), old(rest))
              case None => r.None?
              case Some((v, env1, rest1)) => r == Some(v) && env == env1 && rest == rest1
    {
      if e.VaArg? {
        if rest == [] {
          return None;
        }
        r := Some(rest[0]);
        rest := rest[1..];
      } else {
        r := EvalConst(e);
      }
    }

    /** Whether folding went on, and the value returned if a return was reached. */
    method Interpret(s: Stmt) returns (ok: bool, ret: Option<Value>)
      modifies this
      ensures match FoldStmt(limit, s, old(env), old(rest))
              case Refused => !ok
              case Next(env1, rest1) => ok && ret.None? && env == env1 && rest == rest1
              case Done(v) => ok && ret == Some(v)
      decreases s, 0
    {
      match s {
        case Skip => return true, None;
        case Assign(x, op, e) =>
          var v := EvalTop(e);
          if v.None? {
            return false, None;
          }
          if op.Set? {
            env := env[x := v.value];
            return true, None;
          }
          if x !in env || Number(env[x]).None? || Number(v.value).None? {
            return false, None;
          }
          if op.op == Add {
            env := env[x := Int(Wrap(env[x].n + v.value.n))];
          } else {
            env := env[x := Int(Wrap(env[x].n - v.value.n))];
          }
          return true, None;
        case While(c, body) => ok, ret := InterpretLoop(c, body);
        case Ret(e) =>
          ret := EvalTop(e);
          ok := ret.Some?;
      }
    }

    method InterpretLoop(c: Expr, body: seq<Stmt>) returns (ok: bool, ret: Option<Value>)
      modifies this
      ensures match FoldWhile(limit, limit, c, body, old(env), old(rest))
              case Refused => !ok
              case Next(env1, rest1) => ok && ret.None? && env == env1 && rest == rest1
              case Done(v) => ok && ret == Some(v)
      decreases body, 1
    {
      for guard := 0 to limit
        invariant FoldWhile(limit, limit, c, body, old(env), old(rest))
                  == FoldWhile(limit, limit - guard, c, body, env, rest)
      {
        var v := EvalTop(c);
        if v.None? {
          return false, None;
        }
        if Number(v.value).None? || v.value.n == 0 {
          return true, None;
        }
        ok, ret := InterpretAll(body);
        if !ok || ret.Some? {
          return;
        }
      }
      return false, None;
    }

    method InterpretAll(ss: seq<Stmt>) returns (ok: bool, ret: Option<Value>)
      modifies this
      ensures match FoldStmts(limit, ss, old(env), old(rest))
              case Refused => !ok
              case Next(env1, rest1) => ok && ret.None? && env == env1 && rest == rest1
              case Done(v) => ok && ret == Some(v)
      decreases ss, 0
    {
      for i := 0 to |ss|
        invariant FoldStmts(limit, ss, old(env), old(rest)) == FoldStmts(limit, ss[i..], env, rest)
      {
        assert ss[i..][0] == ss[i] && ss[i..][1..] == ss[i + 1..];
        ok, ret := Interpret(ss[i]);
        if !ok || ret.Some? {
          return;
        }
      }
      return true, None;
    }
  }

  method FoldUserBody(params: seq<string>, body: seq<Stmt>, args: seq<Value>) returns (r: Option<Value>)
    requires |params| <= |args|
    ensures r == FoldBody(GUARD, params, body, args)
  {
    hide FoldStmts;
    var interp := new Interpreter(GUARD);
    for i := 0 to |params|
      invariant interp.env == Bind(params[..i], args) && interp.limit == GUARD
    {
      assert params[..i + 1][..i] == params[..i];
      interp.env := interp.env[params[i] := args[i]];
    }
    assert params[..|params|] == params;
    interp.rest := args[|params|..];
    var ok, ret := interp.InterpretAll(body);
    r := if ok then ret else None;
  }

  // ---------------------------------------------------------------- the meaning of C

  // Nothing here uses the fold's own operators.

  /** A value of a signed 64-bit type. */
  predicate IsNumber(v: Value) {
    v.Int? && -0x8000_0000_0000_0000 <= v.n < 0x8000_0000_0000_0000
  }

  /** A pointer to text is true, a number unless it is zero. */
  predicate Truth(v: Value) {
    v.Text? || v.n != 0
  }

  /** The int that a comparison or a logical operator gives (6.5.8, 6.5.9, 6.5.13 and 6.5.14 of C11). */
  function Flag(b: bool): Value {
    if b then Int(1) else Int(0)
  }

  ghost predicate SameModulo64(m: int, n: int) {
    exists k :: m == n + k * 0x1_0000_0000_0000_0000
  }

  /** a divided by b: the remainder is smaller than b and has a's sign (6.5.5 of C11). */
  predicate DividesInto(a: int, b: int, q: int, r: int) {
    && a == q * b + r
    && (if b > 0 then -b < r < b else b < r < -b)
    && (r > 0 ==> a > 0) && (r < 0 ==> a < 0)
  }

  /** n is what a op b gives on 64-bit numbers that wrap. */
  ghost predicate IsResult(op: ArithOp, a: int, b: int, n: int) {
    IsNumber(Int(n)) &&
    match op
    case Add => SameModulo64(n, a + b)
    case Sub => SameModulo64(n, a - b)
    case Mul => SameModulo64(n, a * b)
    case Div => exists q, r :: DividesInto(a, b, q, r) && SameModulo64(n, q)
    case Mod => exists q :: DividesInto(a, b, q, n)
  }

  ghost function RefArith(op: ArithOp, a: int, b: int): Option<int> {
    if exists n :: IsResult(op, a, b, n) then
      var n :| IsResult(op, a, b, n);
      Some(n)
    else None
  }

  /** Which of the two is larger, if either; text is equal or not, and has no order. */
  function RefCompare(op: CmpOp, a: Value, b: Value): Option<Value> {
    if IsNumber(a) && IsNumber(b) then
      var d := b.n - a.n;
      match op
      case Eq => Some(Flag(d == 0))
      case Ne => Some(Flag(d != 0))
      case Lt => Some(Flag(d > 0))
      case Le => Some(Flag(!(d < 0)))
      case Gt => Some(Flag(d < 0))
      case Ge => Some(Flag(!(d > 0)))
    else
      match op
      case Eq => Some(Flag(a == b))
      case Ne => Some(Flag(a != b))
      case _ => None
  }

  /** The variable's new value after `++` or `--`. */
  ghost function RefStep(v: Value, up: bool): Option<int> {
    if !IsNumber(v) then None else RefArith(if up then Add else Sub, v.n, 1)
  }

  /** Operands left to right, `&&`, `||` and `?:` as C sequences them, va_arg wherever it stands. */
  ghost function RefEval(e: Expr, env: Env, rest: seq<Value>): Option<(Value, Env, seq<Value>)>
    decreases e, 1
  {
    match e
    case Lit(v) => Some((v, env, rest))
    case Var(x) => if x in env then Some((env[x], env, rest)) else None
    case PostInc(x, up) =>
      if x in env && RefStep(env[x], up).Some? then
        Some((env[x], env[x := Int(RefStep(env[x], up).value)], rest))
      else None
    case PreInc(x, up) =>
      if x in env && RefStep(env[x], up).Some? then
        var v := Int(RefStep(env[x], up).value);
        Some((v, env[x := v], rest))
      else None
    case Cond(t, a, b) =>
      (match RefEval(t, env, rest)
       case None => None
       case Some((c, env1, rest1)) => if Truth(c) then RefEval(a, env1, rest1) else RefEval(b, env1, rest1))
    case Arith(op, l, r) =>
      (match RefBoth(e, env, rest)
       case None => None
       case Some((a, b, env2, rest2)) =>
         if !IsNumber(a) || !IsNumber(b) || RefArith(op, a.n, b.n).None? then None
         else Some((Int(RefArith(op, a.n, b.n).value), env2, rest2)))
    case Compare(op, l, r) =>
      (match RefBoth(e, env, rest)
       case None => None
       case Some((a, b, env2, rest2)) =>
         var v := RefCompare(op, a, b);
         if v.None? then None else Some((v.value, env2, rest2)))
    case And(l, r) =>
      (match RefEval(l, env, rest)
       case None => None
       case Some((a, env1, rest1)) =>
         if !Truth(a) then Some((Flag(false), env1, rest1))
         else
           match RefEval(r, env1, rest1)
           case None => None
           case Some((b, env2, rest2)) => Some((Flag(Truth(b)), env2, rest2)))
    case Or(l, r) =>
      (match RefEval(l, env, rest)
       case None => None
       case Some((a, env1, rest1)) =>
         if Truth(a) then Some((Flag(true), env1, rest1))
         else
           match RefEval(r, env1, rest1)
           case None => None
           case Some((b, env2, rest2)) => Some((Flag(Truth(b)), env2, rest2)))
    case Not(a) =>
      (match RefEval(a, env, rest)
       case None => None
       case Some((v, env1, rest1)) => Some((Flag(!Truth(v)), env1, rest1)))
    case VaArg => if rest == [] then None else Some((rest[0], env, rest[1..]))
  }

  ghost function RefBoth(e: Expr, env: Env, rest: seq<Value>): Option<(Value, Value, Env, seq<Value>)>
    requires IsBinary(e)
    decreases e, 0
  {
    match RefEval(e.l, env, rest)
    case None => None
    case Some((a, env1, rest1)) =>
      match RefEval(e.r, env1, rest1)
      case None => None
      case Some((b, env2, rest2)) => Some((a, b, env2, rest2))
  }

  /** Undefined behaviour, a run cut off, going on, or a return. */
  datatype Run = Fault | CutOff | Goes(env: Env, rest: seq<Value>) | Returns(v: Value)

  /** The meaning of a statement, cut off where a loop makes more tests than the limit; a program
      returns v if it does so under some limit. */
  ghost function RefStmt(limit: nat, s: Stmt, env: Env, rest: seq<Value>): Run
    decreases s, 0, 0
  {
    match s
    case Skip => Goes(env, rest)
    case Assign(x, op, e) =>
      (match RefEval(e, env, rest)
       case None => Fault
       case Some((v, env1, rest1)) =>
         if op.Set? then Goes(env1[x := v], rest1)
         else if x !in env1 || !IsNumber(env1[x]) || !IsNumber(v) then Fault
         else
           match RefArith(op.op, env1[x].n, v.n)
           case None => Fault
           case Some(n) => Goes(env1[x := Int(n)], rest1))
    case While(c, body) => RefWhile(limit, limit, c, body, env, rest)
    case Ret(e) =>
      (match RefEval(e, env, rest)
       case None => Fault
       case Some((v, _, _)) => Returns(v))
  }

  ghost function RefWhile(limit: nat, tests: nat, c: Expr, body: seq<Stmt>, env: Env, rest: seq<Value>): Run
    decreases body, 1, tests
  {
    if tests == 0 then CutOff
    else
      match RefEval(c, env, rest)
      case None => Fault
      case Some((v, env1, rest1)) =>
        if !Truth(v) then Goes(env1, rest1)
        else
          match RefStmts(limit, body, env1, rest1)
          case Goes(env2, rest2) => RefWhile(limit, tests - 1, c, body, env2, rest2)
          case f => f
  }

  ghost function RefStmts(limit: nat, ss: seq<Stmt>, env: Env, rest: seq<Value>): Run
    decreases ss, 0, 0
  {
    if ss == [] then Goes(env, rest)
    else
      match RefStmt(limit, ss[0], env, rest)
      case Goes(env1, rest1) => RefStmts(limit, ss[1..], env1, rest1)
      case f => f
  }

  /** Where the last parameter of that name stands. */
  ghost function LastNamed(params: seq<string>, x: string): (i: nat)
    requires x in params
    ensures i < |params| && params[i] == x && x !in params[i + 1..]
  {
    if params[|params| - 1] == x then |params| - 1
    else
      var i := LastNamed(params[..|params| - 1], x);
      assert params[i + 1..] == params[..|params| - 1][i + 1..] + [params[|params| - 1]];
      i
  }

  /** Every parameter holds its argument; of two with one name, the later. */
  ghost function Parameters(params: seq<string>, args: seq<Value>): Env
    requires |params| <= |args|
  {
    map x | x in params :: args[LastNamed(params, x)]
  }

  ghost function RefBody(limit: nat, params: seq<string>, body: seq<Stmt>, args: seq<Value>): Run
    requires |params| <= |args|
  {
    RefStmts(limit, body, Parameters(params, args), args[|params|..])
  }

  // ---------------------------------------------------------------- which bodies fold soundly

  /** e writes no variable. */
  predicate Pure(e: Expr) {
    match e
    case PostInc(_, _) | PreInc(_, _) => false
    case Cond(t, a, b) => Pure(t) && Pure(a) && Pure(b)
    case Arith(_, l, r) => Pure(l) && Pure(r)
    case Compare(_, l, r) => Pure(l) && Pure(r)
    case And(l, r) => Pure(l) && Pure(r)
    case Or(l, r) => Pure(l) && Pure(r)
    case Not(a) => Pure(a)
    case _ => true
  }

  /** What `&&` and `||` may skip writes nothing. */
  predicate SkipsPure(e: Expr) {
    match e
    case Cond(t, a, b) => SkipsPure(t) && SkipsPure(a) && SkipsPure(b)
    case Arith(_, l, r) => SkipsPure(l) && SkipsPure(r)
    case Compare(_, l, r) => SkipsPure(l) && SkipsPure(r)
    case And(l, r) => SkipsPure(l) && SkipsPure(r) && Pure(r)
    case Or(l, r) => SkipsPure(l) && SkipsPure(r) && Pure(r)
    case Not(a) => SkipsPure(a)
    case _ => true
  }

  /** e can only be an int64, where ints says that variables and arguments are. */
  predicate Numeric(e: Expr, ints: bool) {
    match e
    case Lit(v) => IsNumber(v)
    case Var(_) | VaArg => ints
    case Cond(_, a, b) => Numeric(a, ints) && Numeric(b, ints)
    case _ => true
  }

  /** The fragment: `=`, `+=` and `-=`, skipped operands pure, and loop conditions numbers, either by
      their form or because (ints) every value of the body is one. */
  predicate Foldable(s: Stmt, ints: bool)
    decreases s, 1
  {
    match s
    case Skip => true
    case Assign(_, op, e) => (op.Set? || op.op == Add || op.op == Sub) && SkipsPure(e) && (ints ==> Numeric(e, ints))
    case While(c, body) => SkipsPure(c) && Numeric(c, ints) && AllFoldable(body, ints)
    case Ret(e) => SkipsPure(e)
  }

  predicate AllFoldable(ss: seq<Stmt>, ints: bool)
    decreases ss, 0
  {
    ss == [] || (Foldable(ss[0], ints) && AllFoldable(ss[1..], ints))
  }

  predicate IntEnv(env: Env) {
    forall x :: x in env ==> IsNumber(env[x])
  }

  predicate IntList(vs: seq<Value>) {
    forall i :: 0 <= i < |vs| ==> IsNumber(vs[i])
  }

  // ---------------------------------------------------------------- expressions

  lemma CongruentIsWrap(m: int, n: int)
    requires IsNumber(Int(m))
    ensures SameModulo64(m, n) <==> m == Wrap(n)
  {
    var k := WrapIsCongruent(n);
    assert Wrap(n) == n + -k * 0x1_0000_0000_0000_0000;
    if SameModulo64(m, n) {
      var j :| m == n + j * 0x1_0000_0000_0000_0000;
      assert m - Wrap(n) == (j + k) * 0x1_0000_0000_0000_0000;
    }
  }

  lemma QuotientIsUnique(a: int, b: int, q: int, r: int, q1: int, r1: int)
    requires b != 0 && DividesInto(a, b, q, r) && DividesInto(a, b, q1, r1)
    ensures q == q1 && r == r1
  {
    assert (q - q1) * b == r1 - r;
    if q != q1 {
      MultipleIsFar(q - q1, b);
    }
  }

  lemma TruncDivDivides(a: int, b: int)
    requires b != 0
    ensures DividesInto(a, b, TruncDiv(a, b), a - TruncDiv(a, b) * b)
  {
    var _ := TruncDivRemainder(a, b);
    RemainderHasSign(a, b);
  }

  /** The fold's arithmetic gives the one result that C gives, and none exactly where C gives none. */
  lemma ComputeExactly(op: ArithOp, a: int, b: int)
    requires IsNumber(Int(a)) && IsNumber(Int(b))
    ensures forall n :: Compute(op, a, b) == Some(n) <==> IsResult(op, a, b, n)
    ensures Compute(op, a, b) == RefArith(op, a, b)
    ensures Compute(op, a, b).None? <==> (op == Div || op == Mod) && b == 0
  {
    hide SameModulo64, DividesInto, Wrap, TruncDiv;
    forall n | IsNumber(Int(n)) ensures Compute(op, a, b) == Some(n) <==> IsResult(op, a, b, n) {
      if op == Div || op == Mod {
        QuotientExactly(op, a, b, n);
      } else {
        CongruentIsWrap(n, if op == Add then a + b else if op == Sub then a - b else a * b);
      }
    }
    ComputeFits(op, a, b);
  }

  lemma QuotientExactly(op: ArithOp, a: int, b: int, n: int)
    requires IsNumber(Int(a)) && IsNumber(Int(b)) && (op == Div || op == Mod) && IsNumber(Int(n))
    ensures Compute(op, a, b) == Some(n) <==> IsResult(op, a, b, n)
  {
    if b != 0 {
      TruncDivDivides(a, b);
      var q, r := TruncDiv(a, b), a - TruncDiv(a, b) * b;
      forall q1, r1 | DividesInto(a, b, q1, r1) ensures q1 == q && r1 == r {
        QuotientIsUnique(a, b, q, r, q1, r1);
      }
      CongruentIsWrap(n, q);
    }
  }

  /** The fold compares as C does. */
  lemma CompareExactly(op: CmpOp, a: Value, b: Value)
    ensures CompareValues(op, a, b) == RefCompare(op, a, b)
  {
  }

  lemma StepExactly(n: int, up: bool)
    requires IsNumber(Int(n))
    ensures RefStep(Int(n), up) == Some(Step(n, up))
  {
    ComputeExactly(if up then Add else Sub, n, 1);
  }

  lemma {:induction false} BindHolds(params: seq<string>, args: seq<Value>, x: string)
    requires |params| <= |args|
    ensures x in Bind(params, args) <==> x in params
    ensures x in params ==> Bind(params, args)[x] == args[LastNamed(params, x)]
    decreases |params|
  {
    if params != [] {
      var front := params[..|params| - 1];
      BindHolds(front, args, x);
      assert params == front + [params[|params| - 1]];
    }
  }

  lemma BindIsParameters(params: seq<string>, args: seq<Value>)
    requires |params| <= |args|
    ensures Bind(params, args) == Parameters(params, args)
  {
    forall x ensures x in Bind(params, args) <==> x in Parameters(params, args)
             ensures x in Bind(params, args) ==> Bind(params, args)[x] == Parameters(params, args)[x]
    {
      BindHolds(params, args, x);
    }
  }

  lemma ComputeFits(op: ArithOp, a: int, b: int)
    requires Fits(a) && Fits(b)
    ensures Compute(op, a, b).Some? ==> Fits(Compute(op, a, b).value)
  {
  }

  lemma {:induction false} FoldKeepsInts(e: Expr, env: Env, ints: bool)
    requires FoldConst(e, env).Some? && (ints ==> IntEnv(env))
    ensures ints ==> IntEnv(FoldConst(e, env).value.1)
    ensures Numeric(e, ints) ==> IsNumber(FoldConst(e, env).value.0)
    decreases e
  {
    match e
    case Cond(t, a, b) =>
      FoldKeepsInts(t, env, ints);
      var (c, env1) := FoldConst(t, env).value;
      FoldKeepsInts(if c.n != 0 then a else b, env1, ints);
    case Not(a) => FoldKeepsInts(a, env, ints);
    case Arith(op, l, r) =>
      FoldKeepsInts(l, env, ints);
      FoldKeepsInts(r, FoldConst(l, env).value.1, ints);
      var (a, b, _) := FoldBoth(e, env).value;
      ComputeFits(op, a.n, b.n);
    case Compare(_, l, r) => FoldKeepsInts(l, env, ints); FoldKeepsInts(r, FoldConst(l, env).value.1, ints);
    case And(l, r) => FoldKeepsInts(l, env, ints); FoldKeepsInts(r, FoldConst(l, env).value.1, ints);
    case Or(l, r) => FoldKeepsInts(l, env, ints); FoldKeepsInts(r, FoldConst(l, env).value.1, ints);
    case _ =>
  }

  lemma {:induction false} PureFoldKeepsEnv(e: Expr, env: Env)
    requires Pure(e) && FoldConst(e, env).Some?
    ensures FoldConst(e, env).value.1 == env
    decreases e
  {
    match e
    case Cond(t, a, b) =>
      PureFoldKeepsEnv(t, env);
      PureFoldKeepsEnv(if FoldConst(t, env).value.0.n != 0 then a else b, env);
    case Not(a) => PureFoldKeepsEnv(a, env);
    case Arith(_, l, r) => PureFoldKeepsEnv(l, env); PureFoldKeepsEnv(r, env);
    case Compare(_, l, r) => PureFoldKeepsEnv(l, env); PureFoldKeepsEnv(r, env);
    case And(l, r) => PureFoldKeepsEnv(l, env); PureFoldKeepsEnv(r, env);
    case Or(l, r) => PureFoldKeepsEnv(l, env); PureFoldKeepsEnv(r, env);
    case _ =>
  }

  /** An expression that folds has that value, and those effects, in C. */
  lemma {:induction false} FoldConstSound(e: Expr, env: Env, rest: seq<Value>)
    requires SkipsPure(e) && FoldConst(e, env).Some?
    ensures RefEval(e, env, rest) == Some((FoldConst(e, env).value.0, FoldConst(e, env).value.1, rest))
    decreases e
  {
    match e
    case Cond(t, a, b) =>
      FoldConstSound(t, env, rest);
      var (c, env1) := FoldConst(t, env).value;
      FoldConstSound(if c.n != 0 then a else b, env1, rest);
    case Not(a) => FoldConstSound(a, env, rest);
    case Arith(_, l, r) => FoldBothSound(e, env, rest);
    case Compare(_, l, r) => FoldBothSound(e, env, rest);
    case And(l, r) => FoldBothSound(e, env, rest);
    case Or(l, r) => FoldBothSound(e, env, rest);
    case PostInc(x, up) => StepExactly(env[x].n, up);
    case PreInc(x, up) => StepExactly(env[x].n, up);
    case _ =>
  }

  lemma {:induction false} FoldBothSound(e: Expr, env: Env, rest: seq<Value>)
    requires IsBinary(e) && SkipsPure(e) && FoldConst(e, env).Some?
    ensures RefEval(e, env, rest) == Some((FoldConst(e, env).value.0, FoldConst(e, env).value.1, rest))
    decreases e, 0
  {
    FoldConstSound(e.l, env, rest);
    var (a, env1) := FoldConst(e.l, env).value;
    FoldConstSound(e.r, env1, rest);
    var (b, env2) := FoldConst(e.r, env1).value;
    if e.And? || e.Or? {
      PureFoldKeepsEnv(e.r, env1);
    }
    OperatorSound(e, a, env1, b, env2, env, rest);
  }

  lemma OperatorSound(e: Expr, a: Value, env1: Env, b: Value, env2: Env, env: Env, rest: seq<Value>)
    requires IsBinary(e) && FoldConst(e, env).Some?
    requires FoldConst(e.l, env) == Some((a, env1)) && FoldConst(e.r, env1) == Some((b, env2))
    requires RefEval(e.l, env, rest) == Some((a, env1, rest)) && RefEval(e.r, env1, rest) == Some((b, env2, rest))
    requires e.And? || e.Or? ==> env2 == env1
    ensures RefEval(e, env, rest) == Some((FoldConst(e, env).value.0, FoldConst(e, env).value.1, rest))
  {
    hide Compute, CompareValues, RefArith, RefCompare;
    assert FoldBoth(e, env) == Some((a, b, env2));
    if e.Arith? {
      ComputeExactly(e.aop, a.n, b.n);
      assert RefBoth(e, env, rest) == Some((a, b, env2, rest));
    } else if e.Compare? {
      CompareExactly(e.cop, a, b);
      assert RefBoth(e, env, rest) == Some((a, b, env2, rest));
    }
  }

  lemma FoldTopSound(e: Expr, env: Env, rest: seq<Value>, ints: bool)
    requires SkipsPure(e) && FoldTop(e, env, rest).Some? && (ints ==> IntEnv(env) && IntList(rest))
    ensures RefEval(e, env, rest) == FoldTop(e, env, rest)
    ensures var (v, env1, rest1) := FoldTop(e, env, rest).value;
            && (ints ==> IntEnv(env1) && IntList(rest1))
            && (Numeric(e, ints) ==> IsNumber(v))
  {
    if !e.VaArg? {
      FoldConstSound(e, env, rest);
      FoldKeepsInts(e, env, ints);
    }
  }

  // ---------------------------------------------------------------- statements

  /** The reference run that a fold promises. */
  predicate Matches(f: Flow, r: Run) {
    match f
    case Refused => true
    case Next(env, rest) => r == Goes(env, rest)
    case Done(v) => r == Returns(v)
  }

  predicate IntFlow(f: Flow) {
    f.Next? ==> IntEnv(f.env) && IntList(f.rest)
  }

  lemma AddedExactly(op: AssignOp, env: Env, x: string, v: Value)
    ensures x in env && IsNumber(env[x]) && IsNumber(v) ==>
              && (op == With(Add) ==> RefArith(Add, env[x].n, v.n) == Some(Wrap(env[x].n + v.n)))
              && (op == With(Sub) ==> RefArith(Sub, env[x].n, v.n) == Some(Wrap(env[x].n - v.n)))
  {
    if x in env && IsNumber(env[x]) && IsNumber(v) && op.With? {
      ComputeExactly(op.op, env[x].n, v.n);
    }
  }

  lemma {:induction false} FoldStmtSound(limit: nat, more: nat, s: Stmt, env: Env, rest: seq<Value>, ints: bool)
    requires limit <= more && Foldable(s, ints) && (ints ==> IntEnv(env) && IntList(rest))
    ensures Matches(FoldStmt(limit, s, env, rest), RefStmt(more, s, env, rest))
    ensures ints ==> IntFlow(FoldStmt(limit, s, env, rest))
    decreases s, 0, 0
  {
    hide FoldConst, RefEval, RefArith, SkipsPure;
    match s
    case Skip =>
    case Assign(x, op, e) =>
      if FoldTop(e, env, rest).Some? {
        FoldTopSound(e, env, rest, ints);
        AddedExactly(op, FoldTop(e, env, rest).value.1, x, FoldTop(e, env, rest).value.0);
      }
    case While(c, body) => FoldWhileSound(limit, more, limit, more, c, body, env, rest, ints);
    case Ret(e) => if FoldTop(e, env, rest).Some? { FoldTopSound(e, env, rest, ints); }
  }

  lemma {:induction false} FoldWhileSound(limit: nat, more: nat, tests: nat, moreTests: nat, c: Expr, body: seq<Stmt>,
                                          env: Env, rest: seq<Value>, ints: bool)
    requires limit <= more && tests <= moreTests && SkipsPure(c) && Numeric(c, ints) && AllFoldable(body, ints)
    requires ints ==> IntEnv(env) && IntList(rest)
    ensures Matches(FoldWhile(limit, tests, c, body, env, rest), RefWhile(more, moreTests, c, body, env, rest))
    ensures ints ==> IntFlow(FoldWhile(limit, tests, c, body, env, rest))
    decreases body, 1, tests
  {
    hide FoldConst, RefEval, RefArith, RefCompare, SkipsPure;
    if tests > 0 && FoldTop(c, env, rest).Some? {
      FoldTopSound(c, env, rest, ints);
      var (v, env1, rest1) := FoldTop(c, env, rest).value;
      if v.n != 0 {
        FoldStmtsSound(limit, more, body, env1, rest1, ints);
        var f := FoldStmts(limit, body, env1, rest1);
        if f.Next? {
          FoldWhileSound(limit, more, tests - 1, moreTests - 1, c, body, f.env, f.rest, ints);
        }
      }
    }
  }

  lemma {:induction false} FoldStmtsSound(limit: nat, more: nat, ss: seq<Stmt>, env: Env, rest: seq<Value>, ints: bool)
    requires limit <= more && AllFoldable(ss, ints) && (ints ==> IntEnv(env) && IntList(rest))
    ensures Matches(FoldStmts(limit, ss, env, rest), RefStmts(more, ss, env, rest))
    ensures ints ==> IntFlow(FoldStmts(limit, ss, env, rest))
    decreases ss, 0, 0
  {
    if ss != [] {
      FoldStmtSound(limit, more, ss[0], env, rest, ints);
      var f := FoldStmt(limit, ss[0], env, rest);
      if f.Next? {
        FoldStmtsSound(limit, more, ss[1..], f.env, f.rest, ints);
      }
    }
  }

  lemma {:induction false} BindKeepsInts(params: seq<string>, args: seq<Value>)
    requires |params| <= |args| && IntList(args)
    ensures IntEnv(Bind(params, args))
    decreases |params|
  {
    if params != [] {
      BindKeepsInts(params[..|params| - 1], args);
    }
  }

  /** If a call folds to v, running the body in C returns v: under every limit on loop tests at least
      as large as the guard, so the guard never changes a successful answer. */
  lemma FoldUserBodySound(params: seq<string>, body: seq<Stmt>, args: seq<Value>, ints: bool, guard: nat, limit: nat)
    requires |params| <= |args| && AllFoldable(body, ints) && (ints ==> IntList(args)) && guard <= limit
    requires FoldBody(guard, params, body, args).Some?
    ensures RefBody(limit, params, body, args) == Returns(FoldBody(guard, params, body, args).value)
  {
    if ints {
      BindKeepsInts(params, args);
    }
    BindIsParameters(params, args);
    FoldStmtsSound(guard, limit, body, Bind(params, args), args[|params|..], ints);
  }

  // ---------------------------------------------------------------- one meaning

  lemma {:induction false} LongerRun(limit: nat, more: nat, s: Stmt, env: Env, rest: seq<Value>)
    requires limit <= more && RefStmt(limit, s, env, rest) != CutOff
    ensures RefStmt(more, s, env, rest) == RefStmt(limit, s, env, rest)
    decreases s, 0, 0
  {
    if s.While? {
      LongerWhile(limit, more, limit, more, s.cond, s.body, env, rest);
    }
  }

  lemma {:induction false} LongerWhile(limit: nat, more: nat, tests: nat, moreTests: nat, c: Expr, body: seq<Stmt>,
                                       env: Env, rest: seq<Value>)
    requires limit <= more && tests <= moreTests && RefWhile(limit, tests, c, body, env, rest) != CutOff
    ensures RefWhile(more, moreTests, c, body, env, rest) == RefWhile(limit, tests, c, body, env, rest)
    decreases body, 1, tests
  {
    var t := RefEval(c, env, rest);
    if t.Some? && Truth(t.value.0) {
      LongerRuns(limit, more, body, t.value.1, t.value.2);
      var f := RefStmts(limit, body, t.value.1, t.value.2);
      if f.Goes? {
        LongerWhile(limit, more, tests - 1, moreTests - 1, c, body, f.env, f.rest);
      }
    }
  }

  lemma {:induction false} LongerRuns(limit: nat, more: nat, ss: seq<Stmt>, env: Env, rest: seq<Value>)
    requires limit <= more && RefStmts(limit, ss, env, rest) != CutOff
    ensures RefStmts(more, ss, env, rest) == RefStmts(limit, ss, env, rest)
    decreases ss, 0, 0
  {
    if ss != [] {
      LongerRun(limit, more, ss[0], env, rest);
      var f := RefStmt(limit, ss[0], env, rest);
      if f.Goes? {
        LongerRuns(limit, more, ss[1..], f.env, f.rest);
      }
    }
  }

  /** The fold is never wrong: whatever the body ends in under any limit at all is the folded value. */
  lemma FoldedIsTheOnlyAnswer(params: seq<string>, body: seq<Stmt>, args: seq<Value>, ints: bool, guard: nat, limit: nat)
    requires |params| <= |args| && AllFoldable(body, ints) && (ints ==> IntList(args))
    requires FoldBody(guard, params, body, args).Some? && RefBody(limit, params, body, args) != CutOff
    ensures RefBody(limit, params, body, args) == Returns(FoldBody(guard, params, body, args).value)
  {
    var large := guard + limit;
    FoldUserBodySound(params, body, args, ints, guard, large);
    LongerRuns(limit, large, body, Parameters(params, args), args[|params|..]);
  }

  // ---------------------------------------------------------------- what the fold does not refuse

  /** Number literals, no `&&` or `||` (whose skipped operand may be undefined), no nested va_arg. */
  predicate Direct(e: Expr) {
    match e
    case Lit(v) => IsNumber(v)
    case Cond(t, a, b) => Direct(t) && Direct(a) && Direct(b)
    case Arith(_, l, r) => Direct(l) && Direct(r)
    case Compare(_, l, r) => Direct(l) && Direct(r)
    case Not(a) => Direct(a)
    case And(_, _) | Or(_, _) | VaArg => false
    case _ => true
  }

  predicate DirectStmt(s: Stmt)
    decreases s, 1
  {
    match s
    case Skip => true
    case Assign(_, op, e) => (op.Set? || op.op == Add || op.op == Sub) && (e.VaArg? || Direct(e))
    case While(c, body) => (c.VaArg? || Direct(c)) && AllDirect(body)
    case Ret(e) => e.VaArg? || Direct(e)
  }

  predicate AllDirect(ss: seq<Stmt>)
    decreases ss, 0
  {
    ss == [] || (DirectStmt(ss[0]) && AllDirect(ss[1..]))
  }

  lemma {:induction false} DirectIsFoldable(ss: seq<Stmt>)
    requires AllDirect(ss)
    ensures AllFoldable(ss, true)
    decreases ss
  {
    if ss != [] {
      match ss[0] {
        case Skip =>
        case Assign(_, _, e) => DirectIsNumeric(e);
        case While(c, body) => DirectIsNumeric(c); DirectIsFoldable(body);
        case Ret(e) => DirectIsNumeric(e);
      }
      DirectIsFoldable(ss[1..]);
    }
  }

  lemma {:induction false} DirectIsNumeric(e: Expr)
    requires e.VaArg? || Direct(e)
    ensures Numeric(e, true) && SkipsPure(e)
    decreases e
  {
    match e
    case Cond(t, a, b) => DirectIsNumeric(t); DirectIsNumeric(a); DirectIsNumeric(b);
    case Arith(_, l, r) => DirectIsNumeric(l); DirectIsNumeric(r);
    case Compare(_, l, r) => DirectIsNumeric(l); DirectIsNumeric(r);
    case Not(a) => DirectIsNumeric(a);
    case _ =>
  }

  /** A direct expression with a value in C folds. */
  lemma {:induction false} DirectFolds(e: Expr, env: Env, rest: seq<Value>)
    requires Direct(e) && IntEnv(env) && RefEval(e, env, rest).Some?
    ensures FoldConst(e, env).Some?
    decreases e, 1
  {
    match e
    case Cond(t, a, b) =>
      DirectFolds(t, env, rest);
      FoldIsRef(t, env, rest);
      var (c, env1) := FoldConst(t, env).value;
      DirectFolds(if c.n != 0 then a else b, env1, rest);
    case Not(a) =>
      DirectFolds(a, env, rest);
      FoldIsRef(a, env, rest);
    case Arith(_, _, _) => DirectPairFolds(e, env, rest);
    case Compare(_, _, _) => DirectPairFolds(e, env, rest);
    case _ =>
  }

  lemma {:induction false} DirectPairFolds(e: Expr, env: Env, rest: seq<Value>)
    requires (e.Arith? || e.Compare?) && Direct(e) && IntEnv(env) && RefEval(e, env, rest).Some?
    ensures FoldConst(e, env).Some?
    decreases e, 0
  {
    hide RefArith, RefCompare, Compute, CompareValues;
    DirectFolds(e.l, env, rest);
    FoldIsRef(e.l, env, rest);
    var (a, env1) := FoldConst(e.l, env).value;
    DirectFolds(e.r, env1, rest);
    FoldIsRef(e.r, env1, rest);
    var (b, env2) := FoldConst(e.r, env1).value;
    assert RefBoth(e, env, rest) == Some((a, b, env2, rest));
    assert FoldBoth(e, env) == Some((a, b, env2));
    if e.Arith? {
      ComputeExactly(e.aop, a.n, b.n);
    } else {
      CompareExactly(e.cop, a, b);
    }
  }

  lemma FoldIsRef(e: Expr, env: Env, rest: seq<Value>)
    requires Direct(e) && IntEnv(env) && FoldConst(e, env).Some?
    ensures RefEval(e, env, rest) == Some((FoldConst(e, env).value.0, FoldConst(e, env).value.1, rest))
    ensures IsNumber(FoldConst(e, env).value.0) && IntEnv(FoldConst(e, env).value.1)
  {
    DirectIsNumeric(e);
    FoldConstSound(e, env, rest);
    FoldKeepsInts(e, env, true);
  }

  lemma DirectTopFolds(e: Expr, env: Env, rest: seq<Value>)
    requires (e.VaArg? || Direct(e)) && IntEnv(env) && IntList(rest) && RefEval(e, env, rest).Some?
    ensures FoldTop(e, env, rest) == RefEval(e, env, rest)
    ensures var (v, env1, rest1) := RefEval(e, env, rest).value; IsNumber(v) && IntEnv(env1) && IntList(rest1)
  {
    if !e.VaArg? {
      DirectFolds(e, env, rest);
      FoldIsRef(e, env, rest);
    }
  }

  /** A finished reference run is a fold. */
  predicate Folds(r: Run, f: Flow) {
    match r
    case Goes(env, rest) => f == Next(env, rest) && IntEnv(env) && IntList(rest)
    case Returns(v) => f == Done(v)
    case _ => true
  }

  lemma {:induction false} DirectStmtFolds(limit: nat, s: Stmt, env: Env, rest: seq<Value>)
    requires DirectStmt(s) && IntEnv(env) && IntList(rest)
    ensures Folds(RefStmt(limit, s, env, rest), FoldStmt(limit, s, env, rest))
    decreases s, 0, 0
  {
    hide FoldConst, RefEval, RefArith, SkipsPure;
    match s
    case Skip =>
    case Assign(x, op, e) =>
      if RefEval(e, env, rest).Some? {
        DirectTopFolds(e, env, rest);
        AddedExactly(op, RefEval(e, env, rest).value.1, x, RefEval(e, env, rest).value.0);
      }
    case While(c, body) => DirectWhileFolds(limit, limit, c, body, env, rest);
    case Ret(e) => if RefEval(e, env, rest).Some? { DirectTopFolds(e, env, rest); }
  }

  lemma {:induction false} DirectWhileFolds(limit: nat, tests: nat, c: Expr, body: seq<Stmt>, env: Env, rest: seq<Value>)
    requires (c.VaArg? || Direct(c)) && AllDirect(body) && IntEnv(env) && IntList(rest)
    ensures Folds(RefWhile(limit, tests, c, body, env, rest), FoldWhile(limit, tests, c, body, env, rest))
    decreases body, 1, tests
  {
    hide FoldConst, RefEval, RefArith, RefCompare, SkipsPure;
    if tests > 0 && RefEval(c, env, rest).Some? {
      DirectTopFolds(c, env, rest);
      var (v, env1, rest1) := RefEval(c, env, rest).value;
      if v.n != 0 {
        DirectStmtsFold(limit, body, env1, rest1);
        var r := RefStmts(limit, body, env1, rest1);
        if r.Goes? {
          DirectWhileFolds(limit, tests - 1, c, body, r.env, r.rest);
        }
      }
    }
  }

  lemma {:induction false} DirectStmtsFold(limit: nat, ss: seq<Stmt>, env: Env, rest: seq<Value>)
    requires AllDirect(ss) && IntEnv(env) && IntList(rest)
    ensures Folds(RefStmts(limit, ss, env, rest), FoldStmts(limit, ss, env, rest))
    decreases ss, 0, 0
  {
    if ss != [] {
      DirectStmtFolds(limit, ss[0], env, rest);
      var r := RefStmt(limit, ss[0], env, rest);
      if r.Goes? {
        DirectStmtsFold(limit, ss[1..], r.env, r.rest);
      }
    }
  }

  /** On direct bodies over numbers the fold is exact: it answers v if and only if C returns v within
      the guard's number of loop tests. */
  lemma DirectBodiesFoldExactly(params: seq<string>, body: seq<Stmt>, args: seq<Value>, guard: nat, v: Value)
    requires |params| <= |args| && AllDirect(body) && IntList(args)
    ensures FoldBody(guard, params, body, args) == Some(v) <==> RefBody(guard, params, body, args) == Returns(v)
  {
    if FoldBody(guard, params, body, args) == Some(v) {
      DirectIsFoldable(body);
      FoldUserBodySound(params, body, args, true, guard, guard);
    }
    BindKeepsInts(params, args);
    BindIsParameters(params, args);
    DirectStmtsFold(guard, body, Bind(params, args), args[|params|..]);
  }

  /** `i = 0; while (i < n) i += 1; return i;` */
  function Counting(n: int): seq<Stmt> {
    [Assign("i", Set, Lit(Int(0))), CountTo(n), Ret(Var("i"))]
  }

  function CountTo(n: int): Stmt {
    While(Compare(Lt, Var("i"), Lit(Int(n))), [Assign("i", With(Add), Lit(Int(1)))])
  }

  /** The guard: of a count up to n the fold gives the answer if and only if the n + 1 tests are at most
      a hundred thousand. */
  lemma CountingFoldsExactly(n: nat)
    requires n < 0x8000_0000_0000_0000
    ensures FoldBody(GUARD, [], Counting(n), []) == if n < 100000 then Some(Int(n)) else None
  {
    var body, env := Counting(n), map["i" := Int(0)];
    CountThenReturns(n, env);
    LitFolds(Int(0), map[]);
    hide FoldWhile, FoldConst;
    assert map[]["i" := Int(0)] == env;
    assert FoldStmt(GUARD, body[0], map[], []) == Next(env, []);
    assert body[1..] == [CountTo(n), Ret(Var("i"))];
    assert FoldStmts(GUARD, body, map[], []) == FoldStmts(GUARD, body[1..], env, []);
    assert Bind([], []) == map[];
  }

  lemma CountThenReturns(n: nat, env: Env)
    requires n < 0x8000_0000_0000_0000 && env == map["i" := Int(0)]
    ensures FoldStmts(GUARD, [CountTo(n), Ret(Var("i"))], env, []) == if n < 100000 then Done(Int(n)) else Refused
  {
    var ss, last := [CountTo(n), Ret(Var("i"))], map["i" := Int(n)];
    CountFolds(GUARD, n, 0);
    LitFolds(Int(n), last);
    hide FoldWhile, FoldConst;
    assert ss[1..] == [Ret(Var("i"))];
    if n < 100000 {
      assert FoldStmt(GUARD, ss[0], env, []) == Next(last, []);
      assert FoldTop(Var("i"), last, []) == Some((Int(n), last, []));
      assert FoldStmts(GUARD, ss[1..], last, []) == Done(Int(n));
    } else {
      assert FoldStmt(GUARD, ss[0], env, []) == Refused;
    }
  }

  lemma LitFolds(v: Value, env: Env)
    ensures FoldConst(Lit(v), env) == Some((v, env))
    ensures "i" in env ==> FoldConst(Var("i"), env) == Some((env["i"], env))
  {
  }

  lemma {:induction false} CountFolds(tests: nat, n: nat, i: nat)
    requires i <= n < 0x8000_0000_0000_0000
    ensures CountTo(n).While? && FoldWhile(GUARD, tests, CountTo(n).cond, CountTo(n).body, map["i" := Int(i)], [])
                                 == if n - i < tests then Next(map["i" := Int(n)], []) else Refused
    decreases tests
  {
    if tests > 0 {
      var c, body, env := CountTo(n).cond, CountTo(n).body, map["i" := Int(i)];
      TestFolds(n, i);
      if i < n {
        CountFolds(tests - 1, n, i + 1);
      }
    }
  }

  /** One test, and one trip. */
  lemma TestFolds(n: nat, i: nat)
    requires i <= n < 0x8000_0000_0000_0000
    ensures FoldTop(CountTo(n).cond, map["i" := Int(i)], []) == Some((Bool(i < n), map["i" := Int(i)], []))
    ensures i < n ==> FoldStmts(GUARD, CountTo(n).body, map["i" := Int(i)], []) == Next(map["i" := Int(i + 1)], [])
  {
    var env := map["i" := Int(i)];
    LitFolds(Int(n), env);
    LitFolds(Int(1), env);
    assert FoldBoth(CountTo(n).cond, env) == Some((Int(i), Int(n), env));
    if i < n {
      var s := CountTo(n).body[0];
      assert Wrap(i + 1) == i + 1;
      assert env["i" := Int(i + 1)] == map["i" := Int(i + 1)];
      assert FoldStmt(GUARD, s, env, []) == Next(map["i" := Int(i + 1)], []);
      assert CountTo(n).body[1..] == [];
    }
  }

  // ---------------------------------------------------------------- where the fold departs from C

  /** `x op= b` folds to what C computes, for all int64 values, exactly when op is `+` or `-`: every
      other compound assignment is folded as a subtraction. */
  lemma CompoundAssignmentExactly(op: ArithOp)
    ensures (forall x: string, a: int, b: int :: IsNumber(Int(a)) && IsNumber(Int(b)) && (exists n :: IsResult(op, a, b, n)) ==>
               Matches(FoldAssigned(op, x, a, b), RefAssigned(op, x, a, b)))
            <==> op == Add || op == Sub
  {
    forall x: string, a: int, b: int | (op == Add || op == Sub) && IsNumber(Int(a)) && IsNumber(Int(b))
      ensures Matches(FoldAssigned(op, x, a, b), RefAssigned(op, x, a, b))
    {
      FoldStmtSound(0, 0, Assign(x, With(op), Lit(Int(b))), map[x := Int(a)], [], false);
    }
    if op == Mul || op == Div || op == Mod {
      OtherOperatorsDiffer(op);
    }
  }

  lemma OtherOperatorsDiffer(op: ArithOp)
    requires op == Mul || op == Div || op == Mod
    ensures (exists n :: IsResult(op, 7, 3, n)) && !Matches(FoldAssigned(op, "x", 7, 3), RefAssigned(op, "x", 7, 3))
  {
    SevenByThree(op);
    FoldedAssignment(op, 7, 3);
    hide IsResult, RefArith, Wrap;
    assert map["x" := Int(Wrap(4))]["x"] != map["x" := Int(RefArith(op, 7, 3).value)]["x"];
  }

  lemma SevenByThree(op: ArithOp)
    requires op == Mul || op == Div || op == Mod
    ensures exists n :: IsResult(op, 7, 3, n)
    ensures RefArith(op, 7, 3).Some? && RefArith(op, 7, 3).value != Wrap(4)
  {
    ComputeExactly(op, 7, 3);
    var n := Compute(op, 7, 3);
    assert n.Some? && IsResult(op, 7, 3, n.value);
  }

  /** What the two make of `x op= b`. */
  lemma FoldedAssignment(op: ArithOp, a: int, b: int)
    requires IsNumber(Int(a)) && IsNumber(Int(b)) && RefArith(op, a, b).Some?
    ensures FoldAssigned(op, "x", a, b) == Next(map["x" := Int(Wrap(if op == Add then a + b else a - b))], [])
    ensures RefAssigned(op, "x", a, b) == Goes(map["x" := Int(RefArith(op, a, b).value)], [])
  {
    hide RefArith, Wrap;
    var env, s := map["x" := Int(a)], Assign("x", With(op), Lit(Int(b)));
    var n, m := Wrap(if op == Add then a + b else a - b), RefArith(op, a, b).value;
    assert FoldTop(s.e, env, []) == Some((Int(b), env, []));
    assert RefEval(s.e, env, []) == Some((Int(b), env, []));
    assert FoldStmt(0, s, env, []) == Next(env["x" := Int(n)], []);
    assert RefStmt(0, s, env, []) == Goes(env["x" := Int(m)], []);
    assert env["x" := Int(n)] == map["x" := Int(n)];
    assert env["x" := Int(m)] == map["x" := Int(m)];
  }

  function FoldAssigned(op: ArithOp, x: string, a: int, b: int): Flow {
    FoldStmt(0, Assign(x, With(op), Lit(Int(b))), map[x := Int(a)], [])
  }

  ghost function RefAssigned(op: ArithOp, x: string, a: int, b: int): Run {
    RefStmt(0, Assign(x, With(op), Lit(Int(b))), map[x := Int(a)], [])
  }

  /** A logical operator over foldable operands folds to what C computes exactly when C evaluates the
      right operand too, or evaluating it changes nothing. */
  lemma SkippedOperandExactly(e: Expr, a: Value, b: Value, env: Env, env1: Env, env2: Env, rest: seq<Value>)
    requires (e.And? || e.Or?) && SkipsPure(e.l) && SkipsPure(e.r)
    requires FoldConst(e.l, env) == Some((a, env1)) && FoldConst(e.r, env1) == Some((b, env2))
    requires IsNumber(a) && IsNumber(b)
    ensures var f := FoldConst(e, env);
            && f.Some?
            && (RefEval(e, env, rest) == Some((f.value.0, f.value.1, rest))
                <==> (if e.And? then a.n != 0 else a.n == 0) || env2 == env1)
  {
    FoldConstSound(e.l, env, rest);
    FoldConstSound(e.r, env1, rest);
    BothOrOne(e, a, b, env, env1, env2, rest);
  }

  lemma BothOrOne(e: Expr, a: Value, b: Value, env: Env, env1: Env, env2: Env, rest: seq<Value>)
    requires (e.And? || e.Or?) && IsNumber(a) && IsNumber(b)
    requires FoldConst(e.l, env) == Some((a, env1)) && FoldConst(e.r, env1) == Some((b, env2))
    requires RefEval(e.l, env, rest) == Some((a, env1, rest)) && RefEval(e.r, env1, rest) == Some((b, env2, rest))
    ensures FoldConst(e, env) == Some((Flag(if e.And? then a.n != 0 && b.n != 0 else a.n != 0 || b.n != 0), env2))
    ensures RefEval(e, env, rest)
            == Some((FoldConst(e, env).value.0, if (if e.And? then a.n != 0 else a.n == 0) then env2 else env1, rest))
  {
    hide CompareValues, Compute, RefArith, RefCompare, RefStep;
    assert FoldBoth(e, env) == Some((a, b, env2));
  }

  /** `n && x++` folds to what C does exactly when n is true: otherwise the skipped increment is made. */
  lemma SkippedIncrementExactly(n: int, x: string, env: Env, rest: seq<Value>)
    requires Fits(n) && x in env && IsNumber(env[x])
    ensures var e := And(Lit(Int(n)), PostInc(x, true));
            var f := FoldConst(e, env);
            f.Some? && (RefEval(e, env, rest) == Some((f.value.0, f.value.1, rest)) <==> n != 0)
  {
    var e := And(Lit(Int(n)), PostInc(x, true));
    assert FoldConst(e.l, env) == Some((Int(n), env));
    var env1 := env[x := Int(Step(env[x].n, true))];
    assert FoldConst(e.r, env) == Some((env[x], env1));
    StepExactly(env[x].n, true);
    assert RefEval(e.r, env, rest) == Some((env[x], env1, rest));
    assert env1[x] != env[x];
  }

  /** The fold's reading of a loop condition agrees with C's exactly for numbers. */
  lemma LoopTestExactly(v: Value)
    ensures ((!IsNumber(v) || v.n == 0) <==> !Truth(v)) <==> IsNumber(v)
  {
  }

  /** In the fold's own run of a loop, every value its condition takes is a number. */
  predicate TestsAreNumbers(limit: nat, tests: nat, c: Expr, body: seq<Stmt>, env: Env, rest: seq<Value>)
    decreases tests
  {
    tests > 0 && FoldTop(c, env, rest).Some? ==>
      var (v, env1, rest1) := FoldTop(c, env, rest).value;
      && IsNumber(v)
      && (v.n != 0 && FoldStmts(limit, body, env1, rest1).Next? ==>
            var f := FoldStmts(limit, body, env1, rest1);
            TestsAreNumbers(limit, tests - 1, c, body, f.env, f.rest))
  }

  /** A loop whose tests all come out as numbers folds to what C does, whatever its condition is. */
  lemma {:induction false} NumberTestsFoldSound(limit: nat, more: nat, tests: nat, moreTests: nat, c: Expr, body: seq<Stmt>,
                                                env: Env, rest: seq<Value>)
    requires limit <= more && tests <= moreTests && SkipsPure(c) && AllFoldable(body, false)
    requires TestsAreNumbers(limit, tests, c, body, env, rest)
    ensures Matches(FoldWhile(limit, tests, c, body, env, rest), RefWhile(more, moreTests, c, body, env, rest))
    decreases tests
  {
    hide SkipsPure, FoldStmts, RefStmts, AllFoldable, FoldTop, RefEval;
    if tests > 0 && FoldTop(c, env, rest).Some? {
      FoldTopSound(c, env, rest, false);
      var (v, env1, rest1) := FoldTop(c, env, rest).value;
      LoopTestExactly(v);
      FoldStmtsSound(limit, more, body, env1, rest1, false);
      var f := FoldStmts(limit, body, env1, rest1);
      if v.n != 0 && f.Next? {
        NumberTestsFoldSound(limit, more, tests - 1, moreTests - 1, c, body, f.env, f.rest);
      }
    }
  }

  /** A loop folds to what C does with it. */
  ghost predicate LoopFolds(limit: nat, tests: nat, c: Expr, loop: seq<Stmt>, env: Env, rest: seq<Value>) {
    Matches(FoldWhile(limit, tests, c, loop, env, rest), RefWhile(limit, tests, c, loop, env, rest))
  }

  predicate EndsInReturn(body: seq<Stmt>) { body != [] && body[|body| - 1].Ret? }

  /** The exact condition on the tested value: the loop folds to what C does for every foldable body
      that ends in a return if and only if the condition's value is a number. */
  lemma LoopDecisionExactly(limit: nat, tests: nat, c: Expr, env: Env, rest: seq<Value>)
    requires tests > 0 && SkipsPure(c) && FoldTop(c, env, rest).Some?
    ensures (forall body :: AllFoldable(body, false) && EndsInReturn(body) ==> LoopFolds(limit, tests, c, body, env, rest))
            <==> IsNumber(FoldTop(c, env, rest).value.0)
  {
    var (v, env1, rest1) := FoldTop(c, env, rest).value;
    if IsNumber(v) {
      forall body | AllFoldable(body, false) && EndsInReturn(body) ensures LoopFolds(limit, tests, c, body, env, rest) {
        FoldEndsInReturn(limit, body, env1, rest1);
        NumberTestsFoldSound(limit, limit, tests, tests, c, body, env, rest);
      }
    } else {
      ReturnIsMissed(limit, tests, c, env, rest);
      ReturnIsFoldable(v);
    }
  }

  lemma ReturnIsFoldable(v: Value)
    ensures AllFoldable([Ret(Lit(v))], false) && EndsInReturn([Ret(Lit(v))])
  {
    assert [Ret(Lit(v))][1..] == [];
    assert Foldable(Ret(Lit(v)), false);
  }

  /** A test that is no number ends the folded loop, while C runs the body and returns. */
  lemma ReturnIsMissed(limit: nat, tests: nat, c: Expr, env: Env, rest: seq<Value>)
    requires tests > 0 && SkipsPure(c) && FoldTop(c, env, rest).Some?
    requires !IsNumber(FoldTop(c, env, rest).value.0)
    ensures !LoopFolds(limit, tests, c, [Ret(Lit(FoldTop(c, env, rest).value.0))], env, rest)
  {
    FoldTopSound(c, env, rest, false);
    hide SkipsPure;
    var (v, env1, rest1) := FoldTop(c, env, rest).value;
    var loop := [Ret(Lit(v))];
    assert FoldWhile(limit, tests, c, loop, env, rest) == Next(env1, rest1);
    assert RefStmts(limit, loop, env1, rest1) == Returns(v) by {
      assert RefEval(Lit(v), env1, rest1) == Some((v, env1, rest1));
    }
    assert RefWhile(limit, tests, c, loop, env, rest) == Returns(v);
  }

  lemma {:induction false} FoldEndsInReturn(limit: nat, body: seq<Stmt>, env: Env, rest: seq<Value>)
    requires EndsInReturn(body)
    ensures !FoldStmts(limit, body, env, rest).Next?
    decreases |body|
  {
    var f := FoldStmt(limit, body[0], env, rest);
    if |body| > 1 && f.Next? {
      assert EndsInReturn(body[1..]);
      FoldEndsInReturn(limit, body[1..], f.env, f.rest);
    }
  }

  /** `while ("a"); return 1;` */
  function TextLoop(): seq<Stmt> { [While(Lit(Text("a")), [Skip]), Ret(Lit(Int(1)))] }

  /** It folds to 1, for text in a condition is taken for zero; C never gets to the return. */
  lemma TextConditionEndsLoop(limit: nat)
    ensures FoldBody(1, [], TextLoop(), []) == Some(Int(1))
    ensures RefBody(limit, [], TextLoop(), []) == CutOff
  {
    TextLoopFolds();
    var loop := TextLoop()[0];
    TextSpins(limit, limit);
    assert RefStmt(limit, loop, map[], []) == CutOff;
  }

  lemma TextLoopFolds()
    ensures FoldBody(1, [], TextLoop(), []) == Some(Int(1))
  {
  }

  lemma {:induction false} TextSpins(limit: nat, tests: nat)
    ensures RefWhile(limit, tests, Lit(Text("a")), [Skip], map[], []) == CutOff
    decreases tests
  {
    if tests > 0 {
      assert RefEval(Lit(Text("a")), map[], []) == Some((Text("a"), map[], []));
      assert RefStmts(limit, [Skip], map[], []) == Goes(map[], []) by { assert [Skip][1..] == []; }
      TextSpins(limit, tests - 1);
    }
  }
}

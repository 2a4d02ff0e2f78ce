/** The guard that decides which shell arithmetic is lowered natively, and what it buys: the
    accepted trees mean the same whatever order operands are evaluated in. */
module ArithGuard {
  import opened Int64
  import opened Options
  import opened ArithAst
  import opened ArithParser

  // ---------------------------------------------------------------- the guard

  function HasDivMod(e: Ast): bool {
    match e
    case Bin(op, l, r) => op == "/" || op == "%" || HasDivMod(l) || HasDivMod(r)
    case Un(_, a) => HasDivMod(a)
    case Cond(t, a, b) => HasDivMod(t) || HasDivMod(a) || HasDivMod(b)
    case Index(_, key) => HasDivMod(key)
    case Assign(_, _, rhs) => HasDivMod(rhs)
    case _ => false
  }

  function HasWrite(e: Ast): bool {
    match e
    case Assign(_, _, _) | IncDec(_, _, _) => true
    case Bin(_, l, r) => HasWrite(l) || HasWrite(r)
    case Un(_, a) => HasWrite(a)
    case Cond(t, a, b) => HasWrite(t) || HasWrite(a) || HasWrite(b)
    case Index(_, key) => HasWrite(key)
    case _ => false
  }

  function Lowerable(e: Ast): bool {
    match e
    case Assign(_, _, rhs) => !HasWrite(rhs)
    case IncDec(_, _, _) => true
    case Bin(_, l, r) => !HasWrite(l) && !HasWrite(r)
    case Un(_, a) => !HasWrite(a)
    case Cond(_, _, _) | Index(_, _) => !HasWrite(e)
    case _ => true
  }

  function ParseNative(ts: seq<Token>): Option<Ast> {
    var p := ParseArith(ts);
    if p.Some? && Lowerable(p.value) && !(HasDivMod(p.value) && HasWrite(p.value)) then p else None
  }

  /** The variables a tree can write, in the order the source's walk meets them. */
  function WrittenVars(e: Ast): seq<string> {
    match e
    case Assign(x, _, rhs) => [x] + WrittenVars(rhs)
    case IncDec(x, _, _) => [x]
    case Bin(_, l, r) => WrittenVars(l) + WrittenVars(r)
    case Un(_, a) => WrittenVars(a)
    case Cond(t, a, b) => WrittenVars(t) + WrittenVars(a) + WrittenVars(b)
    case Index(_, key) => WrittenVars(key)
    case _ => []
  }

  /** The two walks agree on which trees write. */
  lemma {:induction false} WritesAreCollected(e: Ast)
    ensures HasWrite(e) <==> WrittenVars(e) != []
  {
    match e
    case Bin(_, l, r) => WritesAreCollected(l); WritesAreCollected(r);
    case Un(_, a) => WritesAreCollected(a);
    case Cond(t, a, b) => WritesAreCollected(t); WritesAreCollected(a); WritesAreCollected(b);
    case Index(_, key) => WritesAreCollected(key);
    case _ =>
  }

  // ---------------------------------------------------------------- what the walks find

  /** s is e or a tree inside it. */
  predicate Inside(s: Ast, e: Ast) {
    s == e
    || match e
       case Index(_, key) => Inside(s, key)
       case Bin(_, l, r) => Inside(s, l) || Inside(s, r)
       case Un(_, a) => Inside(s, a)
       case Cond(t, a, b) => Inside(s, t) || Inside(s, a) || Inside(s, b)
       case Assign(_, _, rhs) => Inside(s, rhs)
       case Number(_) | Var(_) | IncDec(_, _, _) => false
  }

  /** A `/` or `%` stands somewhere in e. */
  ghost predicate Divides(e: Ast) {
    exists s :: Inside(s, e) && s.Bin? && (s.op == "/" || s.op == "%")
  }

  /** Somewhere in e, x is assigned, incremented or decremented. */
  ghost predicate WritesTo(e: Ast, x: string) {
    exists s :: Inside(s, e) && (s.Assign? || s.IncDec?) && s.x == x
  }

  ghost predicate WritesSomething(e: Ast) {
    exists s :: Inside(s, e) && (s.Assign? || s.IncDec?)
  }

  lemma {:induction false} DivisionIsFound(e: Ast)
    ensures HasDivMod(e) <==> Divides(e)
  {
    match e
    case Bin(op, l, r) =>
      DivisionIsFound(l); DivisionIsFound(r);
      assert Inside(e, e);
    case Un(_, a) => DivisionIsFound(a);
    case Cond(t, a, b) => DivisionIsFound(t); DivisionIsFound(a); DivisionIsFound(b);
    case Index(_, key) => DivisionIsFound(key);
    case Assign(_, _, rhs) => DivisionIsFound(rhs);
    case _ =>
  }

  lemma {:induction false} WriteIsFound(e: Ast)
    ensures HasWrite(e) <==> WritesSomething(e)
  {
    match e
    case Bin(_, l, r) => WriteIsFound(l); WriteIsFound(r);
    case Un(_, a) => WriteIsFound(a);
    case Cond(t, a, b) => WriteIsFound(t); WriteIsFound(a); WriteIsFound(b);
    case Index(_, key) => WriteIsFound(key);
    case Assign(_, _, _) => assert Inside(e, e);
    case IncDec(_, _, _) => assert Inside(e, e);
    case _ =>
  }

  /** The collected variables are exactly those the tree writes somewhere. */
  lemma {:induction false} WrittenVarsExactly(e: Ast, x: string)
    ensures x in WrittenVars(e) <==> WritesTo(e, x)
  {
    match e
    case Bin(_, l, r) => WrittenVarsExactly(l, x); WrittenVarsExactly(r, x);
    case Un(_, a) => WrittenVarsExactly(a, x);
    case Cond(t, a, b) => WrittenVarsExactly(t, x); WrittenVarsExactly(a, x); WrittenVarsExactly(b, x);
    case Index(_, key) => WrittenVarsExactly(key, x);
    case Assign(_, _, rhs) =>
      WrittenVarsExactly(rhs, x);
      assert Inside(e, e);
    case IncDec(_, _, _) => assert Inside(e, e);
    case _ =>
  }

  /** What is accepted for native lowering: texts that are one expression and write nothing, one increment or
      decrement alone, or one assignment whose right-hand side neither writes nor divides. */
  lemma NativeExactly(ts: seq<Token>, e: Ast)
    ensures ParseNative(ts) == Some(e) <==>
              && ParseArith(ts) == Some(e)
              && (!WritesSomething(e) || e.IncDec? || (e.Assign? && !WritesSomething(e.rhs) && !Divides(e.rhs)))
  {
    WriteIsFound(e);
    DivisionIsFound(e);
    if e.Assign? {
      WriteIsFound(e.rhs);
      DivisionIsFound(e.rhs);
    }
    LowerableExactly(e);
  }

  lemma LowerableExactly(e: Ast)
    ensures Lowerable(e) <==> !HasWrite(e) || e.IncDec? || (e.Assign? && !HasWrite(e.rhs))
  {
  }

  // ---------------------------------------------------------------- evaluation

  /** Scalars and array elements; what was never set reads as zero. */
  datatype State = State(vars: map<string, int>, elems: map<(string, int), int>)

  function Read(st: State, x: string): int {
    if x in st.vars then st.vars[x] else 0
  }

  function ReadElem(st: State, x: string, k: int): int {
    if (x, k) in st.elems then st.elems[(x, k)] else 0
  }

  function Write(st: State, x: string, v: int): State {
    st.(vars := st.vars[x := v])
  }

  datatype Outcome = Error | Ok(v: int, st: State)

  /** What the operators compute is left open: any partial meaning for the binary ones and any
      total one for the unary ones. */
  datatype Meaning = Meaning(bin: (string, int, int) -> Option<int>, un: (string, int) -> int)

  /** An order of evaluation: at each node, whether the right operand goes first. */
  type Order = Ast -> bool

  function AssignValue(op: string, was: int, v: int): int {
    if op == "+=" then Wrap(was + v) else if op == "-=" then Wrap(was - v)
    else if op == "*=" then Wrap(was * v) else v
  }

  /** Evaluation under a meaning and an order. `&&`, `||` and `?:` always take their test first. */
  function Eval(e: Ast, st: State, m: Meaning, right: Order): Outcome {
    match e
    case Number(n) => Ok(n, st)
    case Var(x) => Ok(Read(st, x), st)
    case Index(x, key) =>
      var k := Eval(key, st, m, right);
      if k.Error? then Error else Ok(ReadElem(k.st, x, k.v), k.st)
    case Un(op, a) =>
      var v := Eval(a, st, m, right);
      if v.Error? then Error else Ok(m.un(op, v.v), v.st)
    case Cond(t, a, b) =>
      var v := Eval(t, st, m, right);
      if v.Error? then Error else if v.v != 0 then Eval(a, v.st, m, right) else Eval(b, v.st, m, right)
    case Bin(op, l, r) =>
      if op == "&&" || op == "||" then
        var v := Eval(l, st, m, right);
        if v.Error? then Error
        else if (op == "&&") == (v.v == 0) then Ok(if v.v == 0 then 0 else 1, v.st)
        else
          var w := Eval(r, v.st, m, right);
          if w.Error? then Error else Ok(if w.v == 0 then 0 else 1, w.st)
      else
        var first := Eval(if right(e) then r else l, st, m, right);
        if first.Error? then Error
        else
          var second := Eval(if right(e) then l else r, first.st, m, right);
          if second.Error? then Error
          else
            var v := m.bin(op, if right(e) then second.v else first.v, if right(e) then first.v else second.v);
            if v.None? then Error else Ok(v.value, second.st)
    case Assign(x, op, rhs) =>
      var v := Eval(rhs, st, m, right);
      if v.Error? then Error
      else
        var w := AssignValue(op, Read(if right(e) then v.st else st, x), v.v);
        Ok(w, Write(v.st, x, w))
    case IncDec(x, d, prefix) =>
      var was := Read(st, x);
      var now := Wrap(was + d);
      Ok(if prefix then now else was, Write(st, x, now))
  }

  // ---------------------------------------------------------------- order independence

  /** A tree without writes leaves the state alone and does not see the order. */
  lemma {:induction false} PureIsOrderFree(e: Ast, st: State, m: Meaning, a: Order, b: Order)
    requires !HasWrite(e)
    ensures Eval(e, st, m, a) == Eval(e, st, m, b)
    ensures Eval(e, st, m, a).Ok? ==> Eval(e, st, m, a).st == st
  {
    match e
    case Bin(_, l, r) =>
      PureIsOrderFree(l, st, m, a, b);
      PureIsOrderFree(r, st, m, a, b);
    case Un(_, x) => PureIsOrderFree(x, st, m, a, b);
    case Cond(t, x, y) =>
      PureIsOrderFree(t, st, m, a, b);
      PureIsOrderFree(x, st, m, a, b);
      PureIsOrderFree(y, st, m, a, b);
    case Index(_, key) => PureIsOrderFree(key, st, m, a, b);
    case _ =>
  }

  /** Every accepted text has the same value and final state, or fails alike, under any two
      orders of evaluation and any meaning of the operators. */
  lemma NativeIsOrderFree(ts: seq<Token>, st: State, m: Meaning, a: Order, b: Order)
    requires ParseNative(ts).Some?
    ensures var e := ParseNative(ts).value; Eval(e, st, m, a) == Eval(e, st, m, b)
  {
    var e := ParseNative(ts).value;
    if e.Assign? {
      PureIsOrderFree(e.rhs, st, m, a, b);
    } else if !e.IncDec? {
      PureIsOrderFree(e, st, m, a, b);
    }
  }

  /** The guard is not idle: `x++ + x`, which it rejects, depends on the order. */
  lemma RejectedTreesCanDependOnOrder()
    ensures var e := Bin("+", IncDec("x", 1, false), Var("x"));
            && !Lowerable(e)
            && exists st, m, a, b :: Eval(e, st, m, a) != Eval(e, st, m, b)
  {
    var e := Bin("+", IncDec("x", 1, false), Var("x"));
    var m := Meaning((op, x, y) => Some(x + y), (op, x) => x);
    var st := State(map["x" := 0], map[]);
    var left: Order, right: Order := _ => false, _ => true;
    assert Eval(e, st, m, left).v == 1;
    assert Eval(e, st, m, right).v == 0;
  }

  // ---------------------------------------------------------------- writes and failures

  /** Evaluation changes only the variables the walk collects, and no array element. */
  lemma {:induction false} EvalWritesOnlyWrittenVars(e: Ast, st: State, m: Meaning, o: Order, x: string)
    requires x !in WrittenVars(e)
    ensures var r := Eval(e, st, m, o); r.Ok? ==> Read(r.st, x) == Read(st, x) && r.st.elems == st.elems
  {
    match e
    case Bin(op, l, r) =>
      var (first, second) := if o(e) && op != "&&" && op != "||" then (r, l) else (l, r);
      EvalWritesOnlyWrittenVars(first, st, m, o, x);
      var v := Eval(first, st, m, o);
      if v.Ok? {
        EvalWritesOnlyWrittenVars(second, v.st, m, o, x);
      }
    case Un(_, a) => EvalWritesOnlyWrittenVars(a, st, m, o, x);
    case Cond(t, a, b) =>
      EvalWritesOnlyWrittenVars(t, st, m, o, x);
      var v := Eval(t, st, m, o);
      if v.Ok? {
        EvalWritesOnlyWrittenVars(if v.v != 0 then a else b, v.st, m, o, x);
      }
    case Index(_, key) => EvalWritesOnlyWrittenVars(key, st, m, o, x);
    case Assign(_, _, rhs) => EvalWritesOnlyWrittenVars(rhs, st, m, o, x);
    case _ =>
  }

  /** Only `/` and `%` can fail. */
  ghost predicate OnlyDivisionFails(m: Meaning) {
    forall op, x, y :: op != "/" && op != "%" ==> m.bin(op, x, y).Some?
  }

  /** A tree without `/` and `%` always has a value. */
  lemma {:induction false} DivisionFreeNeverFails(e: Ast, st: State, m: Meaning, o: Order)
    requires !HasDivMod(e) && OnlyDivisionFails(m)
    ensures Eval(e, st, m, o).Ok?
  {
    match e
    case Bin(op, l, r) =>
      var (first, second) := if o(e) && op != "&&" && op != "||" then (r, l) else (l, r);
      DivisionFreeNeverFails(first, st, m, o);
      DivisionFreeNeverFails(second, Eval(first, st, m, o).st, m, o);
    case Un(_, a) => DivisionFreeNeverFails(a, st, m, o);
    case Cond(t, a, b) =>
      DivisionFreeNeverFails(t, st, m, o);
      var v := Eval(t, st, m, o);
      DivisionFreeNeverFails(if v.v != 0 then a else b, v.st, m, o);
    case Index(_, key) => DivisionFreeNeverFails(key, st, m, o);
    case Assign(_, _, rhs) => DivisionFreeNeverFails(rhs, st, m, o);
    case _ =>
  }

  /** An accepted text that writes always completes: no write is ever skipped by a division
      that fails, which is what rejecting writes next to `/` and `%` is for. */
  lemma NativeWritesComplete(ts: seq<Token>, st: State, m: Meaning, o: Order)
    requires ParseNative(ts).Some? && HasWrite(ParseNative(ts).value) && OnlyDivisionFails(m)
    ensures Eval(ParseNative(ts).value, st, m, o).Ok?
  {
    DivisionFreeNeverFails(ParseNative(ts).value, st, m, o);
  }
}

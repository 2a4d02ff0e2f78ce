/** The C subset both sides of the lowering are written in: expressions with memory reads and
    prefix increments, statements with loops, switch, break, continue and return, and their
    meaning. Fuel counts loop trips only, so two programs can be compared trip by trip. */
module CLang {
  import Int64

  /** A program variable, or a temporary of the lowering; `___t` names are reserved for the latter. */
  datatype Name = User(x: string) | Temp(n: nat)

  datatype BinOp = Add | Sub | Mul | Div | Mod | Eq | Ne | Lt | Le | Gt | Ge

  datatype Expr =
    | Num(n: int)
    | Var(x: Name)
    | Bin(op: BinOp, l: Expr, r: Expr)
    | And(l: Expr, r: Expr)
    | Or(l: Expr, r: Expr)
    | Not(e: Expr)
    | Cond(test: Expr, thn: Expr, els: Expr)
    | Deref(p: Expr)
    | Index(a: Expr, i: Expr)
    | PreInc(x: Name, up: bool)   // `++x` or `--x`

  datatype Stmt =
    | Assign(x: Name, e: Expr)
    | Store(p: Expr, e: Expr)
    | Block(body: seq<Stmt>)
    | If(cond: Expr, thn: seq<Stmt>, els: seq<Stmt>)
    | While(cond: Expr, body: seq<Stmt>)
    | For(init: seq<Stmt>, cond: Expr, step: seq<Stmt>, body: seq<Stmt>)
    | Switch(disc: Expr, sections: seq<Section>)
    | Break          // the loop-control node
    | Continue
    | BreakCall      // the runtime signal call
    | ContinueCall
    | Return(e: Expr)

  /** A labelled part of a switch body. */
  datatype Section = Section(tag: Label, body: seq<Stmt>)

  datatype Label = Case(n: int) | Default

  // ---------------------------------------------------------------- meaning

  datatype State = State(vars: map<Name, int>, mem: map<int, int>)

  /** Reads are total: what was never written is zero. */
  function ReadVar(st: State, x: Name): int {
    if x in st.vars then st.vars[x] else 0
  }

  function ReadMem(st: State, a: int): int {
    if a in st.mem then st.mem[a] else 0
  }

  function WriteVar(st: State, x: Name, v: int): State {
    st.(vars := st.vars[x := v])
  }

  function Truth(b: bool): int { if b then 1 else 0 }

  /** On unbounded integers; what C leaves undefined, division by zero, is zero. */
  function Apply(op: BinOp, a: int, b: int): int {
    match op
    case Add => a + b
    case Sub => a - b
    case Mul => a * b
    case Div => if b == 0 then 0 else Int64.TruncDiv(a, b)
    case Mod => if b == 0 then 0 else a - Int64.TruncDiv(a, b) * b
    case Eq => Truth(a == b)
    case Ne => Truth(a != b)
    case Lt => Truth(a < b)
    case Le => Truth(a <= b)
    case Gt => Truth(a > b)
    case Ge => Truth(a >= b)
  }

  /** Value and final state, operands left to right, `&&`, `||` and `?:` as C sequences them. */
  function Eval(e: Expr, st: State): (int, State) {
    match e
    case Num(n) => (n, st)
    case Var(x) => (ReadVar(st, x), st)
    case Bin(op, l, r) =>
      var (a, s1) := Eval(l, st);
      var (b, s2) := Eval(r, s1);
      (Apply(op, a, b), s2)
    case And(l, r) =>
      var (a, s1) := Eval(l, st);
      if a == 0 then (0, s1) else var (b, s2) := Eval(r, s1); (Truth(b != 0), s2)
    case Or(l, r) =>
      var (a, s1) := Eval(l, st);
      if a != 0 then (1, s1) else var (b, s2) := Eval(r, s1); (Truth(b != 0), s2)
    case Not(a) => var (v, s1) := Eval(a, st); (Truth(v == 0), s1)
    case Cond(t, a, b) =>
      var (v, s1) := Eval(t, st);
      if v != 0 then Eval(a, s1) else Eval(b, s1)
    case Deref(p) => var (a, s1) := Eval(p, st); (ReadMem(s1, a), s1)
    case Index(a, i) =>
      var (base, s1) := Eval(a, st);
      var (k, s2) := Eval(i, s1);
      (ReadMem(s2, base + k), s2)
    case PreInc(x, up) => var v := ReadVar(st, x) + (if up then 1 else -1); (v, WriteVar(st, x, v))
  }

  datatype Outcome =
    | Normal(st: State)
    | Broke(st: State)
    | Continued(st: State)
    | Returned(v: int, st: State)
    | OutOfFuel

  /** The index of the section a switch jumps to: the matching case, else the default, else none. */
  function Target(sections: seq<Section>, v: int): (i: nat)
    ensures i <= |sections|
  {
    var c := FirstWith(sections, Case(v));
    if c < |sections| then c else FirstWith(sections, Default)
  }

  function FirstWith(sections: seq<Section>, tag: Label): (i: nat)
    ensures i <= |sections|
    ensures i < |sections| ==> sections[i].tag == tag
  {
    if sections == [] || sections[0].tag == tag then 0 else 1 + FirstWith(sections[1..], tag)
  }

  function Exec(fuel: nat, s: Stmt, st: State): Outcome
    decreases fuel, s, 1
  {
    match s
    case Assign(x, e) => var (v, s1) := Eval(e, st); Normal(WriteVar(s1, x, v))
    case Store(p, e) =>
      var (a, s1) := Eval(p, st);
      var (v, s2) := Eval(e, s1);
      Normal(s2.(mem := s2.mem[a := v]))
    case Block(body) => ExecSeq(fuel, body, st)
    case If(c, thn, els) =>
      var (v, s1) := Eval(c, st);
      if v != 0 then ExecSeq(fuel, thn, s1) else ExecSeq(fuel, els, s1)
    case While(c, body) =>
      if fuel == 0 then OutOfFuel
      else
        var (v, s1) := Eval(c, st);
        if v == 0 then Normal(s1)
        else
          var o := ExecSeq(fuel, body, s1);
          if o.Normal? || o.Continued? then Exec(fuel - 1, s, o.st) else LeaveLoop(o)
    case For(init, c, step, body) =>
      var o := ExecSeq(fuel, init, st);
      if o.Normal? then ExecFor(fuel, s, o.st) else o
    case Switch(d, sections) =>
      var (v, s1) := Eval(d, st);
      LeaveLoop(ExecSections(fuel, sections, Target(sections, v), s1))
    case Break | BreakCall => Broke(st)
    case Continue | ContinueCall => Continued(st)
    case Return(e) => var (v, s1) := Eval(e, st); Returned(v, s1)
  }

  /** A break ends the loop or switch it belongs to. */
  function LeaveLoop(o: Outcome): Outcome {
    if o.Broke? then Normal(o.st) else o
  }

  /** The loop of a `for` after its initialisation, section 6.8.5.3 of C11: a continue goes to the step. */
  function ExecFor(fuel: nat, s: Stmt, st: State): Outcome
    requires s.For?
    decreases fuel, s, 0
  {
    if fuel == 0 then OutOfFuel
    else
      var (v, s1) := Eval(s.cond, st);
      if v == 0 then Normal(s1)
      else
        var o := ExecSeq(fuel, s.body, s1);
        if o.Normal? || o.Continued? then
          var p := ExecSeq(fuel, s.step, o.st);
          if p.Normal? then ExecFor(fuel - 1, s, p.st) else p
        else LeaveLoop(o)
  }

  function ExecSeq(fuel: nat, ss: seq<Stmt>, st: State): Outcome
    decreases fuel, ss, 0
  {
    if ss == [] then Normal(st)
    else
      var o := Exec(fuel, ss[0], st);
      if o.Normal? then ExecSeq(fuel, ss[1..], o.st) else o
  }

  /** The bodies from section i on, one falling through into the next. */
  function ExecSections(fuel: nat, sections: seq<Section>, i: nat, st: State): Outcome
    requires i <= |sections|
    decreases fuel, sections, |sections| - i
  {
    if i == |sections| then Normal(st)
    else
      var o := ExecSeq(fuel, sections[i].body, st);
      if o.Normal? then ExecSections(fuel, sections, i + 1, o.st) else o
  }

  // ---------------------------------------------------------------- facts about the meaning

  lemma {:induction false} ExecSeqConcat(fuel: nat, a: seq<Stmt>, b: seq<Stmt>, st: State)
    ensures ExecSeq(fuel, a + b, st)
            == var o := ExecSeq(fuel, a, st); if o.Normal? then ExecSeq(fuel, b, o.st) else o
    decreases |a|
  {
    if a == [] {
      assert a + b == b;
    } else {
      assert (a + b)[1..] == a[1..] + b;
      var o := Exec(fuel, a[0], st);
      if o.Normal? {
        ExecSeqConcat(fuel, a[1..], b, o.st);
      }
    }
  }

  lemma ExecSingle(fuel: nat, s: Stmt, st: State)
    ensures ExecSeq(fuel, [s], st) == Exec(fuel, s, st)
  {
    assert [s][1..] == [];
  }

  /** More fuel never changes a run that finished, so a finished run has one outcome. */
  lemma {:induction false} MoreFuel(fuel: nat, more: nat, s: Stmt, st: State)
    requires fuel <= more && Exec(fuel, s, st) != OutOfFuel
    ensures Exec(more, s, st) == Exec(fuel, s, st)
    decreases fuel, s, 1
  {
    match s
    case Block(body) => MoreFuelSeq(fuel, more, body, st);
    case If(c, thn, els) =>
      var (v, s1) := Eval(c, st);
      MoreFuelSeq(fuel, more, if v != 0 then thn else els, s1);
    case While(c, body) =>
      var (v, s1) := Eval(c, st);
      if v != 0 {
        MoreFuelSeq(fuel, more, body, s1);
        var o := ExecSeq(fuel, body, s1);
        if o.Normal? || o.Continued? {
          MoreFuel(fuel - 1, more - 1, s, o.st);
        }
      }
    case For(init, _, _, _) =>
      MoreFuelSeq(fuel, more, init, st);
      var o := ExecSeq(fuel, init, st);
      if o.Normal? {
        MoreFuelFor(fuel, more, s, o.st);
      }
    case Switch(d, sections) =>
      var (v, s1) := Eval(d, st);
      MoreFuelSections(fuel, more, sections, Target(sections, v), s1);
    case _ =>
  }

  lemma {:induction false} MoreFuelSeq(fuel: nat, more: nat, ss: seq<Stmt>, st: State)
    requires fuel <= more && ExecSeq(fuel, ss, st) != OutOfFuel
    ensures ExecSeq(more, ss, st) == ExecSeq(fuel, ss, st)
    decreases fuel, ss, 0
  {
    if ss != [] {
      MoreFuel(fuel, more, ss[0], st);
      var o := Exec(fuel, ss[0], st);
      if o.Normal? {
        MoreFuelSeq(fuel, more, ss[1..], o.st);
      }
    }
  }

  lemma {:induction false} MoreFuelFor(fuel: nat, more: nat, s: Stmt, st: State)
    requires s.For? && fuel <= more && ExecFor(fuel, s, st) != OutOfFuel
    ensures ExecFor(more, s, st) == ExecFor(fuel, s, st)
    decreases fuel, s, 0
  {
    var (v, s1) := Eval(s.cond, st);
    if v != 0 {
      MoreFuelSeq(fuel, more, s.body, s1);
      var o := ExecSeq(fuel, s.body, s1);
      if o.Normal? || o.Continued? {
        MoreFuelSeq(fuel, more, s.step, o.st);
        var p := ExecSeq(fuel, s.step, o.st);
        if p.Normal? {
          MoreFuelFor(fuel - 1, more - 1, s, p.st);
        }
      }
    }
  }

  lemma {:induction false} MoreFuelSections(fuel: nat, more: nat, sections: seq<Section>, i: nat, st: State)
    requires i <= |sections| && fuel <= more && ExecSections(fuel, sections, i, st) != OutOfFuel
    ensures ExecSections(more, sections, i, st) == ExecSections(fuel, sections, i, st)
    decreases fuel, sections, |sections| - i
  {
    if i < |sections| {
      MoreFuelSeq(fuel, more, sections[i].body, st);
      var o := ExecSeq(fuel, sections[i].body, st);
      if o.Normal? {
        MoreFuelSections(fuel, more, sections, i + 1, o.st);
      }
    }
  }
}

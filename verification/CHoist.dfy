/** Hoisting: a condition's memory reads, ternaries and increments are moved into temporaries
    assigned before it, so that what is left can be written in the shell's test grammar. */
module CHoist {
  import opened CLang

  // ---------------------------------------------------------------- the rewriting

  /** A rewritten condition, the statements to run before it, and the temporary counter after. */
  datatype Hoisted = Hoisted(e: Expr, pre: seq<Stmt>, n: nat)

  /** Whether a condition holds a read the test grammar cannot express. */
  predicate ValueRead(e: Expr) {
    match e
    case Deref(_) | Index(_, _) | PreInc(_, _) | Cond(_, _, _) => true
    case Bin(_, l, r) => ValueRead(l) || ValueRead(r)
    case And(l, r) => ValueRead(l) || ValueRead(r)
    case Or(l, r) => ValueRead(l) || ValueRead(r)
    case Not(a) => ValueRead(a)
    case _ => false
  }

  function ToTemp(e: Expr, n: nat): Hoisted {
    Hoisted(Var(Temp(n + 1)), [Assign(Temp(n + 1), e)], n + 1)
  }

  function Then(a: Hoisted, b: Hoisted, e: Expr): Hoisted {
    Hoisted(e, a.pre + b.pre, b.n)
  }

  function Step(x: Name, up: bool): Stmt {
    Assign(x, Bin(if up then Add else Sub, Var(x), Num(1)))
  }

  function Hoist(e: Expr, n: nat): Hoisted {
    match e
    case Deref(_) | Index(_, _) => ToTemp(e, n)
    case PreInc(x, up) => Hoisted(Var(x), [Step(x, up)], n)
    case Bin(op, l, r) =>
      var a := Hoist(l, n);
      var b := Hoist(r, a.n);
      Then(a, b, Bin(op, a.e, b.e))
    case And(l, r) =>
      var a := Hoist(l, n);
      var b := Hoist(r, a.n);
      Then(a, b, And(a.e, b.e))
    case Or(l, r) =>
      var a := Hoist(l, n);
      var b := Hoist(r, a.n);
      Then(a, b, Or(a.e, b.e))
    case Not(a) =>
      var h := Hoist(a, n);
      h.(e := Not(h.e))
    case Cond(t, x, y) =>
      var a := Hoist(t, n);
      var b := Hoist(x, a.n);
      var c := Hoist(y, b.n);
      var d := ToTemp(Cond(a.e, b.e, c.e), c.n);
      Hoisted(d.e, a.pre + b.pre + c.pre + d.pre, d.n)
    case _ => Hoisted(e, [], n)
  }

  /** A measure under which operands are smaller than their node, pairs of them included. */
  ghost function Size(e: Expr): (k: nat)
    ensures k > 0
  {
    match e
    case Bin(_, l, r) => 1 + Size(l) + Size(r)
    case And(l, r) => 1 + Size(l) + Size(r)
    case Or(l, r) => 1 + Size(l) + Size(r)
    case Not(a) => 1 + Size(a)
    case Cond(t, a, b) => 1 + Size(t) + Size(a) + Size(b)
    case _ => 1
  }

  /** The source's parser state the hoisting updates: the temporary counter and the statement list. */
  class Hoister {
    var userTempSeq: nat
    var out: seq<Stmt>

    constructor (n: nat)
      ensures userTempSeq == n && out == []
    {
      userTempSeq, out := n, [];
    }

    method HoistToTemp(e: Expr) returns (r: Expr)
      modifies this
      ensures var h := ToTemp(e, old(userTempSeq));
              r == h.e && out == old(out) + h.pre && userTempSeq == h.n
    {
      userTempSeq := userTempSeq + 1;
      out := out + [Assign(Temp(userTempSeq), e)];
      r := Var(Temp(userTempSeq));
    }

    method HoistCondReads(e: Expr) returns (r: Expr)
      modifies this
      ensures var h := Hoist(e, old(userTempSeq));
              r == h.e && out == old(out) + h.pre && userTempSeq == h.n
      decreases Size(e)
    {
      match e {
        case Deref(_) | Index(_, _) => r := HoistToTemp(e);
        case PreInc(x, up) =>
          out := out + [Step(x, up)];
          r := Var(x);
        case Bin(op, a, b) =>
          var l, m := HoistPair(a, b);
          r := Bin(op, l, m);
        case And(a, b) =>
          var l, m := HoistPair(a, b);
          r := And(l, m);
        case Or(a, b) =>
          var l, m := HoistPair(a, b);
          r := Or(l, m);
        case Not(a) =>
          var l := HoistCondReads(a);
          r := Not(l);
        case Cond(_, _, _) => r := HoistTernary(e);
        case _ => r := e;
      }
    }

    method HoistTernary(e: Expr) returns (r: Expr)
      requires e.Cond?
      modifies this
      ensures var h := Hoist(e, old(userTempSeq));
              r == h.e && out == old(out) + h.pre && userTempSeq == h.n
      decreases Size(e), 0
    {
      var a, b := HoistPair(e.test, e.thn);
      var c := HoistCondReads(e.els);
      r := HoistToTemp(Cond(a, b, c));
    }

    /** The operands of a node, left before right. */
    method HoistPair(a: Expr, b: Expr) returns (l: Expr, m: Expr)
      modifies this
      ensures var h := Hoist(a, old(userTempSeq));
              var k := Hoist(b, h.n);
              l == h.e && m == k.e && out == old(out) + (h.pre + k.pre) && userTempSeq == k.n
      decreases Size(a) + Size(b)
    {
      l := HoistCondReads(a);
      m := HoistCondReads(b);
    }
  }

  // ---------------------------------------------------------------- which conditions are safe

  function Vars(e: Expr): set<Name> {
    match e
    case Num(_) => {}
    case Var(x) => {x}
    case Bin(_, l, r) => Vars(l) + Vars(r)
    case And(l, r) => Vars(l) + Vars(r)
    case Or(l, r) => Vars(l) + Vars(r)
    case Not(a) => Vars(a)
    case Cond(t, a, b) => Vars(t) + Vars(a) + Vars(b)
    case Deref(p) => Vars(p)
    case Index(a, i) => Vars(a) + Vars(i)
    case PreInc(x, _) => {x}
  }

  /** The variables evaluation can change. */
  function Incremented(e: Expr): set<Name> {
    match e
    case Num(_) | Var(_) => {}
    case Bin(_, l, r) => Incremented(l) + Incremented(r)
    case And(l, r) => Incremented(l) + Incremented(r)
    case Or(l, r) => Incremented(l) + Incremented(r)
    case Not(a) => Incremented(a)
    case Cond(t, a, b) => Incremented(t) + Incremented(a) + Incremented(b)
    case Deref(p) => Incremented(p)
    case Index(a, i) => Incremented(a) + Incremented(i)
    case PreInc(x, _) => {x}
  }

  /** A condition of the program: no temporaries in it. */
  predicate NoTemps(e: Expr) {
    forall x :: x in Vars(e) ==> x.User?
  }

  /** Hoisting keeps the condition's meaning: no increment sits where C may skip it, and none
      follows another use of its variable in the same operator (which C leaves undefined). */
  predicate HoistSafe(e: Expr) {
    match e
    case Bin(_, l, r) => HoistSafe(l) && HoistSafe(r) && Incremented(r) !! Vars(l)
    case And(l, r) => HoistSafe(l) && HoistSafe(r) && Incremented(r) == {}
    case Or(l, r) => HoistSafe(l) && HoistSafe(r) && Incremented(r) == {}
    case Not(a) => HoistSafe(a)
    case Cond(t, a, b) => HoistSafe(t) && HoistSafe(a) && HoistSafe(b) && Incremented(a) == {} && Incremented(b) == {}
    case _ => true
  }

  // ---------------------------------------------------------------- states up to temporaries

  /** The states agree on memory and on every program variable. */
  ghost predicate SameUser(a: State, b: State) {
    a.mem == b.mem && forall x :: ReadVar(a, User(x)) == ReadVar(b, User(x))
  }

  lemma {:induction false} EvalFrame(e: Expr, st: State, x: Name)
    ensures Eval(e, st).1.mem == st.mem
    ensures x !in Incremented(e) ==> ReadVar(Eval(e, st).1, x) == ReadVar(st, x)
    decreases e
  {
    match e
    case Bin(_, l, r) => EvalFrame(l, st, x); EvalFrame(r, Eval(l, st).1, x);
    case And(l, r) => EvalFrame(l, st, x); EvalFrame(r, Eval(l, st).1, x);
    case Or(l, r) => EvalFrame(l, st, x); EvalFrame(r, Eval(l, st).1, x);
    case Not(a) => EvalFrame(a, st, x);
    case Cond(t, a, b) =>
      EvalFrame(t, st, x);
      EvalFrame(a, Eval(t, st).1, x);
      EvalFrame(b, Eval(t, st).1, x);
    case Deref(p) => EvalFrame(p, st, x);
    case Index(a, i) => EvalFrame(a, st, x); EvalFrame(i, Eval(a, st).1, x);
    case _ =>
  }

  /** An expression of the program means the same in states that differ in temporaries only. */
  lemma {:induction false} EvalSameUser(e: Expr, a: State, b: State)
    requires NoTemps(e) && SameUser(a, b)
    ensures Eval(e, a).0 == Eval(e, b).0 && SameUser(Eval(e, a).1, Eval(e, b).1)
    decreases e
  {
    match e
    case Bin(_, l, r) =>
      EvalSameUser(l, a, b);
      EvalSameUser(r, Eval(l, a).1, Eval(l, b).1);
    case And(l, r) =>
      EvalSameUser(l, a, b);
      EvalSameUser(r, Eval(l, a).1, Eval(l, b).1);
    case Or(l, r) =>
      EvalSameUser(l, a, b);
      EvalSameUser(r, Eval(l, a).1, Eval(l, b).1);
    case Not(x) => EvalSameUser(x, a, b);
    case Cond(t, x, y) =>
      EvalSameUser(t, a, b);
      EvalSameUser(x, Eval(t, a).1, Eval(t, b).1);
      EvalSameUser(y, Eval(t, a).1, Eval(t, b).1);
    case Deref(p) => EvalSameUser(p, a, b);
    case Index(x, i) =>
      EvalSameUser(x, a, b);
      EvalSameUser(i, Eval(x, a).1, Eval(x, b).1);
    case Var(x) => assert x in Vars(e);
    case PreInc(x, _) => assert x in Vars(e);
    case Num(_) =>
  }

  /** What hoisting leaves: comparisons and logic over variables and literals. */
  predicate IsPlain(e: Expr) {
    match e
    case Num(_) | Var(_) => true
    case Bin(_, l, r) => IsPlain(l) && IsPlain(r)
    case And(l, r) => IsPlain(l) && IsPlain(r)
    case Or(l, r) => IsPlain(l) && IsPlain(r)
    case Not(a) => IsPlain(a)
    case _ => false
  }

  /** A plain expression changes nothing and depends on its variables only. */
  lemma {:induction false} PlainEval(e: Expr, a: State, b: State)
    requires IsPlain(e) && forall x :: x in Vars(e) ==> ReadVar(a, x) == ReadVar(b, x)
    ensures Eval(e, a) == (Eval(e, a).0, a) && Eval(e, b) == (Eval(e, a).0, b)
    decreases e
  {
    match e
    case Bin(_, l, r) => PlainEval(l, a, b); PlainEval(r, a, b);
    case And(l, r) => PlainEval(l, a, b); PlainEval(r, a, b);
    case Or(l, r) => PlainEval(l, a, b); PlainEval(r, a, b);
    case Not(x) => PlainEval(x, a, b);
    case _ =>
  }

  lemma {:induction false} HoistIsPlain(e: Expr, n: nat)
    ensures var h := Hoist(e, n);
            && IsPlain(h.e) && h.n >= n
            && forall x :: x in Vars(h.e) ==> x in Vars(e) || (x.Temp? && n < x.n <= h.n)
    decreases e
  {
    match e
    case Bin(_, l, r) => HoistIsPlain(l, n); HoistIsPlain(r, Hoist(l, n).n);
    case And(l, r) => HoistIsPlain(l, n); HoistIsPlain(r, Hoist(l, n).n);
    case Or(l, r) => HoistIsPlain(l, n); HoistIsPlain(r, Hoist(l, n).n);
    case Not(a) => HoistIsPlain(a, n);
    case Cond(t, x, y) =>
      HoistIsPlain(t, n);
      HoistIsPlain(x, Hoist(t, n).n);
      HoistIsPlain(y, Hoist(x, Hoist(t, n).n).n);
    case _ =>
  }

  /** The reads and ternaries of a condition, a read's own operands aside. */
  function Reads(e: Expr): nat {
    match e
    case Deref(_) | Index(_, _) => 1
    case Bin(_, l, r) => Reads(l) + Reads(r)
    case And(l, r) => Reads(l) + Reads(r)
    case Or(l, r) => Reads(l) + Reads(r)
    case Not(a) => Reads(a)
    case Cond(t, a, b) => Reads(t) + Reads(a) + Reads(b) + 1
    case _ => 0
  }

  function Steps(e: Expr): nat {
    match e
    case PreInc(_, _) => 1
    case Bin(_, l, r) => Steps(l) + Steps(r)
    case And(l, r) => Steps(l) + Steps(r)
    case Or(l, r) => Steps(l) + Steps(r)
    case Not(a) => Steps(a)
    case Cond(t, a, b) => Steps(t) + Steps(a) + Steps(b)
    case _ => 0
  }

  /** Nothing is hoisted without need: one temporary for every read and ternary, one statement more for every
      increment; what is plain stays as it is. */
  lemma {:induction false} HoistIsMinimal(e: Expr, n: nat)
    ensures Hoist(e, n).n == n + Reads(e) && |Hoist(e, n).pre| == Reads(e) + Steps(e)
    ensures IsPlain(e) ==> Hoist(e, n) == Hoisted(e, [], n)
    decreases e
  {
    match e
    case Bin(_, l, r) => HoistIsMinimal(l, n); HoistIsMinimal(r, Hoist(l, n).n);
    case And(l, r) => HoistIsMinimal(l, n); HoistIsMinimal(r, Hoist(l, n).n);
    case Or(l, r) => HoistIsMinimal(l, n); HoistIsMinimal(r, Hoist(l, n).n);
    case Not(a) => HoistIsMinimal(a, n);
    case Cond(t, x, y) =>
      HoistIsMinimal(t, n);
      HoistIsMinimal(x, Hoist(t, n).n);
      HoistIsMinimal(y, Hoist(x, Hoist(t, n).n).n);
    case _ =>
  }

  // ---------------------------------------------------------------- hoisting keeps the meaning

  /** The state after the hoisted statements. */
  function After(h: Hoisted, t: State): State {
    var o := ExecSeq(0, h.pre, t);
    if o.Normal? then o.st else t
  }

  /** Running h from t ends in a state that agrees with st on the program, where the rewritten
      condition has value v; temporaries up to n are untouched. */
  ghost predicate Computes(h: Hoisted, n: nat, t: State, v: int, st: State) {
    && ExecSeq(0, h.pre, t) == Normal(After(h, t))
    && SameUser(st, After(h, t)) && Eval(h.e, After(h, t)) == (v, After(h, t))
    && forall m: nat :: m <= n ==> ReadVar(After(h, t), Temp(m)) == ReadVar(t, Temp(m))
  }

  lemma {:induction false} HoistComputes(e: Expr, n: nat, st: State, t: State)
    requires NoTemps(e) && HoistSafe(e) && SameUser(st, t)
    ensures var (v, st') := Eval(e, st); Computes(Hoist(e, n), n, t, v, st')
    decreases e
  {
    match e
    case Num(_) =>
    case Var(x) => assert x in Vars(e);
    case Deref(_) => ToTempComputes(e, n, st, t);
    case Index(_, _) => ToTempComputes(e, n, st, t);
    case PreInc(_, _) => PreIncComputes(e, n, st, t);
    case Not(a) => HoistComputes(a, n, st, t);
    case Bin(_, l, r) => PairComputes(e, l, r, n, st, t);
    case And(l, r) => PairComputes(e, l, r, n, st, t);
    case Or(l, r) => PairComputes(e, l, r, n, st, t);
    case Cond(_, _, _) => CondComputes(e, n, st, t);
  }

  lemma ToTempComputes(e: Expr, n: nat, st: State, t: State)
    requires NoTemps(e) && SameUser(st, t)
    ensures var (v, st') := Eval(e, st); Computes(ToTemp(e, n), n, t, v, st')
  {
    var h := ToTemp(e, n);
    EvalSameUser(e, st, t);
    ExecSingle(0, h.pre[0], t);
    forall m: nat | m <= n ensures ReadVar(After(h, t), Temp(m)) == ReadVar(t, Temp(m)) {
      IncrementedAreVars(e);
      EvalFrame(e, t, Temp(m));
    }
  }

  lemma {:induction false} IncrementedAreVars(e: Expr)
    ensures Incremented(e) <= Vars(e)
    decreases e
  {
    match e
    case Bin(_, l, r) => IncrementedAreVars(l); IncrementedAreVars(r);
    case And(l, r) => IncrementedAreVars(l); IncrementedAreVars(r);
    case Or(l, r) => IncrementedAreVars(l); IncrementedAreVars(r);
    case Not(a) => IncrementedAreVars(a);
    case Cond(t, a, b) => IncrementedAreVars(t); IncrementedAreVars(a); IncrementedAreVars(b);
    case Deref(p) => IncrementedAreVars(p);
    case Index(a, i) => IncrementedAreVars(a); IncrementedAreVars(i);
    case _ =>
  }

  lemma PreIncComputes(e: Expr, n: nat, st: State, t: State)
    requires e.PreInc? && NoTemps(e) && SameUser(st, t)
    ensures var (v, st') := Eval(e, st); Computes(Hoist(e, n), n, t, v, st')
  {
    var h := Hoist(e, n);
    assert e.x in Vars(e);
    ExecSingle(0, h.pre[0], t);
    var v := ReadVar(t, e.x) + (if e.up then 1 else -1);
    assert Eval(h.pre[0].e, t) == (v, t) by {
      assert Eval(Var(e.x), t) == (ReadVar(t, e.x), t) && Eval(Num(1), t) == (1, t);
    }
    assert After(h, t) == WriteVar(t, e.x, v);
  }

  /** Running one hoisted part after another. */
  lemma AfterBoth(a: Hoisted, b: Hoisted, e: Expr, t: State)
    requires ExecSeq(0, a.pre, t) == Normal(After(a, t))
    requires ExecSeq(0, b.pre, After(a, t)) == Normal(After(b, After(a, t)))
    ensures ExecSeq(0, Then(a, b, e).pre, t) == Normal(After(b, After(a, t)))
    ensures After(Then(a, b, e), t) == After(b, After(a, t))
  {
    ExecSeqConcat(0, a.pre, b.pre, t);
  }

  /** A plain expression keeps its value while r is hoisted, if r does not increment its
      variables and its temporaries are older. */
  lemma KeepsValue(l: Expr, r: Expr, n: nat, st: State, t: State)
    requires IsPlain(l) && SameUser(st, t)
    requires forall x :: x in Vars(l) ==> if x.User? then x !in Incremented(r) else x.n <= n
    requires var (w, s2) := Eval(r, st); Computes(Hoist(r, n), n, t, w, s2)
    ensures var t2 := After(Hoist(r, n), t); Eval(l, t2) == (Eval(l, t).0, t2)
  {
    var t2 := After(Hoist(r, n), t);
    forall x | x in Vars(l) ensures ReadVar(t, x) == ReadVar(t2, x) {
      EvalFrame(r, st, x);
    }
    PlainEval(l, t, t2);
  }

  /** An expression without increments leaves the program's state as it was. */
  lemma PureKeepsUser(e: Expr, st: State, t: State)
    requires Incremented(e) == {}
    ensures SameUser(Eval(e, st).1, t) <==> SameUser(st, t)
  {
  }

  lemma {:induction false} PairComputes(e: Expr, l: Expr, r: Expr, n: nat, st: State, t: State)
    requires (e.Bin? || e.And? || e.Or?) && l == e.l && r == e.r
    requires NoTemps(e) && HoistSafe(e) && SameUser(st, t)
    ensures var (v, st') := Eval(e, st); Computes(Hoist(e, n), n, t, v, st')
    decreases e, 0
  {
    hide HoistSafe, Incremented, SameUser, ExecSeq;
    assert NoTemps(l) && NoTemps(r) && HoistSafe(l) && HoistSafe(r) && Incremented(r) !! Vars(l)
        && (!e.Bin? ==> Incremented(r) == {}) by {
      SplitSafe(e, l, r);
    }
    var a := Hoist(l, n);
    var b := Hoist(r, a.n);
    var (v, s1) := Eval(l, st);
    HoistComputes(l, n, st, t);
    var t1 := After(a, t);
    HoistComputes(r, a.n, s1, t1);
    HoistIsPlain(l, n);
    KeepsValue(a.e, r, a.n, s1, t1);
    var h := Hoist(e, n);
    AfterBoth(a, b, h.e, t);
    HoistIsPlain(r, a.n);
    if !e.Bin? {
      PureKeepsUser(r, s1, After(b, t1));
    }
  }

  lemma SplitSafe(e: Expr, l: Expr, r: Expr)
    requires (e.Bin? || e.And? || e.Or?) && l == e.l && r == e.r && NoTemps(e) && HoistSafe(e)
    ensures NoTemps(l) && NoTemps(r) && HoistSafe(l) && HoistSafe(r) && Incremented(r) !! Vars(l)
    ensures !e.Bin? ==> Incremented(r) == {}
  {
  }

  lemma {:induction false} CondComputes(e: Expr, n: nat, st: State, t: State)
    requires e.Cond? && NoTemps(e) && HoistSafe(e) && SameUser(st, t)
    ensures var (v, st') := Eval(e, st); Computes(Hoist(e, n), n, t, v, st')
    decreases e, 1
  {
    CondParts(e, n, st, t);
    hide SameUser, ExecSeq, Incremented;
    var a := Hoist(e.test, n);
    var b := Hoist(e.thn, a.n);
    var c := Hoist(e.els, b.n);
    var t3 := After(c, After(b, After(a, t)));
    var s1 := Eval(e.test, st).1;
    TernaryToTemp(a, b, c, t);
    var v := Eval(Cond(a.e, b.e, c.e), t3).0;
    WriteTempKeepsUser(s1, t3, c.n + 1, v);
    var t4 := WriteVar(t3, Temp(c.n + 1), v);
    PureKeepsUser(e.thn, s1, t4);
    PureKeepsUser(e.els, s1, t4);
    assert After(Hoist(e, n), t) == t4;
  }

  /** After the parts of a ternary are hoisted, each of them still has its value. */
  lemma {:induction false} CondParts(e: Expr, n: nat, st: State, t: State)
    requires e.Cond? && NoTemps(e) && HoistSafe(e) && SameUser(st, t)
    ensures var a, s1 := Hoist(e.test, n), Eval(e.test, st).1;
            var b := Hoist(e.thn, a.n);
            var c := Hoist(e.els, b.n);
            var t1 := After(a, t);
            var t2 := After(b, t1);
            var t3 := After(c, t2);
            && ExecSeq(0, a.pre, t) == Normal(t1) && ExecSeq(0, b.pre, t1) == Normal(t2) && ExecSeq(0, c.pre, t2) == Normal(t3)
            && SameUser(s1, t3) && n <= c.n
            && Eval(a.e, t3) == (Eval(e.test, st).0, t3)
            && Eval(b.e, t3) == (Eval(e.thn, s1).0, t3)
            && Eval(c.e, t3) == (Eval(e.els, s1).0, t3)
            && forall m: nat :: m <= n ==> ReadVar(t3, Temp(m)) == ReadVar(t, Temp(m))
    decreases e, 0
  {
    hide Incremented, SameUser, ExecSeq, Eval;
    assert forall x :: x in Vars(e.test) || x in Vars(e.thn) || x in Vars(e.els) ==> x in Vars(e);
    var a := Hoist(e.test, n);
    var b := Hoist(e.thn, a.n);
    var s1 := Eval(e.test, st).1;
    HoistComputes(e.test, n, st, t);
    var t1 := After(a, t);
    HoistComputes(e.thn, a.n, s1, t1);
    var t2 := After(b, t1);
    PureKeepsUser(e.thn, s1, t2);
    HoistComputes(e.els, b.n, s1, t2);
    PureKeepsUser(e.els, s1, After(Hoist(e.els, b.n), t2));
    HoistIsPlain(e.test, n);
    HoistIsPlain(e.thn, a.n);
    HoistIsPlain(e.els, b.n);
    KeepsValue(a.e, e.thn, a.n, s1, t1);
    KeepsValue(a.e, e.els, b.n, s1, t2);
    KeepsValue(b.e, e.els, b.n, s1, t2);
  }

  /** The last step of a hoisted ternary: the temporary receives the part chosen. */
  lemma TernaryToTemp(a: Hoisted, b: Hoisted, c: Hoisted, t: State)
    requires var t1 := After(a, t); var t2 := After(b, t1);
             && ExecSeq(0, a.pre, t) == Normal(t1) && ExecSeq(0, b.pre, t1) == Normal(t2)
             && ExecSeq(0, c.pre, t2) == Normal(After(c, t2))
    requires var t3 := After(c, After(b, After(a, t)));
             Eval(a.e, t3).1 == t3 && Eval(b.e, t3).1 == t3 && Eval(c.e, t3).1 == t3
    ensures var t3 := After(c, After(b, After(a, t)));
            var e := Cond(a.e, b.e, c.e);
            ExecSeq(0, a.pre + b.pre + c.pre + ToTemp(e, c.n).pre, t)
            == Normal(WriteVar(t3, Temp(c.n + 1), Eval(e, t3).0))
  {
    var e := Cond(a.e, b.e, c.e);
    var last := ToTemp(e, c.n).pre;
    ExecSeqConcat(0, a.pre, b.pre, t);
    ExecSeqConcat(0, a.pre + b.pre, c.pre, t);
    ExecSeqConcat(0, a.pre + b.pre + c.pre, last, t);
    ExecSingle(0, last[0], After(c, After(b, After(a, t))));
  }

  lemma WriteTempKeepsUser(st: State, t: State, k: nat, v: int)
    requires SameUser(st, t)
    ensures SameUser(st, WriteVar(t, Temp(k), v))
  {
  }

  /** What the program sees of hoisting: with any fuel the statements before the condition end
      normally, and the rewritten condition then has the value of the original one, leaving the
      program in the state the original leaves. */
  lemma HoistingKeepsMeaning(e: Expr, n: nat, fuel: nat, st: State, t: State)
    requires NoTemps(e) && HoistSafe(e) && SameUser(st, t)
    ensures var h := Hoist(e, n);
            var o := ExecSeq(fuel, h.pre, t);
            && o.Normal? && Eval(h.e, o.st) == (Eval(e, st).0, o.st)
            && SameUser(Eval(e, st).1, o.st)
  {
    HoistComputes(e, n, st, t);
    MoreFuelSeq(0, fuel, Hoist(e, n).pre, t);
  }

  /** Where the condition on increments fails: `0 && ++i` never reaches its increment, but the
      hoisted form runs it before the test. */
  lemma SkippedIncrementIsRun()
    ensures var i := User("i");
            var e := And(Num(0), PreInc(i, true));
            var st := State(map[], map[]);
            && !HoistSafe(e)
            && ReadVar(Eval(e, st).1, i) == 0
            && var o := ExecSeq(0, Hoist(e, 0).pre, st); o.Normal? && ReadVar(o.st, i) == 1
  {
    var i := User("i");
    var st := State(map[], map[]);
    var r := PreInc(i, true);
    assert Incremented(r) == {i};
    assert Hoist(Num(0), 0) == Hoisted(Num(0), [], 0);
    assert Hoist(And(Num(0), r), 0).pre == [Step(i, true)];
    ExecSingle(0, Step(i, true), st);
    assert Eval(Var(i), st) == (0, st) && Eval(Num(1), st) == (1, st);
  }

  // ---------------------------------------------------------------- what C skips and hoisting runs

  /** The hoisted form of e, run from t, has e's value in st and leaves the program as e does. */
  ghost predicate HoistingKeeps(e: Expr, n: nat, fuel: nat, st: State, t: State) {
    var h := Hoist(e, n);
    var o := ExecSeq(fuel, h.pre, t);
    o.Normal? && Eval(h.e, o.st) == (Eval(e, st).0, o.st) && SameUser(Eval(e, st).1, o.st)
  }

  /** Two operands hoisted one after the other, whether or not C evaluates both. */
  lemma OperandsRun(l: Expr, r: Expr, e: Expr, n: nat, fuel: nat, st: State, t: State)
    requires NoTemps(l) && NoTemps(r) && HoistSafe(l) && HoistSafe(r) && SameUser(st, t)
    ensures var a := Hoist(l, n);
            var b := Hoist(r, a.n);
            var (v, s1) := Eval(l, st);
            var (w, s2) := Eval(r, s1);
            var t1 := After(a, t);
            var t2 := After(b, t1);
            && ExecSeq(fuel, Then(a, b, e).pre, t) == Normal(t2)
            && IsPlain(a.e) && IsPlain(b.e) && Eval(a.e, t2) == (Eval(a.e, t2).0, t2)
            && SameUser(s1, t1) && SameUser(s2, t2) && Eval(a.e, t1) == (v, t1) && Eval(b.e, t2) == (w, t2)
            && (SameUser(s1, s2) || Incremented(r) !! Vars(l) ==> Eval(a.e, t2).0 == v)
  {
    hide HoistSafe, Incremented, ExecSeq, Eval;
    var a := Hoist(l, n);
    var b := Hoist(r, a.n);
    var s1 := Eval(l, st).1;
    var t1 := After(a, t);
    HoistComputes(l, n, st, t);
    HoistComputes(r, a.n, s1, t1);
    HoistIsPlain(l, n);
    HoistIsPlain(r, a.n);
    AfterBoth(a, b, e, t);
    MoreFuelSeq(0, fuel, Then(a, b, e).pre, t);
    var t2 := After(b, t1);
    PlainEval(a.e, t2, t2);
    if SameUser(s1, Eval(r, s1).1) {
      UnmovedKeepsValue(a.e, a.n, s1, Eval(r, s1).1, t1, t2);
    }
    if Incremented(r) !! Vars(l) {
      KeepsValue(a.e, r, a.n, s1, t1);
    }
  }

  lemma UnmovedKeepsValue(p: Expr, n: nat, s1: State, s2: State, t1: State, t2: State)
    requires IsPlain(p) && forall x :: x in Vars(p) && x.Temp? ==> x.n <= n
    requires SameUser(s1, s2) && SameUser(s1, t1) && SameUser(s2, t2)
    requires forall m: nat :: m <= n ==> ReadVar(t2, Temp(m)) == ReadVar(t1, Temp(m))
    ensures Eval(p, t2).0 == Eval(p, t1).0
  {
    forall x | x in Vars(p) ensures ReadVar(t1, x) == ReadVar(t2, x) {
      if x.User? {
        assert ReadVar(s1, User(x.x)) == ReadVar(s2, User(x.x));
      }
    }
    PlainEval(p, t1, t2);
  }

  /** The exact condition for `l && r`: where l is false, that r, which C skips, changes nothing; where l
      is true, that what is left of l is still true after r, or r is false. */
  lemma AndHoistsExactly(l: Expr, r: Expr, n: nat, fuel: nat, st: State, t: State)
    requires NoTemps(And(l, r)) && HoistSafe(l) && HoistSafe(r) && SameUser(st, t)
    ensures var (v, s1) := Eval(l, st);
            var (w, s2) := Eval(r, s1);
            var after := ExecSeq(fuel, Hoist(And(l, r), n).pre, t);
            && after.Normal?
            && (HoistingKeeps(And(l, r), n, fuel, st, t)
                <==> if v == 0 then SameUser(s1, s2) else Eval(Hoist(l, n).e, after.st).0 != 0 || w == 0)
  {
    var e := And(l, r);
    OperandsAreOk(e, l, r);
    OperandsRun(l, r, Hoist(e, n).e, n, fuel, st, t);
    hide ExecSeq, HoistSafe, Incremented;
    assert Hoist(e, n).pre == Then(Hoist(l, n), Hoist(r, Hoist(l, n).n), Hoist(e, n).e).pre;
  }

  /** The exact condition for `l || r`, the truth of l the other way round. */
  lemma OrHoistsExactly(l: Expr, r: Expr, n: nat, fuel: nat, st: State, t: State)
    requires NoTemps(Or(l, r)) && HoistSafe(l) && HoistSafe(r) && SameUser(st, t)
    ensures var (v, s1) := Eval(l, st);
            var (w, s2) := Eval(r, s1);
            var after := ExecSeq(fuel, Hoist(Or(l, r), n).pre, t);
            && after.Normal?
            && (HoistingKeeps(Or(l, r), n, fuel, st, t)
                <==> if v != 0 then SameUser(s1, s2) else Eval(Hoist(l, n).e, after.st).0 == 0 || w != 0)
  {
    var e := Or(l, r);
    OperandsAreOk(e, l, r);
    OperandsRun(l, r, Hoist(e, n).e, n, fuel, st, t);
    hide ExecSeq, HoistSafe, Incremented;
    assert Hoist(e, n).pre == Then(Hoist(l, n), Hoist(r, Hoist(l, n).n), Hoist(e, n).e).pre;
  }

  lemma OperandsAreOk(e: Expr, l: Expr, r: Expr)
    requires (e.And? || e.Or?) && l == e.l && r == e.r && NoTemps(e)
    ensures NoTemps(l) && NoTemps(r)
  {
    assert forall x :: x in Vars(l) || x in Vars(r) ==> x in Vars(e);
  }

  /** So when r writes no variable of l, hoisting a logical operator is right if and only if C evaluates
      r too, or r changes nothing. */
  lemma SkippedOperandHoistsExactly(e: Expr, n: nat, fuel: nat, st: State, t: State)
    requires (e.And? || e.Or?) && NoTemps(e) && HoistSafe(e.l) && HoistSafe(e.r) && SameUser(st, t)
    requires Incremented(e.r) !! Vars(e.l)
    ensures var (v, s1) := Eval(e.l, st);
            HoistingKeeps(e, n, fuel, st, t) <==> (if e.And? then v != 0 else v == 0) || SameUser(s1, Eval(e.r, s1).1)
  {
    OperandsAreOk(e, e.l, e.r);
    OperandsRun(e.l, e.r, Hoist(e, n).e, n, fuel, st, t);
    hide ExecSeq, HoistSafe, Incremented;
    if e.And? {
      AndHoistsExactly(e.l, e.r, n, fuel, st, t);
    } else {
      OrHoistsExactly(e.l, e.r, n, fuel, st, t);
    }
    assert Hoist(e, n).pre == Then(Hoist(e.l, n), Hoist(e.r, Hoist(e.l, n).n), Hoist(e, n).e).pre;
  }

  /** Evaluation depends on the variables read and changes them alike. */
  lemma {:induction false} EvalReads(e: Expr, a: State, b: State)
    requires a.mem == b.mem && forall x :: x in Vars(e) ==> ReadVar(a, x) == ReadVar(b, x)
    ensures Eval(e, a).0 == Eval(e, b).0
    ensures forall x :: ReadVar(a, x) == ReadVar(b, x) ==> ReadVar(Eval(e, a).1, x) == ReadVar(Eval(e, b).1, x)
    ensures Eval(e, a).1.mem == Eval(e, b).1.mem
    decreases e
  {
    match e
    case Bin(_, l, r) => EvalReads(l, a, b); EvalReads(r, Eval(l, a).1, Eval(l, b).1);
    case And(l, r) => EvalReads(l, a, b); EvalReads(r, Eval(l, a).1, Eval(l, b).1);
    case Or(l, r) => EvalReads(l, a, b); EvalReads(r, Eval(l, a).1, Eval(l, b).1);
    case Not(x) => EvalReads(x, a, b);
    case Cond(t, x, y) =>
      EvalReads(t, a, b);
      EvalReads(x, Eval(t, a).1, Eval(t, b).1);
      EvalReads(y, Eval(t, a).1, Eval(t, b).1);
    case Deref(p) => EvalReads(p, a, b);
    case Index(x, i) => EvalReads(x, a, b); EvalReads(i, Eval(x, a).1, Eval(x, b).1);
    case _ =>
  }

  /** The branches of a ternary write nothing that its other parts read. */
  predicate BranchesAreApart(e: Expr)
    requires e.Cond?
  {
    && Incremented(e.thn) !! Vars(e.test) && Incremented(e.els) !! Vars(e.test)
    && Incremented(e.thn) !! Vars(e.els) && Incremented(e.els) !! Vars(e.thn)
  }

  /** The three parts of a ternary hoisted one after the other. */
  lemma TernaryPartsRun(e: Expr, n: nat, st: State, t: State)
    requires e.Cond? && NoTemps(e) && HoistSafe(e.test) && HoistSafe(e.thn) && HoistSafe(e.els)
    requires BranchesAreApart(e) && SameUser(st, t)
    ensures var a, s1 := Hoist(e.test, n), Eval(e.test, st).1;
            var b, s2 := Hoist(e.thn, a.n), Eval(e.thn, s1).1;
            var c, s3 := Hoist(e.els, b.n), Eval(e.els, s2).1;
            var t1 := After(a, t);
            var t2 := After(b, t1);
            var t3 := After(c, t2);
            && ExecSeq(0, a.pre, t) == Normal(t1) && ExecSeq(0, b.pre, t1) == Normal(t2) && ExecSeq(0, c.pre, t2) == Normal(t3)
            && SameUser(s3, t3)
            && Eval(a.e, t3) == (Eval(e.test, st).0, t3)
            && Eval(b.e, t3) == (Eval(e.thn, s1).0, t3)
            && Eval(c.e, t3) == (Eval(e.els, s2).0, t3)
  {
    hide Incremented, SameUser, ExecSeq, Eval, HoistSafe;
    assert forall x :: x in Vars(e.test) || x in Vars(e.thn) || x in Vars(e.els) ==> x in Vars(e);
    var a, s1 := Hoist(e.test, n), Eval(e.test, st).1;
    var b, s2 := Hoist(e.thn, a.n), Eval(e.thn, s1).1;
    var t1 := After(a, t);
    var t2 := After(b, t1);
    HoistComputes(e.test, n, st, t);
    HoistComputes(e.thn, a.n, s1, t1);
    HoistComputes(e.els, b.n, s2, t2);
    HoistIsPlain(e.test, n);
    HoistIsPlain(e.thn, a.n);
    KeepsValue(a.e, e.thn, a.n, s1, t1);
    KeepsValue(a.e, e.els, b.n, s2, t2);
    KeepsValue(b.e, e.els, b.n, s2, t2);
  }

  /** Running both branches in turn leaves the program as running one of them does if and only if the
      other changes nothing. */
  lemma BothBranchesExactly(x: Expr, y: Expr, s1: State)
    requires Incremented(x) !! Vars(y) && Incremented(y) !! Vars(x)
    ensures var s2 := Eval(x, s1).1;
            && Eval(y, s2).0 == Eval(y, s1).0
            && (SameUser(s2, Eval(y, s2).1) <==> SameUser(s1, Eval(y, s1).1))
            && (SameUser(Eval(y, s1).1, Eval(y, s2).1) <==> SameUser(s1, s2))
  {
    var s2 := Eval(x, s1).1;
    forall z ensures z in Vars(y) ==> ReadVar(s1, z) == ReadVar(s2, z) {
      EvalFrame(x, s1, z);
    }
    EvalFrame(x, s1, Temp(0));
    EvalFrame(y, s1, Temp(0));
    EvalFrame(y, s2, Temp(0));
    EvalReads(y, s1, s2);
    IncrementedAreVars(y);
    forall z ensures z !in Vars(y) ==> ReadVar(Eval(y, s1).1, z) == ReadVar(s1, z) && ReadVar(Eval(y, s2).1, z) == ReadVar(s2, z) {
      EvalFrame(y, s1, z);
      EvalFrame(y, s2, z);
    }
  }

  /** The exact condition for `?:`: the branch that C does not take changes nothing. */
  lemma TernaryHoistsExactly(e: Expr, n: nat, fuel: nat, st: State, t: State)
    requires e.Cond? && NoTemps(e) && HoistSafe(e.test) && HoistSafe(e.thn) && HoistSafe(e.els)
    requires BranchesAreApart(e) && SameUser(st, t)
    ensures var (v, s1) := Eval(e.test, st);
            HoistingKeeps(e, n, fuel, st, t) <==> SameUser(s1, Eval(if v != 0 then e.els else e.thn, s1).1)
  {
    hide SameUser, ExecSeq, Incremented, HoistSafe, NoTemps, Hoist;
    var t3, k, w := TernaryHoisted(e, n, fuel, st, t);
    var (v, s1) := Eval(e.test, st);
    var s2 := Eval(e.thn, s1).1;
    BothBranchesExactly(e.thn, e.els, s1);
    SameUserAcross(if v != 0 then s2 else Eval(e.els, s1).1, Eval(e.els, s2).1, t3, k, w);
  }

  /** Hoisting any ternary runs both branches, one after the other, and then writes one temporary. */
  lemma TernaryRuns(e: Expr, n: nat, fuel: nat, st: State, t: State) returns (t3: State, k: nat, w: int)
    requires e.Cond? && NoTemps(e) && HoistSafe(e.test) && HoistSafe(e.thn) && HoistSafe(e.els) && SameUser(st, t)
    ensures ExecSeq(fuel, Hoist(e, n).pre, t) == Normal(WriteVar(t3, Temp(k), w)) && Hoist(e, n).e == Var(Temp(k))
    ensures SameUser(Eval(e.els, Eval(e.thn, Eval(e.test, st).1).1).1, t3)
    ensures var a := Hoist(e.test, n);
            var b := Hoist(e.thn, a.n);
            var c := Hoist(e.els, b.n);
            t3 == After(c, After(b, After(a, t))) && w == Eval(Cond(a.e, b.e, c.e), t3).0
  {
    hide SameUser, ExecSeq, Incremented, HoistSafe, Eval;
    assert forall x :: x in Vars(e.test) || x in Vars(e.thn) || x in Vars(e.els) ==> x in Vars(e);
    var a, s1 := Hoist(e.test, n), Eval(e.test, st).1;
    var b, s2 := Hoist(e.thn, a.n), Eval(e.thn, s1).1;
    var c := Hoist(e.els, b.n);
    var t1 := After(a, t);
    var t2 := After(b, t1);
    HoistComputes(e.test, n, st, t);
    HoistComputes(e.thn, a.n, s1, t1);
    HoistComputes(e.els, b.n, s2, t2);
    HoistIsPlain(e.test, n);
    HoistIsPlain(e.thn, a.n);
    HoistIsPlain(e.els, b.n);
    t3 := After(c, t2);
    PlainEval(a.e, t3, t3);
    PlainEval(b.e, t3, t3);
    PlainEval(c.e, t3, t3);
    TernaryToTemp(a, b, c, t);
    k, w := c.n + 1, Eval(Cond(a.e, b.e, c.e), t3).0;
    MoreFuelSeq(0, fuel, Hoist(e, n).pre, t);
  }

  /** With branches apart the temporary holds the ternary's value. */
  lemma TernaryHoisted(e: Expr, n: nat, fuel: nat, st: State, t: State) returns (t3: State, k: nat, w: int)
    requires e.Cond? && NoTemps(e) && HoistSafe(e.test) && HoistSafe(e.thn) && HoistSafe(e.els)
    requires BranchesAreApart(e) && SameUser(st, t)
    ensures ExecSeq(fuel, Hoist(e, n).pre, t) == Normal(WriteVar(t3, Temp(k), w)) && Hoist(e, n).e == Var(Temp(k))
    ensures var (v, s1) := Eval(e.test, st);
            var (w1, s2) := Eval(e.thn, s1);
            var (w2, s3) := Eval(e.els, s2);
            w == (if v != 0 then w1 else w2) && SameUser(s3, t3)
  {
    hide SameUser, ExecSeq, Incremented, HoistSafe, NoTemps, BranchesAreApart, Hoist;
    TernaryPartsRun(e, n, st, t);
    t3, k, w := TernaryRuns(e, n, fuel, st, t);
  }

  /** The exact condition for any `?:`, whatever its parts share: what is left of it gives, after both
      branches, the value C gives, and the branch that C does not take leaves the program as the other
      alone does. */
  lemma AnyTernaryHoistsExactly(e: Expr, n: nat, fuel: nat, st: State, t: State)
    requires e.Cond? && NoTemps(e) && HoistSafe(e.test) && HoistSafe(e.thn) && HoistSafe(e.els) && SameUser(st, t)
    ensures var s2 := Eval(e.thn, Eval(e.test, st).1).1;
            var after := ExecSeq(fuel, Hoist(e, n).pre, t);
            && after.Normal?
            && (HoistingKeeps(e, n, fuel, st, t)
                <==> Eval(Hoist(e, n).e, after.st).0 == Eval(e, st).0 && SameUser(Eval(e, st).1, Eval(e.els, s2).1))
  {
    hide SameUser, ExecSeq, HoistSafe, NoTemps, Hoist;
    var t3, k, w := TernaryRuns(e, n, fuel, st, t);
    SameUserAcross(Eval(e, st).1, Eval(e.els, Eval(e.thn, Eval(e.test, st).1).1).1, t3, k, w);
  }

  lemma SameUserAcross(s: State, s3: State, t3: State, k: nat, w: int)
    requires SameUser(s3, t3)
    ensures SameUser(s, WriteVar(t3, Temp(k), w)) <==> SameUser(s, s3)
  {
    var t4 := WriteVar(t3, Temp(k), w);
    assert forall x :: ReadVar(t4, User(x)) == ReadVar(t3, User(x));
  }

  /** The exact condition for a skippable increment: hoisting `l && ++x` (or `--x`) keeps the
      program's state just when l holds, that is when C runs the increment too. */
  lemma SkippableIncrementExactly(l: Expr, x: Name, up: bool, n: nat, fuel: nat, st: State)
    requires NoTemps(l) && HoistSafe(l) && x.User? && x !in Vars(l)
    ensures var e := And(l, PreInc(x, up));
            var o := ExecSeq(fuel, Hoist(e, n).pre, st);
            o.Normal? && (SameUser(Eval(e, st).1, o.st) <==> Eval(l, st).0 != 0)
  {
    hide ExecSeq, Incremented;
    var r := PreInc(x, up);
    var e := And(l, r);
    var a := Hoist(l, n);
    var b := Hoist(r, a.n);
    var s1 := Eval(l, st).1;
    HoistComputes(l, n, st, st);
    var t1 := After(a, st);
    PreIncComputes(r, a.n, s1, t1);
    AfterBoth(a, b, Hoist(e, n).e, st);
    MoreFuelSeq(0, fuel, Hoist(e, n).pre, st);
    assert ReadVar(Eval(r, s1).1, x) != ReadVar(s1, x);
  }
}

/** Control-flow lowering of whole statements: conditions that read memory are hoisted, loops over
    them test by a guard inside the body, and switches become chains. */
module CLower {
  import opened CLang
  import opened CHoist
  import opened CSwitch

  // ---------------------------------------------------------------- the lowering

  /** Temporaries first, then what needs them, as one statement. */
  function WithTemps(h: Hoisted, s: Stmt): Stmt {
    Block(h.pre + [s])
  }

  /** The refreshed test of a loop: leave the loop when the condition fails. */
  function Guard(h: Hoisted, leave: Stmt): Stmt {
    WithTemps(h, If(h.e, [], [leave]))
  }

  /** A statement's lowering (the statements of a block, nothing for a switch without cases) and the
      temporary counter after. Parts are lowered before their condition is hoisted. */
  function LowerStmt(s: Stmt, n: nat): (seq<Stmt>, nat)
    decreases s, 1
  {
    match s
    case Block(body) => LowerSeq(body, n)
    case If(c, thn, els) =>
      var (a, n1) := LowerSeq(thn, n);
      var (b, n2) := LowerSeq(els, n1);
      if ValueRead(c) then
        var h := Hoist(c, n2);
        ([WithTemps(h, If(h.e, a, b))], h.n)
      else ([If(c, a, b)], n2)
    case While(c, body) =>
      var (b, n1) := LowerSeq(body, n);
      if ValueRead(c) then
        var h := Hoist(c, n1);
        ([While(Num(1), [Guard(h, BreakCall)] + b)], h.n)
      else ([While(c, b)], n1)
    case For(init, c, step, body) =>
      var (b, n1) := LowerSeq(body, n);
      if ValueRead(c) then
        var h := Hoist(c, n1);
        ([For(init, Num(1), step, [Guard(h, Break)] + b)], h.n)
      else ([For(init, c, step, b)], n1)
    case Switch(d, sections) =>
      var (low, n1) := LowerSections(sections, n);
      if ValueRead(d) then
        var h := Hoist(d, n1);
        (if Cases(low) == [] then [] else [Block(h.pre + Lowered(h.e, low))], h.n)
      else (Lowered(d, low), n1)
    case _ => ([s], n)
  }

  function LowerSeq(ss: seq<Stmt>, n: nat): (seq<Stmt>, nat)
    decreases ss, 0
  {
    if ss == [] then ([], n)
    else
      var (a, n1) := LowerStmt(ss[0], n);
      var (b, n2) := LowerSeq(ss[1..], n1);
      (a + b, n2)
  }

  function LowerSections(sections: seq<Section>, n: nat): (r: (seq<Section>, nat))
    ensures |r.0| == |sections|
    ensures forall i :: 0 <= i < |sections| ==> r.0[i].tag == sections[i].tag
    decreases sections, 0
  {
    if sections == [] then ([], n)
    else
      var (a, n1) := LowerSeq(sections[0].body, n);
      var (b, n2) := LowerSections(sections[1..], n1);
      ([Section(sections[0].tag, a)] + b, n2)
  }

  /** The parser as far as it lowers: its temporary counter lives across statements. */
  class Lowerer {
    var userTempSeq: nat

    constructor ()
      ensures userTempSeq == 0
    {
      userTempSeq := 0;
    }

    /** Hoists one condition into a list of its own. */
    method HoistCond(c: Expr) returns (h: Hoisted)
      modifies this
      ensures h == Hoist(c, old(userTempSeq)) && userTempSeq == h.n
    {
      var hoister := new Hoister(userTempSeq);
      var e := hoister.HoistCondReads(c);
      userTempSeq := hoister.userTempSeq;
      h := Hoisted(e, hoister.out, userTempSeq);
    }

    method Statement(s: Stmt) returns (r: seq<Stmt>)
      modifies this
      ensures (r, userTempSeq) == LowerStmt(s, old(userTempSeq))
      decreases s, 1
    {
      match s {
        case Block(body) => r := Statements(body);
        case If(c, thn, els) =>
          var a := Statements(thn);
          var b := Statements(els);
          if ValueRead(c) {
            var h := HoistCond(c);
            r := [WithTemps(h, If(h.e, a, b))];
          } else {
            r := [If(c, a, b)];
          }
        case While(c, body) =>
          var b := Statements(body);
          if ValueRead(c) {
            var h := HoistCond(c);
            r := [While(Num(1), [Guard(h, BreakCall)] + b)];
          } else {
            r := [While(c, b)];
          }
        case For(init, c, step, body) =>
          var b := Statements(body);
          if ValueRead(c) {
            var h := HoistCond(c);
            r := [For(init, Num(1), step, [Guard(h, Break)] + b)];
          } else {
            r := [For(init, c, step, b)];
          }
        case Switch(d, sections) =>
          var low := SwitchBody(sections);
          if ValueRead(d) {
            var h := HoistCond(d);
            r := LowerSwitch(h.e, low);
            if r != [] {
              r := [Block(h.pre + r)];
            }
          } else {
            r := LowerSwitch(d, low);
          }
        case _ => r := [s];
      }
    }

    method Statements(ss: seq<Stmt>) returns (r: seq<Stmt>)
      modifies this
      ensures (r, userTempSeq) == LowerSeq(ss, old(userTempSeq))
      decreases ss, 0
    {
      if ss == [] {
        r := [];
      } else {
        r := Statement(ss[0]);
        var rest := Statements(ss[1..]);
        r := r + rest;
      }
    }

    method SwitchBody(sections: seq<Section>) returns (r: seq<Section>)
      modifies this
      ensures (r, userTempSeq) == LowerSections(sections, old(userTempSeq))
      decreases sections, 0
    {
      if sections == [] {
        r := [];
      } else {
        var a := Statements(sections[0].body);
        var rest := SwitchBody(sections[1..]);
        r := [Section(sections[0].tag, a)] + rest;
      }
    }
  }

  // ---------------------------------------------------------------- which programs

  /** A condition the lowering keeps: of the program, and safe to hoist. */
  predicate CondOk(c: Expr) {
    NoTemps(c) && HoistSafe(c)
  }

  predicate Simple(s: Stmt) {
    match s
    case Assign(x, e) => x.User? && NoTemps(e)
    case Store(p, e) => NoTemps(p) && NoTemps(e)
    case _ => false
  }

  predicate AllSimple(ss: seq<Stmt>) {
    forall i :: 0 <= i < |ss| ==> Simple(ss[i])
  }

  /** A statement of a case body: no break of the switch in it, or just that break; or a block of such. */
  predicate CaseStmt(s: Stmt)
    decreases s, 1
  {
    || LeavesSwitch(s)
    || (MayLeaveSwitch(s) && s.els == [] && IsPlain(s.cond))
    || BreakFree(s)
    || (s.Block? && AllCaseStmts(s.body))
  }

  predicate AllCaseStmts(ss: seq<Stmt>)
    decreases ss, 0
  {
    ss == [] || (CaseStmt(ss[0]) && AllCaseStmts(ss[1..]))
  }

  /** Programs the lowering is right on: conditions safe to hoist, for headers of assignments, and
      switches with a case, their default last or absent, and breaks where the split finds them. */
  predicate Ok(s: Stmt)
    decreases s, 1
  {
    match s
    case Assign(_, _) => Simple(s)
    case Store(_, _) => Simple(s)
    case Return(e) => NoTemps(e)
    case Block(body) => AllOk(body)
    case If(c, thn, els) => CondOk(c) && AllOk(thn) && AllOk(els)
    case While(c, body) => CondOk(c) && AllOk(body)
    case For(init, c, step, body) => AllSimple(init) && CondOk(c) && AllSimple(step) && AllOk(body)
    case Switch(d, sections) => CondOk(d) && HasCase(sections) && DefaultLast(sections) && SectionsOk(sections)
    case _ => true
  }

  predicate AllOk(ss: seq<Stmt>)
    decreases ss, 0
  {
    ss == [] || (Ok(ss[0]) && AllOk(ss[1..]))
  }

  predicate SectionsOk(sections: seq<Section>)
    decreases sections, 0
  {
    sections == []
    || (AllOk(sections[0].body) && AllCaseStmts(sections[0].body) && SectionsOk(sections[1..]))
  }

  // ---------------------------------------------------------------- outcomes up to temporaries

  /** The same way of ending, with the same value, in states that agree on the program. */
  ghost predicate Same(a: Outcome, b: Outcome) {
    match a
    case Normal(st) => b.Normal? && SameUser(st, b.st)
    case Broke(st) => b.Broke? && SameUser(st, b.st)
    case Continued(st) => b.Continued? && SameUser(st, b.st)
    case Returned(v, st) => b.Returned? && v == b.v && SameUser(st, b.st)
    case OutOfFuel => b.OutOfFuel?
  }

  /** The lowering hoists exactly the conditions that are not plain. */
  lemma {:induction false} ReadsAreNotPlain(c: Expr)
    ensures ValueRead(c) <==> !IsPlain(c)
    decreases c
  {
    match c
    case Bin(_, l, r) => ReadsAreNotPlain(l); ReadsAreNotPlain(r);
    case And(l, r) => ReadsAreNotPlain(l); ReadsAreNotPlain(r);
    case Or(l, r) => ReadsAreNotPlain(l); ReadsAreNotPlain(r);
    case Not(a) => ReadsAreNotPlain(a);
    case _ =>
  }

  /** Running hoisted statements, at any fuel. */
  lemma HoistedRun(fuel: nat, c: Expr, n: nat, st: State, t: State)
    requires CondOk(c) && SameUser(st, t)
    ensures var h := Hoist(c, n);
            && ExecSeq(fuel, h.pre, t) == Normal(After(h, t))
            && Eval(h.e, After(h, t)) == (Eval(c, st).0, After(h, t))
            && SameUser(Eval(c, st).1, After(h, t))
  {
    HoistComputes(c, n, st, t);
    MoreFuelSeq(0, fuel, Hoist(c, n).pre, t);
  }

  lemma WithTempsRun(fuel: nat, c: Expr, n: nat, rest: seq<Stmt>, st: State, t: State)
    requires CondOk(c) && SameUser(st, t)
    ensures var h := Hoist(c, n);
            ExecSeq(fuel, [Block(h.pre + rest)], t) == ExecSeq(fuel, rest, After(h, t))
  {
    var h := Hoist(c, n);
    HoistedRun(fuel, c, n, st, t);
    ExecSeqConcat(fuel, h.pre, rest, t);
    ExecSingle(fuel, Block(h.pre + rest), t);
  }

  /** A guard runs on into the body when the condition holds and leaves the loop when it does not. */
  lemma GuardRun(fuel: nat, c: Expr, n: nat, leave: Stmt, body: seq<Stmt>, st: State, t: State)
    requires CondOk(c) && SameUser(st, t) && LeavesSwitch(leave)
    ensures var h := Hoist(c, n);
            ExecSeq(fuel, [Guard(h, leave)] + body, t)
            == if Eval(c, st).0 != 0 then ExecSeq(fuel, body, After(h, t)) else Broke(After(h, t))
  {
    hide ExecSeq, Eval, Hoist, After, CondOk, SameUser;
    var h := Hoist(c, n);
    HoistedRun(fuel, c, n, st, t);
    WithTempsRun(fuel, c, n, [If(h.e, [], [leave])], st, t);
    TestRun(fuel, h.e, leave, After(h, t));
    ExecSeqConcat(fuel, [Guard(h, leave)], body, t);
  }

  lemma TestRun(fuel: nat, e: Expr, leave: Stmt, t: State)
    requires LeavesSwitch(leave)
    ensures ExecSeq(fuel, [If(e, [], [leave])], t) == if Eval(e, t).0 != 0 then Normal(Eval(e, t).1) else Broke(Eval(e, t).1)
  {
    hide Eval;
    ExecSingle(fuel, If(e, [], [leave]), t);
    ExecSingle(fuel, leave, Eval(e, t).1);
  }

  lemma SimpleMeaning(fuel: nat, s: Stmt, st: State, t: State)
    requires Simple(s) && SameUser(st, t)
    ensures Same(Exec(fuel, s, st), Exec(fuel, s, t))
  {
    match s
    case Assign(x, e) => EvalSameUser(e, st, t);
    case Store(p, e) =>
      EvalSameUser(p, st, t);
      EvalSameUser(e, Eval(p, st).1, Eval(p, t).1);
  }

  lemma {:induction false} AllSimpleMeaning(fuel: nat, ss: seq<Stmt>, st: State, t: State)
    requires AllSimple(ss) && SameUser(st, t)
    ensures Same(ExecSeq(fuel, ss, st), ExecSeq(fuel, ss, t))
    decreases |ss|
  {
    if ss != [] {
      SimpleMeaning(fuel, ss[0], st, t);
      AllSimpleMeaning(fuel, ss[1..], Exec(fuel, ss[0], st).st, Exec(fuel, ss[0], t).st);
    }
  }

  // ---------------------------------------------------------------- breaks stay where they belong

  lemma {:induction false} LoweredStaysBreakFree(s: Stmt, n: nat)
    requires Ok(s) && BreakFree(s)
    ensures AllBreakFree(LowerStmt(s, n).0)
    decreases s, 1
  {
    match s
    case Block(body) => AllLoweredStayBreakFree(body, n);
    case If(c, thn, els) =>
      AllLoweredStayBreakFree(thn, n);
      AllLoweredStayBreakFree(els, LowerSeq(thn, n).1);
      var (a, n1) := LowerSeq(thn, n);
      var (b, n2) := LowerSeq(els, n1);
      var h := Hoist(c, n2);
      HoistedIsBreakFree(c, n2);
      assert BreakFree(If(h.e, a, b)) && BreakFree(If(c, a, b));
      assert AllBreakFree(h.pre + [If(h.e, a, b)]);
    case Switch(d, sections) =>
      SwitchStaysBreakFree(d, sections, n);
    case _ =>
  }

  lemma {:induction false} SwitchStaysBreakFree(d: Expr, sections: seq<Section>, n: nat)
    requires SectionsOk(sections)
    ensures AllBreakFree(LowerStmt(Switch(d, sections), n).0)
    decreases sections, 1
  {
    SectionsStayReady(sections, n);
    hide AllReady, SectionsOk, Hoist, Lowered, LowerSections, BreakFree, AllBreakFree;
    var low := LowerSections(sections, n).0;
    var n1 := LowerSections(sections, n).1;
    if ValueRead(d) {
      var h := Hoist(d, n1);
      HoistedIsBreakFree(d, n1);
      LoweredIsBreakFree(h.e, low);
      BlockIsBreakFree(h.pre, Lowered(h.e, low));
    } else {
      LoweredIsBreakFree(d, low);
    }
  }

  lemma BlockIsBreakFree(a: seq<Stmt>, b: seq<Stmt>)
    requires AllBreakFree(a) && AllBreakFree(b)
    ensures AllBreakFree([Block(a + b)]) && AllBreakFree([])
  {
    assert AllBreakFree(a + b);
  }

  lemma {:induction false} HoistedIsBreakFree(e: Expr, n: nat)
    ensures AllBreakFree(Hoist(e, n).pre)
    decreases e
  {
    match e
    case Bin(_, l, r) => HoistedIsBreakFree(l, n); HoistedIsBreakFree(r, Hoist(l, n).n);
    case And(l, r) => HoistedIsBreakFree(l, n); HoistedIsBreakFree(r, Hoist(l, n).n);
    case Or(l, r) => HoistedIsBreakFree(l, n); HoistedIsBreakFree(r, Hoist(l, n).n);
    case Not(a) => HoistedIsBreakFree(a, n);
    case Cond(t, x, y) =>
      HoistedIsBreakFree(t, n);
      HoistedIsBreakFree(x, Hoist(t, n).n);
      HoistedIsBreakFree(y, Hoist(x, Hoist(t, n).n).n);
    case _ =>
  }

  lemma {:induction false} AllLoweredStayBreakFree(ss: seq<Stmt>, n: nat)
    requires AllOk(ss) && AllBreakFree(ss)
    ensures AllBreakFree(LowerSeq(ss, n).0)
    decreases ss, 0
  {
    if ss != [] {
      LoweredStaysBreakFree(ss[0], n);
      AllLoweredStayBreakFree(ss[1..], LowerStmt(ss[0], n).1);
    }
  }

  lemma LowerSingle(s: Stmt, n: nat)
    ensures LowerSeq([s], n) == LowerStmt(s, n)
  {
    var (a, n1) := LowerStmt(s, n);
    assert [s][1..] == [] && LowerSeq([], n1) == ([], n1) && a + [] == a;
  }

  lemma {:induction false} CaseStmtStaysReady(s: Stmt, n: nat)
    requires Ok(s) && CaseStmt(s)
    ensures Ready(LowerStmt(s, n).0)
    decreases s, 2
  {
    BreaksAreFound(s);
    if LeavesSwitch(s) {
    } else if MayLeaveSwitch(s) && s.els == [] && IsPlain(s.cond) {
      ReadsAreNotPlain(s.cond);
      GuardStaysGuard(s, n);
      BreaksAreFound(If(s.cond, [Unwrap(s.thn[0])], []));
    } else if BreakFree(s) {
      LoweredStaysBreakFree(s, n);
    } else {
      CaseBodyStaysReady(s.body, n);
    }
  }

  lemma GuardStaysGuard(s: Stmt, n: nat)
    requires GuardedBreak(s) && s.els == [] && !ValueRead(s.cond)
    ensures LowerStmt(s, n).0 == [If(s.cond, [Unwrap(s.thn[0])], [])]
  {
    var inner := s.thn[0];
    assert s.thn == [inner];
    LowerSingle(Unwrap(inner), n);
    if inner.Block? {
      assert inner.body == [Unwrap(inner)];
    }
    LowerSingle(inner, n);
    assert LowerSeq([], n) == ([], n);
  }

  lemma {:induction false} CaseBodyStaysReady(ss: seq<Stmt>, n: nat)
    requires AllOk(ss) && AllCaseStmts(ss)
    ensures Ready(LowerSeq(ss, n).0)
    decreases ss, 0
  {
    if ss != [] {
      CaseStmtStaysReady(ss[0], n);
      CaseBodyStaysReady(ss[1..], LowerStmt(ss[0], n).1);
    }
  }

  lemma {:induction false} SectionsStayReady(sections: seq<Section>, n: nat)
    requires SectionsOk(sections)
    ensures AllReady(LowerSections(sections, n).0)
    decreases sections, 0
  {
    if sections != [] {
      CaseBodyStaysReady(sections[0].body, n);
      var (a, n1) := LowerSeq(sections[0].body, n);
      SectionsStayReady(sections[1..], n1);
      var low := LowerSections(sections, n).0;
      assert low == [Section(sections[0].tag, a)] + LowerSections(sections[1..], n1).0;
    }
  }

  // ---------------------------------------------------------------- the lowering keeps the meaning

  lemma {:induction false} LowerMeaning(fuel: nat, s: Stmt, n: nat, st: State, t: State)
    requires Ok(s) && SameUser(st, t)
    ensures Same(Exec(fuel, s, st), ExecSeq(fuel, LowerStmt(s, n).0, t))
    decreases fuel, s, 3
  {
    match s {
      case Block(body) => LowerSeqMeaning(fuel, body, n, st, t);
      case If(_, _, _) => IfMeaning(fuel, s, n, st, t);
      case While(c, body) =>
        if ValueRead(c) {
          GuardedWhileMeaning(fuel, s, n, st, t);
        } else {
          WhileMeaning(fuel, s, n, st, t);
        }
        ExecSingle(fuel, LowerStmt(s, n).0[0], t);
      case For(init, c, step, body) =>
        var low := LowerStmt(s, n).0[0];
        ExecSingle(fuel, low, t);
        AllSimpleMeaning(fuel, init, st, t);
        var o, p := ExecSeq(fuel, init, st), ExecSeq(fuel, init, t);
        if o.Normal? {
          ForMeaning(fuel, s, n, o.st, p.st);
        }
      case Switch(_, _) => SwitchMeaning(fuel, s, n, st, t);
      case Return(e) => 
        EvalSameUser(e, st, t);
        ExecSingle(fuel, s, t);
      case Assign(_, _) => SimpleMeaning(fuel, s, st, t); ExecSingle(fuel, s, t);
      case Store(_, _) => SimpleMeaning(fuel, s, st, t); ExecSingle(fuel, s, t);
      case _ => ExecSingle(fuel, s, t);
    }
  }

  lemma {:induction false} LowerSeqMeaning(fuel: nat, ss: seq<Stmt>, n: nat, st: State, t: State)
    requires AllOk(ss) && SameUser(st, t)
    ensures Same(ExecSeq(fuel, ss, st), ExecSeq(fuel, LowerSeq(ss, n).0, t))
    decreases fuel, ss, 0
  {
    if ss != [] {
      var (a, n1) := LowerStmt(ss[0], n);
      var (b, _) := LowerSeq(ss[1..], n1);
      LowerMeaning(fuel, ss[0], n, st, t);
      ExecSeqConcat(fuel, a, b, t);
      var o := Exec(fuel, ss[0], st);
      if o.Normal? {
        LowerSeqMeaning(fuel, ss[1..], n1, o.st, ExecSeq(fuel, a, t).st);
      }
    }
  }

  lemma {:induction false} IfMeaning(fuel: nat, s: Stmt, n: nat, st: State, t: State)
    requires s.If? && Ok(s) && SameUser(st, t)
    ensures Same(Exec(fuel, s, st), ExecSeq(fuel, LowerStmt(s, n).0, t))
    decreases fuel, s, 2
  {
    var (a, n1) := LowerSeq(s.thn, n);
    var (b, n2) := LowerSeq(s.els, n1);
    var (v, s1) := Eval(s.cond, st);
    var t1;
    if ValueRead(s.cond) {
      var h := Hoist(s.cond, n2);
      HoistedRun(fuel, s.cond, n2, st, t);
      WithTempsRun(fuel, s.cond, n2, [If(h.e, a, b)], st, t);
      t1 := After(h, t);
      ExecSingle(fuel, If(h.e, a, b), t1);
    } else {
      EvalSameUser(s.cond, st, t);
      t1 := Eval(s.cond, t).1;
      ExecSingle(fuel, If(s.cond, a, b), t);
    }
    LowerSeqMeaning(fuel, s.thn, n, s1, t1);
    LowerSeqMeaning(fuel, s.els, n1, s1, t1);
  }

  lemma {:induction false} WhileMeaning(fuel: nat, s: Stmt, n: nat, st: State, t: State)
    requires s.While? && Ok(s) && SameUser(st, t) && !ValueRead(s.cond)
    ensures Same(Exec(fuel, s, st), Exec(fuel, LowerStmt(s, n).0[0], t))
    decreases fuel, s, 2
  {
    if fuel > 0 {
      EvalSameUser(s.cond, st, t);
      var s1, t1 := Eval(s.cond, st).1, Eval(s.cond, t).1;
      LowerSeqMeaning(fuel, s.body, n, s1, t1);
      var o, p := ExecSeq(fuel, s.body, s1), ExecSeq(fuel, LowerSeq(s.body, n).0, t1);
      if o.Normal? || o.Continued? {
        WhileMeaning(fuel - 1, s, n, o.st, p.st);
      }
    }
  }

  /** The refreshed test: trip for trip `while (1) { temps; if (!c') break; body }` does what
      `while (c) body` does. */
  lemma {:induction false} GuardedWhileMeaning(fuel: nat, s: Stmt, n: nat, st: State, t: State)
    requires s.While? && Ok(s) && SameUser(st, t) && ValueRead(s.cond)
    ensures Same(Exec(fuel, s, st), Exec(fuel, LowerStmt(s, n).0[0], t))
    decreases fuel, s, 2
  {
    if fuel > 0 {
      var (b, n1) := LowerSeq(s.body, n);
      var t1 := After(Hoist(s.cond, n1), t);
      var (v, s1) := Eval(s.cond, st);
      HoistedRun(fuel, s.cond, n1, st, t);
      GuardRun(fuel, s.cond, n1, BreakCall, b, st, t);
      assert Eval(Num(1), t) == (1, t);
      LowerSeqMeaning(fuel, s.body, n, s1, t1);
      if v != 0 {
        var o, p := ExecSeq(fuel, s.body, s1), ExecSeq(fuel, b, t1);
        if o.Normal? || o.Continued? {
          GuardedWhileMeaning(fuel - 1, s, n, o.st, p.st);
        }
      }
    }
  }

  lemma {:induction false} ForMeaning(fuel: nat, s: Stmt, n: nat, st: State, t: State)
    requires s.For? && Ok(s) && SameUser(st, t)
    ensures Same(ExecFor(fuel, s, st), ExecFor(fuel, LowerStmt(s, n).0[0], t))
    decreases fuel, s, 2
  {
    if fuel > 0 {
      var low := LowerStmt(s, n).0[0];
      var (b, n1) := LowerSeq(s.body, n);
      var (v, s1) := Eval(s.cond, st);
      var t1;
      if ValueRead(s.cond) {
        HoistedRun(fuel, s.cond, n1, st, t);
        GuardRun(fuel, s.cond, n1, Break, b, st, t);
        assert Eval(Num(1), t) == (1, t);
        t1 := After(Hoist(s.cond, n1), t);
      } else {
        EvalSameUser(s.cond, st, t);
        t1 := Eval(s.cond, t).1;
      }
      LowerSeqMeaning(fuel, s.body, n, s1, t1);
      if v != 0 {
        var o, p := ExecSeq(fuel, s.body, s1), ExecSeq(fuel, b, t1);
        if o.Normal? || o.Continued? {
          AllSimpleMeaning(fuel, s.step, o.st, p.st);
          var o1, p1 := ExecSeq(fuel, s.step, o.st), ExecSeq(fuel, s.step, p.st);
          if o1.Normal? {
            ForMeaning(fuel - 1, s, n, o1.st, p1.st);
          }
        }
      }
    }
  }

  lemma SwitchIsOk(s: Stmt)
    requires s.Switch? && Ok(s)
    ensures CondOk(s.disc) && HasCase(s.sections) && DefaultLast(s.sections) && SectionsOk(s.sections)
  {
  }

  lemma {:induction false} SwitchMeaning(fuel: nat, s: Stmt, n: nat, st: State, t: State)
    requires s.Switch? && Ok(s) && SameUser(st, t)
    ensures Same(Exec(fuel, s, st), ExecSeq(fuel, LowerStmt(s, n).0, t))
    decreases fuel, s, 2
  {
    SwitchIsOk(s);
    var low := LowerSections(s.sections, n).0;
    var e, t1 := LoweredSwitchRun(fuel, s, n, st, t);
    SectionsMeaning(fuel, s.sections, n, Target(s.sections, Eval(s.disc, st).0), Eval(s.disc, st).1, t1);
    SameSwitch(fuel, s, e, low, st, t1);
  }

  /** The lowered switch runs as a switch over the lowered sections, once its condition is hoisted. */
  lemma LoweredSwitchRun(fuel: nat, s: Stmt, n: nat, st: State, t: State) returns (e: Expr, t1: State)
    requires s.Switch? && SameUser(st, t)
    requires CondOk(s.disc) && HasCase(s.sections) && DefaultLast(s.sections) && SectionsOk(s.sections)
    ensures ExecSeq(fuel, LowerStmt(s, n).0, t) == Exec(fuel, Switch(e, LowerSections(s.sections, n).0), t1)
    ensures SameUser(Eval(s.disc, st).1, t1) && Eval(e, t1) == (Eval(s.disc, st).0, t1)
  {
    hide SameUser, AllReady, HoistSafe, Eval, LowerSections, SectionsOk, Exec, ExecSeq;
    var low, n1 := LowerSections(s.sections, n).0, LowerSections(s.sections, n).1;
    SectionsStayReady(s.sections, n);
    SameCases(s.sections, low);
    ReadsAreNotPlain(s.disc);
    if ValueRead(s.disc) {
      var h := Hoist(s.disc, n1);
      HoistedRun(fuel, s.disc, n1, st, t);
      HoistIsPlain(s.disc, n1);
      WithTempsRun(fuel, s.disc, n1, Lowered(h.e, low), st, t);
      t1, e := After(h, t), h.e;
    } else {
      PlainEval(s.disc, t, t);
      EvalSameUser(s.disc, st, t);
      t1, e := t, s.disc;
    }
    SwitchLoweringKeepsMeaning(fuel, e, low, t1);
  }

  lemma SameSwitch(fuel: nat, s: Stmt, e: Expr, low: seq<Section>, st: State, t1: State)
    requires s.Switch? && |low| == |s.sections| && forall i :: 0 <= i < |low| ==> low[i].tag == s.sections[i].tag
    requires Eval(e, t1) == (Eval(s.disc, st).0, t1) && SameUser(Eval(s.disc, st).1, t1)
    requires var i := Target(s.sections, Eval(s.disc, st).0);
             Same(ExecSections(fuel, s.sections, i, Eval(s.disc, st).1), ExecSections(fuel, low, i, t1))
    ensures Same(Exec(fuel, s, st), Exec(fuel, Switch(e, low), t1))
  {
    FirstWithTags(s.sections, low, Case(Eval(s.disc, st).0));
    FirstWithTags(s.sections, low, Default);
    hide SameUser, Eval, ExecSections;
  }

  lemma {:induction false} SameCases(a: seq<Section>, b: seq<Section>)
    requires |a| == |b| && forall i :: 0 <= i < |a| ==> a[i].tag == b[i].tag
    ensures |Cases(a)| == |Cases(b)|
    decreases |a|
  {
    if a != [] {
      SameCases(a[1..], b[1..]);
    }
  }

  lemma {:induction false} SectionsMeaning(fuel: nat, sections: seq<Section>, n: nat, i: nat, st: State, t: State)
    requires SectionsOk(sections) && SameUser(st, t) && i <= |sections|
    ensures Same(ExecSections(fuel, sections, i, st), ExecSections(fuel, LowerSections(sections, n).0, i, t))
    decreases fuel, sections, |sections| - i, 0
  {
    hide LowerSections, SectionsOk, ExecSeq, LowerSeq, AllOk, SameUser;
    if i < |sections| {
      var m := LoweredAt(sections, n, i);
      var low := LowerSections(sections, n).0;
      LowerSeqMeaning(fuel, sections[i].body, m, st, t);
      var o, p := ExecSeq(fuel, sections[i].body, st), ExecSeq(fuel, low[i].body, t);
      if o.Normal? {
        SectionsMeaning(fuel, sections, n, i + 1, o.st, p.st);
      }
    }
  }

  /** The counter at which the i-th body is lowered. */
  lemma {:induction false} LoweredAt(sections: seq<Section>, n: nat, i: nat) returns (m: nat)
    requires SectionsOk(sections) && i < |sections|
    ensures AllOk(sections[i].body) && LowerSections(sections, n).0[i].body == LowerSeq(sections[i].body, m).0
    decreases i
  {
    if i == 0 {
      m := n;
    } else {
      m := LoweredAt(sections[1..], LowerSeq(sections[0].body, n).1, i - 1);
    }
  }

  // ---------------------------------------------------------------- guards that read memory

  lemma {:induction false} LowerSeqConcat(a: seq<Stmt>, b: seq<Stmt>, n: nat)
    ensures var (l, n1) := LowerSeq(a, n);
            var (r, n2) := LowerSeq(b, n1);
            LowerSeq(a + b, n) == (l + r, n2)
    decreases |a|
  {
    if a == [] {
      var r := LowerSeq(b, n).0;
      assert a + b == b && [] + r == r;
    } else {
      var (x, m) := LowerStmt(a[0], n);
      var (l, n1) := LowerSeq(a[1..], m);
      var r := LowerSeq(b, n1).0;
      assert (a + b)[1..] == a[1..] + b && x + (l + r) == (x + l) + r;
      LowerSeqConcat(a[1..], b, m);
    }
  }

  /** `if (c) break;` */
  function BreakGuard(c: Expr): Stmt { If(c, [Break], []) }

  /** The lowered guard of a condition with reads, which the split leaves as it is. */
  function ReadGuard(h: Hoisted): Stmt { WithTemps(h, BreakGuard(h.e)) }

  lemma LoweredReadGuard(c: Expr, n: nat)
    requires ValueRead(c)
    ensures LowerStmt(BreakGuard(c), n) == ([ReadGuard(Hoist(c, n))], Hoist(c, n).n)
  {
    LowerSingle(Break, n);
    assert LowerSeq([], n) == ([], n);
  }

  /** It breaks out when the condition holds and goes on when it does not. */
  lemma ReadGuardRun(fuel: nat, c: Expr, n: nat, st: State, t: State)
    requires CondOk(c) && SameUser(st, t)
    ensures var h := Hoist(c, n);
            && SameUser(Eval(c, st).1, After(h, t))
            && Exec(fuel, ReadGuard(h), t) == if Eval(c, st).0 != 0 then Broke(After(h, t)) else Normal(After(h, t))
  {
    var h := Hoist(c, n);
    HoistedRun(fuel, c, n, st, t);
    WithTempsRun(fuel, c, n, [BreakGuard(h.e)], st, t);
    ExecSingle(fuel, ReadGuard(h), t);
    ExecSingle(fuel, BreakGuard(h.e), After(h, t));
    ExecSingle(fuel, Break, After(h, t));
  }

  /** A one-case switch whose body is pre, a guarded break, and rest. */
  function GuardedSwitch(d: Expr, k: int, pre: seq<Stmt>, c: Expr, rest: seq<Stmt>): Stmt {
    Switch(d, [Section(Case(k), pre + [BreakGuard(c)] + rest)])
  }

  ghost predicate GuardedSwitchOk(d: Expr, pre: seq<Stmt>, c: Expr, rest: seq<Stmt>) {
    CondOk(d) && CondOk(c) && AllOk(pre) && AllBreakFree(pre) && AllOk(rest) && AllCaseStmts(rest)
  }

  /** Control reaches the guard, and its condition holds there. */
  predicate GuardIsTaken(fuel: nat, d: Expr, k: int, pre: seq<Stmt>, c: Expr, st: State) {
    var (v, s1) := Eval(d, st);
    var o := ExecSeq(fuel, pre, s1);
    v == k && o.Normal? && Eval(c, o.st).0 != 0
  }

  /** The arm of the lowered switch, run from where C enters the case. */
  lemma ReadGuardArm(fuel: nat, pre: seq<Stmt>, c: Expr, rest: seq<Stmt>, n: nat, st: State, t: State)
    requires CondOk(c) && AllOk(pre) && AllBreakFree(pre) && AllOk(rest) && AllCaseStmts(rest) && ValueRead(c) && SameUser(st, t)
    ensures var arm := Split(LowerSeq(pre + [BreakGuard(c)] + rest, n).0, []);
            var o := ExecSeq(fuel, pre, st);
            var r := ExecSeq(fuel, arm, t);
            if o.Normal? && Eval(c, o.st).0 != 0 then r.Broke?
            else Same(LeaveLoop(ExecSeq(fuel, pre + [BreakGuard(c)] + rest, st)), r)
  {
    var guard := BreakGuard(c);
    var (a, n1) := LowerSeq(pre, n);
    var h := Hoist(c, n1);
    var g := ReadGuard(h);
    var b := LowerSeq(rest, h.n).0;
    LowerSeqConcat(pre, [guard], n);
    LowerSeqConcat(pre + [guard], rest, n);
    LowerSingle(guard, n1);
    LoweredReadGuard(c, n1);
    AllLoweredStayBreakFree(pre, n);
    BreakFreeIsTopFree(a);
    SplitOver(a + [g], b, []);
    ExecSeqConcat(fuel, a + [g], Split(b, []), t);
    ExecSeqConcat(fuel, a, [g], t);
    ExecSeqConcat(fuel, pre + [guard], rest, st);
    ExecSeqConcat(fuel, pre, [guard], st);
    LowerSeqMeaning(fuel, pre, n, st, t);
    AllBreakFreeNeverBreaks(fuel, pre, st);
    var o, p := ExecSeq(fuel, pre, st), ExecSeq(fuel, a, t);
    if o.Normal? {
      ExecSingle(fuel, g, p.st);
      ReadGuardRun(fuel, c, n1, o.st, p.st);
      ExecSingle(fuel, guard, o.st);
      ExecSingle(fuel, Break, Eval(c, o.st).1);
      if Eval(c, o.st).0 == 0 {
        RestOfArm(fuel, rest, h.n, Eval(c, o.st).1, After(h, p.st));
      }
    }
  }

  lemma RestOfArm(fuel: nat, rest: seq<Stmt>, n: nat, st: State, t: State)
    requires AllOk(rest) && AllCaseStmts(rest) && SameUser(st, t)
    ensures Same(LeaveLoop(ExecSeq(fuel, rest, st)), ExecSeq(fuel, Split(LowerSeq(rest, n).0, []), t))
  {
    var b := LowerSeq(rest, n).0;
    CaseBodyStaysReady(rest, n);
    LowerSeqMeaning(fuel, rest, n, st, t);
    SplitMeaning(fuel, b, [], t);
    DropElseOfReady(b);
    SplitIsBreakFree(b, []);
    AllBreakFreeNeverBreaks(fuel, Split(b, []), t);
  }

  /** The run of its lowering. */
  lemma OneCaseLowered(fuel: nat, d: Expr, k: int, body: seq<Stmt>, n: nat, st: State, t: State) returns (t1: State)
    requires CondOk(d) && SameUser(st, t)
    ensures SameUser(Eval(d, st).1, t1)
    ensures ExecSeq(fuel, LowerStmt(Switch(d, [Section(Case(k), body)]), n).0, t)
            == if Eval(d, st).0 == k then ExecSeq(fuel, Split(LowerSeq(body, n).0, []), t1) else Normal(t1)
  {
    ReadsAreNotPlain(d);
    hide HoistSafe, NoTemps, SameUser, Hoist;
    var (b, n1) := LowerSeq(body, n);
    var c := Section(Case(k), b);
    OneCaseSections(k, body, n);
    OneCase(c, []);
    SplitEmpty([], []);
    var arm := Split(b, []);
    var e;
    if ValueRead(d) {
      var h := Hoist(d, n1);
      e, t1 := h.e, After(h, t);
      HoistedRun(fuel, d, n1, st, t);
      ChainOne(e, c, arm, []);
      WithTempsRun(fuel, d, n1, Lowered(e, [c]), st, t);
    } else {
      e, t1 := d, t;
      ChainOne(e, c, arm, []);
      PlainEval(d, t, t);
      EvalSameUser(d, st, t);
    }
    var chain := If(Bin(Eq, e, Num(k)), arm, []);
    assert Lowered(e, [c]) == [chain];
    ExecSingle(fuel, chain, t1);
    assert Eval(Num(k), t1) == (k, t1);
  }

  lemma OneCaseSections(k: int, body: seq<Stmt>, n: nat)
    ensures LowerSections([Section(Case(k), body)], n) == ([Section(Case(k), LowerSeq(body, n).0)], LowerSeq(body, n).1)
  {
    var (b, n1) := LowerSeq(body, n);
    assert [Section(Case(k), body)][1..] == [] && LowerSections([], n1) == ([], n1);
    assert [Section(Case(k), b)] + [] == [Section(Case(k), b)];
  }

  lemma ReadGuardSwitch(fuel: nat, d: Expr, k: int, pre: seq<Stmt>, c: Expr, rest: seq<Stmt>, n: nat, st: State, t: State)
    requires GuardedSwitchOk(d, pre, c, rest) && ValueRead(c) && SameUser(st, t)
    ensures var s := GuardedSwitch(d, k, pre, c, rest);
            Same(Exec(fuel, s, st), ExecSeq(fuel, LowerStmt(s, n).0, t)) <==> !GuardIsTaken(fuel, d, k, pre, c, st)
  {
    hide ExecSeq, Exec, LowerStmt, LowerSeq, Split;
    var body := pre + [BreakGuard(c)] + rest;
    var (v, s1) := Eval(d, st);
    OneCaseRun(fuel, d, k, body, st);
    var t1 := OneCaseLowered(fuel, d, k, body, n, st, t);
    ReadGuardArm(fuel, pre, c, rest, n, s1, t1);
  }

  lemma PlainGuardIsOk(d: Expr, k: int, pre: seq<Stmt>, c: Expr, rest: seq<Stmt>)
    requires GuardedSwitchOk(d, pre, c, rest) && !ValueRead(c)
    ensures Ok(GuardedSwitch(d, k, pre, c, rest))
  {
    var guard := BreakGuard(c);
    var body := pre + [guard] + rest;
    BreakFreeAreCaseStmts(pre);
    ReadsAreNotPlain(c);
    assert [guard][1..] == [] && [Break][1..] == [] && AllOk([]) && AllOk([Break]) && Ok(guard) && CaseStmt(guard);
    OkConcat(pre, [guard]);
    OkConcat(pre + [guard], rest);
    assert [Section(Case(k), body)][1..] == [];
    OneCase(Section(Case(k), body), []);
  }

  lemma {:induction false} BreakFreeAreCaseStmts(ss: seq<Stmt>)
    requires AllBreakFree(ss)
    ensures AllCaseStmts(ss)
    decreases |ss|
  {
    if ss != [] {
      BreakFreeAreCaseStmts(ss[1..]);
    }
  }

  lemma {:induction false} OkConcat(a: seq<Stmt>, b: seq<Stmt>)
    requires AllOk(a) && AllOk(b) && AllCaseStmts(a) && AllCaseStmts(b)
    ensures AllOk(a + b) && AllCaseStmts(a + b)
    decreases |a|
  {
    if a == [] {
      assert a + b == b;
    } else {
      assert (a + b)[1..] == a[1..] + b;
      OkConcat(a[1..], b);
    }
  }

  /** The exact condition for a guarded break: its switch is lowered right, from a given state, if and
      only if the condition reads no memory or the break is not taken there. */
  lemma ReadGuardExactly(fuel: nat, d: Expr, k: int, pre: seq<Stmt>, c: Expr, rest: seq<Stmt>, n: nat, st: State, t: State)
    requires GuardedSwitchOk(d, pre, c, rest) && SameUser(st, t)
    ensures var s := GuardedSwitch(d, k, pre, c, rest);
            Same(Exec(fuel, s, st), ExecSeq(fuel, LowerStmt(s, n).0, t))
            <==> IsPlain(c) || !GuardIsTaken(fuel, d, k, pre, c, st)
  {
    var s := GuardedSwitch(d, k, pre, c, rest);
    ReadsAreNotPlain(c);
    if ValueRead(c) {
      ReadGuardSwitch(fuel, d, k, pre, c, rest, n, st, t);
    } else {
      PlainGuardIsOk(d, k, pre, c, rest);
      LowerMeaning(fuel, s, n, st, t);
    }
  }

  // ---------------------------------------------------------------- where it fails

  const READ_GUARD := If(Deref(Num(7)), [Break], [])
  const READ_SWITCH := Switch(Num(0), [Section(Case(0), [READ_GUARD])])
  const READ_STATE := State(map[], map[7 := 1])

  /** `switch (0) { case 0: if (*p) break; }` with a true `*p`: the guard's read is hoisted into a
      block around the guard, where the switch no longer finds the break, and it escapes. */
  lemma GuardWithReadEscapes()
    ensures Exec(0, READ_SWITCH, READ_STATE) == Normal(READ_STATE)
    ensures ExecSeq(0, LowerStmt(READ_SWITCH, 0).0, READ_STATE) == Broke(WriteVar(READ_STATE, Temp(1), 1))
  {
    var sections := READ_SWITCH.sections;
    assert Eval(Num(7), READ_STATE) == (7, READ_STATE) && Eval(Num(0), READ_STATE) == (0, READ_STATE);
    assert FirstWith(sections, Case(0)) == 0;
    ExecSingle(0, Break, READ_STATE);
    ExecSingle(0, READ_GUARD, READ_STATE);
    assert ExecSections(0, sections, 0, READ_STATE) == Broke(READ_STATE);
    LoweredReadSwitch();
    ReadArmBreaks();
  }

  function ReadArm(): seq<Stmt> {
    [Block([Assign(Temp(1), Deref(Num(7))), If(Var(Temp(1)), [Break], [])])]
  }

  lemma LoweredReadSwitch()
    ensures LowerStmt(READ_SWITCH, 0).0 == [If(Bin(Eq, Num(0), Num(0)), ReadArm(), [])]
  {
    var sections := READ_SWITCH.sections;
    var hoisted := Assign(Temp(1), Deref(Num(7)));
    LowerSingle(Break, 0);
    assert LowerSeq([], 0) == ([], 0);
    assert Hoist(Deref(Num(7)), 0) == Hoisted(Var(Temp(1)), [hoisted], 1);
    assert [hoisted] + [If(Var(Temp(1)), [Break], [])] == ReadArm()[0].body;
    assert LowerStmt(READ_GUARD, 0) == (ReadArm(), 1);
    LowerSingle(READ_GUARD, 0);
    var low := [Section(Case(0), ReadArm())];
    assert LowerSections(sections, 0) == (low, 1) by {
      assert sections[1..] == [] && LowerSections([], 1) == ([], 1) && low + [] == low;
    }
    ArmChain(ReadArm());
  }

  lemma ArmChain(arm: seq<Stmt>)
    requires |arm| == 1 && arm[0].Block?
    ensures Lowered(Num(0), [Section(Case(0), arm)]) == [If(Bin(Eq, Num(0), Num(0)), arm, [])]
  {
    var c := Section(Case(0), arm);
    OneCase(c, []);
    SplitEmpty([], []);
    SplitOne(arm[0]);
    assert arm == [arm[0]];
    ChainOne(Num(0), c, arm, []);
  }

  lemma ReadArmBreaks()
    ensures ExecSeq(0, [If(Bin(Eq, Num(0), Num(0)), ReadArm(), [])], READ_STATE) == Broke(WriteVar(READ_STATE, Temp(1), 1))
  {
    var st1 := WriteVar(READ_STATE, Temp(1), 1);
    var body := ReadArm()[0].body;
    assert body[1..] == [body[1]];
    assert Eval(Num(7), READ_STATE) == (7, READ_STATE) && Eval(Num(0), READ_STATE) == (0, READ_STATE);
    assert Exec(0, body[0], READ_STATE) == Normal(st1);
    ExecSingle(0, Break, st1);
    assert Eval(Var(Temp(1)), st1) == (1, st1);
    ExecSingle(0, body[1], st1);
    ExecSingle(0, ReadArm()[0], READ_STATE);
    ExecSingle(0, If(Bin(Eq, Num(0), Num(0)), ReadArm(), []), READ_STATE);
  }
}

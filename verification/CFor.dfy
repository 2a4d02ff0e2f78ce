/** Lowering a for loop to a while loop: the step runs at the end of the body and before each
    continue that belongs to the loop. */
module CFor {
  import opened CLang

  // ---------------------------------------------------------------- the rewriting

  /** Each continue signal of the loop becomes a block of the step and the signal; loops inside, and
      everything else, stay as they are. */
  function Wrap(ss: seq<Stmt>, step: Stmt): (r: seq<Stmt>)
    decreases ss
  {
    if ss == [] then [] else [WrapOne(ss[0], step)] + Wrap(ss[1..], step)
  }

  function WrapOne(s: Stmt, step: Stmt): Stmt
    decreases s
  {
    match s
    case ContinueCall => Block([step, s])
    case If(c, thn, els) => If(c, Wrap(thn, step), Wrap(els, step))
    case Block(body) => Block(Wrap(body, step))
    case _ => s
  }

  /** The same by the source's loop. */
  method WrapForContinues(ss: seq<Stmt>, step: Stmt) returns (out: seq<Stmt>)
    ensures out == Wrap(ss, step)
    decreases ss
  {
    hide WrapOne;
    out := [];
    for i := 0 to |ss|
      invariant Wrap(ss, step) == out + Wrap(ss[i..], step)
    {
      assert ss[i..][0] == ss[i] && ss[i..][1..] == ss[i + 1..];
      var m := WrapStmt(ss[i], step);
      assert Wrap(ss[i..], step) == [m] + Wrap(ss[i + 1..], step);
      assert out + ([m] + Wrap(ss[i + 1..], step)) == out + [m] + Wrap(ss[i + 1..], step);
      out := out + [m];
    }
  }

  method WrapStmt(s: Stmt, step: Stmt) returns (m: Stmt)
    ensures m == WrapOne(s, step)
    decreases s
  {
    match s {
      case ContinueCall => m := Block([step, s]);
      case If(c, thn, els) =>
        var a := WrapForContinues(thn, step);
        var b := WrapForContinues(els, step);
        m := If(c, a, b);
      case Block(body) =>
        var b := WrapForContinues(body, step);
        m := Block(b);
      case _ => m := s;
    }
  }

  /** The loop as the core's strip leaves it: initialisation, then a while whose body ends in the step. */
  function Stripped(s: Stmt, step: Stmt): seq<Stmt>
    requires s.For?
  {
    s.init + [While(s.cond, Wrap(s.body, step) + [step])]
  }

  // ---------------------------------------------------------------- which bodies

  /** No continue in s would leave it. */
  predicate ContinueFree(s: Stmt) {
    match s
    case Continue | ContinueCall => false
    case Block(body) => AllContinueFree(body)
    case If(_, thn, els) => AllContinueFree(thn) && AllContinueFree(els)
    case For(init, _, step, _) => AllContinueFree(init) && AllContinueFree(step)
    case Switch(_, sections) => forall i :: 0 <= i < |sections| ==> AllContinueFree(sections[i].body)
    case _ => true
  }

  predicate AllContinueFree(ss: seq<Stmt>) {
    forall i :: 0 <= i < |ss| ==> ContinueFree(ss[i])
  }

  /** The loop's continues are all signal calls, in blocks and if-arms; none is a first-class node and
      none sits in a switch. */
  predicate SignalsOnly(s: Stmt) {
    match s
    case ContinueCall => true
    case Block(body) => AllSignalsOnly(body)
    case If(_, thn, els) => AllSignalsOnly(thn) && AllSignalsOnly(els)
    case _ => ContinueFree(s)
  }

  predicate AllSignalsOnly(ss: seq<Stmt>) {
    forall i :: 0 <= i < |ss| ==> SignalsOnly(ss[i])
  }

  // ---------------------------------------------------------------- meaning

  lemma {:induction false} ContinueFreeNeverContinues(fuel: nat, s: Stmt, st: State)
    requires ContinueFree(s)
    ensures !Exec(fuel, s, st).Continued?
    decreases fuel, s, 1
  {
    match s
    case Block(body) => AllContinueFreeNeverContinue(fuel, body, st);
    case If(c, thn, els) =>
      AllContinueFreeNeverContinue(fuel, thn, Eval(c, st).1);
      AllContinueFreeNeverContinue(fuel, els, Eval(c, st).1);
    case While(c, body) =>
      if fuel > 0 {
        var o := ExecSeq(fuel, body, Eval(c, st).1);
        if o.Normal? || o.Continued? {
          ContinueFreeNeverContinues(fuel - 1, s, o.st);
        }
      }
    case For(init, _, _, _) =>
      AllContinueFreeNeverContinue(fuel, init, st);
      var o := ExecSeq(fuel, init, st);
      if o.Normal? {
        ForNeverContinues(fuel, s, o.st);
      }
    case Switch(d, sections) =>
      var (v, s1) := Eval(d, st);
      SectionsNeverContinue(fuel, sections, Target(sections, v), s1);
    case _ =>
  }

  lemma {:induction false} AllContinueFreeNeverContinue(fuel: nat, ss: seq<Stmt>, st: State)
    requires AllContinueFree(ss)
    ensures !ExecSeq(fuel, ss, st).Continued?
    decreases fuel, ss, 0
  {
    if ss != [] {
      ContinueFreeNeverContinues(fuel, ss[0], st);
      var o := Exec(fuel, ss[0], st);
      if o.Normal? {
        AllContinueFreeNeverContinue(fuel, ss[1..], o.st);
      }
    }
  }

  lemma {:induction false} ForNeverContinues(fuel: nat, s: Stmt, st: State)
    requires s.For? && ContinueFree(s)
    ensures !ExecFor(fuel, s, st).Continued?
    decreases fuel, s, 0
  {
    if fuel > 0 {
      var o := ExecSeq(fuel, s.body, Eval(s.cond, st).1);
      if o.Normal? || o.Continued? {
        AllContinueFreeNeverContinue(fuel, s.step, o.st);
        var p := ExecSeq(fuel, s.step, o.st);
        if p.Normal? {
          ForNeverContinues(fuel - 1, s, p.st);
        }
      }
    }
  }

  lemma {:induction false} SectionsNeverContinue(fuel: nat, sections: seq<Section>, i: nat, st: State)
    requires i <= |sections| && forall k :: 0 <= k < |sections| ==> AllContinueFree(sections[k].body)
    ensures !ExecSections(fuel, sections, i, st).Continued?
    decreases fuel, sections, |sections| - i
  {
    if i < |sections| {
      AllContinueFreeNeverContinue(fuel, sections[i].body, st);
      var o := ExecSeq(fuel, sections[i].body, st);
      if o.Normal? {
        SectionsNeverContinue(fuel, sections, i + 1, o.st);
      }
    }
  }

  /** The state an assignment leaves. */
  function Stepped(step: Stmt, st: State): State
    requires step.Assign? || step.Store?
  {
    Exec(0, step, st).st
  }

  lemma StepIsNormal(fuel: nat, step: Stmt, st: State)
    requires step.Assign? || step.Store?
    ensures Exec(fuel, step, st) == Normal(Stepped(step, st))
  {
  }

  /** An outcome with the step run before a continue. */
  function StepFirst(o: Outcome, step: Stmt): Outcome
    requires step.Assign? || step.Store?
  {
    if o.Continued? then Continued(Stepped(step, o.st)) else o
  }

  /** If this run ends in a continue, the continue is a signal call where the rewriting looks: not the
      continue node, and not in a switch. */
  predicate Seen(fuel: nat, ss: seq<Stmt>, st: State)
    decreases ss
  {
    ss != [] ==>
      var o := Exec(fuel, ss[0], st);
      if o.Normal? then Seen(fuel, ss[1..], o.st) else o.Continued? ==> SeenIn(fuel, ss[0], st)
  }

  predicate SeenIn(fuel: nat, s: Stmt, st: State)
    decreases s
  {
    match s
    case ContinueCall => true
    case If(c, thn, els) => var (v, s1) := Eval(c, st); if v != 0 then Seen(fuel, thn, s1) else Seen(fuel, els, s1)
    case Block(body) => Seen(fuel, body, st)
    case _ => false
  }

  /** What the wrapped body does, for every body: as the body does, except that a continue that is seen has
      run the step exactly once. */
  lemma {:induction false} WrapRuns(fuel: nat, ss: seq<Stmt>, step: Stmt, st: State)
    requires step.Assign? || step.Store?
    ensures var o := ExecSeq(fuel, ss, st);
            ExecSeq(fuel, Wrap(ss, step), st) == if Seen(fuel, ss, st) then StepFirst(o, step) else o
    ensures !Seen(fuel, ss, st) ==> ExecSeq(fuel, ss, st).Continued?
    decreases ss
  {
    if ss != [] {
      WrapOneRuns(fuel, ss[0], step, st);
      var o := Exec(fuel, ss[0], st);
      if o.Normal? {
        WrapRuns(fuel, ss[1..], step, o.st);
      }
    }
  }

  lemma {:induction false} WrapOneRuns(fuel: nat, s: Stmt, step: Stmt, st: State)
    requires step.Assign? || step.Store?
    ensures var o := Exec(fuel, s, st);
            Exec(fuel, WrapOne(s, step), st) == if o.Continued? && SeenIn(fuel, s, st) then StepFirst(o, step) else o
    decreases s
  {
    match s
    case ContinueCall =>
      StepIsNormal(fuel, step, st);
      ExecSingle(fuel, s, Stepped(step, st));
      assert [step, s][1..] == [s];
    case If(c, thn, els) =>
      WrapRuns(fuel, thn, step, Eval(c, st).1);
      WrapRuns(fuel, els, step, Eval(c, st).1);
    case Block(body) => WrapRuns(fuel, body, step, st);
    case _ =>
  }

  /** A run of the body that does not continue, or whose continue is seen, or where the step is idle. */
  predicate ContinueIsKept(fuel: nat, ss: seq<Stmt>, step: Stmt, st: State)
    requires step.Assign? || step.Store?
  {
    var o := ExecSeq(fuel, ss, st);
    o.Continued? ==> Seen(fuel, ss, st) || Stepped(step, o.st) == o.st
  }

  /** The exact condition, for every body: the wrapped body runs as the body with the step before its
      continue if and only if a continue that ends the run is a signal call in blocks and if-arms only, or
      the step leaves its state as it was. */
  lemma WrapExactly(fuel: nat, ss: seq<Stmt>, step: Stmt, st: State)
    requires step.Assign? || step.Store?
    ensures ExecSeq(fuel, Wrap(ss, step), st) == StepFirst(ExecSeq(fuel, ss, st), step) <==> ContinueIsKept(fuel, ss, step, st)
  {
    WrapRuns(fuel, ss, step, st);
  }

  lemma {:induction false} SignalsAreSeen(fuel: nat, ss: seq<Stmt>, st: State)
    requires AllSignalsOnly(ss)
    ensures Seen(fuel, ss, st)
    decreases ss
  {
    if ss != [] {
      var o := Exec(fuel, ss[0], st);
      if o.Normal? {
        SignalsAreSeen(fuel, ss[1..], o.st);
      } else if o.Continued? {
        SignalIsSeen(fuel, ss[0], st);
      }
    }
  }

  lemma {:induction false} SignalIsSeen(fuel: nat, s: Stmt, st: State)
    requires SignalsOnly(s) && Exec(fuel, s, st).Continued?
    ensures SeenIn(fuel, s, st)
    decreases s
  {
    match s
    case ContinueCall =>
    case If(c, thn, els) =>
      SignalsAreSeen(fuel, thn, Eval(c, st).1);
      SignalsAreSeen(fuel, els, Eval(c, st).1);
    case Block(body) => SignalsAreSeen(fuel, body, st);
    case _ => ContinueFreeNeverContinues(fuel, s, st);
  }

  /** The wrapped body runs as the body does, except that a continue has run the step exactly once. */
  lemma WrapMeaning(fuel: nat, ss: seq<Stmt>, step: Stmt, st: State)
    requires AllSignalsOnly(ss) && (step.Assign? || step.Store?)
    ensures ExecSeq(fuel, Wrap(ss, step), st) == StepFirst(ExecSeq(fuel, ss, st), step)
  {
    SignalsAreSeen(fuel, ss, st);
    WrapRuns(fuel, ss, step, st);
  }

  /** Each trip of the loop from st on keeps its continue. */
  predicate TripsAreKept(fuel: nat, s: Stmt, step: Stmt, st: State)
    requires s.For? && (step.Assign? || step.Store?)
    decreases fuel
  {
    fuel > 0 && Eval(s.cond, st).0 != 0 ==>
      var s1 := Eval(s.cond, st).1;
      var o := ExecSeq(fuel, s.body, s1);
      && ContinueIsKept(fuel, s.body, step, s1)
      && (o.Normal? || o.Continued? ==> TripsAreKept(fuel - 1, s, step, Stepped(step, o.st)))
  }

  /** The loop part: trip for trip the while does what the for does. */
  lemma {:induction false} StrippedLoop(fuel: nat, s: Stmt, step: Stmt, st: State)
    requires s.For? && s.step == [step] && (step.Assign? || step.Store?) && TripsAreKept(fuel, s, step, st)
    ensures Exec(fuel, While(s.cond, Wrap(s.body, step) + [step]), st) == ExecFor(fuel, s, st)
    decreases fuel
  {
    if fuel > 0 {
      var (v, s1) := Eval(s.cond, st);
      if v != 0 {
        WrapExactly(fuel, s.body, step, s1);
        ExecSeqConcat(fuel, Wrap(s.body, step), [step], s1);
        var o := ExecSeq(fuel, s.body, s1);
        if o.Normal? || o.Continued? {
          ExecSingle(fuel, step, o.st);
          StepIsNormal(fuel, step, o.st);
          StrippedLoop(fuel - 1, s, step, Stepped(step, o.st));
        }
      }
    }
  }

  /** A run whose every trip keeps its continue is the same run on both sides, whatever continues the body
      holds. */
  lemma KeptRunsAreTheSame(fuel: nat, s: Stmt, step: Stmt, st: State)
    requires s.For? && s.step == [step] && (step.Assign? || step.Store?)
    requires var o := ExecSeq(fuel, s.init, st); o.Normal? ==> TripsAreKept(fuel, s, step, o.st)
    ensures ExecSeq(fuel, Stripped(s, step), st) == Exec(fuel, s, st)
  {
    var loop := While(s.cond, Wrap(s.body, step) + [step]);
    ExecSeqConcat(fuel, s.init, [loop], st);
    var o := ExecSeq(fuel, s.init, st);
    if o.Normal? {
      ExecSingle(fuel, loop, o.st);
      StrippedLoop(fuel, s, step, o.st);
    }
  }

  lemma {:induction false} SignalTripsAreKept(fuel: nat, s: Stmt, step: Stmt, st: State)
    requires s.For? && (step.Assign? || step.Store?) && AllSignalsOnly(s.body)
    ensures TripsAreKept(fuel, s, step, st)
    decreases fuel
  {
    if fuel > 0 && Eval(s.cond, st).0 != 0 {
      var s1 := Eval(s.cond, st).1;
      var o := ExecSeq(fuel, s.body, s1);
      SignalsAreSeen(fuel, s.body, s1);
      if o.Normal? || o.Continued? {
        SignalTripsAreKept(fuel - 1, s, step, Stepped(step, o.st));
      }
    }
  }

  /** `for (init; c; step) body` and `init; while (c) { wrapped body; step }` have the same runs
      (sections 6.8.5.3 and 6.8.6.2 of C11): a continue of the loop runs the step once before the
      test, a break skips it, and loops inside are untouched. */
  lemma StrippingKeepsMeaning(fuel: nat, s: Stmt, step: Stmt, st: State)
    requires s.For? && s.step == [step] && (step.Assign? || step.Store?) && AllSignalsOnly(s.body)
    ensures ExecSeq(fuel, Stripped(s, step), st) == Exec(fuel, s, st)
  {
    var o := ExecSeq(fuel, s.init, st);
    if o.Normal? {
      SignalTripsAreKept(fuel, s, step, o.st);
    }
    KeptRunsAreTheSame(fuel, s, step, st);
  }

  // ---------------------------------------------------------------- where it fails

  const I := User("i")

  function Bump(): Stmt { Assign(I, Bin(Add, Var(I), Num(1))) }

  /** `for (; i < 1; i = i + 1) continue;`, the continue as the node this frontend emits. */
  function PlainContinueLoop(): Stmt { For([], Bin(Lt, Var(I), Num(1)), [Bump()], [Continue]) }

  lemma EvalTest(fuel: nat, st: State)
    ensures Eval(Bin(Lt, Var(I), Num(1)), st) == (Truth(ReadVar(st, I) < 1), st)
    ensures Exec(fuel, Bump(), st) == Normal(WriteVar(st, I, ReadVar(st, I) + 1))
  {
  }

  /** The continue node is not recognised: the loop, which ends after one trip, becomes a while that
      never steps and so never ends. */
  lemma PlainContinueIsMissed(fuel: nat)
    ensures var st := State(map[], map[]);
            && !AllSignalsOnly([Continue])
            && Exec(2, PlainContinueLoop(), st) == Normal(WriteVar(st, I, 1))
            && ExecSeq(fuel, Stripped(PlainContinueLoop(), Bump()), st) == OutOfFuel
  {
    var st := State(map[], map[]);
    var s := PlainContinueLoop();
    assert !SignalsOnly([Continue][0]);
    EvalTest(2, st);
    var st1 := WriteVar(st, I, 1);
    EvalTest(1, st1);
    ExecSingle(2, Continue, st);
    ExecSingle(2, Bump(), st);
    assert ExecSeq(2, [Bump()], st) == Normal(st1);
    assert ExecFor(1, s, st1) == Normal(st1);
    assert ExecFor(2, s, st) == Normal(st1);
    assert ExecSeq(2, s.init, st) == Normal(st);
    assert Stripped(s, Bump()) == [While(s.cond, [Continue, Bump()])] by {
      assert [Continue][1..] == [];
      assert Wrap([Continue], Bump()) == [Continue];
      assert [Continue] + [Bump()] == [Continue, Bump()];
      assert [] + [While(s.cond, [Continue, Bump()])] == [While(s.cond, [Continue, Bump()])];
    }
    ExecSingle(fuel, While(s.cond, [Continue, Bump()]), st);
    SpinsForever(fuel, st);
  }

  lemma {:induction false} SpinsForever(fuel: nat, st: State)
    requires ReadVar(st, I) < 1
    ensures Exec(fuel, While(Bin(Lt, Var(I), Num(1)), [Continue, Bump()]), st) == OutOfFuel
    decreases fuel
  {
    if fuel > 0 {
      EvalTest(fuel, st);
      assert ExecSeq(fuel, [Continue, Bump()], st) == Continued(st);
      SpinsForever(fuel - 1, st);
    }
  }

  /** A continue in a switch, signal call or node, is not seen either: it reaches the loop without the step. */
  lemma ContinueInSwitchIsMissed(fuel: nat, s: Stmt, step: Stmt, st: State)
    requires s.Switch? && (step.Assign? || step.Store?) && Exec(fuel, s, st).Continued?
    ensures var o := Exec(fuel, s, st);
            ExecSeq(fuel, Wrap([s], step), st) == StepFirst(o, step) <==> Stepped(step, o.st) == o.st
  {
    ExecSingle(fuel, s, st);
    WrapExactly(fuel, [s], step, st);
    assert !Seen(fuel, [s], st);
  }
}

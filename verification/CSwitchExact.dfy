/** The exact conditions under which the switch lowering is right where it departs from C: an else on a
    guarded break, a break after other work in an `if`, and a default that other sections follow. */
module CSwitchExact {
  import opened CLang
  import opened CHoist
  import opened CSwitch

  // ---------------------------------------------------------------- the lowering as a run

  /** For bodies with breaks where they are looked for, the chain is exactly the settled switch. */
  lemma ReadyChainRuns(fuel: nat, disc: Expr, sections: seq<Section>, st: State)
    requires IsPlain(disc) && HasCase(sections) && AllReady(sections)
    ensures ExecSeq(fuel, Lowered(disc, sections), st) == Exec(fuel, Switch(disc, Settled(sections)), st)
  {
    hide Lowered, Settled, ExecSeq, AllReady, Exec;
    SwitchIsSettledSwitch(fuel, disc, sections, st);
    LoweredIsBreakFree(disc, sections);
    AllBreakFreeNeverBreaks(fuel, Lowered(disc, sections), st);
  }

  /** The chain of a switch with one case. */
  lemma OneCaseChain(fuel: nat, d: Expr, k: int, body: seq<Stmt>, st: State)
    requires IsPlain(d)
    ensures ExecSeq(fuel, Lowered(d, [Section(Case(k), body)]), st)
            == if Eval(d, st).0 == k then ExecSeq(fuel, Split(body, []), st) else Normal(st)
  {
    hide Split, ExecSeq, IsPlain;
    var c := Section(Case(k), body);
    OneCase(c, []);
    SplitEmpty([], []);
    var chain := If(Bin(Eq, d, Num(k)), Split(body, []), []);
    ChainOne(d, c, Split(body, []), []);
    assert Lowered(d, [c]) == [chain];
    PlainEval(d, st, st);
    assert Eval(Num(k), st) == (k, st);
    ExecSingle(fuel, chain, st);
    NothingDone(fuel, st);
  }

  lemma NothingDone(fuel: nat, st: State)
    ensures ExecSeq(fuel, [], st) == Normal(st)
  {
  }

  /** The arm of a ready body, which nothing follows, ends like the body up to its breaks. */
  lemma ReadyArmRuns(fuel: nat, body: seq<Stmt>, st: State)
    requires Ready(body)
    ensures ExecSeq(fuel, Split(body, []), st) == LeaveLoop(ExecSeq(fuel, body, st))
  {
    hide Split, Ready, DropElse;
    SplitMeaning(fuel, body, [], st);
    DropElseOfReady(body);
    SplitIsBreakFree(body, []);
    AllBreakFreeNeverBreaks(fuel, Split(body, []), st);
    var o := ExecSeq(fuel, body, st);
    if o.Normal? {
      NothingDone(fuel, o.st);
    }
  }

  /** A break-free start runs the same on both sides. */
  lemma ArmAfter(fuel: nat, pre: seq<Stmt>, body: seq<Stmt>, st: State)
    requires AllBreakFree(pre)
    ensures var o := ExecSeq(fuel, pre, st);
            && !o.Broke?
            && ExecSeq(fuel, pre + body, st) == (if o.Normal? then ExecSeq(fuel, body, o.st) else o)
            && ExecSeq(fuel, Split(pre + body, []), st) == (if o.Normal? then ExecSeq(fuel, Split(body, []), o.st) else o)
  {
    hide Split, ExecSeq;
    BreakFreeIsTopFree(pre);
    SplitOver(pre, body, []);
    ExecSeqConcat(fuel, pre, body, st);
    ExecSeqConcat(fuel, pre, Split(body, []), st);
    AllBreakFreeNeverBreaks(fuel, pre, st);
  }

  // ---------------------------------------------------------------- an else on a guarded break

  lemma GuardWithElseRuns(fuel: nat, g: Stmt, tail: seq<Stmt>, st: State)
    requires MayLeaveSwitch(g) && Ready(tail)
    ensures var (v, s1) := Eval(g.cond, st);
            && LeaveLoop(ExecSeq(fuel, [g] + tail, st))
               == (if v != 0 then Normal(s1) else LeaveLoop(ExecSeq(fuel, g.els + tail, s1)))
            && ExecSeq(fuel, Split([g] + tail, []), st)
               == (if v != 0 then Normal(s1) else LeaveLoop(ExecSeq(fuel, tail, s1)))
  {
    hide ExecSeq, Ready, Eval;
    var (v, s1) := Eval(g.cond, st);
    GuardedExec(fuel, g, Split(tail, []), st);
    ReadyArmRuns(fuel, tail, s1);
    assert ([g] + tail)[0] == g && ([g] + tail)[1..] == tail && tail + [] == tail;
    assert Split([g] + tail, []) == [If(g.cond, [], Split(tail, []))];
    ExecSeqConcat(fuel, [g], tail, st);
    ExecSingle(fuel, g, st);
    ExecSeqConcat(fuel, g.els, tail, s1);
  }

  /** What has to hold where `if (c) break; else ...` is reached: the break is taken, or the else part
      before the tail comes to the same as the tail alone. */
  predicate ElseIsIdle(fuel: nat, g: Stmt, tail: seq<Stmt>, o: Outcome)
    requires g.If?
  {
    o.Normal? ==>
      var (v, s1) := Eval(g.cond, o.st);
      v != 0 || LeaveLoop(ExecSeq(fuel, g.els + tail, s1)) == LeaveLoop(ExecSeq(fuel, tail, s1))
  }

  /** The exact condition for a guarded break with an else of its own: the case is not selected, or the
      guard is not reached, or its else part makes no difference there. */
  lemma GuardElseIsLostExactly(fuel: nat, d: Expr, k: int, pre: seq<Stmt>, g: Stmt, tail: seq<Stmt>, st: State)
    requires IsPlain(d) && AllBreakFree(pre) && MayLeaveSwitch(g) && Ready(tail)
    ensures var sections := [Section(Case(k), pre + ([g] + tail))];
            ExecSeq(fuel, Lowered(d, sections), st) == Exec(fuel, Switch(d, sections), st)
            <==> Eval(d, st).0 != k || ElseIsIdle(fuel, g, tail, ExecSeq(fuel, pre, st))
  {
    hide ExecSeq, Ready, Eval, Split, AllBreakFree, IsPlain, Lowered, GuardedBreak, Exec;
    PlainEval(d, st, st);
    var body := pre + ([g] + tail);
    OneCaseRun(fuel, d, k, body, st);
    OneCaseChain(fuel, d, k, body, st);
    ArmAfter(fuel, pre, [g] + tail, st);
    var o := ExecSeq(fuel, pre, st);
    if o.Normal? {
      GuardWithElseRuns(fuel, g, tail, o.st);
    }
  }

  // ---------------------------------------------------------------- a break after other work

  /** `if (c) { work; break; }`, which is no guarded break. */
  function WorkThenBreak(c: Expr, work: seq<Stmt>, leave: Stmt): Stmt { If(c, work + [leave], []) }

  lemma WorkThenBreakRuns(fuel: nat, c: Expr, work: seq<Stmt>, leave: Stmt, tail: seq<Stmt>, st: State)
    requires work != [] && AllBreakFree(work) && LeavesSwitch(leave) && Ready(tail)
    ensures var deep := WorkThenBreak(c, work, leave);
            var (v, s1) := Eval(c, st);
            var w := ExecSeq(fuel, work, s1);
            && !w.Broke?
            && ExecSeq(fuel, [deep] + tail, st)
               == (if v == 0 then ExecSeq(fuel, tail, s1) else if w.Normal? then Broke(w.st) else w)
            && ExecSeq(fuel, Split([deep] + tail, []), st)
               == (if v == 0 then LeaveLoop(ExecSeq(fuel, tail, s1)) else if w.Normal? then Broke(w.st) else w)
  {
    hide ExecSeq, Ready, Eval;
    var deep := WorkThenBreak(c, work, leave);
    var (v, s1) := Eval(c, st);
    var w := ExecSeq(fuel, work, s1);
    AllBreakFreeNeverBreaks(fuel, work, s1);
    assert ([deep] + tail)[0] == deep && ([deep] + tail)[1..] == tail && |deep.thn| > 1;
    assert Split([deep] + tail, []) == [deep] + Split(tail, []);
    ReadyArmRuns(fuel, tail, s1);
    ExecSeqConcat(fuel, [deep], tail, st);
    ExecSeqConcat(fuel, [deep], Split(tail, []), st);
    ExecSingle(fuel, deep, st);
    ExecSeqConcat(fuel, work, [leave], s1);
    if w.Normal? {
      ExecSingle(fuel, leave, w.st);
    }
    NothingDone(fuel, s1);
  }

  /** The exact condition for a break behind other work in an `if`: the case is not selected, or the `if`
      is not reached, or its condition is false there, or the work does not get to the break. */
  lemma DeepBreakExactly(fuel: nat, d: Expr, k: int, pre: seq<Stmt>, c: Expr, work: seq<Stmt>, leave: Stmt,
                         tail: seq<Stmt>, st: State)
    requires IsPlain(d) && AllBreakFree(pre) && work != [] && AllBreakFree(work) && LeavesSwitch(leave) && Ready(tail)
    ensures var sections := [Section(Case(k), pre + ([WorkThenBreak(c, work, leave)] + tail))];
            var o := ExecSeq(fuel, pre, st);
            ExecSeq(fuel, Lowered(d, sections), st) == Exec(fuel, Switch(d, sections), st)
            <==> Eval(d, st).0 != k || !o.Normal? || Eval(c, o.st).0 == 0 || !ExecSeq(fuel, work, Eval(c, o.st).1).Normal?
  {
    hide ExecSeq, Ready, Eval, Split, AllBreakFree, IsPlain, Lowered, Exec, WorkThenBreak;
    PlainEval(d, st, st);
    var rest := [WorkThenBreak(c, work, leave)] + tail;
    OneCaseRun(fuel, d, k, pre + rest, st);
    OneCaseChain(fuel, d, k, pre + rest, st);
    ArmAfter(fuel, pre, rest, st);
    var o := ExecSeq(fuel, pre, st);
    if o.Normal? {
      WorkThenBreakRuns(fuel, c, work, leave, tail, o.st);
    }
  }

  // ---------------------------------------------------------------- a default that is not last

  /** Sections a then b, from section i. */
  lemma {:induction false} SectionsConcat(fuel: nat, a: seq<Section>, b: seq<Section>, i: nat, st: State)
    requires i <= |a|
    ensures ExecSections(fuel, a + b, i, st)
            == var o := ExecSections(fuel, a, i, st); if o.Normal? then ExecSections(fuel, b, 0, o.st) else o
    decreases |a| - i
  {
    hide ExecSeq;
    if i == |a| {
      SectionsFrom(fuel, a, b, 0, st);
    } else {
      assert (a + b)[i] == a[i];
      var o := ExecSeq(fuel, a[i].body, st);
      if o.Normal? {
        SectionsConcat(fuel, a, b, i + 1, o.st);
      }
    }
  }

  lemma {:induction false} SectionsFrom(fuel: nat, a: seq<Section>, b: seq<Section>, j: nat, st: State)
    requires j <= |b|
    ensures ExecSections(fuel, a + b, |a| + j, st) == ExecSections(fuel, b, j, st)
    decreases |b| - j
  {
    hide ExecSeq;
    if j < |b| {
      assert (a + b)[|a| + j] == b[j];
      var o := ExecSeq(fuel, b[j].body, st);
      if o.Normal? {
        SectionsFrom(fuel, a, b, j + 1, o.st);
      }
    }
  }

  lemma OneSection(fuel: nat, s: Section, st: State)
    ensures ExecSections(fuel, [s], 0, st) == ExecSeq(fuel, s.body, st)
  {
    hide ExecSeq;
    var o := ExecSeq(fuel, s.body, st);
    if o.Normal? {
      assert ExecSections(fuel, [s], 1, o.st) == o;
    }
  }

  predicate AllCases(sections: seq<Section>) {
    forall s :: s in sections ==> s.tag.Case?
  }

  lemma {:induction false} CasesConcat(a: seq<Section>, b: seq<Section>)
    ensures Cases(a + b) == Cases(a) + Cases(b)
    decreases |a|
  {
    if a == [] {
      assert a + b == b;
    } else {
      assert (a + b)[1..] == a[1..] + b;
      CasesConcat(a[1..], b);
    }
  }

  lemma {:induction false} DefaultBefore(front: seq<Section>, d: seq<Stmt>, b: seq<Section>)
    requires AllCases(b)
    ensures DefaultBody(front + [Section(Default, d)] + b) == d
    decreases |b|
  {
    var s := Section(Default, d);
    var all := front + [s] + b;
    if b == [] {
      assert all[|all| - 1] == s;
    } else {
      var n := |b| - 1;
      assert all[|all| - 1] == b[n] && b[n] in b && all[..|all| - 1] == front + [s] + b[..n];
      DefaultBefore(front, d, b[..n]);
    }
  }

  /** A default between the cases a and b, and the same sections as the lowering takes them. */
  function Written(a: seq<Section>, d: seq<Stmt>, b: seq<Section>): seq<Section> { a + ([Section(Default, d)] + b) }

  function Moved(a: seq<Section>, d: seq<Stmt>, b: seq<Section>): seq<Section> { a + (b + [Section(Default, d)]) }

  lemma MovedIsCollected(a: seq<Section>, d: seq<Stmt>, b: seq<Section>)
    requires AllCases(a) && AllCases(b)
    ensures var all := Written(a, d, b);
            && Cases(all) == a + b && DefaultBody(all) == d && HasDefault(all)
            && Settled(all) == DropElses(Moved(a, d, b))
  {
    hide Cases, DefaultBody, DropElses;
    var s := Section(Default, d);
    var all := Written(a, d, b);
    assert Cases([s]) == [] by { OnlyDefault(s); }
    CasesConcat([s], b);
    CasesConcat(a, [s] + b);
    CasesOfCases(a);
    CasesOfCases(b);
    DefaultBefore(a, d, b);
    assert a + [s] + b == all;
    assert all[|a|] == s;
    assert a + ([] + b) == a + b;
    assert a + b + [s] == Moved(a, d, b);
  }

  lemma OnlyDefault(s: Section)
    requires s.tag.Default?
    ensures Cases([s]) == []
  {
    assert [s][1..] == [];
  }

  lemma MovedKeepsBodies(a: seq<Section>, d: seq<Stmt>, b: seq<Section>)
    requires AllReady(Written(a, d, b))
    ensures DropElses(Moved(a, d, b)) == Moved(a, d, b)
  {
    hide DropElse, Ready;
    var all, moved := Written(a, d, b), Moved(a, d, b);
    forall i | 0 <= i < |moved| ensures DropElse(moved[i].body) == moved[i].body {
      var j := if i < |a| then i else if i < |a| + |b| then i + 1 else |a|;
      assert moved[i] == all[j];
      DropElseOfReady(moved[i].body);
    }
  }

  /** Where each order of the sections is entered. */
  lemma TargetsOfBoth(a: seq<Section>, d: seq<Stmt>, b: seq<Section>, v: int)
    requires AllCases(a) && AllCases(b)
    ensures var i, j := FirstWith(a, Case(v)), FirstWith(b, Case(v));
            && Target(Written(a, d, b), v) == (if i < |a| then i else if j < |b| then |a| + (1 + j) else |a| + 0)
            && Target(Moved(a, d, b), v) == (if i < |a| then i else if j < |b| then |a| + j else |a| + |b|)
  {
    hide FirstWith;
    var s := Section(Default, d);
    FirstWithConcat([s], b, Case(v));
    FirstWithConcat(b, [s], Case(v));
    FirstWithConcat(a, [s] + b, Case(v));
    FirstWithConcat(a, b + [s], Case(v));
    FirstWithConcat([s], b, Default);
    FirstWithConcat(b, [s], Default);
    FirstWithConcat(a, [s] + b, Default);
    FirstWithConcat(a, b + [s], Default);
    OnlyDefaultTag(s, v);
    NoDefaultTag(a);
    NoDefaultTag(b);
  }

  lemma OnlyDefaultTag(s: Section, v: int)
    requires s.tag.Default?
    ensures FirstWith([s], Default) == 0 && FirstWith([s], Case(v)) == 1
  {
    assert [s][1..] == [];
  }

  lemma NoDefaultTag(a: seq<Section>)
    requires AllCases(a)
    ensures FirstWith(a, Default) == |a|
  {
    if FirstWith(a, Default) < |a| {
      assert a[FirstWith(a, Default)] in a;
    }
  }

  /** The default and then the sections behind it, and the other way round. */
  function DefaultFirst(fuel: nat, d: seq<Stmt>, b: seq<Section>, st: State): Outcome {
    var o := ExecSeq(fuel, d, st);
    if o.Normal? then ExecSections(fuel, b, 0, o.st) else o
  }

  function DefaultAfter(fuel: nat, d: seq<Stmt>, b: seq<Section>, j: nat, st: State): Outcome
    requires j <= |b|
  {
    var o := ExecSections(fuel, b, j, st);
    if o.Normal? then ExecSeq(fuel, d, o.st) else o
  }

  /** What moving a default behind the sections b must not change: entered in front, control either does
      not get that far or both orders come to the same; entered at the default or behind it, control does
      not fall on, or what the one order runs in addition ends, up to a break, where it began. */
  predicate MovingKeeps(fuel: nat, a: seq<Section>, d: seq<Stmt>, b: seq<Section>, v: int, st: State) {
    var i, j := FirstWith(a, Case(v)), FirstWith(b, Case(v));
    if i < |a| then
      var o := ExecSections(fuel, a, i, st);
      o.Normal? ==> LeaveLoop(DefaultFirst(fuel, d, b, o.st)) == LeaveLoop(DefaultAfter(fuel, d, b, 0, o.st))
    else if j < |b| then
      var o := ExecSections(fuel, b, j, st);
      o.Normal? ==> LeaveLoop(ExecSeq(fuel, d, o.st)) == o
    else
      var o := ExecSeq(fuel, d, st);
      o.Normal? ==> LeaveLoop(ExecSections(fuel, b, 0, o.st)) == o
  }

  /** The sections as written, entered where v selects. */
  function WrittenOutcome(fuel: nat, a: seq<Section>, d: seq<Stmt>, b: seq<Section>, v: int, st: State): Outcome {
    var i, j := FirstWith(a, Case(v)), FirstWith(b, Case(v));
    if i < |a| then var o := ExecSections(fuel, a, i, st); if o.Normal? then DefaultFirst(fuel, d, b, o.st) else o
    else if j < |b| then ExecSections(fuel, b, j, st)
    else DefaultFirst(fuel, d, b, st)
  }

  /** The sections as the lowering takes them. */
  function MovedOutcome(fuel: nat, a: seq<Section>, d: seq<Stmt>, b: seq<Section>, v: int, st: State): Outcome {
    var i, j := FirstWith(a, Case(v)), FirstWith(b, Case(v));
    if i < |a| then var o := ExecSections(fuel, a, i, st); if o.Normal? then DefaultAfter(fuel, d, b, 0, o.st) else o
    else if j < |b| then DefaultAfter(fuel, d, b, j, st)
    else ExecSeq(fuel, d, st)
  }

  lemma WrittenRuns(fuel: nat, a: seq<Section>, d: seq<Stmt>, b: seq<Section>, v: int, st: State)
    requires AllCases(a) && AllCases(b)
    ensures var all := Written(a, d, b); ExecSections(fuel, all, Target(all, v), st) == WrittenOutcome(fuel, a, d, b, v, st)
  {
    hide ExecSections, ExecSeq, FirstWith, Target, DefaultFirst;
    var s := Section(Default, d);
    var i, j := FirstWith(a, Case(v)), FirstWith(b, Case(v));
    TargetsOfBoth(a, d, b, v);
    if i < |a| {
      SectionsConcat(fuel, a, [s] + b, i, st);
      var o := ExecSections(fuel, a, i, st);
      if o.Normal? {
        OneSectionThen(fuel, s, b, o.st);
      }
    } else if j < |b| {
      SectionsFrom(fuel, a, [s] + b, 1 + j, st);
      SectionsFrom(fuel, [s], b, j, st);
    } else {
      SectionsFrom(fuel, a, [s] + b, 0, st);
      OneSectionThen(fuel, s, b, st);
    }
  }

  lemma MovedRuns(fuel: nat, a: seq<Section>, d: seq<Stmt>, b: seq<Section>, v: int, st: State)
    requires AllCases(a) && AllCases(b)
    ensures var all := Moved(a, d, b); ExecSections(fuel, all, Target(all, v), st) == MovedOutcome(fuel, a, d, b, v, st)
  {
    hide ExecSections, ExecSeq, FirstWith, Target, DefaultAfter;
    var s := Section(Default, d);
    var i, j := FirstWith(a, Case(v)), FirstWith(b, Case(v));
    TargetsOfBoth(a, d, b, v);
    if i < |a| {
      SectionsConcat(fuel, a, b + [s], i, st);
      var o := ExecSections(fuel, a, i, st);
      if o.Normal? {
        ThenOneSection(fuel, b, s, 0, o.st);
      }
    } else if j < |b| {
      SectionsFrom(fuel, a, b + [s], j, st);
      ThenOneSection(fuel, b, s, j, st);
    } else {
      SectionsFrom(fuel, a, b + [s], |b|, st);
      SectionsFrom(fuel, b, [s], 0, st);
      OneSection(fuel, s, st);
    }
  }

  lemma OneSectionThen(fuel: nat, s: Section, b: seq<Section>, st: State)
    ensures ExecSections(fuel, [s] + b, 0, st) == DefaultFirst(fuel, s.body, b, st)
  {
    hide ExecSections, ExecSeq;
    SectionsConcat(fuel, [s], b, 0, st);
    OneSection(fuel, s, st);
  }

  lemma ThenOneSection(fuel: nat, b: seq<Section>, s: Section, j: nat, st: State)
    requires j <= |b|
    ensures ExecSections(fuel, b + [s], j, st) == DefaultAfter(fuel, s.body, b, j, st)
  {
    hide ExecSections, ExecSeq;
    SectionsConcat(fuel, b, [s], j, st);
    var o := ExecSections(fuel, b, j, st);
    if o.Normal? {
      OneSection(fuel, s, o.st);
    }
  }

  /** The exact condition for a default at any position, with fallthrough allowed everywhere: moving it
      behind the other sections makes no difference to the run. */
  lemma MovedDefaultExactly(fuel: nat, disc: Expr, a: seq<Section>, d: seq<Stmt>, b: seq<Section>, st: State)
    requires IsPlain(disc) && AllCases(a) && AllCases(b) && a + b != [] && AllReady(Written(a, d, b))
    ensures var sections := Written(a, d, b);
            ExecSeq(fuel, Lowered(disc, sections), st) == Exec(fuel, Switch(disc, sections), st)
            <==> MovingKeeps(fuel, a, d, b, Eval(disc, st).0, st)
  {
    hide Lowered, Settled, Cases, DropElses, ExecSeq, ExecSections, AllReady, FirstWith, Target, Eval, IsPlain, Written, Moved;
    MovedIsCollected(a, d, b);
    MovedKeepsBodies(a, d, b);
    CasesAreCollected(Written(a, d, b));
    ReadyChainRuns(fuel, disc, Written(a, d, b), st);
    PlainEval(disc, st, st);
    var v := Eval(disc, st).0;
    WrittenRuns(fuel, a, d, b, v, st);
    MovedRuns(fuel, a, d, b, v, st);
  }
}

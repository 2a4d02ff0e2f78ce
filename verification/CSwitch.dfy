/** Lowering a switch to an if-chain: each case's arm is its body merged with the arm it falls
    through into, with the breaks of the switch taken out. */
module CSwitch {
  import opened CLang
  import opened CHoist

  // ---------------------------------------------------------------- the rewriting

  predicate IsBreak(s: Stmt) {
    s.Break? || s.BreakCall?
  }

  /** The one statement of a block that holds one. */
  function Unwrap(s: Stmt): Stmt {
    if s.Block? && |s.body| == 1 then s.body[0] else s
  }

  /** `if (c) break;`, the break possibly in braces. */
  predicate GuardedBreak(s: Stmt) {
    s.If? && |s.thn| == 1 && IsBreak(Unwrap(s.thn[0]))
  }

  /** A case body merged with the arm it falls through into. */
  function Split(body: seq<Stmt>, rest: seq<Stmt>): seq<Stmt>
    decreases |body| + |rest|, |body|
  {
    if body == [] then rest
    else if IsBreak(body[0]) then []
    else if GuardedBreak(body[0]) then [If(body[0].cond, [], Split(body[1..] + rest, []))]
    else [body[0]] + Split(body[1..], rest)
  }

  /** The same by the source's scan for the first break. */
  method SplitMidBreaks(body: seq<Stmt>, rest: seq<Stmt>) returns (r: seq<Stmt>)
    ensures r == Split(body, rest)
    decreases |body| + |rest|
  {
    hide Split, IsBreak;
    for i := 0 to |body|
      invariant Split(body, rest) == body[..i] + Split(body[i..], rest)
    {
      var s := body[i];
      SplitAt(body, rest, i);
      if IsBreak(s) {
        return body[..i];
      }
      if GuardedBreak(s) {
        var els := SplitMidBreaks(body[i + 1..] + rest, []);
        return body[..i] + [If(s.cond, [], els)];
      }
      assert body[..i + 1] == body[..i] + [s];
    }
    SplitEmpty(body[|body|..], rest);
    return body + rest;
  }

  lemma SplitAt(body: seq<Stmt>, rest: seq<Stmt>, i: nat)
    requires i < |body|
    ensures Split(body[i..], rest)
            == if IsBreak(body[i]) then []
               else if GuardedBreak(body[i]) then [If(body[i].cond, [], Split(body[i + 1..] + rest, []))]
               else [body[i]] + Split(body[i + 1..], rest)
  {
  }

  lemma SplitEmpty(body: seq<Stmt>, rest: seq<Stmt>)
    requires body == []
    ensures Split(body, rest) == rest
  {
  }

  /** What the parser collects: the cases in order, and the default's body (the last one's; empty if
      there is none). */
  function Cases(sections: seq<Section>): (r: seq<Section>)
    ensures forall i :: 0 <= i < |r| ==> r[i].tag.Case?
  {
    if sections == [] then []
    else (if sections[0].tag.Case? then [sections[0]] else []) + Cases(sections[1..])
  }

  function DefaultBody(sections: seq<Section>): seq<Stmt> {
    if sections == [] then []
    else
      var last := sections[|sections| - 1];
      if last.tag.Default? then last.body else DefaultBody(sections[..|sections| - 1])
  }

  function Arms(cases: seq<Section>, def: seq<Stmt>): (r: seq<seq<Stmt>>)
    ensures |r| == |cases|
  {
    if cases == [] then []
    else
      var after := Arms(cases[1..], def);
      [Split(cases[0].body, if after == [] then def else after[0])] + after
  }

  function Chain(disc: Expr, cases: seq<Section>, arms: seq<seq<Stmt>>, def: seq<Stmt>): seq<Stmt>
    requires |arms| == |cases| && forall i :: 0 <= i < |cases| ==> cases[i].tag.Case?
  {
    if cases == [] then def
    else [If(Bin(Eq, disc, Num(cases[0].tag.n)), arms[0], Chain(disc, cases[1..], arms[1..], def))]
  }

  /** The lowered switch: nothing at all if it has no case. */
  function Lowered(disc: Expr, sections: seq<Section>): seq<Stmt> {
    var cases := Cases(sections);
    var def := Split(DefaultBody(sections), []);
    if cases == [] then [] else Chain(disc, cases, Arms(cases, def), def)
  }

  /** The parser's loop over the sections. */
  method CollectSections(sections: seq<Section>) returns (cases: seq<Section>, def: seq<Stmt>)
    ensures cases == Cases(sections) && def == DefaultBody(sections)
  {
    cases, def := [], [];
    for i := 0 to |sections|
      invariant cases == Cases(sections[..i]) && def == DefaultBody(sections[..i])
    {
      assert sections[..i + 1][..i] == sections[..i];
      CasesAppend(sections[..i], sections[i]);
      assert sections[..i + 1] == sections[..i] + [sections[i]];
      if sections[i].tag.Case? {
        cases := cases + [sections[i]];
      } else {
        def := sections[i].body;
      }
    }
    assert sections[..|sections|] == sections;
  }

  /** The arms, merged from the last case backwards. */
  method MergeArms(cases: seq<Section>, def: seq<Stmt>) returns (arms: seq<seq<Stmt>>)
    ensures arms == Arms(cases, def)
  {
    arms := [];
    var nextArm := def;
    var k := |cases|;
    while k > 0
      invariant 0 <= k <= |cases| && arms == Arms(cases[k..], def)
      invariant nextArm == if arms == [] then def else arms[0]
    {
      k := k - 1;
      nextArm := SplitMidBreaks(cases[k].body, nextArm);
      assert cases[k..][0] == cases[k] && cases[k..][1..] == cases[k + 1..];
      arms := [nextArm] + arms;
    }
  }

  /** The lowering of a whole switch; the dispatch chain, too, is built from the last case backwards. */
  method LowerSwitch(disc: Expr, sections: seq<Section>) returns (r: seq<Stmt>)
    ensures r == Lowered(disc, sections)
  {
    hide Arms, Split, Cases, DefaultBody;
    var cases, def := CollectSections(sections);
    def := SplitMidBreaks(def, []);
    var arms := MergeArms(cases, def);
    var elseB := def;
    var k := |cases|;
    while k > 0
      invariant 0 <= k <= |cases| && |arms| == |cases|
      invariant elseB == Chain(disc, cases[k..], arms[k..], def)
    {
      k := k - 1;
      assert cases[k..][0] == cases[k] && cases[k..][1..] == cases[k + 1..];
      assert arms[k..][0] == arms[k] && arms[k..][1..] == arms[k + 1..];
      elseB := [If(Bin(Eq, disc, Num(cases[k].tag.n)), arms[k], elseB)];
    }
    r := if cases == [] then [] else elseB;
  }

  lemma {:induction false} CasesAppend(sections: seq<Section>, s: Section)
    ensures Cases(sections + [s]) == Cases(sections) + if s.tag.Case? then [s] else []
    decreases |sections|
  {
    if sections == [] {
      assert [s][1..] == [];
    } else {
      assert (sections + [s])[1..] == sections[1..] + [s];
      CasesAppend(sections[1..], s);
    }
  }

  // ---------------------------------------------------------------- what the lowering implements

  /** A guarded break loses its own else. */
  function DropElse(body: seq<Stmt>): (r: seq<Stmt>)
    ensures |r| == |body|
  {
    if body == [] then []
    else [if GuardedBreak(body[0]) then If(body[0].cond, body[0].thn, []) else body[0]] + DropElse(body[1..])
  }

  function DropElses(sections: seq<Section>): (r: seq<Section>)
    ensures |r| == |sections|
    ensures forall i :: 0 <= i < |r| ==> r[i] == Section(sections[i].tag, DropElse(sections[i].body))
  {
    seq(|sections|, i requires 0 <= i < |sections| => Section(sections[i].tag, DropElse(sections[i].body)))
  }

  predicate HasDefault(sections: seq<Section>) {
    exists i :: 0 <= i < |sections| && sections[i].tag.Default?
  }

  /** The switch the chain implements: the sections with the default moved to the end, and guarded
      breaks without else. */
  function Settled(sections: seq<Section>): seq<Section> {
    DropElses(Cases(sections) + if HasDefault(sections) then [Section(Default, DefaultBody(sections))] else [])
  }

  /** No break of the switch is left at the top of an arm. */
  predicate TopFree(ss: seq<Stmt>) {
    forall i :: 0 <= i < |ss| ==> !IsBreak(ss[i]) && !GuardedBreak(ss[i])
  }

  /** An outcome followed by falling through into an arm. */
  function FallInto(fuel: nat, o: Outcome, arm: seq<Stmt>): Outcome {
    if o.Normal? then ExecSeq(fuel, arm, o.st) else o
  }

  lemma GuardedExec(fuel: nat, s: Stmt, els: seq<Stmt>, st: State)
    requires GuardedBreak(s)
    ensures var (v, s1) := Eval(s.cond, st);
            && Exec(fuel, If(s.cond, s.thn, []), st) == (if v != 0 then Broke(s1) else Normal(s1))
            && ExecSeq(fuel, [If(s.cond, [], els)], st) == (if v != 0 then Normal(s1) else ExecSeq(fuel, els, s1))
  {
    var (v, s1) := Eval(s.cond, st);
    ExecSingle(fuel, s.thn[0], s1);
    assert s.thn == [s.thn[0]];
    if s.thn[0].Block? {
      ExecSingle(fuel, Unwrap(s.thn[0]), s1);
      assert s.thn[0].body == [Unwrap(s.thn[0])];
    }
    ExecSingle(fuel, If(s.cond, [], els), st);
  }

  /** Splitting keeps the meaning of a body and what it falls into, up to who catches a break. */
  lemma {:induction false} SplitMeaning(fuel: nat, body: seq<Stmt>, rest: seq<Stmt>, st: State)
    requires TopFree(rest)
    ensures TopFree(Split(body, rest))
    ensures LeaveLoop(ExecSeq(fuel, Split(body, rest), st))
            == LeaveLoop(FallInto(fuel, ExecSeq(fuel, DropElse(body), st), rest))
    decreases |body| + |rest|, |body|
  {
    if body == [] {
    } else if IsBreak(body[0]) {
    } else if GuardedBreak(body[0]) {
      var s1 := Eval(body[0].cond, st).1;
      SplitMeaning(fuel, body[1..] + rest, [], s1);
      DropElseConcat(body[1..], rest);
      ExecSeqConcat(fuel, DropElse(body[1..]), rest, s1);
      GuardedExec(fuel, body[0], Split(body[1..] + rest, []), st);
    } else {
      var o := Exec(fuel, body[0], st);
      var s1 := if o.Normal? then o.st else st;
      SplitMeaning(fuel, body[1..], rest, s1);
    }
  }

  lemma {:induction false} DropElseConcat(body: seq<Stmt>, rest: seq<Stmt>)
    requires TopFree(rest)
    ensures DropElse(body + rest) == DropElse(body) + rest
    decreases |body| + |rest|
  {
    if body != [] {
      assert (body + rest)[1..] == body[1..] + rest;
      DropElseConcat(body[1..], rest);
    } else if rest != [] {
      assert body + rest == rest;
      DropElseConcat([], rest[1..]);
      assert [] + rest[1..] == rest[1..];
    }
  }

  /** The arm control reaches by jumping to the i-th of the collected sections. */
  function ArmAt(arms: seq<seq<Stmt>>, def: seq<Stmt>, i: nat): seq<Stmt> {
    if i < |arms| then arms[i] else def
  }

  lemma {:induction false} ArmMeaning(fuel: nat, cases: seq<Section>, tail: seq<Section>, def: seq<Stmt>, i: nat, st: State)
    requires i <= |cases| && (if tail == [] then def == [] else |tail| == 1 && def == Split(tail[0].body, []))
    ensures TopFree(ArmAt(Arms(cases, def), def, i))
    ensures LeaveLoop(ExecSections(fuel, DropElses(cases + tail), i, st))
            == LeaveLoop(ExecSeq(fuel, ArmAt(Arms(cases, def), def, i), st))
    decreases |cases| - i
  {
    var all := DropElses(cases + tail);
    if i == |cases| {
      if tail != [] {
        SplitMeaning(fuel, tail[0].body, [], st);
        var o := ExecSeq(fuel, all[i].body, st);
        if o.Normal? {
          assert ExecSections(fuel, all, i + 1, o.st) == o;
        }
      }
    } else {
      ArmIs(cases, def, i);
      var next := ArmAt(Arms(cases, def), def, i + 1);
      var o := ExecSeq(fuel, all[i].body, st);
      var s1 := if o.Normal? then o.st else st;
      ArmMeaning(fuel, cases, tail, def, i + 1, s1);
      SplitMeaning(fuel, cases[i].body, next, st);
    }
  }

  lemma {:induction false} ArmIs(cases: seq<Section>, def: seq<Stmt>, i: nat)
    requires i < |cases|
    ensures Arms(cases, def)[i] == Split(cases[i].body, ArmAt(Arms(cases, def), def, i + 1))
    decreases i
  {
    if i > 0 {
      ArmIs(cases[1..], def, i - 1);
    }
  }

  /** The chain runs the arm of the first matching case, else the default's. */
  lemma {:induction false} ChainMeaning(fuel: nat, disc: Expr, cases: seq<Section>, arms: seq<seq<Stmt>>,
                                        def: seq<Stmt>, st: State)
    requires |arms| == |cases| && forall i :: 0 <= i < |cases| ==> cases[i].tag.Case?
    requires IsPlain(disc)
    ensures ExecSeq(fuel, Chain(disc, cases, arms, def), st)
            == ExecSeq(fuel, ArmAt(arms, def, FirstWith(cases, Case(Eval(disc, st).0))), st)
    decreases |cases|
  {
    if cases != [] {
      PlainEval(disc, st, st);
      ChainMeaning(fuel, disc, cases[1..], arms[1..], def, st);
      ExecSingle(fuel, Chain(disc, cases, arms, def)[0], st);
      assert Eval(Num(cases[0].tag.n), st) == (cases[0].tag.n, st);
    }
  }

  lemma {:induction false} FirstWithConcat(a: seq<Section>, b: seq<Section>, tag: Label)
    ensures FirstWith(a + b, tag)
            == if FirstWith(a, tag) < |a| then FirstWith(a, tag) else |a| + FirstWith(b, tag)
    decreases |a|
  {
    if a == [] {
      assert a + b == b;
    } else {
      assert (a + b)[1..] == a[1..] + b;
      FirstWithConcat(a[1..], b, tag);
    }
  }

  lemma {:induction false} FirstWithTags(a: seq<Section>, b: seq<Section>, tag: Label)
    requires |a| == |b| && forall i :: 0 <= i < |a| ==> a[i].tag == b[i].tag
    ensures FirstWith(a, tag) == FirstWith(b, tag)
    decreases |a|
  {
    if a != [] {
      FirstWithTags(a[1..], b[1..], tag);
    }
  }

  /** What the lowering does to any switch with a case: it implements C's switch (section 6.8.4.2 of
      C11) over the settled sections, except that a break nested deeper than an `if (c) break;` is
      left to whatever loop encloses the switch. */
  lemma SwitchIsSettledSwitch(fuel: nat, disc: Expr, sections: seq<Section>, st: State)
    requires IsPlain(disc) && HasCase(sections)
    ensures LeaveLoop(ExecSeq(fuel, Lowered(disc, sections), st)) == Exec(fuel, Switch(disc, Settled(sections)), st)
  {
    hide Split, DropElse, ExecSeq, ExecSections, Chain, Arms, LeaveLoop;
    CasesAreCollected(sections);
    var cases := Cases(sections);
    var tail := if HasDefault(sections) then [Section(Default, DefaultBody(sections))] else [];
    var def := Split(DefaultBody(sections), []);
    NoDefaultBody(sections);
    PlainEval(disc, st, st);
    var v := Eval(disc, st).0;
    var i := FirstWith(cases, Case(v));
    ChainMeaning(fuel, disc, cases, Arms(cases, def), def, st);
    ArmMeaning(fuel, cases, tail, def, i, st);
    TargetOfSettled(cases, tail, v);
  }

  lemma NoDefaultBody(sections: seq<Section>)
    ensures !HasDefault(sections) ==> DefaultBody(sections) == [] && Split(DefaultBody(sections), []) == []
    decreases |sections|
  {
  }

  lemma TargetOfSettled(cases: seq<Section>, tail: seq<Section>, v: int)
    requires |tail| <= 1 && (forall s :: s in cases ==> s.tag.Case?) && forall s :: s in tail ==> s.tag.Default?
    ensures Target(DropElses(cases + tail), v) == FirstWith(cases, Case(v))
  {
    FirstWithTags(DropElses(cases + tail), cases + tail, Case(v));
    FirstWithTags(DropElses(cases + tail), cases + tail, Default);
    FirstWithConcat(cases, tail, Case(v));
    FirstWithConcat(cases, tail, Default);
    assert FirstWith(cases, Default) == |cases|;
  }

  // ---------------------------------------------------------------- when that is the switch written

  /** No break in s would leave it: those there are belong to a loop or switch inside. */
  predicate BreakFree(s: Stmt) {
    match s
    case Break | BreakCall => false
    case Block(body) => AllBreakFree(body)
    case If(_, thn, els) => AllBreakFree(thn) && AllBreakFree(els)
    case For(init, _, step, _) => AllBreakFree(init) && AllBreakFree(step)
    case _ => true
  }

  predicate AllBreakFree(ss: seq<Stmt>) {
    forall i :: 0 <= i < |ss| ==> BreakFree(ss[i])
  }

  lemma {:induction false} BreakFreeNeverBreaks(fuel: nat, s: Stmt, st: State)
    requires BreakFree(s)
    ensures !Exec(fuel, s, st).Broke?
    decreases fuel, s, 1
  {
    match s
    case Block(body) => AllBreakFreeNeverBreaks(fuel, body, st);
    case If(c, thn, els) =>
      AllBreakFreeNeverBreaks(fuel, thn, Eval(c, st).1);
      AllBreakFreeNeverBreaks(fuel, els, Eval(c, st).1);
    case While(c, body) =>
      if fuel > 0 {
        var o := ExecSeq(fuel, body, Eval(c, st).1);
        if o.Normal? || o.Continued? {
          BreakFreeNeverBreaks(fuel - 1, s, o.st);
        }
      }
    case For(init, _, _, _) =>
      AllBreakFreeNeverBreaks(fuel, init, st);
      var o := ExecSeq(fuel, init, st);
      if o.Normal? {
        ForNeverBreaks(fuel, s, o.st);
      }
    case _ =>
  }

  lemma {:induction false} AllBreakFreeNeverBreaks(fuel: nat, ss: seq<Stmt>, st: State)
    requires AllBreakFree(ss)
    ensures !ExecSeq(fuel, ss, st).Broke?
    decreases fuel, ss, 0
  {
    if ss != [] {
      BreakFreeNeverBreaks(fuel, ss[0], st);
      var o := Exec(fuel, ss[0], st);
      if o.Normal? {
        AllBreakFreeNeverBreaks(fuel, ss[1..], o.st);
      }
    }
  }

  lemma {:induction false} ForNeverBreaks(fuel: nat, s: Stmt, st: State)
    requires s.For? && BreakFree(s)
    ensures !ExecFor(fuel, s, st).Broke?
    decreases fuel, s, 0
  {
    if fuel > 0 {
      var o := ExecSeq(fuel, s.body, Eval(s.cond, st).1);
      if o.Normal? || o.Continued? {
        AllBreakFreeNeverBreaks(fuel, s.step, o.st);
        var p := ExecSeq(fuel, s.step, o.st);
        if p.Normal? {
          ForNeverBreaks(fuel - 1, s, p.st);
        }
      }
    }
  }

  /** A break of the switch, as a statement of its own or as the call the frontend makes of it. */
  predicate LeavesSwitch(s: Stmt) {
    s == Break || s == BreakCall
  }

  /** `if (c) break;`, the break bare or in braces, with or without an else. */
  predicate MayLeaveSwitch(s: Stmt) {
    s.If? && (s.thn == [Break] || s.thn == [BreakCall] || s.thn == [Block([Break])] || s.thn == [Block([BreakCall])])
  }

  /** The scan finds exactly these. */
  lemma BreaksAreFound(s: Stmt)
    ensures IsBreak(s) <==> LeavesSwitch(s)
    ensures GuardedBreak(s) <==> MayLeaveSwitch(s)
  {
    if s.If? && |s.thn| == 1 {
      assert s.thn == [s.thn[0]];
      if s.thn[0].Block? && |s.thn[0].body| == 1 {
        assert s.thn[0].body == [s.thn[0].body[0]];
      }
    }
  }

  predicate HasCase(sections: seq<Section>) {
    exists i :: 0 <= i < |sections| && sections[i].tag.Case?
  }

  lemma {:induction false} CasesAreCollected(sections: seq<Section>)
    ensures HasCase(sections) <==> Cases(sections) != []
    decreases |sections|
  {
    if sections != [] {
      CasesAreCollected(sections[1..]);
      if HasCase(sections[1..]) {
        var i :| 0 <= i < |sections[1..]| && sections[1..][i].tag.Case?;
        assert sections[i + 1].tag.Case?;
      }
      if HasCase(sections) {
        var i :| 0 <= i < |sections| && sections[i].tag.Case?;
        assert i > 0 ==> sections[1..][i - 1] == sections[i];
      }
    }
  }

  /** The bodies the lowering is made for: breaks of the switch only at the top of the body, bare or
      as `if (c) break;` without else. */
  predicate Ready(body: seq<Stmt>) {
    forall i :: 0 <= i < |body| ==>
      LeavesSwitch(body[i]) || (MayLeaveSwitch(body[i]) && body[i].els == []) || BreakFree(body[i])
  }

  predicate AllReady(sections: seq<Section>) {
    forall i :: 0 <= i < |sections| ==> Ready(sections[i].body)
  }

  predicate DefaultLast(sections: seq<Section>) {
    forall i :: 0 <= i < |sections| - 1 ==> sections[i].tag.Case?
  }

  lemma {:induction false} SplitIsBreakFree(body: seq<Stmt>, rest: seq<Stmt>)
    requires Ready(body) && AllBreakFree(rest)
    ensures AllBreakFree(Split(body, rest))
    decreases |body| + |rest|, |body|
  {
    if body != [] && !IsBreak(body[0]) {
      if GuardedBreak(body[0]) {
        SplitIsBreakFree(body[1..] + rest, []);
      } else {
        SplitIsBreakFree(body[1..], rest);
      }
    }
  }

  lemma {:induction false} ChainIsBreakFree(disc: Expr, cases: seq<Section>, def: seq<Stmt>)
    requires AllBreakFree(def) && forall i :: 0 <= i < |cases| ==> cases[i].tag.Case? && Ready(cases[i].body)
    ensures AllBreakFree(Chain(disc, cases, Arms(cases, def), def))
    ensures forall arm :: arm in Arms(cases, def) ==> AllBreakFree(arm)
    decreases |cases|
  {
    if cases != [] {
      ChainIsBreakFree(disc, cases[1..], def);
      var after := Arms(cases[1..], def);
      SplitIsBreakFree(cases[0].body, if after == [] then def else after[0]);
    }
  }

  lemma {:induction false} SettledIsItself(sections: seq<Section>)
    requires DefaultLast(sections) && AllReady(sections)
    ensures Settled(sections) == sections
  {
    hide DropElse, Ready;
    CollectedInOrder(sections);
    forall i | 0 <= i < |sections| ensures DropElse(sections[i].body) == sections[i].body {
      DropElseOfReady(sections[i].body);
    }
  }

  lemma {:induction false} CollectedInOrder(sections: seq<Section>)
    requires DefaultLast(sections)
    ensures Cases(sections) + (if HasDefault(sections) then [Section(Default, DefaultBody(sections))] else []) == sections
  {
    var n := |sections|;
    if n > 0 && sections[n - 1].tag.Default? {
      CasesOfCases(sections[..n - 1]);
      CasesAppend(sections[..n - 1], sections[n - 1]);
      assert sections == sections[..n - 1] + [sections[n - 1]];
      assert sections[n - 1] == Section(Default, DefaultBody(sections));
    } else {
      CasesOfCases(sections);
    }
  }

  lemma {:induction false} CasesOfCases(sections: seq<Section>)
    requires forall i :: 0 <= i < |sections| ==> sections[i].tag.Case?
    ensures Cases(sections) == sections
    decreases |sections|
  {
    if sections != [] {
      CasesOfCases(sections[1..]);
    }
  }

  lemma {:induction false} DropElseOfReady(body: seq<Stmt>)
    requires Ready(body)
    ensures DropElse(body) == body
    decreases |body|
  {
    if body != [] {
      DropElseOfReady(body[1..]);
      GuardedIsNotFree(body[0]);
    }
  }

  lemma GuardedIsNotFree(s: Stmt)
    ensures GuardedBreak(s) ==> !BreakFree(s)
  {
    if GuardedBreak(s) {
      assert !BreakFree(Unwrap(s.thn[0]));
      assert !BreakFree(s.thn[0]);
    }
  }

  /** The lowering of a switch keeps C's meaning: from every state, with any fuel, the chain ends in
      the same outcome and state as selecting a case and falling through until a break. */
  lemma SwitchLoweringKeepsMeaning(fuel: nat, disc: Expr, sections: seq<Section>, st: State)
    requires IsPlain(disc) && HasCase(sections) && DefaultLast(sections) && AllReady(sections)
    ensures ExecSeq(fuel, Lowered(disc, sections), st) == Exec(fuel, Switch(disc, sections), st)
    ensures AllBreakFree(Lowered(disc, sections))
  {
    SwitchIsSettledSwitch(fuel, disc, sections, st);
    SettledIsItself(sections);
    LoweredIsBreakFree(disc, sections);
    AllBreakFreeNeverBreaks(fuel, Lowered(disc, sections), st);
  }

  lemma {:induction false} LoweredIsBreakFree(disc: Expr, sections: seq<Section>)
    requires AllReady(sections)
    ensures AllBreakFree(Lowered(disc, sections))
  {
    forall s | s in Cases(sections) ensures Ready(s.body) {
      CasesAreSections(sections, s);
    }
    DefaultIsSection(sections);
    SplitIsBreakFree(DefaultBody(sections), []);
    ChainIsBreakFree(disc, Cases(sections), Split(DefaultBody(sections), []));
  }

  lemma {:induction false} CasesAreSections(sections: seq<Section>, s: Section)
    requires s in Cases(sections)
    ensures s in sections
    decreases |sections|
  {
    if s != sections[0] {
      CasesAreSections(sections[1..], s);
    }
  }

  lemma {:induction false} DefaultIsSection(sections: seq<Section>)
    ensures DefaultBody(sections) == [] || exists i :: 0 <= i < |sections| && sections[i].body == DefaultBody(sections)
    decreases |sections|
  {
    if sections != [] && !sections[|sections| - 1].tag.Default? {
      DefaultIsSection(sections[..|sections| - 1]);
    }
  }

  // ---------------------------------------------------------------- a default that is not last

  /** Control never runs off the end of the body. */
  predicate Ends(body: seq<Stmt>) {
    exists i :: 0 <= i < |body| && (LeavesSwitch(body[i]) || body[i].Continue? || body[i].Return?)
  }

  predicate OneDefault(sections: seq<Section>) {
    forall i, j :: 0 <= i < j < |sections| ==> sections[i].tag.Case? || sections[j].tag.Case?
  }

  lemma {:induction false} EndsNeverFallsOff(fuel: nat, body: seq<Stmt>, st: State)
    requires Ends(body)
    ensures !ExecSeq(fuel, body, st).Normal?
    decreases |body|
  {
    var i :| 0 <= i < |body| && (LeavesSwitch(body[i]) || body[i].Continue? || body[i].Return?);
    if i > 0 {
      assert body[1..][i - 1] == body[i];
      var o := Exec(fuel, body[0], st);
      if o.Normal? {
        EndsNeverFallsOff(fuel, body[1..], o.st);
      }
    }
  }

  /** Collecting the cases keeps which body a value selects. */
  lemma {:induction false} SameBodySelected(sections: seq<Section>, v: int)
    ensures var cases := Cases(sections);
            var i, k := FirstWith(sections, Case(v)), FirstWith(cases, Case(v));
            && (i < |sections| <==> k < |cases|)
            && (i < |sections| ==> sections[i] == cases[k])
    decreases |sections|
  {
    if sections != [] {
      SameBodySelected(sections[1..], v);
      var c := Cases(sections[1..]);
      if sections[0].tag.Case? {
        assert ([sections[0]] + c)[1..] == c;
      } else {
        assert [] + c == c;
      }
    }
  }

  lemma FirstWithNone(tag: Label)
    ensures FirstWith([], tag) == 0
  {
  }

  lemma FirstWithOne(s: Section)
    ensures FirstWith([s], Default) == if s.tag.Default? then 0 else 1
  {
    assert [s][1..] == [];
  }

  lemma {:induction false} DefaultIsTheOne(sections: seq<Section>)
    requires OneDefault(sections)
    ensures var i := FirstWith(sections, Default);
            && (i < |sections| <==> HasDefault(sections))
            && (i < |sections| ==> sections[i].body == DefaultBody(sections))
    decreases |sections|
  {
    hide FirstWith;
    if sections == [] {
      assert FirstWith(sections, Default) == 0 by { FirstWithNone(Default); }
    } else {
      var n := |sections| - 1;
      var front := sections[..n];
      DefaultIsTheOne(front);
      assert sections == front + [sections[n]];
      FirstWithConcat(front, [sections[n]], Default);
      FirstWithOne(sections[n]);
      if HasDefault(front) {
        var i :| 0 <= i < |front| && front[i].tag.Default?;
        assert sections[i] == front[i];
      }
    }
  }

  /** If no body falls through, the default may stand anywhere: the chain still means the switch. */
  lemma DefaultMayStandAnywhere(fuel: nat, disc: Expr, sections: seq<Section>, st: State)
    requires IsPlain(disc) && HasCase(sections) && OneDefault(sections)
    requires AllReady(sections) && forall i :: 0 <= i < |sections| ==> Ends(sections[i].body)
    ensures ExecSeq(fuel, Lowered(disc, sections), st) == Exec(fuel, Switch(disc, sections), st)
  {
    hide Ready, Ends, ExecSeq, Lowered, IsPlain, DropElse, AllBreakFree;
    SwitchIsSettledSwitch(fuel, disc, sections, st);
    LoweredIsBreakFree(disc, sections);
    AllBreakFreeNeverBreaks(fuel, Lowered(disc, sections), st);
    PlainEval(disc, st, st);
    var v := Eval(disc, st).0;
    var cases := Cases(sections);
    var tail := if HasDefault(sections) then [Section(Default, DefaultBody(sections))] else [];
    SameBodySelected(sections, v);
    DefaultIsTheOne(sections);
    TargetOfSettled(cases, tail, v);
    var i, k := Target(sections, v), Target(Settled(sections), v);
    assert i < |sections| <==> k < |cases + tail|;
    if i < |sections| {
      DropElseOfReady(sections[i].body);
      assert Settled(sections)[k].body == sections[i].body;
      EndsNeverFallsOff(fuel, sections[i].body, st);
    }
  }

  // ---------------------------------------------------------------- where the lowering departs from C

  const X := User("x")
  const EMPTY := State(map[], map[])

  lemma SplitOne(s: Stmt)
    requires !IsBreak(s) && !GuardedBreak(s)
    ensures Split([s], []) == [s]
  {
    SplitEmpty([s][1..], []);
    assert [s][1..] == [] && [s] + [] == [s];
  }

  lemma OneCase(c: Section, def: seq<Stmt>)
    requires c.tag.Case?
    ensures Cases([c]) == [c] && DefaultBody([c]) == [] && Arms([c], def) == [Split(c.body, def)]
  {
    assert [c][1..] == [] && [c][..0] == [] && Cases([]) == [] && DefaultBody([]) == [];
    assert Arms([], def) == [];
  }

  lemma ChainOne(disc: Expr, c: Section, arm: seq<Stmt>, def: seq<Stmt>)
    requires c.tag.Case?
    ensures Chain(disc, [c], [arm], def) == [If(Bin(Eq, disc, Num(c.tag.n)), arm, def)]
  {
    assert [c][1..] == [] && [arm][1..] == [];
    assert Chain(disc, [], [], def) == def;
  }

  /** What has no break of the switch in it stays in front of the split. */
  lemma {:induction false} SplitOver(a: seq<Stmt>, b: seq<Stmt>, rest: seq<Stmt>)
    requires TopFree(a)
    ensures Split(a + b, rest) == a + Split(b, rest)
    decreases |a|
  {
    if a == [] {
      assert a + b == b;
    } else {
      assert (a + b)[1..] == a[1..] + b;
      SplitOver(a[1..], b, rest);
    }
  }

  lemma BreakFreeIsTopFree(ss: seq<Stmt>)
    requires AllBreakFree(ss)
    ensures TopFree(ss)
  {
    forall i | 0 <= i < |ss| ensures !IsBreak(ss[i]) && !GuardedBreak(ss[i]) {
      GuardedIsNotFree(ss[i]);
    }
  }

  /** C's run of a one-case switch. */
  lemma OneCaseRun(fuel: nat, d: Expr, k: int, body: seq<Stmt>, st: State)
    ensures var (v, s1) := Eval(d, st);
            Exec(fuel, Switch(d, [Section(Case(k), body)]), st)
            == if v == k then LeaveLoop(ExecSeq(fuel, body, s1)) else Normal(s1)
  {
    hide ExecSeq, Eval;
    var sections := [Section(Case(k), body)];
    var v, s1 := Eval(d, st).0, Eval(d, st).1;
    assert sections[1..] == [] && FirstWith(sections, Default) == 1;
    assert FirstWith(sections, Case(v)) == if v == k then 0 else 1;
    var o := ExecSeq(fuel, body, s1);
    if o.Normal? {
      assert ExecSections(fuel, sections, 1, o.st) == o;
    }
  }

  /** `switch (1) { default: x = 1; case 1: }` leaves x alone; the chain falls from the last case into
      the default. */
  lemma FallsIntoEarlierDefault()
    ensures var sections := [Section(Default, [Assign(X, Num(1))]), Section(Case(1), [])];
            && Exec(0, Switch(Num(1), sections), EMPTY) == Normal(EMPTY)
            && ExecSeq(0, Lowered(Num(1), sections), EMPTY) == Normal(WriteVar(EMPTY, X, 1))
  {
    var put := Assign(X, Num(1));
    EarlierDefaultIsSkipped(put);
    EarlierDefaultChain(put);
    var chain := If(Bin(Eq, Num(1), Num(1)), [put], [put]);
    hide Lowered;
    ExecSingle(0, chain, EMPTY);
    ExecSingle(0, put, EMPTY);
    assert Eval(Num(1), EMPTY) == (1, EMPTY);
  }

  lemma EarlierDefaultIsSkipped(put: Stmt)
    ensures Exec(0, Switch(Num(1), [Section(Default, [put]), Section(Case(1), [])]), EMPTY) == Normal(EMPTY)
  {
    var sections := [Section(Default, [put]), Section(Case(1), [])];
    assert sections[1..] == [Section(Case(1), [])];
    assert Eval(Num(1), EMPTY) == (1, EMPTY);
    assert FirstWith(sections, Case(1)) == 1;
    assert ExecSections(0, sections, 2, EMPTY) == Normal(EMPTY);
    assert ExecSections(0, sections, 1, EMPTY) == Normal(EMPTY);
  }

  lemma EarlierDefaultChain(put: Stmt)
    requires put == Assign(X, Num(1))
    ensures Lowered(Num(1), [Section(Default, [put]), Section(Case(1), [])])
            == [If(Bin(Eq, Num(1), Num(1)), [put], [put])]
  {
    var sections := [Section(Default, [put]), Section(Case(1), [])];
    assert sections[1..] == [Section(Case(1), [])];
    assert Cases(sections[1..]) == [Section(Case(1), [])] by { assert sections[1..][1..] == []; }
    assert Cases(sections) == [Section(Case(1), [])];
    assert sections[..1] == [Section(Default, [put])];
    assert DefaultBody(sections) == [put];
    SplitOne(put);
    SplitEmpty([], [put]);
    OneCase(Section(Case(1), []), [put]);
    ChainOne(Num(1), Section(Case(1), []), [put], [put]);
  }

  lemma DefaultOnlyRun(fuel: nat, disc: Expr, body: seq<Stmt>, st: State)
    ensures Exec(fuel, Switch(disc, [Section(Default, body)]), st) == LeaveLoop(ExecSeq(fuel, body, Eval(disc, st).1))
  {
    hide ExecSeq, Eval;
    var sections := [Section(Default, body)];
    var v := Eval(disc, st).0;
    assert sections[1..] == [];
    assert FirstWith(sections, Case(v)) == 1 && FirstWith(sections, Default) == 0;
    var o := ExecSeq(fuel, body, Eval(disc, st).1);
    if o.Normal? {
      assert ExecSections(fuel, sections, 1, o.st) == o;
    }
  }

  lemma DefaultOnlyLowered(disc: Expr, body: seq<Stmt>)
    ensures Lowered(disc, [Section(Default, body)]) == []
  {
    assert [Section(Default, body)][1..] == [];
    assert Cases([Section(Default, body)]) == [] + Cases([]);
  }

  /** A switch with only a default is dropped, which is right if and only if the default, run after the
      discriminant, ends (normally or by a break) in the state the switch was entered in. */
  lemma DroppedDefaultExactly(fuel: nat, disc: Expr, body: seq<Stmt>, st: State)
    ensures var sections := [Section(Default, body)];
            ExecSeq(fuel, Lowered(disc, sections), st) == Exec(fuel, Switch(disc, sections), st)
            <==> LeaveLoop(ExecSeq(fuel, body, Eval(disc, st).1)) == Normal(st)
  {
    DefaultOnlyRun(fuel, disc, body, st);
    DefaultOnlyLowered(disc, body);
  }

  /** `switch (0) { default: x = 1; }` is such a switch: the assignment is lost. */
  lemma OnlyDefaultIsDropped()
    ensures var sections := [Section(Default, [Assign(X, Num(1))])];
            && Exec(0, Switch(Num(0), sections), EMPTY) == Normal(WriteVar(EMPTY, X, 1))
            && ExecSeq(0, Lowered(Num(0), sections), EMPTY) == Normal(EMPTY)
  {
    var put := Assign(X, Num(1));
    DefaultOnlyRun(0, Num(0), [put], EMPTY);
    DefaultOnlyLowered(Num(0), [put]);
    ExecSingle(0, put, EMPTY);
    assert Eval(Num(0), EMPTY) == (0, EMPTY) && Eval(Num(1), EMPTY) == (1, EMPTY);
  }

  /** `if (0) break; else x = 1;` at the top of a case loses its else. */
  lemma GuardElseIsLost()
    ensures var guarded := If(Num(0), [Break], [Assign(X, Num(1))]);
            && Split([guarded], []) == [If(Num(0), [], [])]
            && ExecSeq(0, [guarded], EMPTY) == Normal(WriteVar(EMPTY, X, 1))
            && ExecSeq(0, Split([guarded], []), EMPTY) == Normal(EMPTY)
  {
    var guarded := If(Num(0), [Break], [Assign(X, Num(1))]);
    assert Unwrap(Break) == Break && GuardedBreak(guarded);
    SplitEmpty([], []);
    assert [guarded][1..] + [] == [];
    assert Split([guarded], []) == [If(Num(0), [], [])];
    ExecSingle(0, guarded, EMPTY);
    ExecSingle(0, If(Num(0), [], []), EMPTY);
    ExecSingle(0, Assign(X, Num(1)), EMPTY);
  }

  /** `if (1) { x = 1; break; }` in a case: the break is left for the loop around the switch. */
  lemma DeepBreakEscapes()
    ensures var deep := If(Num(1), [Assign(X, Num(1)), Break], []);
            var sections := [Section(Case(0), [deep])];
            var done := WriteVar(EMPTY, X, 1);
            && Exec(0, Switch(Num(0), sections), EMPTY) == Normal(done)
            && ExecSeq(0, Lowered(Num(0), sections), EMPTY) == Broke(done)
  {
    var deep := If(Num(1), [Assign(X, Num(1)), Break], []);
    var sections := [Section(Case(0), [deep])];
    var done := WriteVar(EMPTY, X, 1);
    OneCase(sections[0], []);
    SplitOne(deep);
    SplitEmpty([], []);
    var chain := If(Bin(Eq, Num(0), Num(0)), [deep], []);
    ChainOne(Num(0), sections[0], [deep], []);
    assert Lowered(Num(0), sections) == [chain];
    assert ExecSeq(0, [deep], EMPTY) == Broke(done) by {
      assert [Assign(X, Num(1)), Break][1..] == [Break];
      ExecSingle(0, Break, done);
      assert Exec(0, Assign(X, Num(1)), EMPTY) == Normal(done);
      assert ExecSeq(0, [Assign(X, Num(1)), Break], EMPTY) == Broke(done);
      ExecSingle(0, deep, EMPTY);
    }
    ExecSingle(0, chain, EMPTY);
    assert Eval(Num(0), EMPTY) == (0, EMPTY);
    assert FirstWith(sections, Case(0)) == 0;
    assert ExecSections(0, sections, 0, EMPTY) == Broke(done);
  }
}

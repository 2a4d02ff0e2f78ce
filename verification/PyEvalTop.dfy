/** Texts without a known interval: over-closed ones, lists, and calls of functions the evaluator does not
    know. */
module PyEvalTop {
  import opened Int64
  import opened Intervals
  import opened Options
  import opened PyText
  import opened PyEval

  // ---------------------------------------------------------------- brackets closed too often

  lemma {:induction false} DepthShift(s: seq<Token>, d: nat)
    requires Depth(s, d).Some?
    ensures Depth(s, d + 1) == Some(Depth(s, d).value + 1)
  {
    if s != [] {
      DepthShift(s[1..], if s[0].Open? then d + 1 else if s[0].Close? then d - 1 else d);
    }
  }

  lemma {:induction false} DepthLowered(s: seq<Token>, d: nat)
    requires Depth(s, d).None?
    ensures Depth(s, 0).None?
    decreases d
  {
    if d > 0 {
      if Depth(s, d - 1).Some? {
        DepthShift(s, d - 1);
      } else {
        DepthLowered(s, d - 1);
      }
    }
  }

  /** Cutting an over-closed text anywhere leaves an over-closed part. */
  lemma OverClosedPart(l: seq<Token>, t: Token, r: seq<Token>)
    requires Depth(l + [t] + r, 0).None? && !t.Open? && !t.Close?
    ensures Depth(l, 0).None? || Depth(r, 0).None?
  {
    DepthConcat(l + [t], r, 0);
    DepthConcat(l, [t], 0);
    if Depth(l, 0).Some? {
      TokenDepth(t, Depth(l, 0).value);
      DepthLowered(r, Depth(l, 0).value);
    }
  }

  /** A text with a bracket closed that was never opened has no known interval. */
  lemma {:induction false} OverClosedIsTop(s: seq<Token>, env: Env, depth: nat)
    requires Depth(s, 0).None?
    ensures EvalText(s, env, depth) == Top
    decreases |s|, 2
  {
    if depth <= DEPTH_LIMIT {
      NotWrapped(s);
      var plus, minus, star := SplitAt(s, {'+'}), SplitAt(s, {'-'}), SplitAt(s, {'*', '%'});
      if plus.Some? {
        OverClosedSplit(s, plus.value, env, depth);
      } else if minus.Some? {
        OverClosedSplit(s, minus.value, env, depth);
      } else if star.Some? {
        OverClosedSplit(s, star.value, env, depth);
      } else if SplitAt(s, {'/'}).None? && s != [] {
        OverClosedAtom(s, env, depth);
      }
    }
  }

  lemma NotWrapped(s: seq<Token>)
    requires Depth(s, 0).None?
    ensures !Wrapped(s) && s != []
  {
    if Wrapped(s) {
      WrappedIsBalanced(s);
    }
  }

  lemma WrappedIsBalanced(s: seq<Token>)
    requires Wrapped(s)
    ensures Depth(s, 0) == Some(0)
  {
    var inner := s[1..|s| - 1];
    DepthShift(inner, 0);
    DepthBrackets(inner, 0);
    assert s == [Open] + inner + [Close];
  }

  lemma {:induction false} OverClosedSplit(s: seq<Token>, i: nat, env: Env, depth: nat)
    requires Depth(s, 0).None? && 0 < i < |s| && s[i].Op? && depth <= DEPTH_LIMIT
    ensures EvalAround(s, i, env, depth) == Top
    decreases |s|, 0
  {
    hide EvalText, Depth;
    var l, r := s[..i], s[i + 1..];
    assert s == l + [s[i]] + r;
    OverClosedPart(l, s[i], r);
    if Depth(l, 0).None? {
      OverClosedIsTop(l, env, depth + 1);
    } else {
      OverClosedIsTop(r, env, depth + 1);
    }
  }

  lemma LeafIsBalanced(s: seq<Token>)
    ensures ParseInt(s).Some? || (|s| == 1 && s[0].Id?) ==> Depth(s, 0) == Some(0)
  {
  }

  lemma {:induction false} OverClosedAtom(s: seq<Token>, env: Env, depth: nat)
    requires Depth(s, 0).None? && s != [] && depth <= DEPTH_LIMIT
    ensures EvalUnsplit(s, env, depth) == Top
    decreases |s|, 1
  {
    hide EvalText;
    LeafIsBalanced(s);
    if s[0] == Op('-') && |s| > 1 {
      OverClosedIsTop(s[1..], env, depth + 1);
    }
    if |s| >= 3 && s[|s| - 1].Close? && s[0].Id? && s[1].Open? {
      CallDepthKept(s);
      OverClosedCall(s, env, depth);
    }
  }

  lemma CallDepthKept(s: seq<Token>)
    requires |s| >= 3 && s[|s| - 1].Close? && s[0].Id? && s[1].Open?
    ensures Depth(s[2..|s| - 1], 0).Some? ==> Depth(s, 0).Some?
  {
    var inner := s[2..|s| - 1];
    if Depth(inner, 0).Some? {
      DepthShift(inner, 0);
      DepthConcat(inner, [Close], 1);
      assert s[1..][1..] == inner + [Close];
    }
  }

  lemma {:induction false} OverClosedCall(s: seq<Token>, env: Env, depth: nat)
    requires |s| >= 3 && s[|s| - 1].Close? && s[0].Id? && s[1].Open? && depth <= DEPTH_LIMIT
    requires Depth(s[2..|s| - 1], 0).None?
    ensures EvalCall(s, env, depth) == Top
    decreases |s|, 0
  {
    hide EvalText;
    var inner := s[2..|s| - 1];
    OverClosedIsTop(inner, env, depth + 1);
    var comma := CommaAt(inner, 0);
    if comma.Some? {
      var l, r := inner[..comma.value], inner[comma.value + 1..];
      assert inner == l + [Comma] + r;
      OverClosedPart(l, Comma, r);
      if Depth(l, 0).None? {
        OverClosedIsTop(l, env, depth + 1);
      } else {
        OverClosedIsTop(r, env, depth + 1);
      }
    }
  }

  // ---------------------------------------------------------------- lists

  /** A list of expressions has no known interval. */
  lemma {:induction false} CommaIsTop(s: seq<Token>, env: Env, depth: nat)
    requires Bracketed(s) && CommaAt(s, 0).Some?
    ensures EvalText(s, env, depth) == Top
    decreases |s|, 2
  {
    hide Scan, CommaAt, Unwind;
    if depth <= DEPTH_LIMIT {
      CommaIsNotWrapped(s);
      var plus, minus, star := SplitAt(s, {'+'}), SplitAt(s, {'-'}), SplitAt(s, {'*', '%'});
      if plus.Some? {
        CommaSplit(s, {'+'}, env, depth);
      } else if minus.Some? {
        CommaSplit(s, {'-'}, env, depth);
      } else if star.Some? {
        CommaSplit(s, {'*', '%'}, env, depth);
      } else if SplitAt(s, {'/'}).None? && s != [] {
        CommaUnsplit(s, env, depth);
      }
    }
  }

  /** Outside all brackets, the round ones are closed. */
  lemma CommaDepth(s: seq<Token>) returns (i: nat)
    requires Bracketed(s) && CommaAt(s, 0).Some?
    ensures CommaAt(s, 0) == Some(i) && i < |s| && s[i].Comma? && Depth(s[..i], 0) == Some(0)
  {
    i := CommaAt(s, 0).value;
    CommaStands(s, []);
    UnwindDepth(s[..i], [], 0);
  }

  lemma CommaIsNotWrapped(s: seq<Token>)
    requires Bracketed(s) && CommaAt(s, 0).Some?
    ensures !Wrapped(s)
  {
    var i := CommaDepth(s);
    if Wrapped(s) {
      assert s[..i][1..] == s[1..i] && s[1..|s| - 1] == s[1..i] + s[i..|s| - 1];
      DepthConcat(s[1..i], s[i..|s| - 1], 0);
      DepthShift(s[1..i], 0);
    }
  }

  lemma {:induction false} CommaSplit(s: seq<Token>, ops: set<char>, env: Env, depth: nat)
    requires Bracketed(s) && CommaAt(s, 0).Some? && SplitAt(s, ops).Some? && depth <= DEPTH_LIMIT
    ensures EvalAround(s, SplitAt(s, ops).value, env, depth) == Top
    decreases |s|, 0
  {
    hide EvalText, Scan, CommaAt, Unwind, Later;
    var i := SplitAt(s, ops).value;
    var l, t, r := s[..i], s[i], s[i + 1..];
    ScanStands(s, false, ops);
    assert s == l + ([t] + r);
    UnwindConcat(l, [t] + r, []);
    UnwindConcat([t], r, []);
    UnwindOne(t, []);
    CommaConcat(l, [t] + r, []);
    CommaStep(t, r, 0);
    LaterIsSome(1, CommaAt(r, 0));
    LaterIsSome(|l|, CommaAt([t] + r, 0));
    if CommaAt(l, 0).Some? {
      CommaIsTop(l, env, depth + 1);
    } else {
      CommaIsTop(r, env, depth + 1);
    }
  }

  lemma LaterIsSome(n: nat, r: Option<nat>)
    ensures Later(n, r).Some? <==> r.Some?
  {
  }

  lemma LeafHasNoComma(s: seq<Token>)
    ensures ParseInt(s).Some? || (|s| == 1 && s[0].Id?) ==> CommaAt(s, 0).None?
  {
  }

  lemma {:induction false} CommaUnsplit(s: seq<Token>, env: Env, depth: nat)
    requires Bracketed(s) && CommaAt(s, 0).Some? && s != [] && depth <= DEPTH_LIMIT
    ensures EvalUnsplit(s, env, depth) == Top
    decreases |s|, 1
  {
    hide EvalText;
    LeafHasNoComma(s);
    if s[0] == Op('-') && |s| > 1 {
      CommaIsTop(s[1..], env, depth + 1);
    } else if |s| >= 3 && s[|s| - 1].Close? && s[0].Id? && s[1].Open? {
      CommaInCall(s);
      OverClosedCall(s, env, depth);
    }
  }

  /** A list that begins with a call and ends with a bracket is no call. */
  lemma CommaInCall(s: seq<Token>)
    requires Bracketed(s) && CommaAt(s, 0).Some?
    requires |s| >= 3 && s[|s| - 1].Close? && s[0].Id? && s[1].Open?
    ensures Depth(s[2..|s| - 1], 0).None?
  {
    var i := CommaDepth(s);
    assert i > 1 && i < |s| - 1;
    hide CommaAt, Unwind;
    ClosedBefore(s, i);
  }

  /** The round bracket behind the name is closed before the i-th token. */
  lemma ClosedBefore(s: seq<Token>, i: nat)
    requires |s| >= 3 && s[0].Id? && s[1].Open? && 1 < i < |s| && Depth(s[..i], 0) == Some(0)
    ensures Depth(s[2..|s| - 1], 0).None?
  {
    var inner := s[2..i];
    assert s[..i] == [s[0], s[1]] + inner && s[2..|s| - 1] == inner + s[i..|s| - 1];
    assert ([s[0], s[1]] + inner)[1..] == [s[1]] + inner && ([s[1]] + inner)[1..] == inner;
    DepthConcat(inner, s[i..|s| - 1], 0);
    if Depth(inner, 0).Some? {
      DepthShift(inner, 0);
    }
  }

  // ---------------------------------------------------------------- calls of other functions

  /** Nothing in s closes the bracket under it, as its round brackets alone show. */
  lemma {:induction false} BottomIsKept(s: seq<Token>, st: seq<Token>)
    requires Unwind(s, [Open] + st).Some? && Depth(s, Rounds(st)).Some?
    ensures Unwind(s, st).Some? && Unwind(s, [Open] + st).value == [Open] + Unwind(s, st).value
    decreases |s|
  {
    if s != [] {
      var t := s[0];
      var st' := Next(t, [Open] + st).value;
      if Opens(t) {
        assert st' == [Open] + (st + [t]);
        assert (st + [t])[..|st|] == st;
        BottomIsKept(s[1..], st + [t]);
      } else if Closes(t) {
        if st != [] {
          assert st' == [Open] + st[..|st| - 1];
          BottomIsKept(s[1..], st[..|st| - 1]);
        }
      } else {
        BottomIsKept(s[1..], st);
      }
    }
  }

  lemma UnwindHead(t: Token, k: seq<Token>)
    requires t.Id?
    ensures Unwind([t, Open] + k, []) == Unwind(k, [Open])
  {
    var s := [t, Open] + k;
    assert s[1..] == [Open] + k && s[1..][1..] == k && [] + [Open] == [Open];
  }

  lemma ArgumentsAreBracketed(s: seq<Token>)
    requires |s| >= 3 && s[|s| - 1].Close? && s[0].Id? && s[1].Open? && Bracketed(s)
    ensures Depth(s[2..|s| - 1], 0).Some? ==> Bracketed(s[2..|s| - 1])
  {
    var inner := s[2..|s| - 1];
    if Depth(inner, 0).Some? {
      assert s == [s[0], s[1]] + (inner + [Close]);
      UnwindHead(s[0], inner + [Close]);
      UnwindConcat(inner, [Close], [Open]);
      UnwindOne(Close, Unwind(inner, [Open]).value);
      assert [Open] + [] == [Open];
      BottomIsKept(inner, []);
    }
  }

  /** An atom is unknown: nothing but a call of one of the four functions with its number of arguments has
      an interval. */
  lemma AtomIsTop(t: AtomText, env: Env, depth: nat)
    requires depth <= DEPTH_LIMIT
    ensures EvalUnsplit(t, env, depth) == Top
  {
    hide EvalText, Unwind, CommaAt;
    AtomEnds(t);
    if |t| >= 3 && t[|t| - 1].Close? && t[0].Id? && t[1].Open? {
      var args := t[2..|t| - 1];
      if Depth(args, 0).None? {
        OverClosedCall(t, env, depth);
      } else {
        ArgumentsAreBracketed(t);
        OtherCallIsTop(t, env, depth);
      }
    }
  }

  lemma OtherCallIsTop(t: seq<Token>, env: Env, depth: nat)
    requires |t| >= 3 && t[|t| - 1].Close? && t[0].Id? && t[1].Open? && depth <= DEPTH_LIMIT
    requires Bracketed(t[2..|t| - 1]) && !IsKnownCall(t)
    ensures EvalCall(t, env, depth) == Top
  {
    hide EvalText, Unwind, CommaAt;
    var args := t[2..|t| - 1];
    var comma := CommaAt(args, 0);
    if comma.Some? {
      CommaIsTop(args, env, depth + 1);
      RestIsBracketed(args);
      if CommaAt(args[comma.value + 1..], 0).Some? {
        CommaIsTop(args[comma.value + 1..], env, depth + 1);
      }
    } else {
      NothingIsTop(env, depth + 1);
    }
  }

  lemma NothingIsTop(env: Env, depth: nat)
    ensures EvalText([], env, depth) == Top
  {
  }

  lemma RestIsBracketed(s: seq<Token>)
    requires Bracketed(s) && CommaAt(s, 0).Some?
    ensures Bracketed(s[CommaAt(s, 0).value + 1..])
  {
    var i := CommaAt(s, 0).value;
    CommaStands(s, []);
    assert s == s[..i] + ([s[i]] + s[i + 1..]);
    UnwindConcat(s[..i], [s[i]] + s[i + 1..], []);
    UnwindConcat([s[i]], s[i + 1..], []);
    UnwindOne(s[i], []);
  }

  /** Whatever else stands there: a text without enclosing brackets and without an operator to split at, which
      begins with no minus sign and is no number, no name and no call of the four functions, is unknown. */
  lemma OtherTextIsTop(s: seq<Token>, env: Env, depth: nat)
    requires !Wrapped(s) && (forall ops :: ops in [{'+'}, {'-'}, {'*', '%'}, {'/'}] ==> SplitAt(s, ops).None?)
    requires |s| > 1 ==> s[0] != Op('-')
    requires (|s| == 1 ==> !s[0].Num? && !s[0].Id?) && (|s| == 2 ==> s[0] != Op('+') || !s[1].Num?)
    requires |s| > 2 ==> !(s[0].Id? && s[0].x in {"int", "abs", "min", "max"} && s[1].Open? && s[|s| - 1].Close?)
    ensures EvalText(s, env, depth) == Top
  {
    hide Scan;
    assert Strip(s) == s;
    if depth <= DEPTH_LIMIT && s != [] {
      assert forall ops :: ops in [{'+'}, {'-'}, {'*', '%'}, {'/'}] ==> SplitAt(s, ops).None?;
      assert SplitAt(s, {'+'}).None? && SplitAt(s, {'-'}).None? && SplitAt(s, {'*', '%'}).None? && SplitAt(s, {'/'}).None?;
      hide SplitAt, EvalText;
      OtherUnsplitIsTop(s, env, depth);
    }
  }

  lemma OtherUnsplitIsTop(s: seq<Token>, env: Env, depth: nat)
    requires depth <= DEPTH_LIMIT && s != [] && (|s| > 1 ==> s[0] != Op('-'))
    requires (|s| == 1 ==> !s[0].Num? && !s[0].Id?) && (|s| == 2 ==> s[0] != Op('+') || !s[1].Num?)
    requires |s| > 2 ==> !(s[0].Id? && s[0].x in {"int", "abs", "min", "max"} && s[1].Open? && s[|s| - 1].Close?)
    ensures EvalUnsplit(s, env, depth) == Top
  {
    hide EvalText;
  }

  function CallText(f: string, args: seq<Token>): seq<Token> {
    [Id(f), Open] + args + [Close]
  }

  lemma CallIsAtom(f: string, args: seq<Token>)
    requires Bracketed(args) && !IsKnownCall(CallText(f, args))
    ensures IsAtom(CallText(f, args))
  {
    var s := CallText(f, args);
    UnwindOver(args, [Open], []);
    assert [Open] + [] == [] + [Open];
    UnwindBrackets(args, []);
    UnwindCall(f, args, []);
    forall i | 0 <= i < |s| && Bracketed(s[..i]) ensures !s[i].Op? && !s[i].Comma? {
      if i >= 2 {
        InsideCall(f, args, i);
      }
    }
  }

  lemma InsideCall(f: string, args: seq<Token>, i: nat)
    requires Bracketed(args) && 2 <= i < |CallText(f, args)|
    ensures !Bracketed(CallText(f, args)[..i])
  {
    var w := args[..i - 2];
    assert CallText(f, args)[..i] == [Id(f), Open] + w && args == w + args[i - 2..];
    UnwindConcat(w, args[i - 2..], []);
    UnwindOver(w, [Open], []);
    UnwindHead(Id(f), w);
    assert [Open] + [] == [Open];
  }

  /** A call of any other function, with any arguments, or of one of the four with another number of them:
      its interval is unknown at every depth. */
  lemma UnknownCallIsTop(f: string, args: seq<Token>, env: Env, depth: nat)
    requires Bracketed(args) && !IsKnownCall(CallText(f, args))
    ensures EvalText(CallText(f, args), env, depth) == Top
  {
    hide EvalUnsplit, Scan;
    CallIsAtom(f, args);
    var s := CallText(f, args);
    if depth <= DEPTH_LIMIT {
      AtomIsTop(s, env, depth);
      AtomHasNoCut(s);
    }
  }

  lemma AtomHasNoCut(t: AtomText)
    ensures Strip(t) == t && SplitAt(t, {'+'}).None? && SplitAt(t, {'-'}).None?
    ensures SplitAt(t, {'*', '%'}).None? && SplitAt(t, {'/'}).None?
  {
    hide Scan;
    forall ops: set<char> ensures SplitAt(t, ops).None? {
      ScanOver([], Atom(t), false, ops, 0);
      assert [] + Text(Atom(t)) == t;
      ScanNothing(false, ops, 0);
    }
  }
}

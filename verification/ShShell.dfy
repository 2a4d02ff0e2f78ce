/** What the shell's own commands write, each stated for the command by its name and for a word by the
    characters it is made of. */
module ShShell {
  import opened ShText
  import opened ShBuiltin

  // ---------------------------------------------------------------- words

  predicate IsNameChar(c: char) { 'a' <= c <= 'z' || 'A' <= c <= 'Z' || '0' <= c <= '9' || c == '_' }

  /** A variable's name: letters, digits and underscores, no digit in front. */
  predicate IsName(v: string) {
    v != "" && !('0' <= v[0] <= '9') && forall i :: 0 <= i < |v| ==> IsNameChar(v[i])
  }

  /** The word is `v` or `v=value`. */
  predicate Gives(word: string, v: string) {
    IsName(v) && (word == v || v + "=" <= word)
  }

  /** How many of the words, those in lists included, give v. */
  function Given(ws: seq<Word>, v: string): nat
    decreases ws, 0
  {
    if ws == [] then 0 else GivenBy(ws[0], v) + Given(ws[1..], v)
  }

  function GivenBy(w: Word, v: string): nat
    decreases w, 1
  {
    match w
    case Text(s) => if Gives(s, v) then 1 else 0
    case List(ws) => Given(ws, v)
    case Computed => 0
  }

  /** v stands in the text as a word of its own. */
  predicate StandsAt(s: string, v: string, a: nat) {
    && a + |v| <= |s| && s[a..a + |v|] == v
    && (a > 0 ==> !IsNameChar(s[a - 1])) && (a + |v| < |s| ==> !IsNameChar(s[a + |v|]))
  }

  predicate StandsIn(s: string, v: string) {
    IsName(v) && exists a: nat :: a < |s| && StandsAt(s, v, a)
  }

  predicate StandsInOne(ws: seq<Word>, v: string) {
    exists i :: 0 <= i < |ws| && ws[i].Text? && StandsIn(ws[i].s, v)
  }

  /** Writing to x writes the variable v: x is v, or an element of the array v. */
  predicate Hits(x: string, v: string) {
    '[' !in v && (x == v || v + "[" <= x)
  }

  // ---------------------------------------------------------------- commands

  const DECLARATIONS := {"local", "declare", "readonly", "export", "typeset"}
  const STORES := {"read", "readarray", "mapfile", "unset"}
  const ANYTHING := {"eval", "source", "."}

  /** n is a number of writes to v that the command may make: a declaration writes a name once for each word
      that gives it; `read`, `readarray`, `mapfile` and `unset` write the names they are given; `let` the names
      in its texts; `eval`, `source` and `.` anything; `getopts` and `printf -v` their variable; and a command
      behind `command` or `builtin` what it writes itself. */
  predicate CommandWrites(cmd: string, ws: seq<Word>, v: string, n: nat)
    decreases |ws|
  {
    if cmd in {"command", "builtin"} then
      if ws != [] && ws[0].Text? then CommandWrites(ws[0].s, ws[1..], v, n) else n == 0
    else if cmd in DECLARATIONS then n == Given(ws, v)
    else if cmd in STORES then Given(ws, v) > 0 || n == 0
    else if cmd == "let" then StandsInOne(ws, v) || n == 0
    else if cmd in ANYTHING then true
    else if cmd == "getopts" then n <= (if OptionVariable(ws, v) then 1 else 0)
    else if cmd == "printf" then n <= (if PrintVariable(ws, v) then 1 else 0)
    else n == 0
  }

  /** `getopts options v`, which also sets OPTARG and OPTIND. */
  predicate OptionVariable(ws: seq<Word>, v: string) {
    v in {"OPTARG", "OPTIND"} || (|ws| > 1 && ws[1] == Text(v))
  }

  /** `printf -v v`. */
  predicate PrintVariable(ws: seq<Word>, v: string) {
    |ws| > 1 && ws[0] == Text("-v") && ws[1].Text? && Hits(ws[1].s, v)
  }

  // ---------------------------------------------------------------- agreement with what is collected

  lemma PlainIdentIsName(v: string)
    ensures IsPlainIdent(v) <==> IsName(v)
  {
    if v != "" {
      assert forall i :: 0 <= i < |v| ==> v[i] in v;
    }
  }

  lemma {:induction false} BeforeEqualsIsPrefix(s: string)
    ensures BeforeEquals(s) <= s && '=' !in BeforeEquals(s)
    ensures BeforeEquals(s) == s || BeforeEquals(s) + "=" <= s
  {
    if s != "" && s[0] != '=' {
      BeforeEqualsIsPrefix(s[1..]);
      assert s == [s[0]] + s[1..];
    }
  }

  lemma {:induction false} BeforeEqualsIs(v: string, s: string)
    requires '=' !in v && (s == v || v + "=" <= s)
    ensures BeforeEquals(s) == v
    decreases |v|
  {
    if v != "" {
      assert v[0] in v && s[0] == v[0];
      assert forall c :: c in v[1..] ==> c in v;
      BeforeEqualsIs(v[1..], s[1..]);
    }
  }

  /** What is collected from a word is the name it gives. */
  lemma NamedIsGiven(s: string, v: string)
    ensures NamedWord(Text(s)) == (if IsPlainIdent(BeforeEquals(s)) then [BeforeEquals(s)] else [])
    ensures Gives(s, v) <==> IsPlainIdent(BeforeEquals(s)) && BeforeEquals(s) == v
  {
    PlainIdentIsName(v);
    BeforeEqualsIsPrefix(s);
    if Gives(s, v) {
      assert '=' !in v;
      BeforeEqualsIs(v, s);
    }
  }

  lemma {:induction false} GivenIsCollected(ws: seq<Word>, v: string)
    ensures Given(ws, v) == multiset(NamedWords(ws))[v]
    decreases ws, 0
  {
    if ws != [] {
      GivenByIsCollected(ws[0], v);
      GivenIsCollected(ws[1..], v);
      assert multiset(NamedWord(ws[0]) + NamedWords(ws[1..])) == multiset(NamedWord(ws[0])) + multiset(NamedWords(ws[1..]));
    }
  }

  lemma {:induction false} GivenByIsCollected(w: Word, v: string)
    ensures GivenBy(w, v) == multiset(NamedWord(w))[v]
    decreases w, 1
  {
    match w
    case Text(s) => NamedIsGiven(s, v);
    case List(ws) => GivenIsCollected(ws, v);
    case Computed =>
  }

  lemma IdentsStandIn(s: string, v: string)
    ensures v in Idents(s) <==> StandsIn(s, v)
  {
    PlainIdentIsName(v);
    if v in Idents(s) {
      var a: nat, b: nat :| a < |s| && b <= |s| && IsWordAt(s, a, b) && s[a..b] == v;
      assert StandsAt(s, v, a);
    }
    if StandsIn(s, v) {
      var a: nat :| a < |s| && StandsAt(s, v, a);
      assert IsWordAt(s, a, a + |v|);
    }
  }

  lemma {:induction false} LetNamesStandIn(ws: seq<Word>, v: string)
    ensures v in LetNames(ws) <==> StandsInOne(ws, v)
    decreases |ws|
  {
    if ws != [] {
      LetNamesStandIn(ws[1..], v);
      if ws[0].Text? {
        IdentsStandIn(ws[0].s, v);
      }
      if StandsInOne(ws, v) {
        var i :| 0 <= i < |ws| && ws[i].Text? && StandsIn(ws[i].s, v);
        assert i > 0 ==> ws[1..][i - 1] == ws[i];
      }
      if StandsInOne(ws[1..], v) {
        var i :| 0 <= i < |ws[1..]| && ws[1..][i].Text? && StandsIn(ws[1..][i].s, v);
        assert ws[i + 1] == ws[1..][i];
      }
    }
  }

  /** A target's base is the variable it hits. */
  lemma {:induction false} BaseIsHit(x: string, v: string)
    ensures Base(x) == v <==> Hits(x, v)
    ensures '[' !in x ==> (Hits(x, v) <==> x == v)
    decreases |x|
  {
    BaseIsPrefix(x);
    if Hits(x, v) {
      BaseIs(v, x);
      if x != v {
        assert x[|v|] == '[';
      }
    }
  }

  lemma {:induction false} BaseIsPrefix(x: string)
    ensures Base(x) <= x && '[' !in Base(x) && (Base(x) == x || Base(x) + "[" <= x)
  {
    if x != "" && x[0] != '[' {
      BaseIsPrefix(x[1..]);
      assert x == [x[0]] + x[1..];
    }
  }

  lemma {:induction false} BaseIs(v: string, x: string)
    requires Hits(x, v)
    ensures Base(x) == v
    decreases |v|
  {
    if v != "" {
      assert v[0] in v && x[0] == v[0];
      assert forall c :: c in v[1..] ==> c in v;
      BaseIs(v[1..], x[1..]);
    }
  }

  // ---------------------------------------------------------------- agreement of the classification

  /** The analysis looks at a command exactly as the shell does, save that it sees nothing in `getopts`,
      `printf -v` and behind a prefix: what is declared, what may be stored, and what may be anything. */
  lemma KindsAreRight(cmd: string)
    ensures KindOf(cmd).Declares? <==> cmd in DECLARATIONS
    ensures KindOf(cmd).Stores? <==> cmd in STORES
    ensures KindOf(cmd).Lets? <==> cmd == "let"
    ensures KindOf(cmd).Dynamic? <==> cmd in ANYTHING
  {
  }
}

/** Builtin commands as writers of variables: the names their argument words spell. */
module ShBuiltin {
  import opened ShText

  /** An argument word: literal text, a nested list of words, or something computed at run time. */
  datatype Word = Text(s: string) | List(ws: seq<Word>) | Computed

  datatype Kind =
    | Declares   // writes the names its words begin with
    | Stores     // lets the run time write them
    | Lets       // evaluates its words as arithmetic
    | Dynamic    // runs text unknown here
    | Harmless   // everything else

  function KindOf(cmd: string): Kind {
    if cmd in {"eval", "source", "."} then Dynamic
    else if cmd in {"read", "readarray", "mapfile", "unset"} then Stores
    else if cmd == "let" then Lets
    else if cmd in {"local", "declare", "readonly", "export", "typeset"} then Declares
    else Harmless
  }

  // ---------------------------------------------------------------- identifiers

  predicate IsIdentStart(c: char) { 'a' <= c <= 'z' || 'A' <= c <= 'Z' || c == '_' }

  predicate IsIdentChar(c: char) { IsIdentStart(c) || IsDigit(c) }

  predicate IsPlainIdent(s: string) {
    s != "" && IsIdentStart(s[0]) && forall c :: c in s ==> IsIdentChar(c)
  }

  /** The part of a word before its first `=`. */
  function BeforeEquals(s: string): string {
    if s == "" || s[0] == '=' then "" else [s[0]] + BeforeEquals(s[1..])
  }

  /** The names that words of the form `name` or `name=value` give, in order and with repetitions. */
  function NamedWords(ws: seq<Word>): seq<string>
    decreases ws, 0
  {
    if ws == [] then [] else NamedWord(ws[0]) + NamedWords(ws[1..])
  }

  function NamedWord(w: Word): seq<string>
    decreases w, 1
  {
    match w
    case Text(s) => if IsPlainIdent(BeforeEquals(s)) then [BeforeEquals(s)] else []
    case List(ws) => NamedWords(ws)
    case Computed => []
  }

  /** The array a name like `arr[1]` belongs to. */
  function Base(x: string): string {
    if x == [] || x[0] == '[' then [] else [x[0]] + Base(x[1..])
  }

  function Elements(xs: seq<string>): set<string> { set x | x in xs }

  /** The same by the source's recursion, which fills a set. */
  method BuiltinNames(ws: seq<Word>, into: set<string>) returns (names: set<string>)
    ensures names == into + Elements(NamedWords(ws))
    decreases ws
  {
    names := into;
    for i := 0 to |ws|
      invariant names + Elements(NamedWords(ws[i..])) == into + Elements(NamedWords(ws))
    {
      assert ws[i..][0] == ws[i] && ws[i..][1..] == ws[i + 1..];
      assert Elements(NamedWords(ws[i..])) == Elements(NamedWord(ws[i])) + Elements(NamedWords(ws[i + 1..]));
      match ws[i] {
        case List(inner) => names := BuiltinNames(inner, names);
        case Text(s) =>
          if IsPlainIdent(BeforeEquals(s)) {
            names := names + {BeforeEquals(s)};
          }
        case Computed =>
      }
    }
  }

  /** An identifier stands at a..b in s, with none of its characters left out. */
  predicate IsWordAt(s: string, a: nat, b: nat) {
    && a < b <= |s| && IsPlainIdent(s[a..b])
    && (a == 0 || !IsIdentChar(s[a - 1])) && (b == |s| || !IsIdentChar(s[b]))
  }

  /** Every identifier in a text. */
  function Idents(s: string): set<string> {
    set a: nat, b: nat | a < |s| && b <= |s| && IsWordAt(s, a, b) :: s[a..b]
  }

  /** The same by the source's scan. */
  method MarkAllIdents(s: string, into: set<string>) returns (names: set<string>)
    ensures names == into + Idents(s)
  {
    names := into;
    var i := 0;
    while i < |s|
      invariant 0 <= i <= |s|
      invariant names == into + set a: nat, b: nat | a < i && b <= |s| && IsWordAt(s, a, b) :: s[a..b]
    {
      if IsIdentStart(s[i]) && (i == 0 || !IsIdentChar(s[i - 1])) {
        var start := i;
        while i < |s| && IsIdentChar(s[i])
          invariant start <= i <= |s|
          invariant forall k :: start <= k < i ==> IsIdentChar(s[k])
          invariant i == start ==> IsIdentStart(s[start])
        {
          i := i + 1;
        }
        WordsUpTo(s, start, i);
        names := names + {s[start..i]};
      } else {
        assert forall b: nat :: b <= |s| ==> !IsWordAt(s, i, b);
        i := i + 1;
      }
    }
  }

  /** The only identifier that begins in a maximal run of identifier characters is the run itself. */
  lemma WordsUpTo(s: string, start: nat, end: nat)
    requires start < end <= |s| && IsIdentStart(s[start]) && (start == 0 || !IsIdentChar(s[start - 1]))
    requires (forall k :: start <= k < end ==> IsIdentChar(s[k])) && (end == |s| || !IsIdentChar(s[end]))
    ensures forall a: nat, b: nat :: start <= a < end && IsWordAt(s, a, b) <==> a == start && b == end
  {
    assert IsWordAt(s, start, end);
  }

  /** The identifiers of the literal words of a `let`. */
  function LetNames(ws: seq<Word>): set<string> {
    if ws == [] then {} else (if ws[0].Text? then Idents(ws[0].s) else {}) + LetNames(ws[1..])
  }

  /** The same by the source's loop. */
  method LetWords(ws: seq<Word>) returns (names: set<string>)
    ensures names == LetNames(ws)
  {
    names := {};
    for i := 0 to |ws|
      invariant names + LetNames(ws[i..]) == LetNames(ws)
    {
      assert ws[i..][0] == ws[i] && ws[i..][1..] == ws[i + 1..];
      if ws[i].Text? {
        names := MarkAllIdents(ws[i].s, names);
      }
    }
    assert ws[|ws|..] == [] && LetNames(ws[|ws|..]) == {};
  }
}

/** Shell values: texts, the decimal text of an integer, and the texts that read as one. */
module ShText {
  import opened Int64
  import opened Options

  predicate IsDigit(c: char) { '0' <= c <= '9' }

  predicate AllDigits(s: string) { forall c :: c in s ==> IsDigit(c) }

  function DigitChar(d: nat): char
    requires d < 10
  {
    '0' + d as char
  }

  function Digits(n: nat): string {
    if n < 10 then [DigitChar(n)] else Digits(n / 10) + [DigitChar(n % 10)]
  }

  /** The decimal text of n, as strconv.FormatInt writes it. */
  function Decimal(n: int): string {
    if n < 0 then "-" + Digits(-n) else Digits(n)
  }

  function DigitsValue(s: string): nat
    requires AllDigits(s)
  {
    if s == [] then 0
    else
      assert s[|s| - 1] in s;
      DigitsValue(s[..|s| - 1]) * 10 + (s[|s| - 1] as int - '0' as int)
  }

  /** strconv.ParseInt(s, 10, 64): an optional sign, at least one digit, within int64. */
  function ParseInt(s: string): Option<int> {
    var digits := if s != [] && (s[0] == '-' || s[0] == '+') then s[1..] else s;
    if digits == [] || !AllDigits(digits) then None
    else
      var v: int := DigitsValue(digits);
      var n := if s[0] == '-' then -v else v;
      if Fits(n) then Some(n) else None
  }

  /** Unicode's white space. */
  predicate IsSpace(c: char) {
    || c in {' ', '\t', '\n', '\r', '\U{0b}', '\U{0c}', '\U{85}', '\U{a0}'}
    || c in {'\U{1680}', '\U{2028}', '\U{2029}', '\U{202f}', '\U{205f}', '\U{3000}'}
    || '\U{2000}' <= c <= '\U{200a}'
  }

  /** strings.TrimSpace. */
  function TrimLeft(s: string): (t: string)
    ensures t == [] || !IsSpace(t[0])
  {
    if s != [] && IsSpace(s[0]) then TrimLeft(s[1..]) else s
  }

  function TrimRight(s: string): (t: string)
    ensures t <= s && (t == [] || !IsSpace(t[|t| - 1]))
  {
    if s != [] && IsSpace(s[|s| - 1]) then TrimRight(s[..|s| - 1]) else s
  }

  function Trim(s: string): string { TrimRight(TrimLeft(s)) }

  predicate IsInteger(s: string) { ParseInt(Trim(s)).Some? }

  lemma {:induction false} DigitsAreDigits(n: nat)
    ensures Digits(n) != [] && AllDigits(Digits(n)) && DigitsValue(Digits(n)) == n
  {
    if n >= 10 {
      DigitsAreDigits(n / 10);
      var s := Digits(n);
      assert s[..|s| - 1] == Digits(n / 10);
    }
  }

  /** Writing an int64 and reading it back gives the same number. */
  lemma DecimalRoundTrip(n: int)
    requires Fits(n)
    ensures ParseInt(Decimal(n)) == Some(n)
    ensures Trim(Decimal(n)) == Decimal(n) && IsInteger(Decimal(n))
  {
    var m := if n < 0 then -n else n;
    DigitsAreDigits(m);
    SignedDigits(Digits(m), n < 0);
    UnspacedIsTrimmed(Decimal(n));
  }

  /** It is the shortest text of n: no plus sign, a minus sign for negative numbers only, no leading zero. */
  lemma DecimalIsShortest(n: int)
    ensures Decimal(n)[0] == '-' <==> n < 0
    ensures forall i :: (if n < 0 then 1 else 0) <= i < |Decimal(n)| ==> IsDigit(Decimal(n)[i])
    ensures n != 0 ==> |Decimal(n)| > (if n < 0 then 1 else 0) && Decimal(n)[if n < 0 then 1 else 0] != '0'
    ensures n == 0 ==> Decimal(n) == "0"
  {
    var m := if n < 0 then -n else n;
    DigitsAreDigits(m);
    NoLeadingZero(m);
    assert forall i :: 0 <= i < |Digits(m)| ==> Digits(m)[i] in Digits(m);
  }

  lemma {:induction false} NoLeadingZero(n: nat)
    ensures n > 0 ==> Digits(n)[0] != '0'
    ensures n == 0 ==> Digits(n) == "0"
  {
    if n >= 10 {
      NoLeadingZero(n / 10);
      DigitsAreDigits(n / 10);
    }
  }

  /** Digits, with or without a minus sign, are read back and have no space at either end. */
  lemma SignedDigits(d: string, negative: bool)
    requires d != [] && AllDigits(d)
    ensures var s := if negative then "-" + d else d;
            var v: int := DigitsValue(d);
            var n := if negative then -v else v;
            && !IsSpace(s[0]) && !IsSpace(s[|s| - 1])
            && ParseInt(s) == if Fits(n) then Some(n) else None
  {
    hide DigitsValue;
    assert d[0] in d && d[|d| - 1] in d;
    assert ("-" + d)[1..] == d;
  }

  lemma UnspacedIsTrimmed(s: string)
    requires s != [] && !IsSpace(s[0]) && !IsSpace(s[|s| - 1])
    ensures Trim(s) == s
  {
  }

  // ---------------------------------------------------------------- what reads as an integer

  predicate IsNumeral(s: string) {
    s != [] && forall i :: 0 <= i < |s| ==> s[i] in "0123456789"
  }

  /** The value of a numeral, digit by digit from the left. */
  function Places(s: string): int
    requires forall i :: 0 <= i < |s| ==> s[i] in "0123456789"
  {
    if s == [] then 0 else (s[0] as int - 48) * Pow10(|s| - 1) + Places(s[1..])
  }

  /** s is n's numeral, with an optional sign, and n is an int64. */
  predicate Spells(s: string, n: int) {
    && -0x8000_0000_0000_0000 <= n < 0x8000_0000_0000_0000
    && (|| (IsNumeral(s) && n == Places(s))
        || (s != [] && s[0] == '+' && IsNumeral(s[1..]) && n == Places(s[1..]))
        || (s != [] && s[0] == '-' && IsNumeral(s[1..]) && n == -Places(s[1..])))
  }

  lemma NumeralIsDigits(s: string)
    ensures IsNumeral(s) <==> s != [] && AllDigits(s)
  {
    assert forall c: char :: c in "0123456789" <==> IsDigit(c) by {
      forall c: char ensures c in "0123456789" <==> IsDigit(c) {
        if IsDigit(c) {
          assert c == "0123456789"[c as int - 48];
        }
      }
    }
    if IsNumeral(s) {
      forall c | c in s ensures IsDigit(c) {
        var i :| 0 <= i < |s| && s[i] == c;
      }
    }
  }

  lemma {:induction false} PlacesOfLast(s: string, c: char)
    requires (forall i :: 0 <= i < |s| ==> s[i] in "0123456789") && c in "0123456789"
    ensures Places(s + [c]) == Places(s) * 10 + (c as int - 48)
    decreases |s|
  {
    if s == [] {
      assert [c][1..] == [];
    } else {
      assert (s + [c])[1..] == s[1..] + [c];
      PlacesOfLast(s[1..], c);
      TenTimes(s[0] as int - 48, Pow10(|s| - 1));
    }
  }

  lemma TenTimes(d: int, p: int)
    ensures d * (10 * p) == d * p * 10
  {
  }

  lemma {:induction false} PlacesIsValue(s: string)
    requires AllDigits(s)
    ensures (forall i :: 0 <= i < |s| ==> s[i] in "0123456789") && Places(s) == DigitsValue(s)
    decreases |s|
  {
    if s != [] {
      var front, c := s[..|s| - 1], s[|s| - 1];
      NumeralIsDigits(s);
      PlacesIsValue(front);
      PlacesOfLast(front, c);
      assert s == front + [c];
    }
  }

  /** ParseInt reads the numerals of int64 numbers, signed or not, and nothing else. */
  lemma ParseIntExactly(s: string, n: int)
    ensures ParseInt(s) == Some(n) <==> Spells(s, n)
  {
    if s != [] && (s[0] == '-' || s[0] == '+') {
      NumeralValue(s[1..]);
      SignIsNoDigit(s);
      SignedExactly(s, n);
    } else {
      NumeralValue(s);
      hide IsNumeral, AllDigits, Places, DigitsValue;
    }
  }

  lemma SignedExactly(s: string, n: int)
    requires s != [] && (s[0] == '-' || s[0] == '+') && !IsNumeral(s)
    requires IsNumeral(s[1..]) <==> s[1..] != [] && AllDigits(s[1..])
    requires IsNumeral(s[1..]) ==> Places(s[1..]) == DigitsValue(s[1..])
    ensures ParseInt(s) == Some(n) <==> Spells(s, n)
  {
    hide IsNumeral, AllDigits, Places, DigitsValue;
  }

  lemma NumeralValue(s: string)
    ensures IsNumeral(s) <==> s != [] && AllDigits(s)
    ensures IsNumeral(s) ==> Places(s) == DigitsValue(s)
  {
    NumeralIsDigits(s);
    if AllDigits(s) {
      PlacesIsValue(s);
    }
  }

  lemma SignIsNoDigit(s: string)
    requires s != []
    ensures s[0] == '-' || s[0] == '+' ==> !IsNumeral(s)
  {
    assert '-' !in "0123456789" && '+' !in "0123456789";
  }

  /** The code points with the White_Space property. */
  predicate IsWhite(c: char) {
    var n := c as int;
    || 9 <= n <= 13 || n == 32 || n == 0x85 || n == 0xA0 || n == 0x1680 || 0x2000 <= n <= 0x200A
    || 0x2028 <= n <= 0x2029 || n == 0x202F || n == 0x205F || n == 0x3000
  }

  /** Blank: nothing but white space. */
  predicate Blank(s: string) { forall i :: 0 <= i < |s| ==> IsWhite(s[i]) }

  lemma {:induction false} TrimLeftCuts(s: string) returns (i: nat)
    ensures i <= |s| && TrimLeft(s) == s[i..] && Blank(s[..i])
    decreases |s|
  {
    i := 0;
    if s != [] && IsSpace(s[0]) {
      var j := TrimLeftCuts(s[1..]);
      i := j + 1;
      assert s[i..] == s[1..][j..] && s[..i] == [s[0]] + s[1..][..j];
    }
  }

  lemma {:induction false} TrimRightCuts(s: string)
    ensures Blank(s[|TrimRight(s)|..])
    decreases |s|
  {
    if s != [] && IsSpace(s[|s| - 1]) {
      var front, k := s[..|s| - 1], |TrimRight(s)|;
      TrimRightCuts(front);
      assert s[k..] == front[k..] + [s[|s| - 1]];
    }
  }

  lemma {:induction false} TrimLeftDrops(pre: string, s: string)
    requires Blank(pre) && s != [] && !IsSpace(s[0])
    ensures TrimLeft(pre + s) == s
    decreases |pre|
  {
    if pre == [] {
      assert pre + s == s;
    } else {
      assert (pre + s)[0] == pre[0] && (pre + s)[1..] == pre[1..] + s;
      TrimLeftDrops(pre[1..], s);
    }
  }

  lemma {:induction false} TrimRightDrops(s: string, post: string)
    requires Blank(post) && s != [] && !IsSpace(s[|s| - 1])
    ensures TrimRight(s + post) == s
    decreases |post|
  {
    if post == [] {
      assert s + post == s;
    } else {
      var all := s + post;
      assert all[|all| - 1] == post[|post| - 1] && all[..|all| - 1] == s + post[..|post| - 1];
      TrimRightDrops(s, post[..|post| - 1]);
    }
  }

  /** s is blank text, then n's numeral, then blank text. */
  ghost predicate HoldsNumber(s: string, n: int) {
    exists i, j :: NumberAt(s, n, i, j)
  }

  predicate NumberAt(s: string, n: int, i: nat, j: nat) {
    i <= j <= |s| && Blank(s[..i]) && Spells(s[i..j], n) && Blank(s[j..])
  }

  /** A text reads as an integer exactly when it is the numeral of one between blanks. */
  lemma IntegerExactly(s: string)
    ensures IsInteger(s) <==> exists n :: HoldsNumber(s, n)
  {
    hide HoldsNumber, IsInteger;
    if IsInteger(s) {
      var n := IntegerHoldsNumber(s);
    }
    if exists n :: HoldsNumber(s, n) {
      var n :| HoldsNumber(s, n);
      NumberIsInteger(s, n);
    }
  }

  lemma IntegerHoldsNumber(s: string) returns (n: int)
    requires IsInteger(s)
    ensures HoldsNumber(s, n)
  {
    hide Spells, ParseInt, Blank;
    n := ParseInt(Trim(s)).value;
    ParseIntExactly(Trim(s), n);
    var i := TrimLeftCuts(s);
    TrimRightCuts(s[i..]);
    var j := i + |Trim(s)|;
    assert s[i..j] == Trim(s) && s[j..] == s[i..][|Trim(s)|..];
    assert NumberAt(s, n, i, j);
  }

  lemma NumberIsInteger(s: string, n: int)
    requires HoldsNumber(s, n)
    ensures IsInteger(s)
  {
    hide Spells, ParseInt, Blank, TrimLeft, TrimRight;
    var i: nat, j: nat :| NumberAt(s, n, i, j);
    SpelledEnds(s[i..j], n);
    assert s == s[..i] + (s[i..j] + s[j..]);
    TrimLeftDrops(s[..i], s[i..j] + s[j..]);
    TrimRightDrops(s[i..j], s[j..]);
    ParseIntExactly(s[i..j], n);
  }

  lemma SpelledEnds(s: string, n: int)
    requires Spells(s, n)
    ensures s != [] && !IsSpace(s[0]) && !IsSpace(s[|s| - 1])
  {
    NumeralIsDigits(s);
    if s != [] {
      NumeralIsDigits(s[1..]);
      assert |s| > 1 ==> s[1..][|s| - 2] == s[|s| - 1];
    }
  }

  function Pow10(k: nat): nat { if k == 0 then 1 else 10 * Pow10(k - 1) }

  lemma {:induction false} DigitsLength(n: nat, k: nat)
    requires 1 <= k && n < Pow10(k)
    ensures 1 <= |Digits(n)| <= k
    ensures n >= Pow10(k - 1) ==> |Digits(n)| == k
  {
    if n >= 10 {
      DigitsLength(n / 10, k - 1);
    }
  }

  /** An int64 takes at most 20 characters, and the smallest takes exactly 20. */
  lemma DecimalLength(n: int)
    requires Fits(n)
    ensures |Decimal(n)| <= 20
    ensures n == MIN ==> |Decimal(n)| == 20
  {
    Pow10Of19();
    DigitsLength(if n < 0 then -n else n, 19);
  }

  lemma Pow10Of19()
    ensures Pow10(19) == 10_000_000_000_000_000_000
    ensures Pow10(18) == 1_000_000_000_000_000_000
  {
    assert Pow10(2) == 100;
    assert Pow10(4) == 10_000;
    assert Pow10(6) == 1_000_000;
    assert Pow10(8) == 100_000_000;
    assert Pow10(10) == 10_000_000_000;
    assert Pow10(12) == 1_000_000_000_000;
    assert Pow10(14) == 100_000_000_000_000;
    assert Pow10(16) == 10_000_000_000_000_000;
  }

  // ---------------------------------------------------------------- stores

  type Store = map<string, string>

  /** An unset variable reads as the empty text. */
  function Lookup(st: Store, x: string): string {
    if x in st then st[x] else ""
  }
}

/** The Python string built-ins the registries call, in their ASCII reading:
    `str.lower`, `str.strip`, `re.sub(r'\D', '', s)`, `str.isdigit`, and the
    decimal rendering of an `int` inside an f-string. */
module Text {

  predicate IsDigit(c: char) {
    '0' <= c <= '9'
  }

  /** `c.isspace()` for ASCII: space, \t \n \v \f \r, and the separators \x1c-\x1f. */
  predicate IsSpace(c: char) {
    c == ' ' || ('\t' <= c <= '\r') || ('\U{1C}' <= c <= '\U{1F}')
  }

  function LowerChar(c: char): char {
    if 'A' <= c <= 'Z' then (c as int - 'A' as int + 'a' as int) as char else c
  }

  /** `s.lower()`: every ASCII capital replaced by its small letter. */
  function Lower(s: string): (r: string)
    ensures |r| == |s|
    ensures forall i :: 0 <= i < |s| ==> r[i] == LowerChar(s[i])
  {
    seq(|s|, i requires 0 <= i < |s| => LowerChar(s[i]))
  }

  /** The position of the first non-whitespace character of `s` from `i` on, or `|s|`. */
  function SkipSpaces(s: string, i: nat): (k: nat)
    requires i <= |s|
    ensures i <= k <= |s| && (k == |s| || !IsSpace(s[k]))
    ensures forall m :: i <= m < k ==> IsSpace(s[m])
    decreases |s| - i
  {
    if i < |s| && IsSpace(s[i]) then SkipSpaces(s, i + 1) else i
  }

  /** The end of `s[..j]` once its trailing whitespace is dropped. */
  function SkipSpacesBack(s: string, j: nat): (k: nat)
    requires j <= |s|
    ensures k <= j && (k == 0 || !IsSpace(s[k - 1]))
    ensures forall m :: k <= m < j ==> IsSpace(s[m])
  {
    if j > 0 && IsSpace(s[j - 1]) then SkipSpacesBack(s, j - 1) else j
  }

  /** `s.strip()`: neither starts nor ends with whitespace; `StripTrims` says
      which piece of `s` it is. */
  function Strip(s: string): (r: string)
    ensures |r| <= |s|
    ensures r == [] || (!IsSpace(r[0]) && !IsSpace(r[|r| - 1]))
  {
    var i := SkipSpaces(s, 0);
    if i == |s| then
      assert s[i..i] == [];
      []
    else
      var j := SkipSpacesBack(s, |s|);
      s[i..j]
  }

  /** `s.strip()` is a contiguous piece of `s` all of whose surroundings in `s` is
      whitespace. */
  lemma StripTrims(s: string)
    ensures exists i, j :: (0 <= i <= j <= |s| && Strip(s) == s[i..j] &&
      (forall k :: 0 <= k < i ==> IsSpace(s[k])) &&
      (forall k :: j <= k < |s| ==> IsSpace(s[k])))
  {
    var i := SkipSpaces(s, 0);
    if i == |s| {
      assert Strip(s) == s[i..i];
    } else {
      var j := SkipSpacesBack(s, |s|);
      assert Strip(s) == s[i..j];
    }
  }

  /** `s.strip()` is empty exactly when `s` is nothing but whitespace. */
  lemma StripEmptyIffBlank(s: string)
    ensures Strip(s) == [] <==> forall k :: 0 <= k < |s| ==> IsSpace(s[k])
  {
    var i := SkipSpaces(s, 0);
    if i < |s| {
      assert Strip(s)[0] == s[i];
    }
  }

  /** A string that neither starts nor ends with whitespace is its own strip. */
  lemma StripUnpadded(s: string)
    requires s != [] && !IsSpace(s[0]) && !IsSpace(s[|s| - 1])
    ensures Strip(s) == s
  {
    assert SkipSpaces(s, 0) == 0;
    assert SkipSpacesBack(s, |s|) == |s|;
    assert s[0..|s|] == s;
  }

  /** Stripping twice is stripping once. */
  lemma StripIdempotent(s: string)
    ensures Strip(Strip(s)) == Strip(s)
  {
    if Strip(s) != [] {
      StripUnpadded(Strip(s));
    }
  }

  /** `re.sub(r'\D', '', s)`: the digits of `s`, in order. */
  function Digits(s: string): (r: string)
    ensures |r| <= |s|
    ensures forall i :: 0 <= i < |r| ==> IsDigit(r[i])
  {
    DigitsOfPrefix(s, |s|)
  }

  /** The digits of `s[..n]`. */
  function DigitsOfPrefix(s: string, n: nat): (r: string)
    requires n <= |s|
    ensures |r| <= n
    ensures forall i :: 0 <= i < |r| ==> IsDigit(r[i])
  {
    if n == 0 then []
    else DigitsOfPrefix(s, n - 1) + (if IsDigit(s[n - 1]) then [s[n - 1]] else [])
  }

  /** A string of digits only is its own digits. */
  lemma DigitsOfDigitString(s: string)
    requires forall i :: 0 <= i < |s| ==> IsDigit(s[i])
    ensures Digits(s) == s
  {
    var n := 0;
    while n < |s|
      invariant n <= |s| && DigitsOfPrefix(s, n) == s[..n]
    {
      assert s[..n + 1] == s[..n] + [s[n]];
      n := n + 1;
    }
    assert s[..|s|] == s;
  }

  /** The digits of `s[..n]` depend on nothing after position `n`. */
  lemma {:induction false} DigitsOfPrefixAgree(s: string, t: string, n: nat)
    requires n <= |s| && n <= |t| && s[..n] == t[..n]
    ensures DigitsOfPrefix(s, n) == DigitsOfPrefix(t, n)
  {
    if n > 0 {
      assert s[..n - 1] == s[..n][..n - 1] && t[..n - 1] == t[..n][..n - 1];
      assert s[n - 1] == s[..n][n - 1] && t[n - 1] == t[..n][n - 1];
      DigitsOfPrefixAgree(s, t, n - 1);
    }
  }

  /** The substitution works piece by piece: the digits of `a + b` are those of `a`
      followed by those of `b`. With `DigitsOfChar` this pins `Digits` down: every
      digit character of `s` is kept, in order, and every other one is dropped. */
  lemma {:induction false} DigitsAppend(a: string, b: string)
    ensures Digits(a + b) == Digits(a) + Digits(b)
    decreases |b|
  {
    if b == [] {
      assert a + b == a;
    } else {
      var init := b[..|b| - 1];
      DigitsAppend(a, init);
      var ab := a + b;
      assert ab[..|ab| - 1] == (a + init)[..|a + init|];
      DigitsOfPrefixAgree(ab, a + init, |ab| - 1);
      assert b[..|b| - 1] == init[..|init|];
      DigitsOfPrefixAgree(b, init, |b| - 1);
      assert ab[|ab| - 1] == b[|b| - 1];
    }
  }

  /** A single character is kept exactly when it is a digit. */
  lemma DigitsOfChar(c: char)
    ensures Digits([c]) == if IsDigit(c) then [c] else []
  {
    assert [c][..0] == [];
  }

  /** The digit positions below `n + 1` are those below `n`, and `n` when it holds a digit. */
  lemma DigitPositionsStep(s: string, n: nat)
    requires n < |s|
    ensures (set i | 0 <= i < n + 1 && IsDigit(s[i])) ==
            (set i | 0 <= i < n && IsDigit(s[i])) + (if IsDigit(s[n]) then {n} else {})
  {
  }

  /** The substitution leaves one character per digit of `s`, so the length the phone
      check tests is the number of digit positions of the phone number. */
  lemma {:induction false} DigitsCount(s: string)
    ensures |Digits(s)| == |set i | 0 <= i < |s| && IsDigit(s[i])|
  {
    var n := 0;
    while n < |s|
      invariant n <= |s| && |DigitsOfPrefix(s, n)| == |set i | 0 <= i < n && IsDigit(s[i])|
    {
      DigitPositionsStep(s, n);
      n := n + 1;
    }
  }

  /** `s.isdigit()`: non-empty and all digits. */
  predicate IsDigitString(s: string) {
    |s| > 0 && forall i :: 0 <= i < |s| ==> IsDigit(s[i])
  }

  /** The value of a decimal digit; any other character counts as 0. */
  function DigitValue(c: char): nat {
    if IsDigit(c) then c as int - '0' as int else 0
  }

  /** `int(f)` of a string of decimal digits. */
  function FieldValue(f: string): nat {
    if f == [] then 0 else 10 * FieldValue(f[..|f| - 1]) + DigitValue(f[|f| - 1])
  }

  function DigitChar(d: nat): char
    requires d < 10
  {
    ('0' as int + d) as char
  }

  /** The decimal digits of a natural number, without leading zeros. */
  function NatToString(n: nat): (r: string)
    ensures |r| > 0 && forall i :: 0 <= i < |r| ==> IsDigit(r[i])
  {
    if n < 10 then [DigitChar(n)] else NatToString(n / 10) + [DigitChar(n % 10)]
  }

  /** `str(n)` for an `int`: a minus sign, when negative, then the digits. */
  function IntToString(n: int): (r: string)
    ensures |r| > 0
    ensures n < 0 <==> r[0] == '-'
  {
    if n < 0 then "-" + NatToString(-n) else NatToString(n)
  }

  /** The numeral of a natural number reads back as that number, and starts with '0'
      only for 0. */
  lemma {:induction false} NatToStringValue(n: nat)
    ensures FieldValue(NatToString(n)) == n
    ensures NatToString(n)[0] == '0' ==> n == 0
  {
    var s := NatToString(n);
    if n < 10 {
      assert s[..0] == [];
    } else {
      NatToStringValue(n / 10);
      assert s[..|s| - 1] == NatToString(n / 10);
      assert s[0] == NatToString(n / 10)[0];
    }
  }

  /** `str(n)` is the decimal numeral of `n`: for `n >= 0` a digit string whose value is
      `n`, with no leading zero unless `n` is 0; for a negative `n`, '-' followed by the
      numeral of `-n`. */
  lemma IntToStringValue(n: int)
    ensures n >= 0 ==> IsDigitString(IntToString(n)) && FieldValue(IntToString(n)) == n
    ensures n >= 0 ==> (IntToString(n)[0] == '0' ==> n == 0)
    ensures n < 0 ==> IntToString(n) == "-" + IntToString(-n)
  {
    NatToStringValue(if n < 0 then -n else n);
  }

  /** Different integers render differently, so a message that embeds `str(id)` names
      exactly one id. */
  lemma IntToStringInjective(a: int, b: int)
    requires IntToString(a) == IntToString(b)
    ensures a == b
  {
    if a < 0 {
      assert NatToString(-a) == IntToString(a)[1..] == IntToString(b)[1..] == NatToString(-b);
      NatToStringValue(-a);
      NatToStringValue(-b);
    } else {
      NatToStringValue(a);
      NatToStringValue(b);
    }
  }

  /** Python's `<` on strings: lexicographic by code point, a proper prefix first. */
  predicate StrLess(a: string, b: string) {
    StrLessFrom(a, b, 0)
  }

  /** `a[i..] < b[i..]`, for two strings that agree before `i`. */
  predicate StrLessFrom(a: string, b: string, i: nat)
    requires i <= |a| && i <= |b|
    decreases |a| - i
  {
    if i == |a| then i < |b|
    else if i == |b| then false
    else if a[i] != b[i] then a[i] < b[i]
    else StrLessFrom(a, b, i + 1)
  }

  lemma {:induction false} StrLessFromIrreflexive(a: string, i: nat)
    requires i <= |a|
    ensures !StrLessFrom(a, a, i)
    decreases |a| - i
  {
    if i < |a| { StrLessFromIrreflexive(a, i + 1); }
  }

  lemma StrLessIrreflexive(a: string)
    ensures !StrLess(a, a)
  {
    StrLessFromIrreflexive(a, 0);
  }

  lemma {:induction false} StrLessFromTransitive(a: string, b: string, c: string, i: nat)
    requires i <= |a| && i <= |b| && i <= |c|
    requires StrLessFrom(a, b, i) && StrLessFrom(b, c, i)
    ensures StrLessFrom(a, c, i)
    decreases |a| - i
  {
    if i < |a| && i < |b| && i < |c| && a[i] == b[i] && b[i] == c[i] {
      StrLessFromTransitive(a, b, c, i + 1);
    }
  }

  lemma StrLessTransitive(a: string, b: string, c: string)
    requires StrLess(a, b) && StrLess(b, c)
    ensures StrLess(a, c)
  {
    StrLessFromTransitive(a, b, c, 0);
  }

  lemma {:induction false} StrLessFromTotal(a: string, b: string, i: nat)
    requires i <= |a| && i <= |b| && a[..i] == b[..i]
    ensures a == b || StrLessFrom(a, b, i) || StrLessFrom(b, a, i)
    decreases |a| - i
  {
    if i < |a| && i < |b| && a[i] == b[i] {
      assert a[..i + 1] == a[..i] + [a[i]] && b[..i + 1] == b[..i] + [b[i]];
      StrLessFromTotal(a, b, i + 1);
    } else if i == |a| && i == |b| {
      assert a == a[..i] && b == b[..i];
    }
  }

  /** Two different strings are always ordered one way or the other. */
  lemma StrLessTotal(a: string, b: string)
    ensures a == b || StrLess(a, b) || StrLess(b, a)
  {
    StrLessFromTotal(a, b, 0);
  }
}

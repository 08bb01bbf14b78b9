/** The few Python `str` operations the generator relies on, modelled on
    code points: `endswith`, `capitalize`, `str(n)` for a non-negative int,
    and the `<` order that `sorted` uses on keys. */
module PyStr {

  /** `s.endswith(suffix)`: a case-sensitive suffix test. */
  predicate EndsWith(s: string, suffix: string)
  {
    |suffix| <= |s| && s[|s| - |suffix|..] == suffix
  }

  // ---------------------------------------------------------------------
  // str.capitalize (ASCII letters only)
  // ---------------------------------------------------------------------

  predicate IsLowerAscii(c: char) { 'a' <= c <= 'z' }
  predicate IsUpperAscii(c: char) { 'A' <= c <= 'Z' }

  function ToUpper(c: char): char
  {
    if IsLowerAscii(c) then (c as int - 32) as char else c
  }

  function ToLower(c: char): char
  {
    if IsUpperAscii(c) then (c as int + 32) as char else c
  }

  /** Two strings that differ at most in the case of ASCII letters. */
  predicate SameLetters(a: string, b: string)
  {
    |a| == |b| && forall i :: 0 <= i < |a| ==> ToLower(a[i]) == ToLower(b[i])
  }

  /** `s.capitalize()`: the first character upper-cased, every other one
      lower-cased. The result is the one string that has the letters of `s`,
      does not start with a lower-case letter and has no upper-case letter
      after the first position. */
  function Capitalize(s: string): (r: string)
    ensures |r| == |s|
    ensures r != [] ==> !IsLowerAscii(r[0])
  {
    if s == [] then []
    else [ToUpper(s[0])] + seq(|s| - 1, i requires 0 <= i < |s| - 1 => ToLower(s[i + 1]))
  }

  /** The capitalised name has the letters of the name, does not start with
      a lower-case letter and has no upper-case letter after its first
      character. */
  lemma CapitalizeShape(s: string)
    ensures var r := Capitalize(s);
      && SameLetters(r, s)
      && (r != [] ==> !IsLowerAscii(r[0]))
      && (forall i :: 1 <= i < |r| ==> !IsUpperAscii(r[i]))
  {
    var r := Capitalize(s);
    forall i | 1 <= i < |r| ensures r[i] == ToLower(s[i]) && !IsUpperAscii(r[i]) {
    }
  }

  /** No other string has that shape: the three properties above define
      `capitalize`. */
  lemma CapitalizeUnique(s: string, r: string)
    requires SameLetters(r, s)
    requires r != [] ==> !IsLowerAscii(r[0])
    requires forall i :: 1 <= i < |r| ==> !IsUpperAscii(r[i])
    ensures r == Capitalize(s)
  {
    var c := Capitalize(s);
    forall i | 0 <= i < |r| ensures r[i] == c[i] {
      assert ToLower(r[i]) == ToLower(s[i]);
    }
  }

  /** Capitalising twice is capitalising once. */
  lemma CapitalizeIdempotent(s: string)
    ensures Capitalize(Capitalize(s)) == Capitalize(s)
  {
    var r := Capitalize(s);
    var rr := Capitalize(r);
    assert |rr| == |r|;
    forall i | 0 <= i < |r| ensures rr[i] == r[i] {
      if i == 0 {
        assert rr[0] == ToUpper(r[0]);
      } else {
        assert rr[i] == ToLower(r[i]);
      }
    }
  }

  /** Examples: "blog" becomes "Blog", and the rest of a name is
      lower-cased, so "myBlog" becomes "Myblog". */
  lemma CapitalizeExamples()
    ensures Capitalize("blog") == "Blog"
    ensures Capitalize("Blog") == "Blog"
    ensures Capitalize("myBlog") == "Myblog"
  {
    var b := Capitalize("blog");
    assert b[0] == 'B' && b[1] == 'l' && b[2] == 'o' && b[3] == 'g';
    CapitalizeUnique("Blog", "Blog");
    var m := Capitalize("myBlog");
    assert m[0] == 'M' && m[1] == 'y' && m[2] == 'b' && m[3] == 'l' && m[4] == 'o' && m[5] == 'g';
  }

  // ---------------------------------------------------------------------
  // str(n) for n >= 0, as an f-string renders it
  // ---------------------------------------------------------------------

  predicate IsDigit(c: char) { '0' <= c <= '9' }

  function DigitChar(d: nat): (c: char)
    requires d < 10
    ensures IsDigit(c) && c as int - '0' as int == d
  {
    ('0' as int + d) as char
  }

  /** Decimal digits of `n`, most significant first, without leading zeros. */
  function Decimal(n: nat): (s: string)
    ensures s != []
    ensures forall i :: 0 <= i < |s| ==> IsDigit(s[i])
    ensures (n < 10) == (|s| == 1)
  {
    if n < 10 then [DigitChar(n)] else Decimal(n / 10) + [DigitChar(n % 10)]
  }

  /** The value a string of decimal digits denotes (the inverse of Decimal). */
  function DecimalValue(s: string): nat
    requires forall i :: 0 <= i < |s| ==> IsDigit(s[i])
  {
    if s == [] then 0
    else
      assert IsDigit(s[|s| - 1]);
      DecimalValue(s[..|s| - 1]) * 10 + (s[|s| - 1] as int - '0' as int)
  }

  /** Reading back the digits of `n` gives `n`. */
  lemma {:induction false} DecimalRoundTrip(n: nat)
    ensures DecimalValue(Decimal(n)) == n
  {
    if n >= 10 {
      var s := Decimal(n);
      assert s[..|s| - 1] == Decimal(n / 10);
      DecimalRoundTrip(n / 10);
    }
  }

  /** Distinct numbers have distinct decimal strings. */
  lemma DecimalInjective(m: nat, n: nat)
    requires Decimal(m) == Decimal(n)
    ensures m == n
  {
    DecimalRoundTrip(m);
    DecimalRoundTrip(n);
  }

  /** Keys made of a fixed prefix and `str(n)` are distinct for distinct n. */
  lemma PrefixedDecimalInjective(prefix: string, m: nat, n: nat)
    requires prefix + Decimal(m) == prefix + Decimal(n)
    ensures m == n
  {
    assert Decimal(m) == (prefix + Decimal(m))[|prefix|..];
    assert Decimal(n) == (prefix + Decimal(n))[|prefix|..];
    DecimalInjective(m, n);
  }

  // ---------------------------------------------------------------------
  // Python's `<` on str: lexicographic by code point
  // ---------------------------------------------------------------------

  /** `a < b` on Python strings: the first differing code point decides,
      and a proper prefix comes first. */
  predicate StrLess(a: string, b: string)
  {
    if a == [] then b != []
    else if b == [] then false
    else if a[0] != b[0] then a[0] < b[0]
    else StrLess(a[1..], b[1..])
  }

  lemma {:induction false} StrLessIrreflexive(a: string)
    ensures !StrLess(a, a)
  {
    if a != [] {
      StrLessIrreflexive(a[1..]);
    }
  }

  /** Any two different strings are ordered one way or the other. */
  lemma {:induction false} StrLessTotal(a: string, b: string)
    requires a != b
    ensures StrLess(a, b) || StrLess(b, a)
  {
    if a != [] && b != [] && a[0] == b[0] {
      assert a == [a[0]] + a[1..] && b == [b[0]] + b[1..];
      StrLessTotal(a[1..], b[1..]);
    }
  }

  lemma {:induction false} StrLessAsymmetric(a: string, b: string)
    requires StrLess(a, b)
    ensures !StrLess(b, a)
  {
    if a != [] && b != [] && a[0] == b[0] {
      StrLessAsymmetric(a[1..], b[1..]);
    }
  }

  lemma {:induction false} StrLessTransitive(a: string, b: string, c: string)
    requires StrLess(a, b) && StrLess(b, c)
    ensures StrLess(a, c)
  {
    if a != [] && a[0] == b[0] && b[0] == c[0] {
      StrLessTransitive(a[1..], b[1..], c[1..]);
    }
  }
}

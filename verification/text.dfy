/**
 The string primitives the pipeline borrows from Go's standard library: `strings.ToUpper`
 (on ASCII letters), `strings.Split(s, sep)[0]`, and the zero-padded decimal printing that
 `time.Format` uses for years, months and days.
 */
module Text {

  // ---------------------------------------------------------------- upper case

  /** ASCII upper-casing of one character; every other character is left alone. */
  function UpperChar(c: char): char
  {
    if 'a' <= c <= 'z' then (c as int - 32) as char else c
  }

  /** `strings.ToUpper`, restricted to the ASCII letters (see README, Left out). */
  function Upper(s: string): (u: string)
    ensures |u| == |s|
    ensures forall i :: 0 <= i < |s| ==> u[i] == UpperChar(s[i])
  {
    seq(|s|, i requires 0 <= i < |s| => UpperChar(s[i]))
  }

  /** Upper-casing twice is upper-casing once. */
  lemma UpperIdempotent(s: string)
    ensures Upper(Upper(s)) == Upper(s)
  {
  }

  /** Upper-casing neither creates nor removes a separator character that is not a letter. */
  lemma UpperKeepsSeparator(s: string, sep: char)
    requires !('a' <= sep <= 'z') && !('A' <= sep <= 'Z')
    ensures sep in Upper(s) <==> sep in s
  {
    if sep in Upper(s) {
      var i :| 0 <= i < |s| && Upper(s)[i] == sep;
      assert s[i] == sep;
    }
    if sep in s {
      var i :| 0 <= i < |s| && s[i] == sep;
      assert Upper(s)[i] == sep;
    }
  }

  // ---------------------------------------------------------------- split

  /**
   `strings.Split(s, string(sep))[0]`: the part of `s` before the first `sep`, or all of
   `s` when it holds no `sep`.
   */
  function BeforeFirst(s: string, sep: char): (r: string)
    ensures r <= s
    ensures sep !in r
    ensures |r| == |s| || s[|r|] == sep
  {
    if s == [] || s[0] == sep then [] else [s[0]] + BeforeFirst(s[1..], sep)
  }

  /** The three properties above pin the prefix down: there is only one such prefix. */
  lemma {:induction false} BeforeFirstUnique(s: string, sep: char, r: string)
    requires r <= s && sep !in r
    requires |r| == |s| || s[|r|] == sep
    ensures r == BeforeFirst(s, sep)
  {
    var b := BeforeFirst(s, sep);
    assert |r| == |b|;
  }

  /** A string without `sep` is its own prefix before the first `sep`. */
  lemma BeforeFirstNoSeparator(s: string, sep: char)
    requires sep !in s
    ensures BeforeFirst(s, sep) == s
  {
    BeforeFirstUnique(s, sep, s);
  }

  /** Upper-casing commutes with cutting at a non-letter separator. */
  lemma BeforeFirstUpper(s: string, sep: char)
    requires !('a' <= sep <= 'z') && !('A' <= sep <= 'Z')
    ensures BeforeFirst(Upper(s), sep) == Upper(BeforeFirst(s, sep))
  {
    var b := BeforeFirst(s, sep);
    var r := Upper(b);
    assert r <= Upper(s);
    UpperKeepsSeparator(b, sep);
    BeforeFirstUnique(Upper(s), sep, r);
  }

  // ---------------------------------------------------------------- decimal digits

  predicate IsDigit(c: char)
  {
    '0' <= c <= '9'
  }

  ghost predicate AllDigits(s: string)
  {
    forall i :: 0 <= i < |s| ==> IsDigit(s[i])
  }

  function DigitChar(d: int): (c: char)
    requires 0 <= d < 10
  {
    ('0' as int + d) as char
  }

  function DigitValue(c: char): int
    requires IsDigit(c)
  {
    c as int - '0' as int
  }

  /** Shortest decimal form of `n`, most significant digit first. */
  function Decimal(n: nat): (s: string)
    ensures |s| >= 1 && AllDigits(s)
  {
    if n < 10 then [DigitChar(n)] else Decimal(n / 10) + [DigitChar(n % 10)]
  }

  /** The number a digit string denotes. */
  function ValueOf(s: string): nat
    requires AllDigits(s)
  {
    if s == [] then 0 else ValueOf(s[..|s| - 1]) * 10 + DigitValue(s[|s| - 1])
  }

  function Zeros(k: nat): (s: string)
    ensures |s| == k && AllDigits(s)
  {
    seq(k, _ => '0')
  }

  /**
   The decimal form of `n` left-padded with '0' to at least `width` characters, as Go's
   `time` package prints a non-negative field (`appendInt(b, n, width)`).
   */
  function PadLeft(n: nat, width: nat): (s: string)
    ensures |s| >= width && |s| >= 1 && AllDigits(s)
  {
    var d := Decimal(n);
    if |d| < width then Zeros(width - |d|) + d else d
  }

  lemma {:induction false} DecimalValue(n: nat)
    ensures ValueOf(Decimal(n)) == n
  {
    if n >= 10 {
      DecimalValue(n / 10);
      var s := Decimal(n);
      assert s[..|s| - 1] == Decimal(n / 10);
    }
  }

  /** Leading zeros do not change the value of a digit string. */
  lemma {:induction false} ZerosValue(k: nat, s: string)
    requires AllDigits(s)
    ensures ValueOf(Zeros(k) + s) == ValueOf(s)
  {
    var t := Zeros(k) + s;
    if s == [] {
      assert t == Zeros(k);
      ZerosAlone(k);
    } else {
      var init := s[..|s| - 1];
      ZerosValue(k, init);
      assert t[..|t| - 1] == Zeros(k) + init;
    }
  }

  lemma {:induction false} ZerosAlone(k: nat)
    ensures ValueOf(Zeros(k)) == 0
  {
    if k > 0 {
      ZerosAlone(k - 1);
      assert Zeros(k)[..k - 1] == Zeros(k - 1);
    }
  }

  /** Reading a padded field back yields the number that was printed. */
  lemma PadLeftValue(n: nat, width: nat)
    ensures ValueOf(PadLeft(n, width)) == n
  {
    DecimalValue(n);
    var d := Decimal(n);
    if |d| < width {
      ZerosValue(width - |d|, d);
    }
  }

  /** Two numbers printed in the same padded field differ as strings when they differ. */
  lemma PadLeftInjective(a: nat, b: nat, width: nat)
    requires PadLeft(a, width) == PadLeft(b, width)
    ensures a == b
  {
    PadLeftValue(a, width);
    PadLeftValue(b, width);
  }

  /** A number below 100 printed with width 2 takes exactly two characters. */
  lemma PadTwoLength(n: nat)
    requires n < 100
    ensures |PadLeft(n, 2)| == 2
  {
    if n >= 10 {
      assert |Decimal(n / 10)| == 1;
    }
  }

  // ---------------------------------------------------------------- separators

  /**
   Splitting at the last `sep`: when neither tail holds `sep`, equal strings of the form
   `a + [sep] + x` have equal heads and equal tails.
   */
  lemma SplitAtLast(a: string, x: string, b: string, y: string, sep: char)
    requires sep !in x && sep !in y
    requires a + [sep] + x == b + [sep] + y
    ensures a == b && x == y
  {
    var s := a + [sep] + x;
    var t := b + [sep] + y;
    // In s every position after |a| lies in x, and in t every position after |b| lies in y.
    assert forall i :: |a| < i < |s| ==> s[i] == x[i - |a| - 1];
    assert forall i :: |b| < i < |t| ==> t[i] == y[i - |b| - 1];
    assert s[|a|] == sep && t[|b|] == sep;
    assert |a| == |b|;
    assert a == s[..|a|];
    assert x == s[|a| + 1..];
  }

  /**
   A string framed as `p + x + q + y`, where `q` ends with `sep` and `y` holds no `sep`,
   determines both `x` and `y`.
   */
  lemma FramedInjective(p: string, x1: string, x2: string, q: string, y1: string, y2: string, sep: char)
    requires |q| > 0 && q[|q| - 1] == sep
    requires sep !in y1 && sep !in y2
    requires p + x1 + q + y1 == p + x2 + q + y2
    ensures x1 == x2 && y1 == y2
  {
    var q' := q[..|q| - 1];
    assert q == q' + [sep];
    var a := p + x1 + q';
    var b := p + x2 + q';
    assert a + [sep] + y1 == p + x1 + q + y1;
    assert b + [sep] + y2 == p + x2 + q + y2;
    SplitAtLast(a, y1, b, y2, sep);
    assert x1 == a[|p|..|a| - |q'|];
    assert x2 == b[|p|..|b| - |q'|];
  }
}

/**
 * The text conventions the Java code relies on: `trim().isEmpty()`,
 * `String.split`, `Integer.toString` / `Integer.parseInt`, the text that
 * `Double.toString` / `Double.parseDouble` produce and accept for amounts
 * held as whole cents, and the `%.2f` format.
 */
module Text {
  import opened Wrappers

  const MinInt32: int := -0x8000_0000
  const MaxInt32: int := 0x7FFF_FFFF

  /** A Java `int`. */
  type Int32 = x: int | MinInt32 <= x <= MaxInt32

  /** `s.trim().isEmpty()`: `trim` strips every character at or below the space. */
  predicate Blank(s: string) {
    |s| == 0 || (s[0] <= ' ' && Blank(s[1..]))
  }

  /** `Blank` holds exactly when every character is at or below the space. */
  lemma {:induction false} BlankIsAllSpace(s: string)
    ensures Blank(s) <==> forall i :: 0 <= i < |s| ==> s[i] <= ' '
  {
    if |s| > 0 {
      BlankIsAllSpace(s[1..]);
      assert forall i :: 1 <= i < |s| ==> s[i] == s[1..][i - 1];
    }
  }

  /**
   * `s.length()`: Java counts UTF-16 code units, so a character outside the Basic
   * Multilingual Plane (at or above U+10000) is a surrogate pair and counts twice.
   */
  function Utf16Length(s: string): (n: nat)
    ensures |s| <= n <= 2 * |s|
  {
    if |s| == 0 then 0 else (if s[0] as int >= 0x1_0000 then 2 else 1) + Utf16Length(s[1..])
  }

  /** On text within the Basic Multilingual Plane, Java's length is the number of characters. */
  lemma {:induction false} Utf16LengthOfBmp(s: string)
    requires forall i :: 0 <= i < |s| ==> s[i] as int < 0x1_0000
    ensures Utf16Length(s) == |s|
  {
    if |s| > 0 {
      assert forall i :: 0 <= i < |s| - 1 ==> s[1..][i] == s[i + 1];
      Utf16LengthOfBmp(s[1..]);
    }
  }

  /** Text that `BufferedReader.readLine` reads back as one line: it holds no '\n' and no '\r'. */
  predicate LineFree(s: string) {
    '\n' !in s && '\r' !in s
  }

  // ---------------------------------------------------------------------------
  // Decimal digits

  predicate IsDigit(c: char) {
    '0' <= c <= '9'
  }

  predicate AllDigits(s: string) {
    forall i :: 0 <= i < |s| ==> IsDigit(s[i])
  }

  function DigitChar(d: nat): (c: char)
    requires d < 10
    ensures IsDigit(c)
  {
    (48 + d) as char
  }

  function DigitValue(c: char): (d: nat)
    requires IsDigit(c)
    ensures d < 10 && DigitChar(d) == c
  {
    (c as int) - ('0' as int)
  }

  /** The decimal digits of `n` without leading zeros, as `Integer.toString` writes them. */
  function NatStr(n: nat): (s: string)
    ensures |s| >= 1 && AllDigits(s)
    ensures '0' <= s[0] <= '9'
    decreases n
  {
    if n < 10 then [DigitChar(n)] else NatStr(n / 10) + [DigitChar(n % 10)]
  }

  /** The value of a string of decimal digits; leading zeros are allowed, "" is 0. */
  function DigitsValue(s: string): nat
    requires AllDigits(s)
  {
    if |s| == 0 then 0 else DigitsValue(s[..|s| - 1]) * 10 + DigitValue(s[|s| - 1])
  }

  lemma {:induction false} DigitsValueOfNatStr(n: nat)
    ensures DigitsValue(NatStr(n)) == n
    decreases n
  {
    if n >= 10 {
      DigitsValueOfNatStr(n / 10);
      var s := NatStr(n);
      assert s[..|s| - 1] == NatStr(n / 10);
    }
  }

  lemma NatStrInjective(a: nat, b: nat)
    requires NatStr(a) == NatStr(b)
    ensures a == b
  {
    DigitsValueOfNatStr(a);
    DigitsValueOfNatStr(b);
  }

  function Pow10(k: nat): (p: nat)
    ensures p >= 1
  {
    if k == 0 then 1 else 10 * Pow10(k - 1)
  }

  /** `NatStr(n)` has at most `k` digits exactly when `n < 10^k`. */
  lemma {:induction false} NatStrLength(n: nat, k: nat)
    requires k >= 1
    ensures |NatStr(n)| <= k <==> n < Pow10(k)
    decreases n
  {
    if n < 10 {
      assert Pow10(k) >= 10 by { assert Pow10(k) == 10 * Pow10(k - 1); }
    } else {
      assert |NatStr(n)| == |NatStr(n / 10)| + 1;
      if k == 1 {
        assert Pow10(1) == 10;
      } else {
        NatStrLength(n / 10, k - 1);
        assert Pow10(k) == 10 * Pow10(k - 1);
      }
    }
  }

  /** `Integer.toString(x)`: a '-' followed by the digits of `-x` for a negative `x`. */
  function IntStr(x: int): (s: string)
    ensures |s| >= 1 && (x >= 0 ==> IsDigit(s[0])) && (x < 0 ==> s[0] == '-')
  {
    if x < 0 then "-" + NatStr(-x) else NatStr(x)
  }

  /**
   * `Integer.parseInt(s)`: an optional '+' or '-', then at least one digit, with a value
   * inside the `int` range; `None` stands for the `NumberFormatException`.
   */
  function ParseInt32(s: string): (r: Option<Int32>)
    ensures r.Some? ==> |s| >= 1 && (s[0] == '-' || s[0] == '+' || IsDigit(s[0]))
  {
    if |s| == 0 then None
    else
      var digits := if s[0] == '-' || s[0] == '+' then s[1..] else s;
      if |digits| == 0 || !AllDigits(digits) then None
      else
        var v: int := if s[0] == '-' then 0 - DigitsValue(digits) else DigitsValue(digits);
        if MinInt32 <= v <= MaxInt32 then Some(v) else None
  }

  lemma IntStrRoundTrip(x: Int32)
    ensures ParseInt32(IntStr(x)) == Some(x)
  {
    var s := IntStr(x);
    if x < 0 {
      var n: nat := 0 - x as int;
      assert s[1..] == NatStr(n);
      DigitsValueOfNatStr(n);
    } else {
      DigitsValueOfNatStr(x);
    }
  }

  // ---------------------------------------------------------------------------
  // Amounts in whole cents

  function Abs(c: int): nat {
    if c < 0 then -c else c
  }

  /** The fraction digits `Double.toString` writes for `f` hundredths: one digit when the second is 0. */
  function FractionText(f: nat): (s: string)
    requires f < 100
    ensures 1 <= |s| <= 2 && AllDigits(s)
  {
    if f % 10 == 0 then [DigitChar(f / 10)] else [DigitChar(f / 10), DigitChar(f % 10)]
  }

  /**
   * The plain decimal text of an amount of `c` cents: "100.0", "500.75", "-25.5", "0.05".
   * This is what `Double.toString` writes for amounts below 10^7 in magnitude; from 10^7
   * on Java writes exponent notation ("1.0E7"), which this text does not follow.
   */
  function CentsText(c: int): string {
    (if c < 0 then "-" else "") + NatStr(Abs(c) / 100) + "." + FractionText(Abs(c) % 100)
  }

  /** Hundredths denoted by the digits after the point: "" is 0, "5" is 50, "05" is 5. */
  function FractionValue(f: string): nat
    requires |f| <= 2 && AllDigits(f)
  {
    if |f| == 0 then 0 else if |f| == 1 then 10 * DigitValue(f[0]) else DigitsValue(f)
  }

  /**
   * `Double.parseDouble(s)` restricted to amounts in whole cents: an optional sign, digits,
   * an optional point with at most two digits after it, and at least one digit in all.
   * Any other text is `None`, standing for the `NumberFormatException`.
   */
  function ParseCents(s: string): Option<int> {
    if |s| == 0 then None
    else
      var body := if s[0] == '-' || s[0] == '+' then s[1..] else s;
      var (whole, frac) := Cut(body, '.');
      var fraction := if frac.Some? then frac.value else "";
      if !AllDigits(whole) || !AllDigits(fraction) || |fraction| > 2 || |whole| + |fraction| == 0 then None
      else
        var m := DigitsValue(whole) * 100 + FractionValue(fraction);
        Some(if s[0] == '-' then -m else m)
  }

  lemma FractionRoundTrip(f: nat)
    requires f < 100
    ensures FractionValue(FractionText(f)) == f
  {
    var t := FractionText(f);
    if f % 10 != 0 {
      assert t[..1] == [t[0]];
      assert DigitsValue(t) == DigitsValue(t[..1]) * 10 + DigitValue(t[1]);
    }
  }

  lemma CentsTextRoundTrip(c: int)
    ensures ParseCents(CentsText(c)) == Some(c)
  {
    var m := Abs(c);
    var s := CentsText(c);
    var body := NatStr(m / 100) + "." + FractionText(m % 100);
    assert s == (if c < 0 then "-" else "") + body;
    if c < 0 {
      assert s[1..] == body;
    } else {
      assert s == body;
      assert s[0] == NatStr(m / 100)[0];
    }
    NatStrHasNo(m / 100, '.');
    CutAt(NatStr(m / 100), FractionText(m % 100), '.');
    assert Cut(body, '.') == (NatStr(m / 100), Some(FractionText(m % 100)));
    DigitsValueOfNatStr(m / 100);
    FractionRoundTrip(m % 100);
    assert m == m / 100 * 100 + m % 100;
  }

  /** The `%.2f` rendering of a non-negative amount of `m` cents: "150.00", "25.50". */
  function TwoDecimals(m: nat): string {
    var f := m % 100;
    NatStr(m / 100) + "." + [DigitChar(f / 10), DigitChar(f % 10)]
  }

  lemma TwoDecimalsInjective(a: nat, b: nat)
    requires TwoDecimals(a) == TwoDecimals(b)
    ensures a == b
  {
    var na, nb := NatStr(a / 100), NatStr(b / 100);
    var ta := [DigitChar(a % 100 / 10), DigitChar(a % 100 % 10)];
    var tb := [DigitChar(b % 100 / 10), DigitChar(b % 100 % 10)];
    var s := TwoDecimals(a);
    assert s == na + "." + ta == nb + "." + tb;
    assert |na| == |nb|;
    assert na == s[..|na|] == nb;
    NatStrInjective(a / 100, b / 100);
    assert ta == s[|na| + 1..] == tb;
    DigitCharInjective(a % 100 / 10, b % 100 / 10);
    DigitCharInjective(a % 100 % 10, b % 100 % 10);
    CentsDecomposition(a);
    CentsDecomposition(b);
  }

  lemma DigitCharInjective(x: nat, y: nat)
    requires x < 10 && y < 10 && DigitChar(x) == DigitChar(y)
    ensures x == y
  {
  }

  lemma CentsDecomposition(m: nat)
    ensures m == 100 * (m / 100) + 10 * (m % 100 / 10) + m % 100 % 10
  {
    var f := m % 100;
    assert m == 100 * (m / 100) + f;
    assert f == 10 * (f / 10) + f % 10;
  }


  // ---------------------------------------------------------------------------
  // Splitting on a separator

  lemma NatStrHasNo(n: nat, c: char)
    requires !IsDigit(c)
    ensures c !in NatStr(n)
  {
    var s := NatStr(n);
    assert forall i :: 0 <= i < |s| ==> s[i] != c;
  }

  /** The text before the first `sep` and, if there is one, the text after it. */
  function Cut(s: string, sep: char): (r: (string, Option<string>))
    ensures r.1.Some? ==> |r.1.value| < |s|
    decreases |s|
  {
    if |s| == 0 then ("", None)
    else if s[0] == sep then ("", Some(s[1..]))
    else
      var (head, tail) := Cut(s[1..], sep);
      ([s[0]] + head, tail)
  }

  /** `Cut` splits at the first separator, or returns the whole text when there is none. */
  lemma {:induction false} CutSplits(s: string, sep: char)
    ensures var r := Cut(s, sep);
      (r.1.None? ==> r.0 == s && sep !in s) &&
      (r.1.Some? ==> s == r.0 + [sep] + r.1.value && sep !in r.0)
    decreases |s|
  {
    if |s| > 0 && s[0] != sep {
      CutSplits(s[1..], sep);
      assert s == [s[0]] + s[1..];
    }
  }

  lemma {:induction false} CutAt(a: string, b: string, sep: char)
    requires sep !in a
    ensures Cut(a + [sep] + b, sep) == (a, Some(b))
    decreases |a|
  {
    var s := a + [sep] + b;
    if |a| == 0 {
      assert s == [sep] + b;
    } else {
      assert a[0] in a;
      assert s[1..] == a[1..] + [sep] + b;
      CutAt(a[1..], b, sep);
      assert [a[0]] + a[1..] == a;
    }
  }

  lemma {:induction false} CutNone(a: string, sep: char)
    requires sep !in a
    ensures Cut(a, sep) == (a, None)
    decreases |a|
  {
    if |a| > 0 {
      assert a[0] in a;
      CutNone(a[1..], sep);
      assert [a[0]] + a[1..] == a;
    }
  }

  /** All fields between the separators, empty ones included (`split(sep, -1)`). */
  function Fields(s: string, sep: char): (r: seq<string>)
    ensures |r| >= 1
    decreases |s|
  {
    var (head, tail) := Cut(s, sep);
    if tail.None? then [head] else [head] + Fields(tail.value, sep)
  }

  /** No field contains the separator. */
  lemma {:induction false} FieldsHaveNoSeparator(s: string, sep: char)
    ensures forall i :: 0 <= i < |Fields(s, sep)| ==> sep !in Fields(s, sep)[i]
    decreases |s|
  {
    CutSplits(s, sep);
    var (head, tail) := Cut(s, sep);
    if tail.Some? {
      FieldsHaveNoSeparator(tail.value, sep);
      assert Fields(s, sep) == [head] + Fields(tail.value, sep);
    }
  }

  function DropTrailingEmpty(p: seq<string>): (r: seq<string>)
    ensures |r| <= |p| && r == p[..|r|]
    ensures |r| > 0 ==> r[|r| - 1] != ""
  {
    if |p| > 0 && p[|p| - 1] == "" then DropTrailingEmpty(p[..|p| - 1]) else p
  }

  /**
   * Java's `s.split(sep)`: the fields with the trailing empty ones removed, except that
   * a string without the separator is returned whole (so "" gives [""]).
   */
  function JavaSplit(s: string, sep: char): seq<string> {
    if sep !in s then [s] else DropTrailingEmpty(Fields(s, sep))
  }

  /** No field of Java's `split` contains the separator either. */
  lemma JavaSplitHasNoSeparator(s: string, sep: char)
    ensures forall i :: 0 <= i < |JavaSplit(s, sep)| ==> sep !in JavaSplit(s, sep)[i]
  {
    FieldsHaveNoSeparator(s, sep);
  }

  /** Java's `s.split(sep, n)` for `n >= 1`: at most `n` fields, the last one holds the rest. */
  function SplitLimit(s: string, sep: char, n: nat): (r: seq<string>)
    requires n >= 1
    ensures 1 <= |r| <= n
    decreases n
  {
    if n == 1 then [s]
    else
      var (head, tail) := Cut(s, sep);
      if tail.None? then [head] else [head] + SplitLimit(tail.value, sep, n - 1)
  }

  /** A field followed by a separator is split off the front. */
  lemma FieldsCons(a: string, rest: string, sep: char)
    requires sep !in a
    ensures Fields(a + [sep] + rest, sep) == [a] + Fields(rest, sep)
  {
    CutAt(a, rest, sep);
  }

  /** Text without the separator is a single field. */
  lemma FieldsSingle(a: string, sep: char)
    requires sep !in a
    ensures Fields(a, sep) == [a]
  {
    CutNone(a, sep);
  }

  lemma SplitLimitCons(a: string, rest: string, sep: char, n: nat)
    requires sep !in a && n >= 2
    ensures SplitLimit(a + [sep] + rest, sep, n) == [a] + SplitLimit(rest, sep, n - 1)
  {
    CutAt(a, rest, sep);
  }

  /** Four fields written with separators and split again on every separator come back as they were. */
  lemma FieldsOfFour(a: string, b: string, c: string, d: string, sep: char)
    requires sep !in a && sep !in b && sep !in c && sep !in d
    ensures Fields(a + [sep] + b + [sep] + c + [sep] + d, sep) == [a, b, c, d]
  {
    FieldsSingle(a, sep);
    FieldsSnoc(a, b, sep);
    FieldsSnoc(a + [sep] + b, c, sep);
    FieldsSnoc(a + [sep] + b + [sep] + c, d, sep);
  }

  /** A last field without the separator is appended to the fields before it. */
  lemma {:induction false} FieldsSnoc(x: string, d: string, sep: char)
    requires sep !in d
    ensures Fields(x + [sep] + d, sep) == Fields(x, sep) + [d]
    decreases |x|
  {
    var (h, t) := Cut(x, sep);
    CutSplits(x, sep);
    if t.None? {
      CutNone(x, sep);
      FieldsCons(x, d, sep);
      FieldsSingle(d, sep);
    } else {
      var rest := t.value;
      assert x + [sep] + d == h + [sep] + (rest + [sep] + d);
      FieldsCons(h, rest + [sep] + d, sep);
      FieldsSnoc(rest, d, sep);
    }
  }


  /** Split into at most four fields, the fourth keeps its separators. */
  lemma SplitLimitOfFour(a: string, b: string, c: string, d: string, sep: char)
    requires sep !in a && sep !in b && sep !in c
    ensures SplitLimit(a + [sep] + b + [sep] + c + [sep] + d, sep, 4) == [a, b, c, d]
  {
    var cd := c + [sep] + d;
    var bcd := b + [sep] + cd;
    assert a + [sep] + b + [sep] + c + [sep] + d == a + [sep] + bcd;
    assert SplitLimit(d, sep, 1) == [d];
    SplitLimitCons(c, d, sep, 2);
    SplitLimitCons(b, cd, sep, 3);
    SplitLimitCons(a, bcd, sep, 4);
  }

  /** The last field is not empty when the text does not end with the separator. */
  lemma {:induction false} LastFieldNotEmpty(s: string, sep: char)
    requires |s| > 0 && s[|s| - 1] != sep
    ensures var f := Fields(s, sep); f[|f| - 1] != ""
    decreases |s|
  {
    var (head, tail) := Cut(s, sep);
    CutSplits(s, sep);
    if tail.Some? {
      var t := tail.value;
      assert s == head + [sep] + t;
      assert |t| > 0 && t[|t| - 1] == s[|s| - 1];
      LastFieldNotEmpty(t, sep);
    }
  }

  /** Dropping trailing empty fields only matters for text that ends with the separator. */
  lemma JavaSplitIsFields(s: string, sep: char)
    requires |s| == 0 || s[|s| - 1] != sep
    ensures JavaSplit(s, sep) == Fields(s, sep)
  {
    if sep !in s {
      CutNone(s, sep);
    } else {
      var f := Fields(s, sep);
      LastFieldNotEmpty(s, sep);
      assert DropTrailingEmpty(f) == f;
    }
  }
}

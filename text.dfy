/** The text handling the controller relies on: `str.strip`, `str.lower` on
    source names, substring and suffix tests, Python's `float(text)` on the
    decimal texts users type, and the YYYY-MM-DD form of the Date column. */
module Text {
  import opened Ledger

  // ---------------------------------------------------------------------
  // Whitespace and stripping

  /** The characters `str.isspace` accepts, which `str.strip()` removes at
      both ends: the ASCII controls \t..\r, the information separators
      U+001C..U+001F, the space, and the Unicode spaces and line separators. */
  predicate IsSpace(c: char) {
    '\t' <= c <= '\r' || '\U{001C}' <= c <= ' ' || c == '\U{0085}' || c == '\U{00A0}'
    || c == '\U{1680}' || '\U{2000}' <= c <= '\U{200A}' || c == '\U{2028}' || c == '\U{2029}'
    || c == '\U{202F}' || c == '\U{205F}' || c == '\U{3000}'
  }

  /** The information separators U+001C..U+001F: whitespace to `str.strip`,
      but not to `float`, which skips only the other whitespace. */
  predicate IsInfoSeparator(c: char) {
    '\U{001C}' <= c <= '\U{001F}'
  }

  predicate HasInfoSeparator(s: string) {
    exists i :: 0 <= i < |s| && IsInfoSeparator(s[i])
  }

  predicate AllSpace(s: string) {
    forall i :: 0 <= i < |s| ==> IsSpace(s[i])
  }

  /** `s` without its leading whitespace. */
  function TrimStart(s: string): (r: string)
    ensures |r| <= |s|
    ensures r != [] ==> !IsSpace(r[0])
  {
    if s != [] && IsSpace(s[0]) then TrimStart(s[1..]) else s
  }

  /** What `TrimStart` drops is whitespace, and what it keeps is a suffix. */
  lemma {:induction false} TrimStartSuffix(s: string)
    ensures TrimStart(s) == s[|s| - |TrimStart(s)|..]
    ensures AllSpace(s[..|s| - |TrimStart(s)|])
  {
    if s != [] && IsSpace(s[0]) {
      TrimStartSuffix(s[1..]);
      var k := |s| - |TrimStart(s)|;
      assert s[1..][k - 1..] == s[k..];
      assert forall i :: 0 < i < k ==> s[i] == s[1..][..k - 1][i - 1];
    }
  }

  /** `s` without its trailing whitespace. */
  function TrimEnd(s: string): (r: string)
    ensures |r| <= |s|
    ensures r != [] ==> r[0] == s[0] && !IsSpace(r[|r| - 1])
  {
    if s != [] && IsSpace(s[|s| - 1]) then TrimEnd(s[..|s| - 1]) else s
  }

  /** What `TrimEnd` drops is whitespace, and what it keeps is a prefix. */
  lemma {:induction false} TrimEndPrefix(s: string)
    ensures TrimEnd(s) == s[..|TrimEnd(s)|]
    ensures AllSpace(s[|TrimEnd(s)|..])
  {
    if s != [] && IsSpace(s[|s| - 1]) {
      TrimEndPrefix(s[..|s| - 1]);
      var k := |TrimEnd(s)|;
      assert s[..|s| - 1][..k] == s[..k];
      assert forall i :: k <= i < |s| - 1 ==> s[i] == s[..|s| - 1][k..][i - k];
    }
  }

  /** Python's `str.strip()`: the slice of `s` left after removing the
      whitespace at both ends. */
  function Strip(s: string): (r: string)
    ensures |r| <= |s|
    ensures r != [] ==> !IsSpace(r[0]) && !IsSpace(r[|r| - 1])
  {
    TrimEnd(TrimStart(s))
  }

  /** What `Strip` removes is whitespace, and what it keeps is one slice. */
  lemma StripSlice(s: string)
    ensures exists i :: 0 <= i <= |s| - |Strip(s)| && Strip(s) == s[i..i + |Strip(s)|]
                        && AllSpace(s[..i]) && AllSpace(s[i + |Strip(s)|..])
  {
    var t := TrimStart(s);
    var r := TrimEnd(t);
    TrimStartSuffix(s);
    TrimEndPrefix(t);
    var i := |s| - |t|;
    assert r == s[i..i + |r|];
    assert s[i + |r|..] == t[|r|..];
  }

  /** A text with no whitespace at either end is its own strip. */
  lemma StripUnpadded(s: string)
    requires s != [] && !IsSpace(s[0]) && !IsSpace(s[|s| - 1])
    ensures Strip(s) == s
  {
    assert TrimStart(s) == s;
    assert TrimEnd(s) == s;
  }

  // ---------------------------------------------------------------------
  // Case and substrings

  /** `str.lower` on one character; only ASCII letters are modelled. */
  function LowerChar(c: char): char {
    if 'A' <= c <= 'Z' then (c as int + 32) as char else c
  }

  /** `str.lower`: no capital letter is left, and every other character
      stays where it is. */
  function Lower(s: string): (r: string)
    ensures |r| == |s|
    ensures forall i :: 0 <= i < |r| ==> !('A' <= r[i] <= 'Z')
    ensures forall i :: 0 <= i < |s| && !('A' <= s[i] <= 'Z') ==> r[i] == s[i]
  {
    seq(|s|, i requires 0 <= i < |s| => LowerChar(s[i]))
  }

  /** Lower-casing twice is lower-casing once. */
  lemma LowerIdempotent(s: string)
    ensures Lower(Lower(s)) == Lower(s)
  {
    var t := Lower(s);
    assert forall i :: 0 <= i < |t| ==> Lower(t)[i] == t[i];
  }

  /** Python's `sub in s`. */
  function Contains(s: string, sub: string): bool {
    sub <= s || (s != [] && Contains(s[1..], sub))
  }

  predicate OccursAt(s: string, sub: string, i: int) {
    0 <= i <= |s| - |sub| && s[i..i + |sub|] == sub
  }

  /** `Contains` holds exactly when `sub` occurs at some position of `s`. */
  lemma ContainsOccurrence(s: string, sub: string)
    ensures Contains(s, sub) <==> exists i :: OccursAt(s, sub, i)
  {
    if Contains(s, sub) {
      ContainedOccurs(s, sub);
    }
    if exists i :: OccursAt(s, sub, i) {
      var i :| OccursAt(s, sub, i);
      OccurrenceContained(s, sub, i);
    }
  }

  lemma {:induction false} ContainedOccurs(s: string, sub: string)
    requires Contains(s, sub)
    ensures exists i :: OccursAt(s, sub, i)
  {
    if sub <= s {
      assert OccursAt(s, sub, 0);
    } else {
      ContainedOccurs(s[1..], sub);
      var i :| OccursAt(s[1..], sub, i);
      assert s[i + 1..i + 1 + |sub|] == s[1..][i..i + |sub|];
      assert OccursAt(s, sub, i + 1);
    }
  }

  lemma {:induction false} OccurrenceContained(s: string, sub: string, i: int)
    requires OccursAt(s, sub, i)
    ensures Contains(s, sub)
  {
    if i == 0 {
      assert sub <= s;
    } else {
      assert s[1..][i - 1..i - 1 + |sub|] == s[i..i + |sub|];
      OccurrenceContained(s[1..], sub, i - 1);
    }
  }

  /** Python's `s.endswith(suffix)`. */
  predicate EndsWith(s: string, suffix: string) {
    |suffix| <= |s| && s[|s| - |suffix|..] == suffix
  }

  // ---------------------------------------------------------------------
  // Digits

  predicate IsDigit(c: char) {
    '0' <= c <= '9'
  }

  predicate AllDigits(s: string) {
    forall i :: 0 <= i < |s| ==> IsDigit(s[i])
  }

  function DigitChar(d: nat): (c: char)
    requires d < 10
    ensures IsDigit(c)
  {
    ('0' as int + d) as char
  }

  /** The number a string of decimal digits denotes (0 for the empty string). */
  function DigitsValue(s: string): nat
    requires AllDigits(s)
  {
    if s == [] then 0
    else 10 * DigitsValue(s[..|s| - 1]) + (s[|s| - 1] as int - '0' as int)
  }

  function Pow10(n: nat): (r: nat)
    ensures r > 0
  {
    if n == 0 then 1 else 10 * Pow10(n - 1)
  }

  /** The decimal numeral of `n`, without leading zeros. */
  function NatToString(n: nat): (r: string)
    ensures r != [] && AllDigits(r)
    ensures DigitsValue(r) == n
    decreases n
  {
    if n < 10 then [DigitChar(n)]
    else
      var r := NatToString(n / 10) + [DigitChar(n % 10)];
      assert r[..|r| - 1] == NatToString(n / 10);
      r
  }

  /** Two-digit zero-padded numeral, as `%m` and `%d` print months and days. */
  function Pad2(n: nat): (r: string)
    requires n < 100
    ensures |r| == 2 && AllDigits(r) && DigitsValue(r) == n
  {
    var r := [DigitChar(n / 10), DigitChar(n % 10)];
    assert r[..1] == [DigitChar(n / 10)];
    assert DigitsValue(r[..1]) == n / 10 by {
      assert r[..1][..0] == [];
    }
    r
  }

  /** Position of the first `c` in `s`, or `|s|` when there is none. */
  function IndexOf(s: string, c: char): (r: nat)
    ensures r <= |s|
    ensures forall i :: 0 <= i < r ==> s[i] != c
    ensures r < |s| ==> s[r] == c
  {
    if s == [] then 0
    else if s[0] == c then 0
    else 1 + IndexOf(s[1..], c)
  }

  // ---------------------------------------------------------------------
  // float(text)

  /** The value of the numeral `whole.frac`. */
  function NumeralValue(whole: string, frac: string): real
    requires AllDigits(whole) && AllDigits(frac)
  {
    DigitsValue(whole) as real + DigitsValue(frac) as real / Pow10(|frac|) as real
  }

  /** An unsigned decimal numeral: digits with at most one '.', and at least
      one digit ("12", "12.5", "12.", ".5"). */
  function ParseUnsigned(s: string): (r: Option<real>)
    ensures r.Some? ==> r.value >= 0.0
  {
    var p := IndexOf(s, '.');
    if p == |s| then
      if s != [] && AllDigits(s) then Some(DigitsValue(s) as real) else None
    else
      var whole, frac := s[..p], s[p + 1..];
      if (whole != [] || frac != []) && AllDigits(whole) && AllDigits(frac) then
        Some(NumeralValue(whole, frac))
      else None
  }

  /** Python's `float(text)` on plain decimal notation: surrounding whitespace,
      an optional sign, then an unsigned numeral. `None` is the ValueError;
      an information separator anywhere makes it, since `float` does not skip
      one at the ends and no numeral holds one. Blank text is refused, and
      only a leading minus gives a negative value. */
  function ParseDecimal(text: string): (r: Option<real>)
    ensures r.Some? ==> !HasInfoSeparator(text) && Strip(text) != []
    ensures r.Some? && r.value < 0.0 ==> Strip(text)[0] == '-'
  {
    if HasInfoSeparator(text) then None else ParseSigned(Strip(text))
  }

  /** An optional sign, then an unsigned numeral. */
  function ParseSigned(t: string): (r: Option<real>)
    ensures r.Some? ==> t != []
    ensures r.Some? && r.value < 0.0 ==> t[0] == '-'
  {
    if t != [] && (t[0] == '+' || t[0] == '-') then
      match ParseUnsigned(t[1..])
      case None => None
      case Some(v) => Some(if t[0] == '-' then -v else v)
    else
      ParseUnsigned(t)
  }

  /** Digits, points and minus signs: text no information separator is in. */
  predicate NumeralChars(s: string) {
    forall i :: 0 <= i < |s| ==> IsDigit(s[i]) || s[i] == '.' || s[i] == '-'
  }

  lemma NumeralCharsNoSeparator(s: string)
    requires NumeralChars(s)
    ensures !HasInfoSeparator(s)
  {
    forall i | 0 <= i < |s| ensures !IsInfoSeparator(s[i]) {
      assert IsDigit(s[i]) || s[i] == '.' || s[i] == '-';
    }
  }

  /** In `a + [c] + b` with `a` all digits and `c` not a digit, the first
      `c` is the one after `a`. */
  lemma IndexOfAfterDigits(a: string, c: char, b: string)
    requires AllDigits(a) && !IsDigit(c)
    ensures IndexOf(a + [c] + b, c) == |a|
  {
    var s := a + [c] + b;
    assert s[|a|] == c;
    assert forall i :: 0 <= i < |a| ==> s[i] == a[i];
  }

  lemma UnsignedOfParts(whole: string, frac: string)
    requires whole != [] && AllDigits(whole) && AllDigits(frac)
    ensures ParseUnsigned(whole + "." + frac) == Some(NumeralValue(whole, frac))
  {
    var u := whole + "." + frac;
    var p := IndexOf(u, '.');
    assert p == |whole| by {
      IndexOfAfterDigits(whole, '.', frac);
    }
    assert u[..p] == whole && u[p + 1..] == frac;
  }

  lemma CentsSplit(a: nat)
    ensures NumeralValue(NatToString(a / 100), Pad2(a % 100)) == a as real / 100.0
  {
    var q, m := a / 100, a % 100;
    assert a == 100 * q + m;
    assert a as real == 100.0 * q as real + m as real;
    assert Pow10(2) == 100;
  }

  /** Python's `f"{v:.2f}"` for an amount of `cents` hundredths, as the
      ledger table displays amounts. */
  function FormatCents(cents: int): string {
    var a: nat := if cents < 0 then -cents else cents;
    (if cents < 0 then "-" else "") + UnsignedCents(a)
  }

  function UnsignedCents(a: nat): string {
    NatToString(a / 100) + "." + Pad2(a % 100)
  }

  lemma ParseUnsignedCents(a: nat)
    ensures var u := UnsignedCents(a);
      u != [] && IsDigit(u[0]) && IsDigit(u[|u| - 1]) && ParseUnsigned(u) == Some(a as real / 100.0)
  {
    var whole, frac := NatToString(a / 100), Pad2(a % 100);
    UnsignedOfParts(whole, frac);
    CentsSplit(a);
    var u := whole + "." + frac;
    assert u[0] == whole[0] && u[|u| - 1] == frac[1];
  }

  /** The display of an amount is digits around one point. */
  lemma UnsignedCentsChars(a: nat)
    ensures NumeralChars(UnsignedCents(a))
  {
    var whole, frac := NatToString(a / 100), Pad2(a % 100);
    var u := whole + "." + frac;
    forall i | 0 <= i < |u| ensures IsDigit(u[i]) || u[i] == '.' || u[i] == '-' {
      if i < |whole| {
        assert u[i] == whole[i];
      } else if i > |whole| {
        assert u[i] == frac[i - |whole| - 1];
      }
    }
  }

  lemma DecimalOfUnsigned(t: string)
    requires t != [] && IsDigit(t[0]) && IsDigit(t[|t| - 1]) && NumeralChars(t)
    ensures ParseDecimal(t) == ParseUnsigned(t)
  {
    NumeralCharsNoSeparator(t);
    StripUnpadded(t);
  }

  lemma DecimalOfNegative(u: string, v: real)
    requires u != [] && IsDigit(u[|u| - 1]) && ParseUnsigned(u) == Some(v) && NumeralChars(u)
    ensures ParseDecimal("-" + u) == Some(-v)
  {
    var t := "-" + u;
    assert NumeralChars(t) by {
      assert forall i :: 0 < i < |t| ==> t[i] == u[i - 1];
    }
    NumeralCharsNoSeparator(t);
    assert t[|t| - 1] == u[|u| - 1];
    StripUnpadded(t);
    assert t[1..] == u;
  }

  /** The display has a minus sign exactly for a negative amount, and ends
      in a point and two digits. */
  lemma FormatCentsShape(cents: int)
    ensures var t := FormatCents(cents);
            |t| >= 4 && (t[0] == '-' <==> cents < 0)
            && t[|t| - 3] == '.' && IsDigit(t[|t| - 2]) && IsDigit(t[|t| - 1])
  {
    var a: nat := if cents < 0 then -cents else cents;
    var w, f := NatToString(a / 100), Pad2(a % 100);
    var u := w + "." + f;
    assert u[0] == w[0] && IsDigit(u[0]);
    assert u[|u| - 3] == '.' && u[|u| - 2] == f[0] && u[|u| - 1] == f[1];
    if cents < 0 {
      FormatNegative(cents);
    } else {
      assert FormatCents(cents) == u;
    }
  }

  /** Whitespace around a number, ASCII or not, is skipped, but an
      information separator is not. */
  lemma FloatWhitespaceExamples()
    ensures ParseDecimal("\U{00A0}12 ") == Some(12.0)
    ensures ParseDecimal("\U{001C}12") == None
    ensures ParseDecimal(" ") == None
  {
    var t := "\U{00A0}12 ";
    assert !HasInfoSeparator(t) by {
      assert forall i :: 0 <= i < |t| ==> t[i] == '\U{00A0}' || t[i] == '1' || t[i] == '2' || t[i] == ' ';
    }
    assert Strip(t) == "12";
    assert IndexOf("12", '.') == 2;
    assert DigitsValue("12") == 12 by {
      assert "12"[..1] == "1" && "1"[..0] == [];
    }
    assert "\U{001C}12"[0] == '\U{001C}';
    assert Strip(" ") == [];
  }

  /** `str.strip` removes Unicode spaces, like the no-break space. */
  lemma StripExamples()
    ensures Strip("\U{00A0}Visa\U{3000}") == "Visa"
    ensures Strip("\U{001C}") == []
  {
  }

  /** Reading back a displayed amount gives the amount: the round trip
      between the table's two-decimal display and `float`. */
  lemma ParseFormatCents(cents: int)
    ensures ParseDecimal(FormatCents(cents)) == Some(cents as real / 100.0)
  {
    if cents < 0 {
      ParseFormatNegativeCents(cents);
    } else {
      ParseFormatUnsignedCents(cents);
    }
  }

  lemma ParseFormatUnsignedCents(a: nat)
    ensures ParseDecimal(FormatCents(a)) == Some(a as real / 100.0)
  {
    var u := UnsignedCents(a);
    assert FormatCents(a) == u;
    ParseUnsignedCents(a);
    UnsignedCentsChars(a);
    DecimalOfUnsigned(u);
  }

  lemma ParseFormatNegativeCents(cents: int)
    requires cents < 0
    ensures ParseDecimal(FormatCents(cents)) == Some(cents as real / 100.0)
  {
    FormatNegative(cents);
    NegatedCentsText(cents);
    UnsignedCentsChars(-cents);
    DecimalOfNegativeText(FormatCents(cents), UnsignedCents(-cents), cents as real / 100.0);
  }

  lemma FormatNegative(cents: int)
    requires cents < 0
    ensures FormatCents(cents) == "-" + UnsignedCents(-cents)
  {
  }

  lemma NegatedCentsText(cents: int)
    requires cents < 0
    ensures UnsignedCents(-cents) != [] && IsDigit(UnsignedCents(-cents)[|UnsignedCents(-cents)| - 1])
    ensures ParseUnsigned(UnsignedCents(-cents)) == Some(-(cents as real / 100.0))
  {
    var a: nat := -cents;
    var v := a as real / 100.0;
    assert ParseUnsigned(UnsignedCents(a)) == Some(v) by {
      ParseUnsignedCents(a);
    }
    assert v == -(cents as real / 100.0);
  }

  lemma DecimalOfNegativeText(t: string, u: string, v: real)
    requires t == "-" + u && u != [] && IsDigit(u[|u| - 1]) && ParseUnsigned(u) == Some(-v) && NumeralChars(u)
    ensures ParseDecimal(t) == Some(v)
  {
    DecimalOfNegative(u, -v);
  }

  // ---------------------------------------------------------------------
  // Dates

  /** A date typed as YYYY-MM-DD (surrounding whitespace allowed): three
      non-empty digit groups, a month in 1..12 and a day in 1..31. */
  function ParseDate(text: string): Option<Date> {
    var t := Strip(text);
    var p := IndexOf(t, '-');
    if p == |t| then None else ParseMonthDay(t[..p], t[p + 1..])
  }

  /** The rest of a date after the year group and its '-'. */
  function ParseMonthDay(y: string, rest: string): Option<Date> {
    var q := IndexOf(rest, '-');
    if q == |rest| then None else DateOfGroups(y, rest[..q], rest[q + 1..])
  }

  function DateOfGroups(y: string, m: string, d: string): Option<Date> {
    if y != [] && m != [] && d != [] && AllDigits(y) && AllDigits(m) && AllDigits(d)
       && 1 <= DigitsValue(m) <= 12 && 1 <= DigitsValue(d) <= 31
    then Some(Date(DigitsValue(y), DigitsValue(m), DigitsValue(d)))
    else None
  }

  /** `strftime("%Y-%m-%d")` for a date of a non-negative year. */
  function FormatDate(d: Date): string
    requires d.year >= 0
  {
    NatToString(d.year) + "-" + Pad2(d.month) + "-" + Pad2(d.day)
  }

  /** The two sides of a separator are recovered by slicing. */
  lemma SplitAround(a: string, c: char, b: string)
    ensures (a + [c] + b)[..|a|] == a && (a + [c] + b)[|a| + 1..] == b
  {
  }

  lemma ParseDateParts(y: string, m: string, dd: string)
    requires y != [] && m != [] && dd != [] && AllDigits(y) && AllDigits(m) && AllDigits(dd)
    ensures ParseDate(y + "-" + m + "-" + dd) == DateOfGroups(y, m, dd)
  {
    var rest := m + "-" + dd;
    var t := y + "-" + rest;
    assert t == y + "-" + m + "-" + dd;
    assert Strip(t) == t by {
      assert t[0] == y[0] && t[|t| - 1] == dd[|dd| - 1];
      StripUnpadded(t);
    }
    assert IndexOf(t, '-') == |y| by {
      IndexOfAfterDigits(y, '-', rest);
    }
    SplitAround(y, '-', rest);
    ParseMonthDayParts(y, m, dd);
  }

  lemma ParseMonthDayParts(y: string, m: string, dd: string)
    requires AllDigits(m)
    ensures ParseMonthDay(y, m + "-" + dd) == DateOfGroups(y, m, dd)
  {
    IndexOfAfterDigits(m, '-', dd);
    SplitAround(m, '-', dd);
  }

  /** Every date the ledger shows in YYYY-MM-DD form is read back as itself. */
  lemma ParseFormatDate(d: Date)
    requires d.year >= 0
    ensures ParseDate(FormatDate(d)) == Some(d)
  {
    ParseDateParts(NatToString(d.year), Pad2(d.month), Pad2(d.day));
  }
}

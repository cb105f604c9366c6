/**
 * Calendar dates as Python's `datetime` sees them: `strptime(s, "%d %B %Y")`
 * with English month names and `strftime("%Y-%m-%d")`.
 */
module Calendar {
  import opened Wrappers
  import opened Text

  datatype Date = Date(year: int, month: int, day: int)

  /** Gregorian leap years. */
  predicate IsLeapYear(y: int) {
    y % 4 == 0 && (y % 100 != 0 || y % 400 == 0)
  }

  function DaysInMonth(y: int, m: int): (n: int)
    requires 1 <= m <= 12
    ensures 28 <= n <= 31
    ensures n == 29 <==> m == 2 && IsLeapYear(y)
  {
    if m == 2 then (if IsLeapYear(y) then 29 else 28)
    else if m == 4 || m == 6 || m == 9 || m == 11 then 30
    else 31
  }

  /** The dates `datetime.date` can represent (years 1 to 9999). */
  predicate ValidDate(d: Date) {
    1 <= d.year <= 9999 && 1 <= d.month <= 12 && 1 <= d.day <= DaysInMonth(d.year, d.month)
  }

  function DigitValue(c: char): (n: nat)
    requires IsDigit(c)
    ensures n < 10
  {
    c as int - '0' as int
  }

  function DigitChar(n: nat): (c: char)
    requires n < 10
    ensures IsDigit(c) && DigitValue(c) == n
  {
    ('0' as int + n) as char
  }

  predicate AllDigits(s: string) {
    forall k :: 0 <= k < |s| ==> IsDigit(s[k])
  }

  /** The value of a string of decimal digits. */
  function Number(s: string): nat
    requires AllDigits(s)
  {
    if s == [] then 0 else 10 * Number(s[..|s| - 1]) + DigitValue(s[|s| - 1])
  }

  function Pow10(n: nat): (p: nat)
    ensures p >= 1
  {
    if n == 0 then 1 else 10 * Pow10(n - 1)
  }

  /** `n` written with exactly `width` decimal digits, zero-padded on the left. */
  function Pad(n: nat, width: nat): (s: string)
    requires n < Pow10(width)
    ensures |s| == width && AllDigits(s) && Number(s) == n
  {
    if width == 0 then []
    else
      var s := Pad(n / 10, width - 1) + [DigitChar(n % 10)];
      assert s[..|s| - 1] == Pad(n / 10, width - 1);
      s
  }

  /** Full English month names in lower case; `%B` compares them without regard to case. */
  function MonthName(m: nat): (name: string)
    requires 1 <= m <= 12
    ensures |name| >= 3 && forall k :: 0 <= k < |name| ==> 'a' <= name[k] <= 'z'
  {
    if m == 1 then "january" else if m == 2 then "february" else if m == 3 then "march"
    else if m == 4 then "april" else if m == 5 then "may" else if m == 6 then "june"
    else if m == 7 then "july" else if m == 8 then "august" else if m == 9 then "september"
    else if m == 10 then "october" else if m == 11 then "november" else "december"
  }

  /** The month whose name begins with the three lower-case letters `c0 c1 c2`, 0 for none. */
  function MonthOfPrefix(c0: char, c1: char, c2: char): (m: nat)
    ensures m <= 12
  {
    if c0 == 'j' then
      (if c1 == 'a' && c2 == 'n' then 1 else if c1 == 'u' && c2 == 'n' then 6 else if c1 == 'u' && c2 == 'l' then 7 else 0)
    else if c0 == 'f' then (if c1 == 'e' && c2 == 'b' then 2 else 0)
    else if c0 == 'm' then
      (if c1 == 'a' && c2 == 'r' then 3 else if c1 == 'a' && c2 == 'y' then 5 else 0)
    else if c0 == 'a' then
      (if c1 == 'p' && c2 == 'r' then 4 else if c1 == 'u' && c2 == 'g' then 8 else 0)
    else if c0 == 's' then (if c1 == 'e' && c2 == 'p' then 9 else 0)
    else if c0 == 'o' then (if c1 == 'c' && c2 == 't' then 10 else 0)
    else if c0 == 'n' then (if c1 == 'o' && c2 == 'v' then 11 else 0)
    else if c0 == 'd' then (if c1 == 'e' && c2 == 'c' then 12 else 0)
    else 0
  }

  /** The first three letters of a month name identify the month. */
  lemma MonthPrefixIdentifies(m: nat)
    requires 1 <= m <= 12
    ensures var n := MonthName(m); MonthOfPrefix(n[0], n[1], n[2]) == m
  {
  }

  /** Whichever month name is spelled at `p`, its first three letters name it. */
  lemma PrefixDecides(t: string, p: nat)
    ensures forall m :: 1 <= m <= 12 && LitAt(t, p, MonthName(m)) ==>
      p + 3 <= |t| && MonthOfPrefix(ToLower(t[p]), ToLower(t[p + 1]), ToLower(t[p + 2])) == m
  {
    forall m | 1 <= m <= 12 && LitAt(t, p, MonthName(m))
      ensures p + 3 <= |t| && MonthOfPrefix(ToLower(t[p]), ToLower(t[p + 1]), ToLower(t[p + 2])) == m
    {
      var n := MonthName(m);
      assert ToLower(t[p + 0]) == n[0] && ToLower(t[p + 1]) == n[1] && ToLower(t[p + 2]) == n[2];
      MonthPrefixIdentifies(m);
    }
  }

  /**
   * `%B` at position `p`: the number of the month whose full name is spelled
   * there in any letter case.  No month name is a prefix of another, so at
   * most one can match.
   */
  function MonthAt(t: string, p: nat): (r: Option<nat>)
    ensures r.Some? ==> 1 <= r.value <= 12 && LitAt(t, p, MonthName(r.value))
    ensures r.None? ==> forall m :: 1 <= m <= 12 ==> !LitAt(t, p, MonthName(m))
  {
    PrefixDecides(t, p);
    if p + 3 > |t| then None
    else
      var m := MonthOfPrefix(ToLower(t[p]), ToLower(t[p + 1]), ToLower(t[p + 2]));
      if 1 <= m && LitAt(t, p, MonthName(m)) then Some(m) else None
  }

  datatype DayToken = DayToken(value: nat, len: nat)

  /**
   * `%d` at the start of `t`: the regular expression
   * `3[01]|[12]\d|0[1-9]|[1-9]| [1-9]`, whose first applicable alternative is
   * final because `\s+` follows it and a shorter choice leaves a digit there.
   */
  function ParseDay(t: string): (r: Option<DayToken>)
    ensures r.Some? ==> 1 <= r.value.value <= 31 && 1 <= r.value.len <= 2 && r.value.len <= |t|
  {
    if |t| >= 2 && t[0] == '3' && (t[1] == '0' || t[1] == '1') then Some(DayToken(30 + DigitValue(t[1]), 2))
    else if |t| >= 2 && (t[0] == '1' || t[0] == '2') && IsDigit(t[1]) then Some(DayToken(10 * DigitValue(t[0]) + DigitValue(t[1]), 2))
    else if |t| >= 2 && t[0] == '0' && '1' <= t[1] <= '9' then Some(DayToken(DigitValue(t[1]), 2))
    else if |t| >= 1 && '1' <= t[0] <= '9' then Some(DayToken(DigitValue(t[0]), 1))
    else if |t| >= 2 && t[0] == ' ' && '1' <= t[1] <= '9' then Some(DayToken(DigitValue(t[1]), 2))
    else None
  }

  /**
   * `datetime.strptime(t, "%d %B %Y")`: day, whitespace, month name,
   * whitespace, four-digit year, and nothing after it; `None` where Python
   * raises `ValueError` (no match, data left over, or a date that does not
   * exist).
   */
  function Strptime(t: string): (r: Option<Date>)
    ensures r.Some? ==> ValidDate(r.value)
  {
    match ParseDay(t)
    case None => None
    case Some(dt) => MonthAndYear(t, dt.len, dt.value)
  }

  /** The part of `Strptime` after a day token that ends at `p`. */
  function MonthAndYear(t: string, p: nat, day: nat): (r: Option<Date>)
    requires p <= |t|
    ensures r.Some? ==> ValidDate(r.value)
  {
    var r1 := Run(Space, t, p);
    if r1 == 0 then None else NameAndYear(t, p + r1, day)
  }

  /** The part of `Strptime` from the month name, which starts at `q`. */
  function NameAndYear(t: string, q: nat, day: nat): (r: Option<Date>)
    requires q <= |t|
    ensures r.Some? ==> ValidDate(r.value)
  {
    match MonthAt(t, q)
    case None => None
    case Some(month) => Year(t, q + |MonthName(month)|, month, day)
  }

  /** The part of `Strptime` after the month name, which ends at `p`. */
  function Year(t: string, p: nat, month: nat, day: nat): (r: Option<Date>)
    requires p <= |t|
    ensures r.Some? ==> ValidDate(r.value)
  {
    var q := p + Run(Space, t, p);
    if q == p || q + 4 != |t| || !(IsDigit(t[q]) && IsDigit(t[q + 1]) && IsDigit(t[q + 2]) && IsDigit(t[q + 3])) then None
    else
      var d := Date(FourDigits(t[q], t[q + 1], t[q + 2], t[q + 3]), month, day);
      if ValidDate(d) then Some(d) else None
  }

  /** `%Y`: the value of four decimal digits. */
  function FourDigits(a: char, b: char, c: char, d: char): nat
    requires IsDigit(a) && IsDigit(b) && IsDigit(c) && IsDigit(d)
  {
    1000 * DigitValue(a) + 100 * DigitValue(b) + 10 * DigitValue(c) + DigitValue(d)
  }

  lemma NumberOfFour(s: string)
    requires |s| == 4 && AllDigits(s)
    ensures Number(s) == FourDigits(s[0], s[1], s[2], s[3])
  {
    var s3, s2, s1 := s[..3], s[..2], s[..1];
    assert s3[..2] == s2 && s2[..1] == s1 && s1[..0] == [];
    assert Number(s1) == DigitValue(s[0]);
    assert Number(s2) == 10 * DigitValue(s[0]) + DigitValue(s[1]);
    assert Number(s3) == 100 * DigitValue(s[0]) + 10 * DigitValue(s[1]) + DigitValue(s[2]);
  }

  /** A string in the form `YYYY-MM-DD` naming a date that exists. */
  predicate IsIsoDate(s: string) {
    && |s| == 10 && s[4] == '-' && s[7] == '-'
    && AllDigits(s[..4]) && AllDigits(s[5..7]) && AllDigits(s[8..])
    && ValidDate(Date(Number(s[..4]), Number(s[5..7]), Number(s[8..])))
  }

  /** `strftime("%Y-%m-%d")`; it names back the date it was given. */
  function Iso(d: Date): (s: string)
    requires ValidDate(d)
    ensures IsIsoDate(s)
    ensures Date(Number(s[..4]), Number(s[5..7]), Number(s[8..])) == d
  {
    var y, m, dd := Pad(d.year, 4), Pad(d.month, 2), Pad(d.day, 2);
    var s := y + "-" + m + "-" + dd;
    assert s[..4] == y by { assert |y| == 4; Parts(y, "-" + m + "-" + dd); assert s == y + ("-" + m + "-" + dd); }
    assert s[5..7] == m by { Parts(y + "-", m + "-" + dd); Parts(m, "-" + dd); assert s == (y + "-") + (m + ("-" + dd)); }
    assert s[8..] == dd by { Parts(y + "-" + m + "-", dd); }
    s
  }

  /** The two halves of a concatenation. */
  lemma Parts(a: string, b: string)
    ensures (a + b)[..|a|] == a && (a + b)[|a|..] == b
  {
  }

  /** The day of the month as people write it: no leading zero. */
  function DayText(day: nat): (s: string)
    requires 1 <= day <= 31
    ensures 1 <= |s| <= 2 && AllDigits(s) && Number(s) == day && s[0] != '0'
  {
    if day < 10 then Pad(day, 1)
    else
      var s := Pad(day, 2);
      assert s[..1] == [s[0]];
      s
  }

  /** A day written without a leading zero and followed by something other than a digit is read by `%d`. */
  lemma DayTextParses(t: string, ds: string, day: nat)
    requires 1 <= day <= 31 && 1 <= |ds| <= 2 && AllDigits(ds) && Number(ds) == day && ds[0] != '0'
    requires |ds| < |t| && !IsDigit(t[|ds|]) && forall k :: 0 <= k < |ds| ==> t[k] == ds[k]
    ensures ParseDay(t) == Some(DayToken(day, |ds|))
  {
    assert t[0] == ds[0];
    if |ds| == 2 {
      assert t[1] == ds[1];
      assert ds[..1] == [ds[0]];
      assert Number(ds) == 10 * DigitValue(ds[0]) + DigitValue(ds[1]);
    } else {
      assert !IsDigit(t[1]);
      assert Number(ds) == DigitValue(ds[0]);
    }
  }

  /** A month name spelled in any letter case at `p` is recognised as that month. */
  lemma MonthNameRecognised(t: string, p: nat, month: nat, name: string)
    requires 1 <= month <= 12
    requires |name| == |MonthName(month)| && LitAt(name, 0, MonthName(month))
    requires p + |name| <= |t| && forall k :: 0 <= k < |name| ==> t[p + k] == name[k]
    ensures MonthAt(t, p) == Some(month)
  {
    assert LitAt(t, p, MonthName(month));
    PrefixDecides(t, p);
  }

  /**
   * `%B` on a word that spells no full month name, in any letter case, and
   * is followed by a space: a month name that is a prefix of the word leaves
   * a word character where whitespace must come, a longer one would need a
   * letter where the space is, and one of the same length would be the
   * word; so the parse fails.
   */
  lemma UnknownMonthFails(t: string, q: nat, w: string, day: nat)
    requires q + |w| < |t| && t[q + |w|] == ' ' && forall k :: 0 <= k < |w| ==> t[q + k] == w[k]
    requires forall k :: 0 <= k < |w| ==> IsWordChar(w[k])
    requires forall m :: 1 <= m <= 12 ==> !(|w| == |MonthName(m)| && LitAt(w, 0, MonthName(m)))
    ensures NameAndYear(t, q, day) == None
  {
    match MonthAt(t, q)
    case None =>
    case Some(m) =>
      var n := MonthName(m);
      MonthFitsWord(t, q, |w|, m);
      if |n| < |w| {
        assert t[q + |n|] == w[|n|];
        RunExact(Space, t, q + |n|, 0);
      } else if |n| == |w| {
        forall k | 0 <= k < |n| ensures ToLower(w[0 + k]) == n[k] {
          assert ToLower(t[q + k]) == n[k];
        }
        assert LitAt(w, 0, n);
      }
  }

  /** A month name spelled at `q` ends by the first space after it. */
  lemma MonthFitsWord(t: string, q: nat, len: nat, m: nat)
    requires 1 <= m <= 12 && q + len < |t| && t[q + len] == ' '
    ensures LitAt(t, q, MonthName(m)) ==> |MonthName(m)| <= len
  {
    var n := MonthName(m);
    if |n| > len {
      assert 'a' <= n[len] <= 'z';
      LitChar(t, q, n, q + len);
      assert q + len - q == len;
    }
  }

  /** The year part of `Strptime`: one space and four digits ending the text. */
  lemma YearStep(t: string, p: nat, ys: string, year: nat, month: nat, day: nat)
    requires 1 <= month <= 12 && |ys| == 4 && AllDigits(ys) && Number(ys) == year
    requires p + 5 == |t| && t[p] == ' ' && forall k :: 0 <= k < 4 ==> t[p + 1 + k] == ys[k]
    ensures Year(t, p, month, day) == (if ValidDate(Date(year, month, day)) then Some(Date(year, month, day)) else None)
  {
    assert t[p + 1] == ys[0] && t[p + 2] == ys[1] && t[p + 3] == ys[2] && t[p + 4] == ys[3] by {
      assert t[p + 1 + 0] == ys[0] && t[p + 1 + 1] == ys[1] && t[p + 1 + 2] == ys[2] && t[p + 1 + 3] == ys[3];
    }
    RunExact(Space, t, p, 1);
    NumberOfFour(ys);
  }

  /** The month part of `Strptime`: one space and the month's name. */
  lemma MonthStep(t: string, p: nat, month: nat, name: string, day: nat)
    requires 1 <= month <= 12
    requires |name| == |MonthName(month)| && LitAt(name, 0, MonthName(month))
    requires p + 1 + |name| <= |t| && t[p] == ' ' && forall k :: 0 <= k < |name| ==> t[p + 1 + k] == name[k]
    ensures MonthAndYear(t, p, day) == Year(t, p + 1 + |name|, month, day)
  {
    assert t[p + 1 + 0] == name[0];
    assert ToLower(name[0]) == MonthName(month)[0];
    RunExact(Space, t, p, 1);
    MonthNameRecognised(t, p + 1, month, name);
    SpaceThenMonth(t, p, month, day);
  }

  /** One space and a month name: what follows is the year part. */
  lemma SpaceThenMonth(t: string, p: nat, month: nat, day: nat)
    requires 1 <= month <= 12 && p + 1 <= |t| && Run(Space, t, p) == 1 && MonthAt(t, p + 1) == Some(month)
    ensures p + 1 + |MonthName(month)| <= |t|
    ensures MonthAndYear(t, p, day) == Year(t, p + 1 + |MonthName(month)|, month, day)
  {
    MonthThenYear(t, p + 1, month, day);
  }

  lemma MonthThenYear(t: string, q: nat, month: nat, day: nat)
    requires 1 <= month <= 12 && q <= |t| && MonthAt(t, q) == Some(month)
    ensures NameAndYear(t, q, day) == Year(t, q + |MonthName(month)|, month, day)
  {
  }

  /** Where the pieces of "<day> <name> <year>" sit. */
  lemma Layout(ds: string, name: string, ys: string)
    ensures var t := ds + " " + name + " " + ys; var yp := |ds| + 1 + |name|;
      && |t| == yp + 1 + |ys| && t[|ds|] == ' ' && t[yp] == ' '
      && (forall k :: 0 <= k < |ds| ==> t[k] == ds[k])
      && (forall k :: 0 <= k < |name| ==> t[|ds| + 1 + k] == name[k])
      && (forall k :: 0 <= k < |ys| ==> t[yp + 1 + k] == ys[k])
  {
  }

  /** The first stage of `Strptime`: a day token followed by the rest. */
  lemma DayStep(t: string, day: nat, n: nat)
    requires ParseDay(t) == Some(DayToken(day, n))
    ensures Strptime(t) == MonthAndYear(t, n, day)
  {
  }

  /**
   * A date written as "<day> <Month> <year>" (the month name in any letter
   * case) is read back exactly when that day exists in that month; otherwise
   * the parse fails.
   */
  lemma SpokenDateParses(day: nat, month: nat, year: nat, name: string)
    requires 1 <= day <= 31 && 1 <= month <= 12 && year <= 9999
    requires |name| == |MonthName(month)| && LitAt(name, 0, MonthName(month))
    ensures Strptime(DayText(day) + " " + name + " " + Pad(year, 4))
         == (if ValidDate(Date(year, month, day)) then Some(Date(year, month, day)) else None)
  {
    var ds, ys := DayText(day), Pad(year, 4);
    var t := ds + " " + name + " " + ys;
    Layout(ds, name, ys);
    DayTextParses(t, ds, day);
    DayStep(t, day, |ds|);
    MonthAndYearReads(t, ds, day, month, year, name, ys);
  }

  lemma MonthAndYearReads(t: string, ds: string, day: nat, month: nat, year: nat, name: string, ys: string)
    requires 1 <= |ds| < |t| && 1 <= month <= 12 && |name| == |MonthName(month)| && LitAt(name, 0, MonthName(month))
    requires |ys| == 4 && AllDigits(ys) && Number(ys) == year
    requires var n := |ds|; var yp := n + 1 + |name|;
      && |t| == yp + 5 && t[n] == ' ' && t[yp] == ' '
      && (forall k :: 0 <= k < |name| ==> t[n + 1 + k] == name[k])
      && (forall k :: 0 <= k < 4 ==> t[yp + 1 + k] == ys[k])
    ensures MonthAndYear(t, |ds|, day) == (if ValidDate(Date(year, month, day)) then Some(Date(year, month, day)) else None)
  {
    MonthStep(t, |ds|, month, name, day);
    YearStep(t, |ds| + 1 + |name|, ys, year, month, day);
  }
}

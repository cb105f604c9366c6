/**
 * What the date field reads back from a message that carries
 * "<label><day><suffix> <Month> <year>", the label being "Today's date is "
 * or "Date: " or "Date- ": the pattern's group, the ordinal clean-up and
 * the `%d %B %Y` parse, each stage stated on its own.
 */
module DateReadback {
  import opened Wrappers
  import opened Text
  import opened Calendar
  import opened Patterns
  import opened Extractor
  import opened Readback

  /** No decimal digit anywhere in `s`. */
  predicate NoDigits(s: string) {
    forall k :: 0 <= k < |s| ==> !IsDigit(s[k])
  }

  /** The labels the date pattern accepts, as they are usually written. */
  predicate DateLabel(intro: string) {
    intro == "Today's date is " || intro == "Date: " || intro == "Date- "
  }

  /** The text opens with a prefix without digits and then a date label. */
  predicate AfterPrefix(t: string, pre: string, intro: string) {
    NoDigits(pre) && DateLabel(intro) && HoldsAt(t, 0, pre) && HoldsAt(t, |pre|, intro)
  }

  /** Digits of a day with an optional suffix, a word, and four digits of a year. */
  predicate DatePieces(ds: string, sfx: string, name: string, ys: string) {
    && 1 <= |ds| <= 2 && AllDigits(ds) && |ys| == 4 && AllDigits(ys)
    && name != [] && (forall k :: 0 <= k < |name| ==> IsWordChar(name[k]))
    && (sfx == [] || (|sfx| == 2 && OrdinalAt(sfx, 0)))
  }

  /** The pieces of a date group written into `t` from `s` on, a space between the day and the word and another before the year. */
  predicate GroupAt(t: string, s: nat, ds: string, sfx: string, name: string, ys: string) {
    var q := s + |ds| + |sfx|;
    && q + 2 + |name| + |ys| <= |t|
    && HoldsAt(t, s, ds) && HoldsAt(t, s + |ds|, sfx) && t[q] == ' '
    && HoldsAt(t, q + 1, name) && t[q + 1 + |name|] == ' ' && HoldsAt(t, q + 2 + |name|, ys)
  }

  /** A word that is no full English month name in any letter case. */
  predicate NoMonthName(w: string) {
    forall m :: 1 <= m <= 12 ==> !(|w| == |MonthName(m)| && LitAt(w, 0, MonthName(m)))
  }

  /**
   * "<label><day><suffix> <Month> <year>" after text without digits: the ISO
   * date when the suffix is absent or in lower case and the day exists, and
   * `""` otherwise.  The pattern accepts an upper-case suffix, but the
   * ordinal clean-up does not remove it, and the date parse then fails on
   * it.  Whatever follows the year does not matter.
   */
  lemma DateReadBack(pre: string, intro: string, day: nat, month: nat, year: nat, name: string, sfx: string, rest: string)
    requires NoDigits(pre) && DateLabel(intro)
    requires 1 <= day <= 31 && 1 <= month <= 12 && year <= 9999
    requires |name| == |MonthName(month)| && LitAt(name, 0, MonthName(month))
    requires sfx == [] || (|sfx| == 2 && OrdinalAt(sfx, 0))
    ensures DateField(pre + intro + (DayText(day) + sfx + " " + name + " " + Pad(year, 4)) + rest)
         == if (sfx == [] || SuffixAt(sfx, 0)) && ValidDate(Date(year, month, day)) then Iso(Date(year, month, day)) else ""
  {
    DateValue(day, month, year, name, sfx);
    MonthNameIsWord(name, month);
    var v := if (sfx == [] || SuffixAt(sfx, 0)) && ValidDate(Date(year, month, day)) then Some(Date(year, month, day)) else None;
    DateReadBackFor(pre, intro, DayText(day), sfx, name, Pad(year, 4), rest, v);
  }

  /**
   * A date whose month word spells no full month name, such as "31 Junes
   * 2025": the pattern still matches it, the parse fails, and the field is
   * `""`.
   */
  lemma UnknownMonthBlank(pre: string, intro: string, day: nat, w: string, year: nat, rest: string)
    requires NoDigits(pre) && DateLabel(intro)
    requires 1 <= day <= 31 && year <= 9999
    requires w != [] && (forall k :: 0 <= k < |w| ==> IsWordChar(w[k])) && NoDigits(w) && NoMonthName(w)
    ensures DateField(pre + intro + (DayText(day) + " " + w + " " + Pad(year, 4)) + rest) == ""
  {
    var ds, ys := DayText(day), Pad(year, 4);
    UnknownMonthValue(ds, day, w, ys);
    NoSuffix(ds, w, ys);
    DateReadBackFor(pre, intro, ds, [], w, ys, rest, None);
  }

  /** The parse of "<day> <word> <year>" fails when the word is no month name. */
  lemma UnknownMonthValue(ds: string, day: nat, w: string, ys: string)
    requires 1 <= day <= 31 && ds == DayText(day) && |ys| == 4 && AllDigits(ys)
    requires w != [] && (forall k :: 0 <= k < |w| ==> IsWordChar(w[k])) && NoDigits(w) && NoMonthName(w)
    ensures Strptime(StripOrdinals(Trim(ds + " " + w + " " + ys))) == None
  {
    PlainDateKept(ds, w, ys);
    UnknownMonthParse(ds, day, w, ys);
  }

  /** A date group without a suffix. */
  lemma NoSuffix(ds: string, w: string, ys: string)
    ensures ds + " " + w + " " + ys == ds + [] + " " + w + " " + ys
  {
    assert ds + [] == ds;
  }

  /** The clean-up and the trim keep "<day> <word> <year>" as it is when the word has no digits. */
  lemma PlainDateKept(ds: string, w: string, ys: string)
    requires 1 <= |ds| && AllDigits(ds) && |ys| == 4 && AllDigits(ys) && NoDigits(w)
    ensures StripOrdinals(Trim(ds + " " + w + " " + ys)) == ds + " " + w + " " + ys
  {
    var u := " " + w + " " + ys;
    Regroup(ds, " ", w, " ", ys);
    EndsTrimmed(ds + u, ds[0], ys[3]);
    PlainStrip(ds, u, w, ys);
  }

  /** A text that begins and ends with characters that are not whitespace is kept by the trim. */
  lemma EndsTrimmed(g: string, first: char, last: char)
    requires g != [] && g[0] == first && g[|g| - 1] == last && !IsSpace(first) && !IsSpace(last)
    ensures Trim(g) == g
  {
    TrimOfTrimmed(g);
  }

  lemma PlainStrip(ds: string, u: string, w: string, ys: string)
    requires 1 <= |ds| && AllDigits(ds) && |ys| == 4 && AllDigits(ys) && NoDigits(w)
    requires u == " " + w + " " + ys
    ensures StripOrdinals(ds + u) == ds + u
  {
    UnitsKept(u, w, ys);
    DayThenKept(ds, u);
  }

  lemma UnitsKept(u: string, w: string, ys: string)
    requires u == " " + w + " " + ys && |ys| == 4 && AllDigits(ys) && NoDigits(w)
    ensures StripOrdinals(u) == u && u != [] && u[0] == ' '
  {
    DateUnits(u, w, ys);
    StripKeeps(u);
  }

  /** A day in front of a space and a text the clean-up keeps: all of it is kept. */
  lemma DayThenKept(ds: string, u: string)
    requires 1 <= |ds| && AllDigits(ds) && u != [] && u[0] == ' ' && StripOrdinals(u) == u
    ensures StripOrdinals(ds + u) == ds + u
  {
    assert !SuffixAt(u, 0) by { if SuffixAt(u, 0) { SuffixStarts(u, 0); } }
    StripDayThen(ds, u, 0);
    assert u[0..] == u;
  }

  lemma UnknownMonthParse(ds: string, day: nat, w: string, ys: string)
    requires 1 <= day <= 31 && ds == DayText(day) && |ys| == 4 && AllDigits(ys)
    requires w != [] && (forall k :: 0 <= k < |w| ==> IsWordChar(w[k])) && NoMonthName(w)
    ensures Strptime(ds + " " + w + " " + ys) == None
  {
    var g := ds + " " + w + " " + ys;
    Layout(ds, w, ys);
    DayTextParses(g, ds, day);
    UnknownAfterDay(g, |ds|, w, day);
    DayStep(g, day, |ds|);
  }

  /** After the day: one space and a word that is no month name. */
  lemma UnknownAfterDay(t: string, p: nat, w: string, day: nat)
    requires p + 1 + |w| < |t| && t[p] == ' ' && t[p + 1 + |w|] == ' ' && forall k :: 0 <= k < |w| ==> t[p + 1 + k] == w[k]
    requires w != [] && (forall k :: 0 <= k < |w| ==> IsWordChar(w[k])) && NoMonthName(w)
    ensures MonthAndYear(t, p, day) == None
  {
    SpaceThenWord(t, p, w);
    UnknownMonthFails(t, p + 1, w, day);
  }

  /** One space and then a word: the month part of the parse starts at the word. */
  lemma SpaceThenWord(t: string, p: nat, w: string)
    requires p + 1 + |w| <= |t| && t[p] == ' ' && w != [] && IsWordChar(w[0])
    requires forall k :: 0 <= k < |w| ==> t[p + 1 + k] == w[k]
    ensures forall day :: MonthAndYear(t, p, day) == NameAndYear(t, p + 1, day)
  {
    assert t[p + 1 + 0] == w[0];
    RunExact(Space, t, p, 1);
  }

  /** A month name in any letter case is made of word characters. */
  lemma MonthNameIsWord(name: string, month: nat)
    requires 1 <= month <= 12 && |name| == |MonthName(month)| && LitAt(name, 0, MonthName(month))
    ensures name != [] && (forall k :: 0 <= k < |name| ==> IsWordChar(name[k])) && NoDigits(name)
  {
    forall k | 0 <= k < |name| ensures IsWordChar(name[k]) && !IsDigit(name[k]) {
      assert ToLower(name[0 + k]) == MonthName(month)[k];
    }
  }

  /**
   * The same, for any digits of a day and a year, any word in the month's
   * place and the date the group is read as.
   */
  lemma DateReadBackFor(pre: string, intro: string, ds: string, sfx: string, name: string, ys: string, rest: string, v: Option<Date>)
    requires NoDigits(pre) && DateLabel(intro) && DatePieces(ds, sfx, name, ys)
    requires Strptime(StripOrdinals(Trim(ds + sfx + " " + name + " " + ys))) == v
    ensures DateField(pre + intro + (ds + sfx + " " + name + " " + ys) + rest) == match v case None => "" case Some(d) => Iso(d)
  {
    var g := ds + sfx + " " + name + " " + ys;
    DateTextLayout(pre, intro, ds, sfx, name, ys, rest);
    DateFieldIn(pre + intro + g + rest, pre, intro, g, ds, sfx, name, ys);
  }

  /** Where the prefix, the label and the pieces of the date group sit in the message. */
  lemma DateTextLayout(pre: string, intro: string, ds: string, sfx: string, name: string, ys: string, rest: string)
    ensures var g := ds + sfx + " " + name + " " + ys;
      var t := pre + intro + g + rest;
      && HoldsAt(t, 0, pre) && HoldsAt(t, |pre|, intro) && HoldsAt(t, |pre| + |intro|, g)
      && |g| == |ds| + |sfx| + |name| + 2 + |ys| && GroupAt(g, 0, ds, sfx, name, ys)
  {
    GroupLayout(ds, sfx, name, ys);
    Pieces4(pre, intro, ds + sfx + " " + name + " " + ys, rest);
  }

  /** The date field of a message with the prefix, the label and a date group `g` in place: the parse of `g`. */
  lemma DateFieldIn(t: string, pre: string, intro: string, g: string, ds: string, sfx: string, name: string, ys: string)
    requires AfterPrefix(t, pre, intro) && HoldsAt(t, |pre| + |intro|, g) && DatePieces(ds, sfx, name, ys)
    requires |g| == |ds| + |sfx| + |name| + 2 + |ys| && GroupAt(g, 0, ds, sfx, name, ys)
    ensures DateField(t) == match Strptime(StripOrdinals(Trim(g))) case None => "" case Some(d) => Iso(d)
  {
    DateInText(t, pre, intro, g, ds, sfx, name, ys);
    DateFieldFrom(t, Hit(|pre|, Span(|pre| + |intro|, |pre| + |intro| + |g|)), g);
  }

  /** The search finds the date group that follows the prefix and the label, and its slice is `g`. */
  lemma DateInText(t: string, pre: string, intro: string, g: string, ds: string, sfx: string, name: string, ys: string)
    requires AfterPrefix(t, pre, intro) && HoldsAt(t, |pre| + |intro|, g) && DatePieces(ds, sfx, name, ys)
    requires |g| == |ds| + |sfx| + |name| + 2 + |ys| && GroupAt(g, 0, ds, sfx, name, ys)
    ensures var s := |pre| + |intro|;
      Search(DatePhrase, t) == Some(Hit(|pre|, Span(s, s + |g|))) && Slice(t, Span(s, s + |g|)) == g
  {
    SliceIs(t, |pre| + |intro|, g);
    DateFirstOfGroup(t, pre, intro, g, ds, sfx, name, ys);
    SearchFirstAt(DatePhrase, t, |pre|, Span(|pre| + |intro|, |pre| + |intro| + |g|));
  }

  /** The pattern matches at the label with the date group as its group, and nowhere in the prefix. */
  lemma DateFirstOfGroup(t: string, pre: string, intro: string, g: string, ds: string, sfx: string, name: string, ys: string)
    requires AfterPrefix(t, pre, intro) && HoldsAt(t, |pre| + |intro|, g) && DatePieces(ds, sfx, name, ys)
    requires |g| == |ds| + |sfx| + |name| + 2 + |ys| && GroupAt(g, 0, ds, sfx, name, ys)
    ensures MatchAt(DatePhrase, t, |pre|) == Some(Span(|pre| + |intro|, |pre| + |intro| + |g|))
    ensures forall q :: 0 <= q < |pre| ==> MatchAt(DatePhrase, t, q).None?
  {
    DateNoneBefore(t, pre, intro);
    DateMatchOfGroup(t, |pre|, intro, g, ds, sfx, name, ys);
  }

  /** The label at `a` and a date group after it: the pattern matches at `a` with that group. */
  lemma DateMatchOfGroup(t: string, a: nat, intro: string, g: string, ds: string, sfx: string, name: string, ys: string)
    requires DateLabel(intro) && HoldsAt(t, a, intro) && HoldsAt(t, a + |intro|, g) && DatePieces(ds, sfx, name, ys)
    requires |g| == |ds| + |sfx| + |name| + 2 + |ys| && GroupAt(g, 0, ds, sfx, name, ys)
    ensures MatchAt(DatePhrase, t, a) == Some(Span(a + |intro|, a + |intro| + |g|))
  {
    DateBodyOfGroup(t, a + |intro|, g, ds, sfx, name, ys);
    DateMatchAfter(t, a, intro, a + |intro| + |g|);
  }

  /** A date group written at `s` is what the body of the pattern reads there. */
  lemma DateBodyOfGroup(t: string, s: nat, g: string, ds: string, sfx: string, name: string, ys: string)
    requires HoldsAt(t, s, g) && DatePieces(ds, sfx, name, ys)
    requires |g| == |ds| + |sfx| + |name| + 2 + |ys| && GroupAt(g, 0, ds, sfx, name, ys)
    ensures DateBody(t, s) == Some(s + |g|)
  {
    GroupShift(t, s, g, ds, sfx, name, ys);
    DateBodyAt(t, s, ds, sfx, name, ys);
  }

  /** A date body right after the label: the pattern matches at the label. */
  lemma DateMatchAfter(t: string, a: nat, intro: string, e: nat)
    requires DateLabel(intro) && HoldsAt(t, a, intro) && DateBody(t, a + |intro|) == Some(e)
    ensures MatchAt(DatePhrase, t, a) == Some(Span(a + |intro|, e))
  {
    DateLabelAt(t, a, intro, e);
  }

  /** `DateField` once the match and its group are known. */
  lemma DateFieldFrom(t: string, h: Hit, g: string)
    requires Search(DatePhrase, t) == Some(h) && Slice(t, h.group) == g
    ensures DateField(t) == match Strptime(StripOrdinals(Trim(g))) case None => "" case Some(d) => Iso(d)
  {
  }


  /** A date group whose pieces are written at `s` is what the body of the pattern reads there. */
  lemma DateBodyAt(t: string, s: nat, ds: string, sfx: string, name: string, ys: string)
    requires GroupAt(t, s, ds, sfx, name, ys) && DatePieces(ds, sfx, name, ys)
    ensures DateBody(t, s) == Some(s + |ds| + |sfx| + |name| + 6)
  {
    var nd, ns, nn := |ds|, |sfx|, |name|;
    DateGroupRuns(t, s, ds, sfx, name, ys);
    DateChain(t, s, nd, s + nd + ns, nn, s + nd + ns + nn + 6);
  }

  /** The layout of a date group built from its pieces. */
  lemma GroupLayout(ds: string, sfx: string, name: string, ys: string)
    ensures var g := ds + sfx + " " + name + " " + ys;
      |g| == |ds| + |sfx| + |name| + 2 + |ys| && GroupAt(g, 0, ds, sfx, name, ys)
  {
    var g := ds + sfx + " " + name + " " + ys;
    Pieces6(ds, sfx, " ", name, " ", ys);
    assert g[|ds| + |sfx| + 0] == " "[0];
    assert g[|ds| + |sfx| + 1 + |name| + 0] == " "[0];
  }

  /** A date group written into `t` at `s` has its pieces at their places in `t`. */
  lemma GroupShift(t: string, s: nat, g: string, ds: string, sfx: string, name: string, ys: string)
    requires HoldsAt(t, s, g) && |g| == |ds| + |sfx| + |name| + 2 + |ys| && GroupAt(g, 0, ds, sfx, name, ys)
    ensures GroupAt(t, s, ds, sfx, name, ys)
  {
    var q := |ds| + |sfx|;
    HoldsWithin(t, s, g, 0, ds);
    HoldsWithin(t, s, g, |ds|, sfx);
    HoldsWithin(t, s, g, q + 1, name);
    HoldsWithin(t, s, g, q + 2 + |name|, ys);
    assert t[s + q] == g[q];
    assert t[s + (q + 1 + |name|)] == g[q + 1 + |name|];
  }

  /** A piece of `g`, with `g` written into `t` at `s`. */
  lemma HoldsWithin(t: string, s: nat, g: string, off: nat, w: string)
    requires HoldsAt(t, s, g) && HoldsAt(g, off, w)
    ensures HoldsAt(t, s + off, w)
  {
    forall k | 0 <= k < |w| ensures t[s + off + k] == w[k] {
      assert t[s + (off + k)] == g[off + k];
    }
  }

  /** The label at `a` and a date body after it: the pattern matches at `a`. */
  lemma DateLabelAt(t: string, a: nat, intro: string, e: nat)
    requires DateLabel(intro) && HoldsAt(t, a, intro) && DateBody(t, a + |intro|) == Some(e)
    ensures DateAt(t, a) == Some(Span(a + |intro|, e))
  {
    assert IsDigit(t[a + |intro|]) by {
      assert Run(Digit, t, a + |intro|) > 0;
      RunChars(Digit, t, a + |intro|);
    }
    if intro == "Today's date is " {
      TodayThenBody(t, a, e);
    } else {
      LabelThenBody(t, a, intro, e);
    }
  }

  /** "Today's date is " and then a date body. */
  lemma TodayThenBody(t: string, a: nat, e: nat)
    requires HoldsAt(t, a, "Today's date is ") && a + 16 < |t| && IsDigit(t[a + 16])
    requires DateBody(t, a + 16) == Some(e)
    ensures DateAt(t, a) == Some(Span(a + 16, e))
  {
    TodayWords(t, a);
    TodayStart(t, a, e);
  }

  lemma TodayWords(t: string, a: nat)
    requires HoldsAt(t, a, "Today's date is ") && a + 16 < |t| && IsDigit(t[a + 16])
    ensures LitAt(t, a, "today's date is") && Run(Space, t, a + 15) == 1
  {
    LowerLitAt(t, a, "Today's date is ", "today's date is");
    assert t[a + 15] == "Today's date is "[15];
    RunExact(Space, t, a + 15, 1);
  }

  lemma TodayStart(t: string, a: nat, e: nat)
    requires a + 16 <= |t| && LitAt(t, a, "today's date is") && Run(Space, t, a + 15) == 1
    requires DateBody(t, a + 16) == Some(e)
    ensures DateAt(t, a) == Some(Span(a + 16, e))
  {
    assert DateStart(t, a) == Some(a + 15);
    OneSpaceThenBody(t, a + 15, e);
  }

  /** One space and then a date body. */
  lemma OneSpaceThenBody(t: string, p: nat, e: nat)
    requires p + 1 <= |t| && Run(Space, t, p) == 1 && DateBody(t, p + 1) == Some(e)
    ensures DateFrom(t, p) == Some(Span(p + 1, e))
  {
  }

  /** "Date", a separator, one space, and then a date body. */
  lemma LabelThenBody(t: string, a: nat, intro: string, e: nat)
    requires (intro == "Date: " || intro == "Date- ") && HoldsAt(t, a, intro) && a + 6 < |t| && IsDigit(t[a + 6])
    requires DateBody(t, a + 6) == Some(e)
    ensures DateAt(t, a) == Some(Span(a + 6, e))
  {
    LabelWords(t, a, intro);
    LabelStart(t, a, e);
  }

  lemma LabelWords(t: string, a: nat, intro: string)
    requires (intro == "Date: " || intro == "Date- ") && HoldsAt(t, a, intro) && a + 6 < |t| && IsDigit(t[a + 6])
    ensures !LitAt(t, a, "today's date is") && LitAt(t, a, "date") && IsSep(t[a + 4]) && Run(Space, t, a + 5) == 1
  {
    assert t[a + 0] == intro[0] && t[a + 4] == intro[4] && t[a + 5] == intro[5];
    LitChar(t, a, "today's date is", a);
    LowerLitAt(t, a, intro, "date");
    RunExact(Space, t, a + 5, 1);
  }

  lemma LabelStart(t: string, a: nat, e: nat)
    requires a + 6 <= |t| && !LitAt(t, a, "today's date is") && LitAt(t, a, "date") && IsSep(t[a + 4])
    requires Run(Space, t, a + 5) == 1 && DateBody(t, a + 6) == Some(e)
    ensures DateAt(t, a) == Some(Span(a + 6, e))
  {
    assert DateStart(t, a) == Some(a + 5);
    OneSpaceThenBody(t, a + 5, e);
  }

  /**
   * No match of the date pattern starts inside a prefix without digits that
   * a label follows: a body must begin with a digit, and no keyword runs
   * from the prefix into the label.
   */
  lemma DateNoneBefore(t: string, pre: string, intro: string)
    requires AfterPrefix(t, pre, intro)
    ensures forall q :: 0 <= q < |pre| ==> MatchAt(DatePhrase, t, q).None?
  {
    var m := |pre|;
    forall k | 0 <= k < m ensures !IsDigit(t[k]) {
      assert t[0 + k] == pre[k];
    }
    assert t[m + 0] == intro[0];
    if intro == "Today's date is " {
      TodayNoStraddle(t, m);
    } else {
      LabelNoStraddle(t, m, intro);
    }
    forall q | 0 <= q < m ensures MatchAt(DatePhrase, t, q).None? {
      DateNotAt(t, m, q);
    }
  }

  /** One start before `m`, where the keywords end by `m` and no digit comes before it. */
  lemma DateNotAt(t: string, m: nat, q: nat)
    requires q < m < |t| && !IsDigit(t[m]) && !IsSpace(t[m]) && !IsSep(t[m])
    requires forall k :: 0 <= k < m ==> !IsDigit(t[k])
    requires m < q + 4 ==> !LitAt(t, q, "date")
    requires m < q + 15 ==> !LitAt(t, q, "today's date is")
    ensures DateAt(t, q).None?
  {
    match DateStart(t, q)
    case None =>
    case Some(p) =>
      assert p <= m;
      NoBodyFrom(t, p, m);
  }

  /** Whitespace from `p` stops by `m`, where neither it nor any earlier character is a digit: no body. */
  lemma NoBodyFrom(t: string, p: nat, m: nat)
    requires p <= m < |t| && !IsDigit(t[m]) && !IsSpace(t[m])
    requires forall k :: 0 <= k < m ==> !IsDigit(t[k])
    ensures DateFrom(t, p).None?
  {
    RunStopsBefore(Space, t, p, m);
    var s := p + Run(Space, t, p);
    assert !IsDigit(t[s]);
    assert Run(Digit, t, s) == 0;
  }

  /** A run starting at or before `m` stops at a character outside its class. */
  lemma RunStopsBefore(cls: CharClass, t: string, p: nat, m: nat)
    requires p <= m < |t| && !InClass(cls, t[m])
    ensures p + Run(cls, t, p) <= m
  {
    RunChars(cls, t, p);
  }

  /** "To" at `m`: no keyword of the date pattern runs from before `m` into it. */
  lemma TodayNoStraddle(t: string, m: nat)
    requires HoldsAt(t, m, "Today's date is ")
    ensures !IsDigit(t[m]) && !IsSpace(t[m]) && !IsSep(t[m])
    ensures forall q :: 0 <= q < m < q + 4 ==> !LitAt(t, q, "date")
    ensures forall q :: 0 <= q < m < q + 15 ==> !LitAt(t, q, "today's date is")
  {
    assert t[m + 0] == "Today's date is "[0] && t[m + 1] == "Today's date is "[1];
    forall q | 0 <= q < m < q + 4 ensures !LitAt(t, q, "date") {
      LitChar(t, q, "date", m);
      LitChar(t, q, "date", m + 1);
    }
    forall q | 0 <= q < m < q + 15 ensures !LitAt(t, q, "today's date is") {
      LitChar(t, q, "today's date is", m);
      LitChar(t, q, "today's date is", m + 1);
    }
  }

  /** "Date" and a separator at `m`: no keyword of the date pattern runs from before `m` into it. */
  lemma LabelNoStraddle(t: string, m: nat, intro: string)
    requires (intro == "Date: " || intro == "Date- ") && HoldsAt(t, m, intro)
    ensures !IsDigit(t[m]) && !IsSpace(t[m]) && !IsSep(t[m])
    ensures forall q :: 0 <= q < m < q + 4 ==> !LitAt(t, q, "date")
    ensures forall q :: 0 <= q < m < q + 15 ==> !LitAt(t, q, "today's date is")
  {
    assert t[m + 0] == intro[0] && t[m + 2] == intro[2] && t[m + 4] == intro[4];
    forall q | 0 <= q < m < q + 4 ensures !LitAt(t, q, "date") {
      LitChar(t, q, "date", m);
    }
    forall q | 0 <= q < m < q + 15 ensures !LitAt(t, q, "today's date is") {
      LitChar(t, q, "today's date is", m);
      LitChar(t, q, "today's date is", m + 2);
      LitChar(t, q, "today's date is", m + 4);
    }
  }

  /** The date read from the group "<day><suffix> <Month> <year>". */
  lemma DateValue(day: nat, month: nat, year: nat, name: string, sfx: string)
    requires 1 <= day <= 31 && 1 <= month <= 12 && year <= 9999
    requires |name| == |MonthName(month)| && LitAt(name, 0, MonthName(month))
    requires sfx == [] || (|sfx| == 2 && OrdinalAt(sfx, 0))
    ensures var g := DayText(day) + sfx + " " + name + " " + Pad(year, 4);
      Strptime(StripOrdinals(Trim(g)))
      == if (sfx == [] || SuffixAt(sfx, 0)) && ValidDate(Date(year, month, day)) then Some(Date(year, month, day)) else None
  {
    var ds, ys := DayText(day), Pad(year, 4);
    var u := " " + name + " " + ys;
    var g := ds + sfx + u;
    Regroup(ds + sfx, " ", name, " ", ys);
    assert Trimmed(g) by { assert g[0] == ds[0] && g[|g| - 1] == ys[3]; }
    TrimOfTrimmed(g);
    MonthNameIsWord(name, month);
    DateUnits(u, name, ys);
    StripKeeps(u);
    StripDate(ds, sfx, u);
    if sfx == [] || SuffixAt(sfx, 0) {
      Regroup(ds, " ", name, " ", ys);
      SpokenDateParses(day, month, year, name);
    } else {
      KeptSuffixFails(day, sfx, u);
    }
  }

  lemma Regroup(a: string, b: string, c: string, d: string, e: string)
    ensures a + (b + c + d + e) == a + b + c + d + e
  {
    Assoc(a, b + c + d, e);
    Assoc(a, b + c, d);
    Assoc(a, b, c);
  }

  /** A suffix the clean-up leaves in place stops `%d` short of the whitespace it needs. */
  lemma KeptSuffixFails(day: nat, sfx: string, u: string)
    requires 1 <= day <= 31 && |sfx| == 2 && OrdinalAt(sfx, 0)
    ensures Strptime(DayText(day) + sfx + u) == None
  {
    var ds := DayText(day);
    var g := ds + sfx + u;
    OrdinalLetters(sfx, 0);
    assert g[|ds|] == sfx[0];
    assert forall k :: 0 <= k < |ds| ==> g[k] == ds[k];
    UnstrippedSuffixFails(g, ds, day);
  }

  /** The token runs of the date group at `s`, as plain facts about Run. */
  lemma DateGroupRuns(t: string, s: nat, ds: string, sfx: string, name: string, ys: string)
    requires GroupAt(t, s, ds, sfx, name, ys) && DatePieces(ds, sfx, name, ys)
    ensures var nd, ns, nn := |ds|, |sfx|, |name|; var q := s + nd + ns;
      && 1 <= nd <= 2 && nn >= 1 && s + nd + 2 <= |t| && q + nn + 6 <= |t|
      && Run(Digit, t, s) == nd && DayEnd(t, s + nd) == q
      && Run(Space, t, q) == 1 && Run(Word, t, q + 1) == nn && Run(Space, t, q + 1 + nn) == 1
      && Run(Digit, t, q + 2 + nn) >= 4
  {
    DateTextShape(t, s, ds, sfx, name, ys);
    DateRunFacts(t, s, |ds|, |sfx|, |name|);
    DayEndIs(t, s + |ds|, |sfx| == 2);
  }

  /** The characters of `w`, written into `t` at `off`, keep their class. */
  lemma HoldsClass(t: string, off: nat, w: string, cls: CharClass)
    requires HoldsAt(t, off, w) && forall k :: 0 <= k < |w| ==> InClass(cls, w[k])
    ensures forall k :: off <= k < off + |w| ==> InClass(cls, t[k])
  {
    forall k | off <= k < off + |w| ensures InClass(cls, t[k]) {
      assert t[off + (k - off)] == w[k - off];
    }
  }

  /** The classes of the characters of the date group at `s`, at their places in the text. */
  lemma DateTextShape(t: string, s: nat, ds: string, sfx: string, name: string, ys: string)
    requires GroupAt(t, s, ds, sfx, name, ys) && DatePieces(ds, sfx, name, ys)
    ensures var nd, ns, nn := |ds|, |sfx|, |name|; var q := s + nd + ns;
      && q + nn + 6 <= |t|
      && (forall k :: s <= k < s + nd ==> InClass(Digit, t[k]))
      && (ns == 2 ==> OrdinalAt(t, s + nd) && !IsDigit(t[s + nd]))
      && t[q] == ' ' && t[q + 1 + nn] == ' '
      && (forall k :: q + 1 <= k < q + 1 + nn ==> InClass(Word, t[k]))
      && (forall k :: q + 2 + nn <= k < q + 6 + nn ==> InClass(Digit, t[k]))
  {
    var nd, ns, nn := |ds|, |sfx|, |name|;
    var q := s + nd + ns;
    forall k | 0 <= k < nd ensures InClass(Digit, ds[k]) { assert IsDigit(ds[k]); }
    HoldsClass(t, s, ds, Digit);
    forall k | 0 <= k < nn ensures InClass(Word, name[k]) { assert IsWordChar(name[k]); }
    HoldsClass(t, q + 1, name, Word);
    forall k | 0 <= k < 4 ensures InClass(Digit, ys[k]) { assert IsDigit(ys[k]); }
    HoldsClass(t, q + 2 + nn, ys, Digit);
    if ns == 2 {
      SuffixInText(t, s + nd, sfx);
    }
  }

  /** The letters an ordinal suffix is made of, in either case. */
  lemma OrdinalLetters(s: string, q: nat)
    requires OrdinalAt(s, q)
    ensures q + 2 <= |s| && ToLower(s[q]) in "snrt" && ToLower(s[q + 1]) in "tdh"
    ensures !IsDigit(s[q]) && !IsSpace(s[q])
  {
    if LitAt(s, q, "st") { assert ToLower(s[q + 0]) == "st"[0] && ToLower(s[q + 1]) == "st"[1]; }
    else if LitAt(s, q, "nd") { assert ToLower(s[q + 0]) == "nd"[0] && ToLower(s[q + 1]) == "nd"[1]; }
    else if LitAt(s, q, "rd") { assert ToLower(s[q + 0]) == "rd"[0] && ToLower(s[q + 1]) == "rd"[1]; }
    else { assert ToLower(s[q + 0]) == "th"[0] && ToLower(s[q + 1]) == "th"[1]; }
  }

  /** A suffix written at `p` is an ordinal there, and begins with a letter. */
  lemma SuffixInText(t: string, p: nat, sfx: string)
    requires |sfx| == 2 && OrdinalAt(sfx, 0) && HoldsAt(t, p, sfx)
    ensures OrdinalAt(t, p) && !IsDigit(t[p])
  {
    assert t[p + 0] == sfx[0] && t[p + 1] == sfx[1];
    OrdinalLetters(sfx, 0);
  }

  /** The runs the date body at `s` is read with, from the classes of its characters. */
  lemma DateRunFacts(t: string, s: nat, nd: nat, ns: nat, nn: nat)
    requires 1 <= nd <= 2 && (ns == 0 || ns == 2) && nn >= 1
    requires var q := s + nd + ns;
      && q + nn + 6 <= |t|
      && (forall k :: s <= k < s + nd ==> InClass(Digit, t[k]))
      && (ns == 2 ==> OrdinalAt(t, s + nd) && !IsDigit(t[s + nd]))
      && t[q] == ' ' && t[q + 1 + nn] == ' '
      && (forall k :: q + 1 <= k < q + 1 + nn ==> InClass(Word, t[k]))
      && (forall k :: q + 2 + nn <= k < q + 6 + nn ==> InClass(Digit, t[k]))
    ensures Run(Digit, t, s) == nd && OrdinalAt(t, s + nd) == (ns == 2)
    ensures var q := s + nd + ns;
      && Run(Space, t, q) == 1 && Run(Word, t, q + 1) == nn && Run(Space, t, q + 1 + nn) == 1
      && Run(Digit, t, q + 2 + nn) >= 4
  {
    var q := s + nd + ns;
    assert !InClass(Digit, t[s + nd]);
    RunExact(Digit, t, s, nd);
    if ns == 0 {
      NotOrdinalAt(t, s + nd);
    }
    RunsAfterDay(t, q, nn);
  }

  /** The runs after the day, from the classes of the characters. */
  lemma RunsAfterDay(t: string, q: nat, nn: nat)
    requires q + nn + 6 <= |t| && nn >= 1 && t[q] == ' ' && t[q + 1 + nn] == ' '
    requires forall k :: q + 1 <= k < q + 1 + nn ==> InClass(Word, t[k])
    requires forall k :: q + 2 + nn <= k < q + 6 + nn ==> InClass(Digit, t[k])
    ensures Run(Space, t, q) == 1 && Run(Word, t, q + 1) == nn && Run(Space, t, q + 1 + nn) == 1
    ensures Run(Digit, t, q + 2 + nn) >= 4
  {
    assert InClass(Word, t[q + 1]);
    RunExact(Space, t, q, 1);
    RunExact(Word, t, q + 1, nn);
    assert InClass(Digit, t[q + 2 + nn]);
    RunExact(Space, t, q + 1 + nn, 1);
    RunAtLeast(Digit, t, q + 2 + nn, 4);
  }

  /** No ordinal suffix starts at a character that lowers to none of its first letters. */
  lemma NotOrdinalAt(t: string, q: nat)
    requires q < |t| && ToLower(t[q]) !in "snrt"
    ensures !OrdinalAt(t, q)
  {
    LitChar(t, q, "st", q);
    LitChar(t, q, "nd", q);
    LitChar(t, q, "rd", q);
    LitChar(t, q, "th", q);
  }

  /** `DateBody` from the runs it reads. */
  lemma DateChain(t: string, s: nat, nd: nat, q: nat, nn: nat, e: nat)
    requires 1 <= nd <= 2 && nn >= 1 && s + nd + 2 <= |t| && q + nn + 6 <= |t| && e == q + nn + 6
    requires Run(Digit, t, s) == nd && DayEnd(t, s + nd) == q
    requires Run(Space, t, q) == 1 && Run(Word, t, q + 1) == nn && Run(Space, t, q + 1 + nn) == 1
    requires Run(Digit, t, q + 2 + nn) >= 4
    ensures DateBody(t, s) == Some(e)
  {
    AfterDayChain(t, q, nn, e);
    DayStage(t, s, nd, q, e);
  }

  /** `\s+\w+\s+\d{4}` from the runs it reads. */
  lemma AfterDayChain(t: string, q: nat, nn: nat, e: nat)
    requires q + nn + 6 <= |t| && nn >= 1 && e == q + nn + 6
    requires Run(Space, t, q) == 1 && Run(Word, t, q + 1) == nn && Run(Space, t, q + 1 + nn) == 1
    requires Run(Digit, t, q + 2 + nn) >= 4
    ensures DateAfterDay(t, q) == Some(e)
  {
    WordYear(t, q + 1, nn, q + 1 + nn, e);
    AfterDayStage(t, q, e);
  }

  /** `\w+\s+\d{4}` from the runs it reads. */
  lemma WordYear(t: string, m: nat, nn: nat, p: nat, e: nat)
    requires p == m + nn && e == p + 5 && e <= |t| && nn >= 1
    requires Run(Word, t, m) == nn && Run(Space, t, p) == 1 && Run(Digit, t, p + 1) >= 4
    ensures DateWord(t, m) == Some(e)
  {
    YearStage(t, p, e);
    WordStage(t, m, nn, e);
  }

  /** The stages of `DateBody`, each from the run that it reads. */
  lemma YearStage(t: string, p: nat, e: nat)
    requires e == p + 5 && e <= |t| && Run(Space, t, p) == 1 && Run(Digit, t, p + 1) >= 4
    ensures DateYear(t, p) == Some(e)
  {
  }

  lemma WordStage(t: string, m: nat, nn: nat, e: nat)
    requires m + nn <= |t| && nn >= 1 && Run(Word, t, m) == nn && DateYear(t, m + nn) == Some(e)
    ensures DateWord(t, m) == Some(e)
  {
  }

  lemma AfterDayStage(t: string, q: nat, e: nat)
    requires q + 1 <= |t| && Run(Space, t, q) == 1 && DateWord(t, q + 1) == Some(e)
    ensures DateAfterDay(t, q) == Some(e)
  {
  }

  lemma DayStage(t: string, s: nat, nd: nat, q: nat, e: nat)
    requires s + nd <= |t| && 1 <= nd <= 2 && Run(Digit, t, s) == nd
    requires DayEnd(t, s + nd) == q && DateAfterDay(t, q) == Some(e)
    ensures DateBody(t, s) == Some(e)
  {
    DayFirst(t, s);
  }

  /** A day of one or two digits: the body goes on after it. */
  lemma DayFirst(t: string, s: nat)
    requires s <= |t|
    ensures var n := Run(Digit, t, s); 1 <= n <= 2 ==> DateBody(t, s) == DateAfterDay(t, DayEnd(t, s + n))
  {
  }

  lemma DayEndIs(t: string, q: nat, ord: bool)
    requires q + 2 <= |t| && ord == OrdinalAt(t, q)
    ensures DayEnd(t, q) == if ord then q + 2 else q
  {
  }

  /** A run of at least `n` characters of `cls` at `p`. */
  lemma {:induction false} RunAtLeast(cls: CharClass, text: string, p: nat, n: nat)
    requires p + n <= |text| && forall k :: p <= k < p + n ==> InClass(cls, text[k])
    ensures Run(cls, text, p) >= n
    decreases n
  {
    if n > 0 {
      RunAtLeast(cls, text, p + 1, n - 1);
    }
  }

  /** A suffix lemma: an ordinal suffix begins with one of its four first letters. */
  lemma SuffixStarts(s: string, k: nat)
    requires SuffixAt(s, k)
    ensures k + 2 <= |s| && s[k] in "snrt"
  {
    assert s[k..k + 2][0] == s[k];
  }

  /** A string in which every digit is followed by another digit or ends it has no ordinal. */
  lemma DigitsEndNoOrdinal(s: string)
    requires forall k :: 0 <= k < |s| - 1 && IsDigit(s[k]) ==> IsDigit(s[k + 1])
    ensures NoOrdinal(s)
  {
    forall k | 0 <= k < |s| && IsDigit(s[k]) ensures !SuffixAt(s, k + 1) {
      if SuffixAt(s, k + 1) { SuffixStarts(s, k + 1); }
    }
  }

  /** " <word> <year>" has no ordinal when the word has no digits, the year's being the only ones. */
  lemma DateUnits(u: string, name: string, ys: string)
    requires u == " " + name + " " + ys && |ys| == 4 && AllDigits(ys) && NoDigits(name)
    ensures NoOrdinal(u)
  {
    forall j | 1 <= j <= |name| ensures !IsDigit(u[j]) {
      assert u[1 + (j - 1)] == name[j - 1];
    }
    assert u[0] == ' ' && u[|name| + 1] == ' ';
    forall k | 0 <= k < |u| - 1 && IsDigit(u[k]) ensures IsDigit(u[k + 1]) {
      if k >= |name| + 2 {
        assert u[|name| + 2 + (k + 1 - |name| - 2)] == ys[k + 1 - |name| - 2];
      }
    }
    DigitsEndNoOrdinal(u);
  }

  /** One step of the clean-up over a run of `n` digits with a suffix after it: the suffix goes. */
  /** The clean-up at a digit: the whole run of digits is kept, and a suffix after it is dropped. */
  lemma StripDigitsStep(s: string)
    requires s != [] && IsDigit(s[0])
    ensures var n := Run(Digit, s, 0);
      && 1 <= n
      && (SuffixAt(s, n) ==> n + 2 <= |s| && StripOrdinals(s) == s[..n] + StripOrdinals(s[n + 2..]))
      && (!SuffixAt(s, n) ==> StripOrdinals(s) == s[..n] + StripOrdinals(s[n..]))
  {
  }

  /** One step of the clean-up over a character that is not a digit. */
  lemma StripOther(s: string)
    requires s != [] && !IsDigit(s[0])
    ensures StripOrdinals(s) == [s[0]] + StripOrdinals(s[1..])
  {
  }

  /** An occurrence of a suffix in a tail of `s` is one in `s`. */
  lemma SuffixShift(s: string, n: nat, j: nat)
    requires n <= |s|
    ensures SuffixAt(s[n..], j) == SuffixAt(s, n + j)
  {
    if j + 2 <= |s[n..]| {
      assert s[n..][j..j + 2] == s[n + j..n + j + 2];
    }
  }

  /** Every tail of a string without ordinals has none. */
  lemma NoOrdinalTail(s: string, n: nat)
    requires NoOrdinal(s) && n <= |s|
    ensures NoOrdinal(s[n..])
  {
    forall k | 0 <= k < |s[n..]| && IsDigit(s[n..][k]) ensures !SuffixAt(s[n..], k + 1) {
      assert s[n..][k] == s[n + k];
      SuffixShift(s, n, k + 1);
    }
  }

  /** A run of digits at the start of a string without ordinals has no suffix after it. */
  lemma RunHasNoSuffix(s: string)
    requires NoOrdinal(s) && s != [] && IsDigit(s[0])
    ensures Run(Digit, s, 0) >= 1 && !SuffixAt(s, Run(Digit, s, 0))
  {
    var n := Run(Digit, s, 0);
    assert InClass(Digit, s[0]);
    RunChars(Digit, s, 0);
    assert InClass(Digit, s[n - 1]);
  }

  /** With no ordinal in it, the clean-up leaves a string as it is. */
  lemma {:induction false} StripKeeps(s: string)
    requires NoOrdinal(s)
    ensures StripOrdinals(s) == s
    decreases |s|
  {
    if s != [] {
      if IsDigit(s[0]) {
        RunHasNoSuffix(s);
        var n := Run(Digit, s, 0);
        StripDigitsStep(s);
        NoOrdinalTail(s, n);
        StripKeeps(s[n..]);
        assert s[..n] + s[n..] == s;
      } else {
        StripOther(s);
        NoOrdinalTail(s, 1);
        StripKeeps(s[1..]);
        assert [s[0]] + s[1..] == s;
      }
    }
  }

  /**
   * The clean-up on "<day><suffix> <rest>", where it leaves the rest as it
   * is: the suffix goes when it is an ordinal in lower case, and everything
   * else stays.
   */
  lemma StripDate(ds: string, sfx: string, u: string)
    requires 1 <= |ds| && AllDigits(ds) && |u| >= 1 && u[0] == ' ' && StripOrdinals(u) == u
    requires sfx == [] || (|sfx| == 2 && OrdinalAt(sfx, 0))
    ensures StripOrdinals(ds + sfx + u) == if sfx == [] || SuffixAt(sfx, 0) then ds + u else ds + sfx + u
  {
    var v := sfx + u;
    Assoc(ds, sfx, u);
    DaySuffix(sfx, u);
    var m := if SuffixAt(v, 0) then 2 else 0;
    StripDayThen(ds, v, m);
    if sfx != [] && !SuffixAt(sfx, 0) {
      StripLetters(sfx, u);
    }
  }

  /** The clean-up after a day: the run of digits is kept and a suffix right after it dropped. */
  lemma StripDayThen(ds: string, v: string, m: nat)
    requires 1 <= |ds| && AllDigits(ds) && v != [] && !IsDigit(v[0])
    requires m == if SuffixAt(v, 0) then 2 else 0
    ensures m <= |v| && StripOrdinals(ds + v) == ds + StripOrdinals(v[m..])
  {
    var s, n := ds + v, |ds|;
    DayDigits(ds, v);
    SuffixShift(s, n, 0);
    StripDigitsStep(s);
    if m == 2 {
      assert s[n + 2..] == v[2..];
    } else {
      assert s[n..] == v[0..];
    }
  }

  lemma Assoc(a: string, b: string, c: string)
    ensures a + b + c == a + (b + c)
  {
  }

  /** The front of "<suffix> <rest>" as one step of the clean-up sees it. */
  lemma DaySuffix(sfx: string, u: string)
    requires |u| >= 1 && u[0] == ' '
    requires sfx == [] || (|sfx| == 2 && OrdinalAt(sfx, 0))
    ensures var v := sfx + u;
      && v != [] && !IsDigit(v[0]) && SuffixAt(v, 0) == (sfx != [] && SuffixAt(sfx, 0))
      && (sfx == [] ==> v == u) && (sfx != [] ==> v[2..] == u)
  {
    var v := sfx + u;
    if sfx == [] {
      assert v == u;
      assert !SuffixAt(v, 0) by { if SuffixAt(v, 0) { SuffixStarts(v, 0); } }
    } else {
      OrdinalLetters(sfx, 0);
      assert v[0] == sfx[0];
      assert v[0..2] == sfx;
    }
  }

  /** A run of digits in front of a non-digit is read as that run. */
  lemma DayDigits(ds: string, v: string)
    requires 1 <= |ds| && AllDigits(ds) && v != [] && !IsDigit(v[0])
    ensures var s, n := ds + v, |ds|;
      && n <= |s| && IsDigit(s[0]) && Run(Digit, s, 0) == n && s[..n] == ds && s[n..] == v
  {
    var s := ds + v;
    var n := |ds|;
    assert s[n] == v[0];
    forall k | 0 <= k < n ensures InClass(Digit, s[k]) { assert s[0 + k] == ds[k]; }
    RunExact(Digit, s, 0, n);
  }

  /** Two letters in front of a string the clean-up keeps are kept too. */
  lemma StripLetters(sfx: string, u: string)
    requires |sfx| == 2 && OrdinalAt(sfx, 0) && StripOrdinals(u) == u
    ensures StripOrdinals(sfx + u) == sfx + u
  {
    var v := sfx + u;
    OrdinalLetters(sfx, 0);
    assert !IsDigit(v[0]) && !IsDigit(v[1]);
    StripOther(v);
    assert v[1..] == [sfx[1]] + u;
    StripOther(v[1..]);
    assert v[1..][1..] == u;
    assert [v[0]] + ([v[1]] + u) == v;
  }

  /** A day followed by a letter leaves no whitespace after `%d`, so the parse fails. */
  lemma UnstrippedSuffixFails(g: string, ds: string, day: nat)
    requires 1 <= day <= 31 && ds == DayText(day) && |ds| < |g|
    requires forall k :: 0 <= k < |ds| ==> g[k] == ds[k]
    requires !IsDigit(g[|ds|]) && !IsSpace(g[|ds|])
    ensures Strptime(g) == None
  {
    DayTextParses(g, ds, day);
    DayStep(g, day, |ds|);
    RunExact(Space, g, |ds|, 0);
  }
}

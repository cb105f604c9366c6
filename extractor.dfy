/**
 * `parse_natural_language`: each field of the record comes from its own
 * leftmost search over the whole text, independently of the others, and is
 * `""` when its pattern does not match.
 */
module Extractor {
  import opened Wrappers
  import opened Text
  import opened Calendar
  import opened Patterns
  import opened Entry

  /** An ordinal suffix at `k`, in lower case: the ordinal clean-up has no `re.IGNORECASE`. */
  predicate SuffixAt(s: string, k: nat) {
    OccursAt(s, k, "st") || OccursAt(s, k, "nd") || OccursAt(s, k, "rd") || OccursAt(s, k, "th")
  }

  /**
   * `re.sub(r'(\d+)(st|nd|rd|th)', r'\1', s)`.  A shorter `\d+` leaves a
   * digit where the suffix must begin, so only a whole run of digits can be
   * followed by the suffix; where it is not, scanning resumes after the run.
   */
  function StripOrdinals(s: string): (r: string)
    ensures |r| <= |s|
    decreases |s|
  {
    if s == [] then []
    else if IsDigit(s[0]) then
      var n := Run(Digit, s, 0);
      assert n >= 1;
      if SuffixAt(s, n) then s[..n] + StripOrdinals(s[n + 2..])
      else s[..n] + StripOrdinals(s[n..])
    else [s[0]] + StripOrdinals(s[1..])
  }

  /** No digit of `s` is followed by an ordinal suffix. */
  predicate NoOrdinal(s: string) {
    forall k :: 0 <= k < |s| && IsDigit(s[k]) ==> !SuffixAt(s, k + 1)
  }

  /**
   * "Date": group 1 of the date pattern, stripped, its ordinal suffixes
   * removed, read with `%d %B %Y` and written back as `%Y-%m-%d`; `""` when
   * the pattern does not match or the text does not name a real date.
   */
  function DateField(text: string): (r: string)
    ensures r == "" || IsIsoDate(r)
    ensures Search(DatePhrase, text).None? ==> r == ""
  {
    match Search(DatePhrase, text)
    case None => ""
    case Some(h) =>
      match Strptime(StripOrdinals(Trim(Slice(text, h.group))))
      case None => ""
      case Some(d) => Iso(d)
  }

  /** "Project Name": group 1 of the project pattern, stripped, with " project" after it. */
  function ProjectField(text: string): (r: string)
    ensures r == "" <==> Search(ProjectPhrase, text).None?
    ensures r != "" ==> |r| >= 8 && r[|r| - 8..] == " project"
    ensures r != "" ==> Trimmed(r[..|r| - 8]) && NoneOf(r[..|r| - 8], ".,\n")
  {
    match Search(ProjectPhrase, text)
    case None => ""
    case Some(h) =>
      LazyGroupAvoids(ProjectTail, text, h.group);
      var name := Trim(Slice(text, h.group));
      TrimKeepsNoneOf(Slice(text, h.group), ".,\n");
      var r := name + " project";
      assert r[..|r| - 8] == name;
      r
  }

  /** Some position of `text` holds `lit`, letters compared without regard to case. */
  predicate Mentions(text: string, lit: string) {
    exists i :: 0 <= i <= |text| && LitAt(text, i, lit)
  }

  /** "Leave/WFH": "WFH" if working from home is mentioned, else "Office" if the office is, else "". */
  function LeaveField(text: string): (r: string)
    ensures r in {"WFH", "Office", ""}
    ensures r == "WFH" <==> Mentions(text, "from home") || Mentions(text, "wfh")
    ensures r == "Office" <==> !Mentions(text, "from home") && !Mentions(text, "wfh") && (Mentions(text, "office") || Mentions(text, "onsite"))
    ensures r == "" <==> !Mentions(text, "from home") && !Mentions(text, "wfh") && !Mentions(text, "office") && !Mentions(text, "onsite")
    ensures r == "" <==> Search(HomePhrase, text).None? && Search(OfficePhrase, text).None?
  {
    SearchFinds(HomePhrase, text);
    SearchFinds(OfficePhrase, text);
    if Search(HomePhrase, text).Some? then "WFH"
    else if Search(OfficePhrase, text).Some? then "Office"
    else ""
  }

  /** For the two fixed-word patterns, a match exists exactly where one of the words is mentioned. */
  lemma SearchFinds(pat: Pattern, text: string)
    requires pat == HomePhrase || pat == OfficePhrase
    ensures pat == HomePhrase ==> (Search(pat, text).Some? <==> Mentions(text, "from home") || Mentions(text, "wfh"))
    ensures pat == OfficePhrase ==> (Search(pat, text).Some? <==> Mentions(text, "office") || Mentions(text, "onsite"))
  {
    var r := Search(pat, text);
    if r.Some? {
      assert MatchAt(pat, text, r.value.at).Some?;
    }
    if pat == HomePhrase && (Mentions(text, "from home") || Mentions(text, "wfh")) {
      var i :| 0 <= i <= |text| && (LitAt(text, i, "from home") || LitAt(text, i, "wfh"));
      assert MatchAt(pat, text, i).Some?;
    }
    if pat == OfficePhrase && (Mentions(text, "office") || Mentions(text, "onsite")) {
      var i :| 0 <= i <= |text| && (LitAt(text, i, "office") || LitAt(text, i, "onsite"));
      assert MatchAt(pat, text, i).Some?;
    }
  }

  /** "Tasks Completed Today": group 1 of the tasks pattern, stripped. */
  function TasksField(text: string): (r: string)
    ensures Trimmed(r) && NoneOf(r, ".,\n")
    ensures Search(TasksPhrase, text).None? ==> r == ""
  {
    match Search(TasksPhrase, text)
    case None => ""
    case Some(h) =>
      LazyGroupAvoids(TasksTail, text, h.group);
      TrimKeepsNoneOf(Slice(text, h.group), ".,\n");
      Trim(Slice(text, h.group))
  }

  /** "Hours Worked": the number before "hrs/hours worked", else the number after an "Hours" label, else "". */
  function HoursField(text: string): (r: string)
    ensures r == "" || (|r| >= 1 && AllDigits(r))
    ensures r == "" <==> Search(HoursWorkedPhrase, text).None? && Search(HoursLabel, text).None?
  {
    match Search(HoursWorkedPhrase, text)
    case Some(h) =>
      DigitGroup(text, h.group);
      Slice(text, h.group)
    case None =>
      match Search(HoursLabel, text)
      case Some(h) =>
        DigitGroup(text, h.group);
        Slice(text, h.group)
      case None => ""
  }

  /** A non-empty run of digits is a number. */
  lemma DigitGroup(text: string, s: Span)
    requires s.lo < s.hi <= |text| && s.hi == s.lo + Run(Digit, text, s.lo)
    ensures |Slice(text, s)| >= 1 && AllDigits(Slice(text, s))
  {
    RunChars(Digit, text, s.lo);
    forall k | 0 <= k < s.hi - s.lo ensures IsDigit(Slice(text, s)[k]) {
      assert InClass(Digit, text[s.lo + k]);
    }
  }

  /** `\bnone\b|\bno\b` finds something in `t.lower()`. */
  predicate SaysNone(t: string) {
    HasWholeWord(t, "none") || HasWholeWord(t, "no")
  }

  /**
   * "Blockers / Issues": the matched span (label included), stripped and
   * then normalised.
   */
  function BlockersField(text: string): (r: string)
    ensures Trimmed(r) && NoneOf(r, ".")
    ensures Search(BlockersPhrase, text).None? ==> r == ""
  {
    match Search(BlockersPhrase, text)
    case None => ""
    case Some(h) =>
      assert MatchAt(BlockersPhrase, text, h.at) == Some(h.group);
      assert Matcher(BlockersPhrase, text)(h.at) == Some(h.group);
      assert BlockersAt(text, h.at) == Some(h.group);
      TrimKeepsNoneOf(Slice(text, h.group), ".");
      Normalise(Trim(Slice(text, h.group)))
  }

  /**
   * The literal "no blockers" when the span holds the word "no" or "none",
   * otherwise the span with every "Blockers:" removed, stripped again.
   */
  function Normalise(span: string): (r: string)
    requires NoneOf(span, ".")
    ensures Trimmed(r) && NoneOf(r, ".")
    ensures SaysNone(span) ==> r == "no blockers"
  {
    if SaysNone(span) then
      assert NoneOf("no blockers", ".") by {
        forall k | 0 <= k < 11 ensures "no blockers"[k] !in "." {}
      }
      "no blockers"
    else
      RemoveAllKeepsNoneOf(span, "Blockers:", ".");
      TrimKeepsNoneOf(RemoveAll(span, "Blockers:"), ".");
      Trim(RemoveAll(span, "Blockers:"))
  }

  /** Removing a pattern takes away characters and adds none. */
  lemma {:induction false} RemoveAllKeepsNoneOf(s: string, pat: string, bad: string)
    requires |pat| > 0 && NoneOf(s, bad)
    ensures NoneOf(RemoveAll(s, pat), bad)
    decreases |s|
  {
    if |s| < |pat| {
    } else if s[..|pat|] == pat {
      assert NoneOf(s[|pat|..], bad) by {
        forall k | 0 <= k < |s[|pat|..]| ensures s[|pat|..][k] !in bad { assert s[|pat|..][k] == s[|pat| + k]; }
      }
      RemoveAllKeepsNoneOf(s[|pat|..], pat, bad);
    } else {
      assert NoneOf(s[1..], bad) by {
        forall k | 0 <= k < |s[1..]| ensures s[1..][k] !in bad { assert s[1..][k] == s[1 + k]; }
      }
      RemoveAllKeepsNoneOf(s[1..], pat, bad);
      var t := RemoveAll(s[1..], pat);
      forall k | 0 <= k < |[s[0]] + t| ensures ([s[0]] + t)[k] !in bad {
        if k > 0 { assert ([s[0]] + t)[k] == t[k - 1]; }
      }
    }
  }

  /** "Planned Tasks for Tomorrow": group 1 of the tomorrow pattern, stripped. */
  function TomorrowField(text: string): (r: string)
    ensures Trimmed(r) && NoneOf(r, "\n.")
    ensures Search(TomorrowPhrase, text).None? ==> r == ""
  {
    match Search(TomorrowPhrase, text)
    case None => ""
    case Some(h) =>
      LazyGroupAvoids(TomorrowTail, text, h.group);
      TrimKeepsNoneOf(Slice(text, h.group), "\n.");
      Trim(Slice(text, h.group))
  }

  /** "Notes/Remarks": the rest of the line after the notes label, stripped. */
  function NotesField(text: string): (r: string)
    ensures Trimmed(r) && NoneOf(r, "\n")
    ensures Search(NotesPhrase, text).None? ==> r == ""
  {
    match Search(NotesPhrase, text)
    case None => ""
    case Some(h) =>
      LineGroupAvoids(text, h.group);
      TrimKeepsNoneOf(Slice(text, h.group), "\n");
      Trim(Slice(text, h.group))
  }

  /** The nine values `parse_natural_language` computes, before they are put under their keys. */
  datatype Fields = Fields(
    date: string, project: string, leave: string, tasks: string,
    hours: string, blockers: string, tomorrow: string, notes: string)

  /** The shape each of the eight fields has, whatever the text. */
  predicate Shaped(f: Fields) {
    && (f.date == "" || IsIsoDate(f.date))
    && (f.project == "" || (|f.project| >= 8 && f.project[|f.project| - 8..] == " project"))
    && f.leave in {"WFH", "Office", ""}
    && Trimmed(f.tasks) && NoneOf(f.tasks, ".,\n")
    && (f.hours == "" || (|f.hours| >= 1 && AllDigits(f.hours)))
    && Trimmed(f.blockers) && NoneOf(f.blockers, ".")
    && Trimmed(f.tomorrow) && NoneOf(f.tomorrow, "\n.")
    && Trimmed(f.notes) && NoneOf(f.notes, "\n")
  }

  /** Every field extracted from the same text, each by its own search. */
  function Extract(text: string): (f: Fields)
    ensures Shaped(f)
  {
    Fields(DateField(text), ProjectField(text), LeaveField(text), TasksField(text),
           HoursField(text), BlockersField(text), TomorrowField(text), NotesField(text))
  }

  /** The record with the nine keys; "Date update on" repeats the date. */
  function ToRecord(f: Fields): (entry: Record)
    ensures entry.Keys == set k | k in Columns
    ensures entry[DateKey] == f.date && entry[UpdatedOnKey] == f.date
    ensures entry[ProjectKey] == f.project && entry[LeaveKey] == f.leave
    ensures entry[TasksKey] == f.tasks && entry[HoursKey] == f.hours
    ensures entry[BlockersKey] == f.blockers && entry[TomorrowKey] == f.tomorrow
    ensures entry[NotesKey] == f.notes
  {
    FieldMapKeys(f);
    FieldMapValues(f);
    FieldMap(f)
  }

  function FieldMap(f: Fields): Record {
    map[
      DateKey := f.date, UpdatedOnKey := f.date, ProjectKey := f.project, LeaveKey := f.leave,
      TasksKey := f.tasks, HoursKey := f.hours, BlockersKey := f.blockers,
      TomorrowKey := f.tomorrow, NotesKey := f.notes
    ]
  }

  lemma FieldMapKeys(f: Fields)
    ensures FieldMap(f).Keys == set k | k in Columns
  {
  }

  lemma FieldMapValues(f: Fields)
    ensures var m := FieldMap(f);
      && m[DateKey] == f.date && m[UpdatedOnKey] == f.date && m[ProjectKey] == f.project
      && m[LeaveKey] == f.leave && m[TasksKey] == f.tasks && m[HoursKey] == f.hours
      && m[BlockersKey] == f.blockers && m[TomorrowKey] == f.tomorrow && m[NotesKey] == f.notes
  {
  }

  /**
   * What every record `parse_natural_language` returns looks like: all nine
   * keys, "Date update on" equal to "Date", a real ISO date or nothing, one
   * of the three attendance values, hours as digits, the project suffix, and
   * the text fields stripped and free of the characters that end them.
   */
  predicate WellFormed(entry: Record) {
    && entry.Keys == set k | k in Columns
    && Get(entry, UpdatedOnKey) == Get(entry, DateKey)
    && (Get(entry, DateKey) == "" || IsIsoDate(Get(entry, DateKey)))
    && Get(entry, LeaveKey) in {"WFH", "Office", ""}
    && (Get(entry, HoursKey) == "" || (|Get(entry, HoursKey)| >= 1 && AllDigits(Get(entry, HoursKey))))
    && (Get(entry, ProjectKey) == "" || (|Get(entry, ProjectKey)| >= 8 && Get(entry, ProjectKey)[|Get(entry, ProjectKey)| - 8..] == " project"))
    && Trimmed(Get(entry, TasksKey)) && NoneOf(Get(entry, TasksKey), ".,\n")
    && Trimmed(Get(entry, BlockersKey)) && NoneOf(Get(entry, BlockersKey), ".")
    && Trimmed(Get(entry, TomorrowKey)) && NoneOf(Get(entry, TomorrowKey), "\n.")
    && Trimmed(Get(entry, NotesKey)) && NoneOf(Get(entry, NotesKey), "\n")
  }

  /**
   * A field whose pattern finds nothing in the text is `""`.  The project,
   * attendance and hours fields are `""` only then: a match always leaves
   * something in them.
   */
  predicate BlankWhereUnmatched(text: string, entry: Record) {
    && (Search(DatePhrase, text).None? ==> Get(entry, DateKey) == "" && Get(entry, UpdatedOnKey) == "")
    && (Get(entry, ProjectKey) == "" <==> Search(ProjectPhrase, text).None?)
    && (Get(entry, LeaveKey) == "" <==> Search(HomePhrase, text).None? && Search(OfficePhrase, text).None?)
    && (Search(TasksPhrase, text).None? ==> Get(entry, TasksKey) == "")
    && (Get(entry, HoursKey) == "" <==> Search(HoursWorkedPhrase, text).None? && Search(HoursLabel, text).None?)
    && (Search(BlockersPhrase, text).None? ==> Get(entry, BlockersKey) == "")
    && (Search(TomorrowPhrase, text).None? ==> Get(entry, TomorrowKey) == "")
    && (Search(NotesPhrase, text).None? ==> Get(entry, NotesKey) == "")
  }

  /** `parse_natural_language(text)`: all nine keys, each field from its own extractor. */
  function ParseNaturalLanguage(text: string): (entry: Record)
    ensures WellFormed(entry)
  {
    var f := Extract(text);
    RecordOf(f);
    ToRecord(f)
  }

  /** The field properties carry over to the record. */
  lemma RecordOf(f: Fields)
    requires Shaped(f)
    ensures WellFormed(ToRecord(f))
  {
  }

  /** Every field whose pattern finds nothing in the text is blank in the record. */
  lemma UnmatchedFieldsBlank(text: string)
    ensures BlankWhereUnmatched(text, ParseNaturalLanguage(text))
  {
    var f := Extract(text);
    var e := ToRecord(f);
    assert e == ParseNaturalLanguage(text);
    DateBlank(text, f, e);
    ProjectBlank(text, f, e);
    LeaveBlank(text, f, e);
    TasksBlank(text, f, e);
    HoursBlank(text, f, e);
    BlockersBlank(text, f, e);
    TomorrowBlank(text, f, e);
    NotesBlank(text, f, e);
  }

  lemma DateBlank(text: string, f: Fields, e: Record)
    requires f.date == DateField(text) && e == ToRecord(f)
    ensures Search(DatePhrase, text).None? ==> Get(e, DateKey) == "" && Get(e, UpdatedOnKey) == ""
  {
  }

  lemma ProjectBlank(text: string, f: Fields, e: Record)
    requires f.project == ProjectField(text) && e == ToRecord(f)
    ensures Get(e, ProjectKey) == "" <==> Search(ProjectPhrase, text).None?
  {
  }

  lemma LeaveBlank(text: string, f: Fields, e: Record)
    requires f.leave == LeaveField(text) && e == ToRecord(f)
    ensures Get(e, LeaveKey) == "" <==> Search(HomePhrase, text).None? && Search(OfficePhrase, text).None?
  {
  }

  lemma TasksBlank(text: string, f: Fields, e: Record)
    requires f.tasks == TasksField(text) && e == ToRecord(f)
    ensures Search(TasksPhrase, text).None? ==> Get(e, TasksKey) == ""
  {
  }

  lemma HoursBlank(text: string, f: Fields, e: Record)
    requires f.hours == HoursField(text) && e == ToRecord(f)
    ensures Get(e, HoursKey) == "" <==> Search(HoursWorkedPhrase, text).None? && Search(HoursLabel, text).None?
  {
  }

  lemma BlockersBlank(text: string, f: Fields, e: Record)
    requires f.blockers == BlockersField(text) && e == ToRecord(f)
    ensures Search(BlockersPhrase, text).None? ==> Get(e, BlockersKey) == ""
  {
  }

  lemma TomorrowBlank(text: string, f: Fields, e: Record)
    requires f.tomorrow == TomorrowField(text) && e == ToRecord(f)
    ensures Search(TomorrowPhrase, text).None? ==> Get(e, TomorrowKey) == ""
  {
  }

  lemma NotesBlank(text: string, f: Fields, e: Record)
    requires f.notes == NotesField(text) && e == ToRecord(f)
    ensures Search(NotesPhrase, text).None? ==> Get(e, NotesKey) == ""
  {
  }
}

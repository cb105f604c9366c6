/**
 * The regular expressions the extractor searches for, each written out as a
 * matcher that says whether the pattern matches at one position and, if it
 * does, where its group 1 lies.  All of them are used with `re.IGNORECASE`.
 * `Search` is `re.search`: the leftmost position at which the matcher
 * succeeds.
 *
 * Where a pattern can match in more than one way, the matcher returns the
 * match Python's backtracking finds first: greedy repetitions are tried
 * longest first, lazy ones shortest first, alternatives and optional parts
 * in the order written.
 */
module Patterns {
  import opened Wrappers
  import opened Text

  /** Group 1 of a match: `text[lo..hi]`. */
  datatype Span = Span(lo: nat, hi: nat)

  predicate InText(s: Span, text: string) {
    s.lo <= s.hi <= |text|
  }

  function Slice(text: string, s: Span): string
    requires InText(s, text)
  {
    text[s.lo..s.hi]
  }

  /** The optional separator `[:\-]` after a label. */
  predicate IsSep(c: char) {
    c == ':' || c == '-'
  }

  /** What follows a lazy `(.*?)` group; the group ends at the first position where its tail matches. */
  datatype Tail =
    | ProjectTail   // (?:\s+project)?[\.,\n]
    | TasksTail     // (?:[\.,\n]|Hours|Blockers|Tomorrow)
    | BlockersTail  // (?:[\n\.]|Tomorrow|Note|$)
    | TomorrowTail  // (?:[\n\.]|Note|$)

  /** How a capture group extends from where it starts. */
  datatype GroupRule =
    | Lazy(tail: Tail)  // (.*?) followed by the tail
    | RestOfLine        // (.+) with nothing after it

  /**
   * The tail can match at `e`.  `$` (without MULTILINE) matches at the end
   * of the text and before a final newline; the latter is already covered by
   * the newline alternative.
   */
  predicate TailAt(t: Tail, text: string, e: nat)
    requires e <= |text|
  {
    match t
    case ProjectTail =>
      (e < |text| && text[e] in ".,\n")
      || (var r := Run(Space, text, e);
          r >= 1 && LitAt(text, e + r, "project") && e + r + 7 < |text| && text[e + r + 7] in ".,\n")
    case TasksTail =>
      (e < |text| && text[e] in ".,\n")
      || LitAt(text, e, "hours") || LitAt(text, e, "blockers") || LitAt(text, e, "tomorrow")
    case BlockersTail =>
      e == |text| || text[e] in "\n." || LitAt(text, e, "tomorrow") || LitAt(text, e, "note")
    case TomorrowTail =>
      e == |text| || text[e] in "\n." || LitAt(text, e, "note")
  }

  /**
   * Where a lazy `(.*?)` group that starts at `e` ends: the first position
   * at which the tail matches, the group never taking in a newline (`.`).
   */
  function LazyEnd(t: Tail, text: string, e: nat): (r: Option<nat>)
    requires e <= |text|
    ensures r.Some? ==> e <= r.value <= |text| && TailAt(t, text, r.value)
    ensures r.Some? ==> NoNewline(text, e, r.value)
    ensures r.Some? ==> forall k :: e <= k < r.value ==> !TailAt(t, text, k)
    ensures r.None? ==> forall k :: e <= k <= |text| && NoNewline(text, e, k) ==> !TailAt(t, text, k)
    decreases |text| - e
  {
    if TailAt(t, text, e) then Some(e)
    else if e == |text| || text[e] == '\n' then None
    else LazyEnd(t, text, e + 1)
  }

  /** No newline in `text[lo..hi]`. */
  predicate NoNewline(text: string, lo: nat, hi: nat)
    requires lo <= hi <= |text|
  {
    forall j :: lo <= j < hi ==> text[j] != '\n'
  }

  /** Where a group that starts at `w` ends, if it can match there at all. */
  function GroupEnd(rule: GroupRule, text: string, w: nat): (r: Option<nat>)
    requires w <= |text|
    ensures r.Some? ==> w <= r.value <= |text| && NoNewline(text, w, r.value)
    ensures r.Some? && rule.Lazy? ==> TailAt(rule.tail, text, r.value)
    ensures r.Some? && rule.Lazy? ==> forall k :: w <= k < r.value ==> !TailAt(rule.tail, text, k)
    ensures r.Some? && rule.RestOfLine? ==> w < r.value && (r.value == |text| || text[r.value] == '\n')
  {
    match rule
    case Lazy(t) => LazyEnd(t, text, w)
    case RestOfLine =>
      var n := Run(LineChar, text, w);
      RunChars(LineChar, text, w);
      if n >= 1 then Some(w + n) else None
  }

  /**
   * A repetition tried from `k` characters down to `min`: the first length
   * after which `ends` succeeds.  Stated for any continuation so that the
   * back-off is reasoned about apart from what follows it.
   */
  function Backoff(ends: nat -> Option<nat>, p: nat, k: nat, min: nat): (r: Option<Span>)
    ensures r.Some? ==> p + min <= r.value.lo <= p + k && ends(r.value.lo) == Some(r.value.hi)
    ensures r.Some? ==> forall j :: r.value.lo < j <= p + k ==> ends(j).None?
    ensures r.None? ==> forall j :: p + min <= j <= p + k ==> ends(j).None?
    decreases k
  {
    if k < min then None
    else
      match ends(p + k)
      case Some(e) => Some(Span(p + k, e))
      case None => if k == min then None else Backoff(ends, p, k - 1, min)
  }

  /** `GroupEnd` as a function value, empty past the end of the text. */
  function Ender(rule: GroupRule, text: string): nat -> Option<nat> {
    (w: nat) => if w <= |text| then GroupEnd(rule, text, w) else None
  }

  /**
   * A whitespace repetition (`\s*` when `min` is 0, `\s+` when it is 1) at
   * `p`, followed by a group: the repetition is tried with `k` characters
   * first, then with fewer, and the first length after which the group
   * matches decides where the group starts.
   */
  function WsBack(rule: GroupRule, text: string, p: nat, k: nat, min: nat): (r: Option<Span>)
    requires p + k <= |text|
    ensures r.Some? ==> p + min <= r.value.lo <= p + k && GroupEnd(rule, text, r.value.lo) == Some(r.value.hi)
    ensures r.Some? ==> forall j :: r.value.lo < j <= p + k ==> GroupEnd(rule, text, j).None?
    ensures r.None? ==> forall j :: p + min <= j <= p + k ==> GroupEnd(rule, text, j).None?
  {
    var ends := Ender(rule, text);
    assert forall j: nat :: j <= |text| ==> ends(j) == GroupEnd(rule, text, j);
    Backoff(ends, p, k, min)
  }

  /** `[:\-]?` at `p`, then the whitespace repetition and the group: with the separator first, then without. */
  function AfterOptSep(rule: GroupRule, text: string, p: nat, min: nat): (r: Option<Span>)
    requires p <= |text|
    ensures r.Some? ==> p <= r.value.lo <= |text| && GroupEnd(rule, text, r.value.lo) == Some(r.value.hi)
  {
    if p < |text| && IsSep(text[p]) then
      match WsBack(rule, text, p + 1, Run(Space, text, p + 1), min)
      case Some(s) => Some(s)
      case None => WsBack(rule, text, p, Run(Space, text, p), min)
    else WsBack(rule, text, p, Run(Space, text, p), min)
  }

  /** A case-insensitive ordinal suffix `st|nd|rd|th` at `q`. */
  predicate OrdinalAt(text: string, q: nat) {
    LitAt(text, q, "st") || LitAt(text, q, "nd") || LitAt(text, q, "rd") || LitAt(text, q, "th")
  }

  /**
   * `[\d]{1,2}(?:st|nd|rd|th)?\s+\w+\s+\d{4}` at `s`: where it ends.  The
   * repetitions are all followed by characters they cannot consume, so only
   * their longest choice can succeed.
   */
  function DateBody(text: string, s: nat): (r: Option<nat>)
    requires s <= |text|
    ensures r.Some? ==> s < r.value <= |text|
  {
    var n := Run(Digit, text, s);
    if n == 0 || n > 2 then None
    else DateAfterDay(text, DayEnd(text, s + n))
  }

  /** Where the day ends: after its ordinal suffix when one follows the digits at `q`. */
  function DayEnd(text: string, q: nat): (r: nat)
    requires q <= |text|
    ensures r == q || (r == q + 2 && OrdinalAt(text, q))
    ensures r <= |text|
  {
    if OrdinalAt(text, q) then q + 2 else q
  }

  /** `\s+\w+\s+\d{4}` after the day and its suffix, which end at `q`. */
  function DateAfterDay(text: string, q: nat): (r: Option<nat>)
    requires q <= |text|
    ensures r.Some? ==> q < r.value <= |text|
  {
    var r1 := Run(Space, text, q);
    if r1 == 0 then None else DateWord(text, q + r1)
  }

  /** `\w+\s+\d{4}` from `m`, where the month word begins. */
  function DateWord(text: string, m: nat): (r: Option<nat>)
    requires m <= |text|
    ensures r.Some? ==> m < r.value <= |text|
  {
    var w := Run(Word, text, m);
    if w == 0 then None else DateYear(text, m + w)
  }

  /** `\s+\d{4}` from `p`, where the month word ends. */
  function DateYear(text: string, p: nat): (r: Option<nat>)
    requires p <= |text|
    ensures r.Some? ==> p < r.value <= |text|
  {
    var r2 := Run(Space, text, p);
    if r2 == 0 then None
    else if Run(Digit, text, p + r2) >= 4 then Some(p + r2 + 4) else None
  }

  /**
   * `(?:Today's date is|Date[:\-]?)\s*(<date body>)`.  Without its
   * separator `Date` leaves `:` or `-` in front of the body, which must begin
   * with a digit, and a shorter `\s*` leaves whitespace there; so only the
   * first choice of each can succeed.
   */
  function DateAt(text: string, i: nat): (r: Option<Span>)
    requires i <= |text|
    ensures r.Some? ==> i <= r.value.lo && InText(r.value, text)
  {
    match DateStart(text, i)
    case None => None
    case Some(p) => DateFrom(text, p)
  }

  /** Where the whitespace in front of the body begins: after the phrase and, for `Date`, its separator. */
  function DateStart(text: string, i: nat): (r: Option<nat>)
    requires i <= |text|
    ensures r.Some? ==> i < r.value <= |text|
  {
    if LitAt(text, i, "today's date is") then Some(i + 15)
    else if LitAt(text, i, "date") then Some(if i + 4 < |text| && IsSep(text[i + 4]) then i + 5 else i + 4)
    else None
  }

  /** `\s*(<date body>)` from `p`. */
  function DateFrom(text: string, p: nat): (r: Option<Span>)
    requires p <= |text|
    ensures r.Some? ==> p <= r.value.lo && InText(r.value, text)
  {
    var s := p + Run(Space, text, p);
    match DateBody(text, s)
    case None => None
    case Some(e) => Some(Span(s, e))
  }

  /** `(?:worked on|Project[:\-]?)\s*(.*?)(?:\s+project)?[\.,\n]` */
  function ProjectAt(text: string, i: nat): (r: Option<Span>)
    requires i <= |text|
    ensures r.Some? ==> i <= r.value.lo <= |text| && GroupEnd(Lazy(ProjectTail), text, r.value.lo) == Some(r.value.hi)
  {
    if LitAt(text, i, "worked on") then WsBack(Lazy(ProjectTail), text, i + 9, Run(Space, text, i + 9), 0)
    else if LitAt(text, i, "project") then AfterOptSep(Lazy(ProjectTail), text, i + 7, 0)
    else None
  }

  /** `(from home|wfh)` */
  function HomeAt(text: string, i: nat): (r: Option<Span>)
    requires i <= |text|
    ensures r.Some? <==> LitAt(text, i, "from home") || LitAt(text, i, "wfh")
    ensures r.Some? ==> i <= r.value.lo && InText(r.value, text)
  {
    if LitAt(text, i, "from home") then Some(Span(i, i + 9))
    else if LitAt(text, i, "wfh") then Some(Span(i, i + 3))
    else None
  }

  /** `(office|onsite)` */
  function OfficeAt(text: string, i: nat): (r: Option<Span>)
    requires i <= |text|
    ensures r.Some? <==> LitAt(text, i, "office") || LitAt(text, i, "onsite")
    ensures r.Some? ==> i <= r.value.lo && InText(r.value, text)
  {
    if LitAt(text, i, "office") then Some(Span(i, i + 6))
    else if LitAt(text, i, "onsite") then Some(Span(i, i + 6))
    else None
  }

  /**
   * `(?:completed|Tasks Done[:\-]?)\s+(.*?)(?:[\.,\n]|Hours|Blockers|Tomorrow)`.
   * Without its separator `Tasks Done` leaves `:` or `-` where `\s+` needs
   * whitespace; `AfterOptSep` finds that out by itself.
   */
  function TasksAt(text: string, i: nat): (r: Option<Span>)
    requires i <= |text|
    ensures r.Some? ==> i <= r.value.lo <= |text| && GroupEnd(Lazy(TasksTail), text, r.value.lo) == Some(r.value.hi)
  {
    if LitAt(text, i, "completed") then WsBack(Lazy(TasksTail), text, i + 9, Run(Space, text, i + 9), 1)
    else if LitAt(text, i, "tasks done") then AfterOptSep(Lazy(TasksTail), text, i + 10, 1)
    else None
  }

  /**
   * `(\d+)\s+(?:hrs|hours)\s+worked`.  Each repetition is followed by
   * something it cannot consume, and `hrs` and `hours` differ in their second
   * letter, so the match is unique.
   */
  function HoursWorkedAt(text: string, i: nat): (r: Option<Span>)
    requires i <= |text|
    ensures r.Some? ==> r.value == Span(i, i + Run(Digit, text, i)) && r.value.lo < r.value.hi <= |text|
  {
    var n := Run(Digit, text, i);
    var k := i + n + Run(Space, text, i + n);
    var m := UnitLen(text, k);
    if n >= 1 && i + n < k && m > 0 && WorkedAfter(text, k + m) then Some(Span(i, i + n)) else None
  }

  /** The length of the unit word at `k`, `hrs` tried before `hours`; 0 when neither is there. */
  function UnitLen(text: string, k: nat): (m: nat)
    ensures m == 0 || m == 3 || m == 5
    ensures m > 0 ==> k + m <= |text|
  {
    if LitAt(text, k, "hrs") then 3 else if LitAt(text, k, "hours") then 5 else 0
  }

  /** `\s+worked` at `u`. */
  predicate WorkedAfter(text: string, u: nat)
    requires u <= |text|
  {
    var r := Run(Space, text, u);
    r >= 1 && LitAt(text, u + r, "worked")
  }

  /** `Hours[:\-]?\s*(\d+)`; as for `DateAt`, only the first choice of the separator and `\s*` can succeed. */
  function HoursLabelAt(text: string, i: nat): (r: Option<Span>)
    requires i <= |text|
    ensures r.Some? ==> i <= r.value.lo < r.value.hi <= |text|
    ensures r.Some? ==> r.value.hi == r.value.lo + Run(Digit, text, r.value.lo)
  {
    if !LitAt(text, i, "hours") then None
    else
      var p := if i + 5 < |text| && IsSep(text[i + 5]) then i + 6 else i + 5;
      var w := p + Run(Space, text, p);
      var n := Run(Digit, text, w);
      if n >= 1 then Some(Span(w, w + n)) else None
  }

  /**
   * `(no blockers|Blockers[:\-]?\s*.*?)(?:[\n\.]|Tomorrow|Note|$)`; the group
   * includes the label.
   */
  function BlockersAt(text: string, i: nat): (r: Option<Span>)
    requires i <= |text|
    ensures r.Some? ==> r.value.lo == i && InText(r.value, text)
    ensures r.Some? ==> TailAt(BlockersTail, text, r.value.hi)
    ensures r.Some? ==> NoneOf(Slice(text, r.value), ".")
  {
    if LitAt(text, i, "no blockers") then
      if TailAt(BlockersTail, text, i + 11) then
        PhraseAvoids(text, i);
        Some(Span(i, i + 11))
      else None
    else if LitAt(text, i, "blockers") then
      match AfterOptSep(Lazy(BlockersTail), text, i + 8, 0)
      case Some(s) =>
        LabelSpanAvoids(text, i, s);
        Some(Span(i, s.hi))
      case None => None
    else None
  }

  /** The phrase "no blockers" holds no full stop. */
  lemma PhraseAvoids(text: string, i: nat)
    requires LitAt(text, i, "no blockers")
    ensures NoneOf(text[i..i + 11], ".")
  {
    forall k | i <= k < i + 11 ensures text[k] != '.' {
      LetterIsNot(text[k], "no blockers"[k - i], '.');
    }
  }

  /** A character that lowers to `lc` is not `c`, when `c` has no case and differs from `lc`. */
  lemma LetterIsNot(x: char, lc: char, c: char)
    requires ToLower(x) == lc && lc != c && !('A' <= c <= 'Z')
    ensures x != c
  {
  }

  /** `Blockers[:\-]?\s*` followed by its lazy group: the whole span holds no full stop. */
  lemma LabelSpanAvoids(text: string, i: nat, g: Span)
    requires i + 8 <= |text| && LitAt(text, i, "blockers")
    requires AfterOptSep(Lazy(BlockersTail), text, i + 8, 0) == Some(g)
    ensures i <= g.hi <= |text| && NoneOf(text[i..g.hi], ".")
  {
    LazyGroupAvoids(BlockersTail, text, g);
    OptSepSkips(text, i + 8, g);
    PiecesAvoid(text, i, g.lo, g.hi);
  }

  /** Label, separator and whitespace, then a group without full stops: no full stop in all of it. */
  lemma PiecesAvoid(text: string, i: nat, lo: nat, hi: nat)
    requires i + 8 <= lo <= hi <= |text| && LitAt(text, i, "blockers")
    requires forall j :: i + 8 <= j < lo ==> text[j] in ":-" || IsSpace(text[j])
    requires NoneOf(text[lo..hi], "\n.")
    ensures NoneOf(text[i..hi], ".")
  {
    forall k | i <= k < hi ensures text[k] != '.' {
      if k < i + 8 {
        LetterIsNot(text[k], "blockers"[k - i], '.');
      } else if k >= lo {
        assert text[k] == text[lo..hi][k - lo];
      }
    }
  }

  /** What `AfterOptSep` skips before its group is the separator and whitespace. */
  lemma OptSepSkips(text: string, p: nat, g: Span)
    requires p <= |text|
    requires AfterOptSep(Lazy(BlockersTail), text, p, 0) == Some(g)
    ensures g.lo <= |text| && forall j :: p <= j < g.lo ==> text[j] in ":-" || IsSpace(text[j])
  {
    if p < |text| && IsSep(text[p]) && WsBack(Lazy(BlockersTail), text, p + 1, Run(Space, text, p + 1), 0).Some? {
      RunChars(Space, text, p + 1);
      forall j | p < j < g.lo ensures IsSpace(text[j]) {
        assert InClass(Space, text[j]);
      }
    } else {
      RunChars(Space, text, p);
      forall j | p <= j < g.lo ensures IsSpace(text[j]) {
        assert InClass(Space, text[j]);
      }
    }
  }


  /**
   * The first alternative of the tomorrow pattern after its `tomorrow`:
   * `.*?(?:will|to)\s+` followed by `\s*(.*?)(?:[\n\.]|Note|$)`.  The lazy
   * `.*?` stops at the first `will` or `to` (tried in that order) after which
   * the rest matches.  `\s+` and `\s*` together give a whitespace repetition
   * of at least one character, tried longest first.
   */
  function KeywordScan(text: string, m: nat): (r: Option<Span>)
    requires m <= |text|
    ensures r.Some? ==> m <= r.value.lo <= |text| && GroupEnd(Lazy(TomorrowTail), text, r.value.lo) == Some(r.value.hi)
    decreases |text| - m
  {
    var viaWill := if LitAt(text, m, "will") then WsBack(Lazy(TomorrowTail), text, m + 4, Run(Space, text, m + 4), 1) else None;
    var viaTo := if LitAt(text, m, "to") then WsBack(Lazy(TomorrowTail), text, m + 2, Run(Space, text, m + 2), 1) else None;
    if viaWill.Some? then viaWill
    else if viaTo.Some? then viaTo
    else if m == |text| || text[m] == '\n' then None
    else KeywordScan(text, m + 1)
  }

  /** `(?:tomorrow.*?(?:will|to)\s+|Tomorrow[:\-]?)\s*(.*?)(?:[\n\.]|Note|$)` */
  function TomorrowAt(text: string, i: nat): (r: Option<Span>)
    requires i <= |text|
    ensures r.Some? ==> i <= r.value.lo <= |text| && GroupEnd(Lazy(TomorrowTail), text, r.value.lo) == Some(r.value.hi)
  {
    if !LitAt(text, i, "tomorrow") then None
    else
      match KeywordScan(text, i + 8)
      case Some(s) => Some(s)
      case None => AfterOptSep(Lazy(TomorrowTail), text, i + 8, 0)
  }

  /**
   * `(?:Note[s]?:|Remarks[:\-]?)\s*(.+)`.  `Note` without its `s` would leave
   * that `s` where `:` is required, so `notes:` and `note:` exclude each other.
   */
  function NotesAt(text: string, i: nat): (r: Option<Span>)
    requires i <= |text|
    ensures r.Some? ==> i <= r.value.lo <= |text| && GroupEnd(RestOfLine, text, r.value.lo) == Some(r.value.hi)
  {
    if LitAt(text, i, "notes:") then WsBack(RestOfLine, text, i + 6, Run(Space, text, i + 6), 0)
    else if LitAt(text, i, "note:") then WsBack(RestOfLine, text, i + 5, Run(Space, text, i + 5), 0)
    else if LitAt(text, i, "remarks") then AfterOptSep(RestOfLine, text, i + 7, 0)
    else None
  }

  /** The characters that end each lazy group, whichever else its tail can match. */
  function Stops(t: Tail): string {
    match t
    case ProjectTail => ".,\n"
    case TasksTail => ".,\n"
    case BlockersTail => "\n."
    case TomorrowTail => "\n."
  }

  /** A lazy group never takes in a character that would have ended it. */
  lemma LazyGroupAvoids(t: Tail, text: string, s: Span)
    requires s.lo <= |text| && GroupEnd(Lazy(t), text, s.lo) == Some(s.hi)
    ensures InText(s, text) && NoneOf(Slice(text, s), Stops(t))
  {
    forall k | 0 <= k < s.hi - s.lo ensures Slice(text, s)[k] !in Stops(t) {
      assert !TailAt(t, text, s.lo + k);
    }
  }

  /** `(.+)` never takes in a newline. */
  lemma LineGroupAvoids(text: string, s: Span)
    requires s.lo <= |text| && GroupEnd(RestOfLine, text, s.lo) == Some(s.hi)
    ensures InText(s, text) && NoneOf(Slice(text, s), "\n")
  {
    forall k | 0 <= k < s.hi - s.lo ensures Slice(text, s)[k] !in "\n" {
      assert text[s.lo + k] != '\n';
    }
  }

  /** The patterns of the extractor, in the order it applies them. */
  datatype Pattern =
    | DatePhrase | ProjectPhrase | HomePhrase | OfficePhrase | TasksPhrase
    | HoursWorkedPhrase | HoursLabel | BlockersPhrase | TomorrowPhrase | NotesPhrase

  /**
   * The matcher of `pat` on `text`, at every position (none past the end).
   * Each pattern's matcher is its own function value, so reasoning about one
   * pattern does not unfold the others.
   */
  function Matcher(pat: Pattern, text: string): nat -> Option<Span> {
    match pat
    case DatePhrase => (i: nat) => if i <= |text| then DateAt(text, i) else None
    case ProjectPhrase => (i: nat) => if i <= |text| then ProjectAt(text, i) else None
    case HomePhrase => (i: nat) => if i <= |text| then HomeAt(text, i) else None
    case OfficePhrase => (i: nat) => if i <= |text| then OfficeAt(text, i) else None
    case TasksPhrase => (i: nat) => if i <= |text| then TasksAt(text, i) else None
    case HoursWorkedPhrase => (i: nat) => if i <= |text| then HoursWorkedAt(text, i) else None
    case HoursLabel => (i: nat) => if i <= |text| then HoursLabelAt(text, i) else None
    case BlockersPhrase => (i: nat) => if i <= |text| then BlockersAt(text, i) else None
    case TomorrowPhrase => (i: nat) => if i <= |text| then TomorrowAt(text, i) else None
    case NotesPhrase => (i: nat) => if i <= |text| then NotesAt(text, i) else None
  }

  /** The pattern matches at position `i`; group 1 of the match. */
  function MatchAt(pat: Pattern, text: string, i: nat): (r: Option<Span>)
    requires i <= |text|
    ensures r.Some? ==> i <= r.value.lo && InText(r.value, text)
  {
    match pat
    case DatePhrase => DateAt(text, i)
    case ProjectPhrase => ProjectAt(text, i)
    case HomePhrase => HomeAt(text, i)
    case OfficePhrase => OfficeAt(text, i)
    case TasksPhrase => TasksAt(text, i)
    case HoursWorkedPhrase => HoursWorkedAt(text, i)
    case HoursLabel => HoursLabelAt(text, i)
    case BlockersPhrase => BlockersAt(text, i)
    case TomorrowPhrase => TomorrowAt(text, i)
    case NotesPhrase => NotesAt(text, i)
  }

  /** A match found by `Search`: where it starts and its group 1. */
  datatype Hit = Hit(at: nat, group: Span)

  /**
   * The scan of `re.search`: the first position from `start` to `n` at which
   * `m` succeeds.  It is stated for any matcher so that the scan's reasoning
   * stays apart from what the matchers do.
   */
  function Scan(m: nat -> Option<Span>, n: nat, start: nat): (r: Option<Hit>)
    requires start <= n
    ensures r.Some? ==> start <= r.value.at <= n && m(r.value.at) == Some(r.value.group)
    ensures r.Some? ==> forall q :: start <= q < r.value.at ==> m(q).None?
    ensures r.None? ==> forall q :: start <= q <= n ==> m(q).None?
    decreases n - start
  {
    match m(start)
    case Some(g) => Some(Hit(start, g))
    case None => if start == n then None else Scan(m, n, start + 1)
  }

  /** `re.search(pat, text)`: the leftmost position of `text` where `pat` matches. */
  function Search(pat: Pattern, text: string): (r: Option<Hit>)
    ensures r.Some? ==> r.value.at <= |text| && MatchAt(pat, text, r.value.at) == Some(r.value.group)
    ensures r.Some? ==> forall q :: 0 <= q < r.value.at ==> MatchAt(pat, text, q).None?
    ensures r.None? ==> forall q :: 0 <= q <= |text| ==> MatchAt(pat, text, q).None?
  {
    var m := Matcher(pat, text);
    assert forall q: nat :: q <= |text| ==> m(q) == MatchAt(pat, text, q);
    Scan(m, |text|, 0)
  }
}

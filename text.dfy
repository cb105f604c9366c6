/** Optional values, used for "no match" and "parse failed". */
module Wrappers {
  datatype Option<+T> = None | Some(value: T)
}

/**
 * Character classes and string helpers with the meaning Python gives them on
 * `str` values: the regex classes `\s`, `\d`, `\w` and `.`, `re.IGNORECASE`
 * comparison against a literal, `str.strip()`, `str.replace(old, "")` and the
 * `\b` word boundary.  Letters, digits and case are ASCII; whitespace is the
 * full set `str.isspace()` accepts.
 */
module Text {

  /** `\s` in a `str` pattern and the characters `str.strip()` removes. */
  predicate IsSpace(c: char) {
    c == ' ' || ('\t' <= c <= '\r') || ('\U{1C}' <= c <= '\U{1F}')
    || c == '\U{85}' || c == '\U{A0}' || c == '\U{1680}' || ('\U{2000}' <= c <= '\U{200A}')
    || c == '\U{2028}' || c == '\U{2029}' || c == '\U{202F}' || c == '\U{205F}' || c == '\U{3000}'
  }

  /** `\d` */
  predicate IsDigit(c: char) {
    '0' <= c <= '9'
  }

  /** `\w` */
  predicate IsWordChar(c: char) {
    ('a' <= c <= 'z') || ('A' <= c <= 'Z') || IsDigit(c) || c == '_'
  }

  /** The classes a repeated pattern element can stand for; `LineChar` is `.` (anything but a newline). */
  datatype CharClass = Space | Digit | Word | LineChar

  predicate InClass(cls: CharClass, c: char) {
    match cls
    case Space => IsSpace(c)
    case Digit => IsDigit(c)
    case Word => IsWordChar(c)
    case LineChar => c != '\n'
  }

  function ToLower(c: char): char {
    if 'A' <= c <= 'Z' then (c as int + 32) as char else c
  }

  /**
   * The lower-case literal `lit` occurs at position `i` of `text`, letters
   * compared without regard to case (a literal under `re.IGNORECASE`, or a
   * search in `text.lower()`).
   */
  predicate LitAt(text: string, i: nat, lit: string) {
    i + |lit| <= |text| && forall k :: 0 <= k < |lit| ==> ToLower(text[i + k]) == lit[k]
  }

  /** A character inside an occurrence of a literal lowers to the literal's letter there. */
  lemma LitChar(text: string, p: nat, lit: string, x: nat)
    requires p <= x < |text|
    ensures LitAt(text, p, lit) && x < p + |lit| ==> ToLower(text[x]) == lit[x - p]
  {
    if LitAt(text, p, lit) && x < p + |lit| {
      assert ToLower(text[p + (x - p)]) == lit[x - p];
    }
  }

  /** Length of the longest run of `cls` characters starting at `p`: what a greedy `X*` consumes. */
  function Run(cls: CharClass, text: string, p: nat): (n: nat)
    requires p <= |text|
    ensures p + n <= |text|
    ensures p + n == |text| || !InClass(cls, text[p + n])
    decreases |text| - p
  {
    if p < |text| && InClass(cls, text[p]) then 1 + Run(cls, text, p + 1) else 0
  }

  /**
   * The characters `Run` consumed, stated for every index.  `Run` itself does
   * not promise this, so that contexts with many runs stay cheap; this lemma
   * brings the fact in where it is used.
   */
  lemma {:induction false} RunChars(cls: CharClass, text: string, p: nat)
    requires p <= |text|
    ensures forall k :: p <= k < p + Run(cls, text, p) ==> InClass(cls, text[k])
    decreases |text| - p
  {
    if p < |text| && InClass(cls, text[p]) {
      RunChars(cls, text, p + 1);
    }
  }

  /** A run of `n` characters of `cls` at `p` that the next character does not continue is what `Run` finds. */
  lemma {:induction false} RunExact(cls: CharClass, text: string, p: nat, n: nat)
    requires p + n <= |text|
    requires forall k :: p <= k < p + n ==> InClass(cls, text[k])
    requires p + n == |text| || !InClass(cls, text[p + n])
    ensures Run(cls, text, p) == n
    decreases n
  {
    if n > 0 {
      RunExact(cls, text, p + 1, n - 1);
    }
  }

  /** No character of `s` is one of `bad`. */
  predicate NoneOf(s: string, bad: string) {
    forall k :: 0 <= k < |s| ==> s[k] !in bad
  }

  /** `s` has no surrounding whitespace. */
  predicate Trimmed(s: string) {
    s == [] || (!IsSpace(s[0]) && !IsSpace(s[|s| - 1]))
  }

  /** Number of leading whitespace characters of `s`. */
  function Lead(s: string): (n: nat)
    ensures n <= |s|
  {
    Run(Space, s, 0)
  }

  /** Length of the run of whitespace that ends just before position `j`. */
  function TrailBefore(s: string, j: nat): (n: nat)
    requires j <= |s|
    ensures n <= j
    ensures n == j || !IsSpace(s[j - n - 1])
    decreases j
  {
    if j > 0 && IsSpace(s[j - 1]) then 1 + TrailBefore(s, j - 1) else 0
  }

  /** The run `TrailBefore` measures is whitespace. */
  lemma {:induction false} TrailChars(s: string, j: nat)
    requires j <= |s|
    ensures forall k :: j - TrailBefore(s, j) <= k < j ==> IsSpace(s[k])
    decreases j
  {
    if j > 0 && IsSpace(s[j - 1]) {
      TrailChars(s, j - 1);
    }
  }

  /** `str.strip()`: the result is the slice of `s` between its leading and trailing whitespace. */
  function Trim(s: string): (r: string)
    ensures Trimmed(r)
    ensures Lead(s) + |r| <= |s| && r == s[Lead(s)..Lead(s) + |r|]
  {
    var a := Lead(s);
    RunChars(Space, s, 0);
    TrailChars(s, |s|);
    if a == |s| then []
    else
      var b := |s| - TrailBefore(s, |s|);
      assert !InClass(Space, s[a]);
      s[a..b]
  }

  /** What `Trim` removes is whitespace, at both ends. */
  lemma TrimDrops(s: string)
    ensures forall k :: 0 <= k < Lead(s) ==> IsSpace(s[k])
    ensures forall k :: Lead(s) + |Trim(s)| <= k < |s| ==> IsSpace(s[k])
  {
    RunChars(Space, s, 0);
    TrailChars(s, |s|);
  }

  lemma TrimKeepsNoneOf(s: string, bad: string)
    requires NoneOf(s, bad)
    ensures NoneOf(Trim(s), bad)
  {
    var r := Trim(s);
    var a := Lead(s);
    forall k | 0 <= k < |r| ensures r[k] !in bad { assert r[k] == s[a + k]; }
  }

  /** A head that starts and ends with non-whitespace survives `str.strip()` unchanged. */
  lemma TrimKeepsHead(s: string, n: nat)
    requires 0 < n <= |s| && !IsSpace(s[0]) && !IsSpace(s[n - 1])
    ensures n <= |Trim(s)| && Trim(s)[..n] == s[..n]
  {
    assert !InClass(Space, s[0]);
    RunExact(Space, s, 0, 0);
    var r := Trim(s);
    TrimDrops(s);
    assert n - 1 < |r|;
    forall k | 0 <= k < n ensures r[k] == s[k] {
      assert r[k] == s[0 + k];
    }
  }

  /** Every character of `s` is whitespace. */
  predicate AllSpace(s: string) {
    forall k :: 0 <= k < |s| ==> IsSpace(s[k])
  }

  /** After leading whitespace, a head that starts and ends with non-whitespace is where `str.strip()` starts. */
  lemma TrimKeepsHeadAfter(ws: string, u: string, n: nat)
    requires AllSpace(ws) && 0 < n <= |u| && !IsSpace(u[0]) && !IsSpace(u[n - 1])
    ensures n <= |Trim(ws + u)| && Trim(ws + u)[..n] == u[..n]
  {
    var s := ws + u;
    forall k | 0 <= k < |ws| ensures InClass(Space, s[k]) {
      assert s[k] == ws[k];
    }
    assert s[|ws| + 0] == u[0];
    RunExact(Space, s, 0, |ws|);
    var r := Trim(s);
    TrimDrops(s);
    assert s[|ws| + (n - 1)] == u[n - 1];
    forall k | 0 <= k < n ensures r[k] == u[k] {
      assert r[k] == s[|ws| + k];
    }
  }

  lemma TrimOfTrimmed(s: string)
    requires Trimmed(s)
    ensures Trim(s) == s
  {
  }

  /** `s.replace(pat, "")`: every non-overlapping occurrence of `pat`, left to right, removed. */
  function RemoveAll(s: string, pat: string): (r: string)
    requires |pat| > 0
    ensures |r| <= |s|
    decreases |s|
  {
    if |s| < |pat| then s
    else if s[..|pat|] == pat then RemoveAll(s[|pat|..], pat)
    else [s[0]] + RemoveAll(s[1..], pat)
  }

  /** `pat` occurs (case-sensitively) at position `k` of `s`. */
  predicate OccursAt(s: string, k: nat, pat: string) {
    k + |pat| <= |s| && s[k..k + |pat|] == pat
  }

  /** `pat` does not occur anywhere in `s`. */
  predicate Absent(s: string, pat: string) {
    forall k :: 0 <= k <= |s| ==> !OccursAt(s, k, pat)
  }

  lemma {:induction false} RemoveAllAbsent(s: string, pat: string)
    requires |pat| > 0 && Absent(s, pat)
    ensures RemoveAll(s, pat) == s
    decreases |s|
  {
    if |s| >= |pat| {
      assert !OccursAt(s, 0, pat);
      assert s[0..|pat|] == s[..|pat|];
      assert Absent(s[1..], pat) by {
        forall k | 0 <= k <= |s[1..]| ensures !OccursAt(s[1..], k, pat) {
          assert !OccursAt(s, k + 1, pat);
          if k + |pat| <= |s[1..]| {
            assert s[1..][k..k + |pat|] == s[k + 1..k + 1 + |pat|];
          }
        }
      }
      RemoveAllAbsent(s[1..], pat);
      assert s == [s[0]] + s[1..];
    }
  }

  lemma RemoveAllLeading(pat: string, s: string)
    requires |pat| > 0
    ensures RemoveAll(pat + s, pat) == RemoveAll(s, pat)
  {
    assert (pat + s)[..|pat|] == pat;
    assert (pat + s)[|pat|..] == s;
  }

  /** `\blit\b` matches at `j` of `t.lower()`. */
  predicate WholeWordAt(t: string, j: nat, lit: string) {
    LitAt(t, j, lit)
    && (j == 0 || !IsWordChar(t[j - 1]))
    && (j + |lit| == |t| || !IsWordChar(t[j + |lit|]))
  }

  /** `re.search(r"\blit\b", t.lower())` finds something. */
  predicate HasWholeWord(t: string, lit: string) {
    exists j :: 0 <= j <= |t| && WholeWordAt(t, j, lit)
  }
}

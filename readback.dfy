/**
 * What each field reads back from an update written the way the extractor
 * expects: the field's phrase with its value after it, anywhere after text
 * that holds none of the pattern's keywords.  These are the inverses of
 * writing a field: the value put in is the value parsed out.
 */
module Readback {
  import opened Wrappers
  import opened Text
  import opened Calendar
  import opened Patterns
  import opened Extractor

  /**
   * A lazy group that starts at `e` and meets its tail first after `len`
   * characters, none of them a newline, ends there.
   */
  lemma {:induction false} LazyStops(t: Tail, text: string, e: nat, len: nat)
    requires e + len <= |text| && TailAt(t, text, e + len)
    requires forall k :: e <= k < e + len ==> text[k] != '\n' && !TailAt(t, text, k)
    ensures LazyEnd(t, text, e) == Some(e + len)
    decreases len
  {
    if len > 0 {
      LazyStops(t, text, e + 1, len - 1);
    }
  }

  /** `text` holds `lit` at position `at`, letters as they are. */
  predicate HoldsAt(text: string, at: nat, lit: string) {
    at + |lit| <= |text| && forall k :: 0 <= k < |lit| ==> text[at + k] == lit[k]
  }

  /**
   * The first `|lit|` characters of `w`, written into the text, are found
   * there by the case-insensitive comparison with the lower-case `lit`.
   */
  lemma LowerLitAt(text: string, at: nat, w: string, lit: string)
    requires HoldsAt(text, at, w) && |lit| <= |w|
    requires forall k :: 0 <= k < |lit| ==> ToLower(w[k]) == lit[k]
    ensures LitAt(text, at, lit)
  {
    forall k | 0 <= k < |lit| ensures ToLower(text[at + k]) == lit[k] {
      assert text[at + k] == w[k];
    }
  }

  /**
   * A literal found at `off + j` in a text that holds `body` at `off` and
   * then a character no letter of the literal lowers from, lies inside `body`.
   */
  lemma InsideBody(text: string, off: nat, body: string, lit: string, j: nat)
    requires HoldsAt(text, off, body) && off + |body| < |text|
    requires forall k :: 0 <= k < |lit| ==> ToLower(text[off + |body|]) != lit[k]
    requires j <= |body| && LitAt(text, off + j, lit)
    ensures LitAt(body, j, lit)
  {
    LitChar(text, off + j, lit, off + |body|);
    forall k | 0 <= k < |lit| ensures ToLower(body[j + k]) == lit[k] {
      assert text[off + (j + k)] == body[j + k];
    }
  }

  /** `text[lo..lo + |body|]` is `body`. */
  lemma SliceIs(text: string, lo: nat, body: string)
    requires HoldsAt(text, lo, body)
    ensures Slice(text, Span(lo, lo + |body|)) == body
  {
    assert text[lo..lo + |body|] == body by {
      forall k | 0 <= k < |body| ensures text[lo..lo + |body|][k] == body[k] {
        assert text[lo + k] == body[k];
      }
    }
  }

  /** The pieces of `a + b + c + d`. */
  lemma Pieces4(a: string, b: string, c: string, d: string)
    ensures var t := a + b + c + d;
      && HoldsAt(t, 0, a) && HoldsAt(t, |a|, b) && HoldsAt(t, |a| + |b|, c) && HoldsAt(t, |a| + |b| + |c|, d)
      && |t| == |a| + |b| + |c| + |d|
  {
  }

  /** The pieces of `a + b + c`. */
  lemma Pieces3(a: string, b: string, c: string)
    ensures var t := a + b + c;
      && HoldsAt(t, 0, a) && HoldsAt(t, |a|, b) && HoldsAt(t, |a| + |b|, c) && |t| == |a| + |b| + |c|
  {
  }

  /** The pieces of `a + b + c + d + e`. */
  lemma Pieces5(a: string, b: string, c: string, d: string, e: string)
    ensures var t := a + b + c + d + e;
      && HoldsAt(t, 0, a) && HoldsAt(t, |a|, b) && HoldsAt(t, |a| + |b|, c) && HoldsAt(t, |a| + |b| + |c|, d)
      && HoldsAt(t, |a| + |b| + |c| + |d|, e) && |t| == |a| + |b| + |c| + |d| + |e|
  {
  }

  lemma Pieces6(a: string, b: string, c: string, d: string, e: string, f: string)
    ensures var t := a + b + c + d + e + f;
      && HoldsAt(t, 0, a) && HoldsAt(t, |a|, b) && HoldsAt(t, |a| + |b|, c) && HoldsAt(t, |a| + |b| + |c|, d)
      && HoldsAt(t, |a| + |b| + |c| + |d|, e) && HoldsAt(t, |a| + |b| + |c| + |d| + |e|, f)
      && |t| == |a| + |b| + |c| + |d| + |e| + |f|
  {
  }

  /** A literal found in `t` wholly inside its first part `pre` is found in `pre`. */
  lemma LitInPre(t: string, pre: string, q: nat, kw: string)
    requires HoldsAt(t, 0, pre)
    ensures LitAt(t, q, kw) && q + |kw| <= |pre| ==> LitAt(pre, q, kw)
  {
    if LitAt(t, q, kw) && q + |kw| <= |pre| {
      forall k | 0 <= k < |kw| ensures ToLower(pre[q + k]) == kw[k] {
        assert t[0 + (q + k)] == pre[q + k];
      }
    }
  }

  /**
   * A keyword that `pre` does not mention starts nowhere inside `pre` when
   * the character after `pre` lowers to none of the keyword's later letters:
   * an occurrence reaching past `pre` would have one of them there.
   */
  lemma KeywordNotBefore(t: string, pre: string, kw: string)
    requires HoldsAt(t, 0, pre) && |pre| < |t| && !Mentions(pre, kw)
    requires forall j :: 0 < j < |kw| ==> kw[j] != ToLower(t[|pre|])
    ensures forall q :: 0 <= q < |pre| ==> !LitAt(t, q, kw)
  {
    forall q | 0 <= q < |pre| ensures !LitAt(t, q, kw) {
      if q + |kw| <= |pre| {
        LitInPre(t, pre, q, kw);
        assert !LitAt(pre, q, kw);
      } else {
        LitChar(t, q, kw, |pre|);
      }
    }
  }

  /** The phrase's first letter, as the case-insensitive comparison sees it. */
  lemma FirstLetter(t: string, a: nat, phrase: string)
    requires HoldsAt(t, a, phrase) && |phrase| > 0
    ensures a < |t| && ToLower(t[a]) == ToLower(phrase[0])
  {
    assert t[a + 0] == phrase[0];
  }

  // ---------------------------------------------------------------- tasks

  /**
   * "completed <tasks>, ..." after any text that mentions neither
   * "completed" nor "tasks done": the tasks read back as written, provided
   * they hold none of the characters and words that end the group.
   */
  lemma TasksReadBack(pre: string, body: string, rest: string)
    requires !Mentions(pre, "completed") && !Mentions(pre, "tasks done")
    requires Trimmed(body) && NoneOf(body, ".,\n")
    requires !Mentions(body, "hours") && !Mentions(body, "blockers") && !Mentions(body, "tomorrow")
    ensures TasksField(pre + "completed " + body + "," + rest) == body
  {
    var t := pre + "completed " + body + "," + rest;
    Pieces5(pre, "completed ", body, ",", rest);
    TasksPrefixFree(t, pre);
    TasksAfter(t, |pre|, body);
  }

  /** No keyword of the pattern starts inside `pre`. */
  lemma TasksPrefixFree(t: string, pre: string)
    requires HoldsAt(t, 0, pre) && HoldsAt(t, |pre|, "completed ")
    requires !Mentions(pre, "completed") && !Mentions(pre, "tasks done")
    ensures forall q :: 0 <= q < |pre| ==> !LitAt(t, q, "completed") && !LitAt(t, q, "tasks done")
  {
    FirstLetter(t, |pre|, "completed ");
    KeywordNotBefore(t, pre, "completed");
    KeywordNotBefore(t, pre, "tasks done");
  }

  lemma TasksAfter(t: string, a: nat, body: string)
    requires HoldsAt(t, a, "completed ") && HoldsAt(t, a + 10, body) && a + 10 + |body| < |t| && t[a + 10 + |body|] == ','
    requires Trimmed(body) && NoneOf(body, ".,\n")
    requires !Mentions(body, "hours") && !Mentions(body, "blockers") && !Mentions(body, "tomorrow")
    requires forall q :: 0 <= q < a ==> !LitAt(t, q, "completed") && !LitAt(t, q, "tasks done")
    ensures TasksField(t) == body
  {
    TasksSearch(t, a, body);
    SliceIs(t, a + 10, body);
    TasksFromSearch(t, Hit(a, Span(a + 10, a + 10 + |body|)), body);
  }

  lemma TasksFromSearch(t: string, h: Hit, body: string)
    requires Search(TasksPhrase, t) == Some(h) && Slice(t, h.group) == body && Trimmed(body)
    ensures TasksField(t) == body
  {
    TrimOfTrimmed(body);
  }

  lemma TasksSearch(t: string, a: nat, body: string)
    requires HoldsAt(t, a, "completed ") && HoldsAt(t, a + 10, body) && a + 10 + |body| < |t| && t[a + 10 + |body|] == ','
    requires forall q :: 0 <= q < a ==> !LitAt(t, q, "completed") && !LitAt(t, q, "tasks done")
    requires Trimmed(body) && NoneOf(body, ".,\n")
    requires !Mentions(body, "hours") && !Mentions(body, "blockers") && !Mentions(body, "tomorrow")
    ensures Search(TasksPhrase, t) == Some(Hit(a, Span(a + 10, a + 10 + |body|)))
  {
    var g := Span(a + 10, a + 10 + |body|);
    TasksGroup(t, a, body);
    assert MatchAt(TasksPhrase, t, a) == Some(g);
    TasksNoneBefore(t, a);
    SearchFirstAt(TasksPhrase, t, a, g);
  }

  lemma TasksNoneBefore(t: string, a: nat)
    requires a <= |t|
    requires forall q :: 0 <= q < a ==> !LitAt(t, q, "completed") && !LitAt(t, q, "tasks done")
    ensures forall q :: 0 <= q < a ==> MatchAt(TasksPhrase, t, q).None?
  {
    forall q | 0 <= q < a ensures MatchAt(TasksPhrase, t, q).None? {
    }
  }

  lemma TasksGroup(t: string, a: nat, body: string)
    requires HoldsAt(t, a, "completed ") && HoldsAt(t, a + 10, body) && a + 10 + |body| < |t| && t[a + 10 + |body|] == ','
    requires Trimmed(body) && NoneOf(body, ".,\n")
    requires !Mentions(body, "hours") && !Mentions(body, "blockers") && !Mentions(body, "tomorrow")
    ensures TasksAt(t, a) == Some(Span(a + 10, a + 10 + |body|))
  {
    CompletedWord(t, a, body);
    TasksBodyEnds(t, a + 10, body);
    CompletedThenGroup(t, a, a + 10 + |body|);
  }

  lemma CompletedWord(t: string, a: nat, body: string)
    requires HoldsAt(t, a, "completed ") && HoldsAt(t, a + 10, body) && a + 10 + |body| < |t| && t[a + 10 + |body|] == ','
    requires Trimmed(body)
    ensures LitAt(t, a, "completed") && Run(Space, t, a + 9) == 1
  {
    LowerLitAt(t, a, "completed ", "completed");
    assert t[a + 9] == "completed "[9];
    assert !IsSpace(t[a + 10]) by {
      if body != [] { assert t[a + 10 + 0] == body[0]; }
    }
    RunExact(Space, t, a + 9, 1);
  }

  lemma TasksBodyEnds(t: string, off: nat, body: string)
    requires HoldsAt(t, off, body) && off + |body| < |t| && t[off + |body|] == ','
    requires NoneOf(body, ".,\n")
    requires !Mentions(body, "hours") && !Mentions(body, "blockers") && !Mentions(body, "tomorrow")
    ensures LazyEnd(TasksTail, t, off) == Some(off + |body|)
  {
    TasksBodyStops(t, off, body);
    LazyStops(TasksTail, t, off, |body|);
  }

  /** After "completed" and one space, the lazy group decides the match. */
  lemma CompletedThenGroup(t: string, a: nat, e: nat)
    requires a + 10 <= e <= |t| && LitAt(t, a, "completed") && Run(Space, t, a + 9) == 1
    requires LazyEnd(TasksTail, t, a + 10) == Some(e)
    ensures TasksAt(t, a) == Some(Span(a + 10, e))
  {
    assert GroupEnd(Lazy(TasksTail), t, a + 10) == Some(e);
  }

  lemma TasksBodyStops(t: string, off: nat, body: string)
    requires HoldsAt(t, off, body) && off + |body| < |t| && t[off + |body|] == ','
    requires NoneOf(body, ".,\n")
    requires !Mentions(body, "hours") && !Mentions(body, "blockers") && !Mentions(body, "tomorrow")
    ensures forall k :: off <= k < off + |body| ==> t[k] != '\n' && !TailAt(TasksTail, t, k)
  {
    forall k | off <= k < off + |body| ensures t[k] != '\n' && !TailAt(TasksTail, t, k) {
      assert t[off + (k - off)] == body[k - off];
      if LitAt(t, k, "hours") { InsideBody(t, off, body, "hours", k - off); }
      if LitAt(t, k, "blockers") { InsideBody(t, off, body, "blockers", k - off); }
      if LitAt(t, k, "tomorrow") { InsideBody(t, off, body, "tomorrow", k - off); }
    }
  }

  // ---------------------------------------------------------------- notes

  /**
   * "Note: <remark>" ending the text or its line, after any text that
   * mentions none of the notes keywords: the remark reads back as written.
   */
  lemma NotesReadBack(pre: string, body: string, rest: string)
    requires !Mentions(pre, "notes:") && !Mentions(pre, "note:") && !Mentions(pre, "remarks")
    requires body != [] && Trimmed(body) && NoneOf(body, "\n")
    requires rest == [] || rest[0] == '\n'
    ensures NotesField(pre + "Note: " + body + rest) == body
  {
    var t := pre + "Note: " + body + rest;
    Pieces4(pre, "Note: ", body, rest);
    NotesPrefixFree(t, pre);
    NotesAfter(t, |pre|, body);
  }

  /** No keyword of the pattern starts inside `pre`. */
  lemma NotesPrefixFree(t: string, pre: string)
    requires HoldsAt(t, 0, pre) && HoldsAt(t, |pre|, "Note: ")
    requires !Mentions(pre, "notes:") && !Mentions(pre, "note:") && !Mentions(pre, "remarks")
    ensures forall q :: 0 <= q < |pre| ==> !LitAt(t, q, "notes:") && !LitAt(t, q, "note:") && !LitAt(t, q, "remarks")
  {
    FirstLetter(t, |pre|, "Note: ");
    KeywordNotBefore(t, pre, "notes:");
    KeywordNotBefore(t, pre, "note:");
    KeywordNotBefore(t, pre, "remarks");
  }

  lemma NotesAfter(t: string, a: nat, body: string)
    requires HoldsAt(t, a, "Note: ") && HoldsAt(t, a + 6, body) && (a + 6 + |body| == |t| || t[a + 6 + |body|] == '\n')
    requires body != [] && Trimmed(body) && NoneOf(body, "\n")
    requires forall q :: 0 <= q < a ==> !LitAt(t, q, "notes:") && !LitAt(t, q, "note:") && !LitAt(t, q, "remarks")
    ensures NotesField(t) == body
  {
    NotesSearch(t, a, body);
    SliceIs(t, a + 6, body);
    NotesFromSearch(t, Hit(a, Span(a + 6, a + 6 + |body|)), body);
  }

  lemma NotesFromSearch(t: string, h: Hit, body: string)
    requires Search(NotesPhrase, t) == Some(h) && Slice(t, h.group) == body && Trimmed(body)
    ensures NotesField(t) == body
  {
    TrimOfTrimmed(body);
  }

  lemma NotesSearch(t: string, a: nat, body: string)
    requires HoldsAt(t, a, "Note: ") && HoldsAt(t, a + 6, body) && (a + 6 + |body| == |t| || t[a + 6 + |body|] == '\n')
    requires forall q :: 0 <= q < a ==> !LitAt(t, q, "notes:") && !LitAt(t, q, "note:") && !LitAt(t, q, "remarks")
    requires body != [] && Trimmed(body) && NoneOf(body, "\n")
    ensures Search(NotesPhrase, t) == Some(Hit(a, Span(a + 6, a + 6 + |body|)))
  {
    var g := Span(a + 6, a + 6 + |body|);
    NotesGroup(t, a, body);
    assert MatchAt(NotesPhrase, t, a) == Some(g);
    NotesNoneBefore(t, a);
    SearchFirstAt(NotesPhrase, t, a, g);
  }

  lemma NotesNoneBefore(t: string, a: nat)
    requires a <= |t|
    requires forall q :: 0 <= q < a ==> !LitAt(t, q, "notes:") && !LitAt(t, q, "note:") && !LitAt(t, q, "remarks")
    ensures forall q :: 0 <= q < a ==> MatchAt(NotesPhrase, t, q).None?
  {
    forall q | 0 <= q < a ensures MatchAt(NotesPhrase, t, q).None? {
    }
  }

  lemma NotesGroup(t: string, a: nat, body: string)
    requires HoldsAt(t, a, "Note: ") && HoldsAt(t, a + 6, body) && (a + 6 + |body| == |t| || t[a + 6 + |body|] == '\n')
    requires body != [] && Trimmed(body) && NoneOf(body, "\n")
    ensures NotesAt(t, a) == Some(Span(a + 6, a + 6 + |body|))
  {
    NoteWord(t, a, body);
    NoteLine(t, a + 6, body);
    NoteThenLine(t, a, a + 6 + |body|);
  }

  lemma NoteWord(t: string, a: nat, body: string)
    requires HoldsAt(t, a, "Note: ") && HoldsAt(t, a + 6, body) && body != [] && Trimmed(body)
    ensures !LitAt(t, a, "notes:") && LitAt(t, a, "note:") && Run(Space, t, a + 5) == 1
  {
    LowerLitAt(t, a, "Note: ", "note:");
    assert !LitAt(t, a, "notes:") by { assert t[a + 4] == "Note: "[4]; assert ToLower(t[a + 4]) != "notes:"[4]; }
    assert t[a + 5] == "Note: "[5];
    assert !IsSpace(t[a + 6]) by { assert t[a + 6 + 0] == body[0]; }
    RunExact(Space, t, a + 5, 1);
  }

  lemma NoteLine(t: string, off: nat, body: string)
    requires HoldsAt(t, off, body) && (off + |body| == |t| || t[off + |body|] == '\n')
    requires NoneOf(body, "\n")
    ensures Run(LineChar, t, off) == |body|
  {
    forall k | off <= k < off + |body| ensures InClass(LineChar, t[k]) {
      assert t[off + (k - off)] == body[k - off];
    }
    RunExact(LineChar, t, off, |body|);
  }

  /** After "note:" and one space, the rest of the line is the group. */
  lemma NoteThenLine(t: string, a: nat, e: nat)
    requires a + 6 < e <= |t| && !LitAt(t, a, "notes:") && LitAt(t, a, "note:") && Run(Space, t, a + 5) == 1
    requires Run(LineChar, t, a + 6) == e - (a + 6)
    ensures NotesAt(t, a) == Some(Span(a + 6, e))
  {
    assert GroupEnd(RestOfLine, t, a + 6) == Some(e);
  }

  // ------------------------------------------------------------- tomorrow

  /**
   * "tomorrow will <plan>." after any text that does not mention "tomorrow":
   * the plan reads back as written.
   */
  lemma TomorrowReadBack(pre: string, body: string, rest: string)
    requires !Mentions(pre, "tomorrow")
    requires Trimmed(body) && NoneOf(body, "\n.") && !Mentions(body, "note")
    ensures TomorrowField(pre + "tomorrow will " + body + "." + rest) == body
  {
    var t := pre + "tomorrow will " + body + "." + rest;
    Pieces5(pre, "tomorrow will ", body, ".", rest);
    TomorrowPrefixFree(t, pre);
    TomorrowAfter(t, |pre|, body);
  }

  /** No keyword of the pattern starts inside `pre`. */
  lemma TomorrowPrefixFree(t: string, pre: string)
    requires HoldsAt(t, 0, pre) && HoldsAt(t, |pre|, "tomorrow will ")
    requires !Mentions(pre, "tomorrow")
    ensures forall q :: 0 <= q < |pre| ==> !LitAt(t, q, "tomorrow")
  {
    FirstLetter(t, |pre|, "tomorrow will ");
    KeywordNotBefore(t, pre, "tomorrow");
  }

  lemma TomorrowAfter(t: string, a: nat, body: string)
    requires HoldsAt(t, a, "tomorrow will ") && HoldsAt(t, a + 14, body) && a + 14 + |body| < |t| && t[a + 14 + |body|] == '.'
    requires Trimmed(body) && NoneOf(body, "\n.") && !Mentions(body, "note")
    requires forall q :: 0 <= q < a ==> !LitAt(t, q, "tomorrow")
    ensures TomorrowField(t) == body
  {
    TomorrowSearch(t, a, body);
    SliceIs(t, a + 14, body);
    TomorrowFromSearch(t, Hit(a, Span(a + 14, a + 14 + |body|)), body);
  }

  lemma TomorrowFromSearch(t: string, h: Hit, body: string)
    requires Search(TomorrowPhrase, t) == Some(h) && Slice(t, h.group) == body && Trimmed(body)
    ensures TomorrowField(t) == body
  {
    TrimOfTrimmed(body);
  }

  lemma TomorrowSearch(t: string, a: nat, body: string)
    requires HoldsAt(t, a, "tomorrow will ") && HoldsAt(t, a + 14, body) && a + 14 + |body| < |t| && t[a + 14 + |body|] == '.'
    requires forall q :: 0 <= q < a ==> !LitAt(t, q, "tomorrow")
    requires Trimmed(body) && NoneOf(body, "\n.") && !Mentions(body, "note")
    ensures Search(TomorrowPhrase, t) == Some(Hit(a, Span(a + 14, a + 14 + |body|)))
  {
    var g := Span(a + 14, a + 14 + |body|);
    TomorrowGroup(t, a, body);
    assert MatchAt(TomorrowPhrase, t, a) == Some(g);
    TomorrowNoneBefore(t, a);
    SearchFirstAt(TomorrowPhrase, t, a, g);
  }

  lemma TomorrowNoneBefore(t: string, a: nat)
    requires a <= |t|
    requires forall q :: 0 <= q < a ==> !LitAt(t, q, "tomorrow")
    ensures forall q :: 0 <= q < a ==> MatchAt(TomorrowPhrase, t, q).None?
  {
    forall q | 0 <= q < a ensures MatchAt(TomorrowPhrase, t, q).None? {
    }
  }

  lemma TomorrowGroup(t: string, a: nat, body: string)
    requires HoldsAt(t, a, "tomorrow will ") && HoldsAt(t, a + 14, body) && a + 14 + |body| < |t| && t[a + 14 + |body|] == '.'
    requires Trimmed(body) && NoneOf(body, "\n.") && !Mentions(body, "note")
    ensures TomorrowAt(t, a) == Some(Span(a + 14, a + 14 + |body|))
  {
    TomorrowWill(t, a, body);
    TomorrowBodyEnds(t, a + 14, body);
    WillThenGroup(t, a, a + 14 + |body|);
  }

  /** The words of "tomorrow will " as the tomorrow matcher sees them. */
  lemma TomorrowWill(t: string, a: nat, body: string)
    requires HoldsAt(t, a, "tomorrow will ") && HoldsAt(t, a + 14, body) && a + 14 + |body| < |t| && t[a + 14 + |body|] == '.'
    requires Trimmed(body)
    ensures LitAt(t, a, "tomorrow") && t[a + 8] != '\n' && Run(Space, t, a + 13) == 1
    ensures !LitAt(t, a + 8, "will") && !LitAt(t, a + 8, "to") && LitAt(t, a + 9, "will")
  {
    LowerLitAt(t, a, "tomorrow will ", "tomorrow");
    assert t[a + 8] == "tomorrow will "[8] && t[a + 13] == "tomorrow will "[13];
    assert ToLower(t[a + 8 + 0]) != "will"[0] && ToLower(t[a + 8 + 0]) != "to"[0];
    assert LitAt(t, a + 9, "will") by {
      forall k | 0 <= k < 4 ensures ToLower(t[a + 9 + k]) == "will"[k] {
        assert t[a + (9 + k)] == "tomorrow will "[9 + k];
      }
    }
    assert !IsSpace(t[a + 14]) by {
      if body != [] { assert t[a + 14 + 0] == body[0]; }
    }
    RunExact(Space, t, a + 13, 1);
  }

  lemma TomorrowBodyEnds(t: string, off: nat, body: string)
    requires HoldsAt(t, off, body) && off + |body| < |t| && t[off + |body|] == '.'
    requires NoneOf(body, "\n.") && !Mentions(body, "note")
    ensures LazyEnd(TomorrowTail, t, off) == Some(off + |body|)
  {
    TomorrowBodyStops(t, off, body);
    LazyStops(TomorrowTail, t, off, |body|);
  }

  lemma TomorrowBodyStops(t: string, off: nat, body: string)
    requires HoldsAt(t, off, body) && off + |body| < |t| && t[off + |body|] == '.'
    requires NoneOf(body, "\n.") && !Mentions(body, "note")
    ensures forall k :: off <= k < off + |body| ==> t[k] != '\n' && !TailAt(TomorrowTail, t, k)
  {
    forall k | off <= k < off + |body| ensures t[k] != '\n' && !TailAt(TomorrowTail, t, k) {
      assert t[off + (k - off)] == body[k - off];
      if LitAt(t, k, "note") { InsideBody(t, off, body, "note", k - off); }
    }
  }

  /** "tomorrow", a space, then "will" and one space: the lazy group decides the match. */
  lemma WillThenGroup(t: string, a: nat, e: nat)
    requires a + 14 <= e <= |t| && LitAt(t, a, "tomorrow") && t[a + 8] != '\n'
    requires !LitAt(t, a + 8, "will") && !LitAt(t, a + 8, "to") && LitAt(t, a + 9, "will") && Run(Space, t, a + 13) == 1
    requires LazyEnd(TomorrowTail, t, a + 14) == Some(e)
    ensures TomorrowAt(t, a) == Some(Span(a + 14, e))
  {
    assert GroupEnd(Lazy(TomorrowTail), t, a + 14) == Some(e);
    assert KeywordScan(t, a + 9) == Some(Span(a + 14, e));
    assert KeywordScan(t, a + 8) == Some(Span(a + 14, e));
  }

  // ---------------------------------------------------------------- hours

  /** "<n> hours worked": the number reads back, whatever follows (an "Hours:" label included). */
  lemma HoursWorkedReadBack(digits: string, rest: string)
    requires |digits| >= 1 && AllDigits(digits)
    ensures HoursField(digits + " hours worked" + rest) == digits
  {
    var t := digits + " hours worked" + rest;
    Pieces3(digits, " hours worked", rest);
    WorkedFormFirst(t, digits, " hours worked", 5);
  }

  /** "<n> hrs worked": the short unit reads back the same way. */
  lemma HrsWorkedReadBack(digits: string, rest: string)
    requires |digits| >= 1 && AllDigits(digits)
    ensures HoursField(digits + " hrs worked" + rest) == digits
  {
    var t := digits + " hrs worked" + rest;
    Pieces3(digits, " hrs worked", rest);
    WorkedFormFirst(t, digits, " hrs worked", 3);
  }

  /** A text that starts with the digits and " hours worked" or " hrs worked" (`u` the unit's length). */
  lemma WorkedFormFirst(t: string, digits: string, w: string, u: nat)
    requires |digits| >= 1 && AllDigits(digits) && HoldsAt(t, 0, digits)
    requires (w == " hours worked" && u == 5) || (w == " hrs worked" && u == 3)
    requires HoldsAt(t, |digits|, w)
    ensures HoursField(t) == digits
  {
    if u == 5 {
      HoursWords(t, |digits|);
    } else {
      HrsWords(t, |digits|);
    }
    HoursWorkedFrom(t, 0, digits, u);
  }

  /**
   * "<n> hours worked" after text that does not mention "worked" and does
   * not end in a digit: no "worked" form can start in that text, so the
   * search reaches this one, whatever comes before or after it.
   */
  lemma HoursWorkedAfter(pre: string, digits: string, rest: string)
    requires |digits| >= 1 && AllDigits(digits)
    requires !Mentions(pre, "worked") && (pre == [] || !IsDigit(pre[|pre| - 1]))
    ensures HoursField(pre + digits + " hours worked" + rest) == digits
  {
    Pieces4(pre, digits, " hours worked", rest);
    WorkedPhraseAfter(pre + digits + " hours worked" + rest, pre, digits);
  }

  lemma WorkedPhraseAfter(t: string, pre: string, digits: string)
    requires HoldsAt(t, 0, pre) && HoldsAt(t, |pre|, digits) && |digits| >= 1 && AllDigits(digits)
    requires HoldsAt(t, |pre| + |digits|, " hours worked")
    requires !Mentions(pre, "worked") && (pre == [] || !IsDigit(pre[|pre| - 1]))
    ensures HoursField(t) == digits
  {
    HoursWords(t, |pre| + |digits|);
    WorkedAfterIn(t, pre, digits, 5);
  }

  /** "<n> hrs worked" after the same kind of text: the short unit reads back the same way. */
  lemma HrsWorkedAfter(pre: string, digits: string, rest: string)
    requires |digits| >= 1 && AllDigits(digits)
    requires !Mentions(pre, "worked") && (pre == [] || !IsDigit(pre[|pre| - 1]))
    ensures HoursField(pre + digits + " hrs worked" + rest) == digits
  {
    Pieces4(pre, digits, " hrs worked", rest);
    HrsPhraseAfter(pre + digits + " hrs worked" + rest, pre, digits);
  }

  lemma HrsPhraseAfter(t: string, pre: string, digits: string)
    requires HoldsAt(t, 0, pre) && HoldsAt(t, |pre|, digits) && |digits| >= 1 && AllDigits(digits)
    requires HoldsAt(t, |pre| + |digits|, " hrs worked")
    requires !Mentions(pre, "worked") && (pre == [] || !IsDigit(pre[|pre| - 1]))
    ensures HoursField(t) == digits
  {
    HrsWords(t, |pre| + |digits|);
    WorkedAfterIn(t, pre, digits, 3);
  }

  /** Either unit (`u` its length) after a `pre` in which no "worked" form can start. */
  lemma WorkedAfterIn(t: string, pre: string, digits: string, u: nat)
    requires HoldsAt(t, 0, pre) && HoldsAt(t, |pre|, digits) && |digits| >= 1 && AllDigits(digits)
    requires UnitAt(t, |pre| + |digits|, u)
    requires !Mentions(pre, "worked") && (pre == [] || !IsDigit(pre[|pre| - 1]))
    ensures HoursField(t) == digits
  {
    forall q | 0 <= q < |pre| ensures MatchAt(HoursWorkedPhrase, t, q).None? {
      NoWorkedBefore(t, pre, digits, q);
    }
    HoursWorkedFrom(t, |pre|, digits, u);
  }

  /** "Hours: <c>, <n> hours worked": the "worked" form wins over the label that comes first. */
  lemma WorkedBeatsLabel(c: char, digits: string, rest: string)
    requires IsDigit(c) && |digits| >= 1 && AllDigits(digits)
    ensures HoursField("Hours: " + [c] + ", " + digits + " hours worked" + rest) == digits
  {
    var pre := "Hours: " + [c] + ", ";
    assert !Mentions(pre, "worked") by {
      forall x | 0 <= x <= |pre| ensures !LitAt(pre, x, "worked") {
        if x < |pre| {
          LitChar(pre, x, "worked", x);
        }
      }
    }
    HoursWorkedAfter(pre, digits, rest);
  }

  /**
   * A "worked" form that starts inside `pre` would need "worked" inside
   * `pre`, or a run of digits that goes on from the end of `pre` into the
   * digits after it.
   */
  lemma NoWorkedBefore(t: string, pre: string, digits: string, q: nat)
    requires HoldsAt(t, 0, pre) && HoldsAt(t, |pre|, digits) && |digits| >= 1 && AllDigits(digits)
    requires !Mentions(pre, "worked") && (pre == [] || !IsDigit(pre[|pre| - 1]))
    requires q < |pre|
    ensures HoursWorkedAt(t, q).None?
  {
    var m := |pre|;
    if HoursWorkedAt(t, q).Some? {
      var n, x := WorkedShape(t, q);
      WordOutside(t, pre, x);
      DigitAfter(t, pre, digits);
      WordAvoidsDigit(t, x, m);
      if q + n <= m {
        assert false;
      } else {
        RunReachesPreEnd(t, pre, q);
        assert false;
      }
    }
  }

  /** A run of digits that starts inside `pre` and goes on past its end takes in its last character. */
  lemma RunReachesPreEnd(t: string, pre: string, q: nat)
    requires HoldsAt(t, 0, pre) && q < |pre| < q + Run(Digit, t, q)
    ensures IsDigit(pre[|pre| - 1])
  {
    var m := |pre|;
    RunChars(Digit, t, q);
    assert InClass(Digit, t[m - 1]);
    assert t[0 + (m - 1)] == pre[m - 1];
  }

  /** "worked" does not lie wholly inside a `pre` that does not mention it. */
  lemma WordOutside(t: string, pre: string, x: nat)
    requires HoldsAt(t, 0, pre) && !Mentions(pre, "worked") && LitAt(t, x, "worked")
    ensures |pre| < x + 6
  {
    if x + 6 <= |pre| {
      WordInside(t, pre, x);
    }
  }

  lemma WordInside(t: string, pre: string, x: nat)
    requires HoldsAt(t, 0, pre) && LitAt(t, x, "worked") && x + 6 <= |pre|
    ensures Mentions(pre, "worked")
  {
    forall k | 0 <= k < 6 ensures ToLower(pre[x + k]) == "worked"[k] {
      assert t[0 + (x + k)] == pre[x + k];
    }
    assert LitAt(pre, x, "worked");
  }

  lemma DigitAfter(t: string, pre: string, digits: string)
    requires HoldsAt(t, |pre|, digits) && |digits| >= 1 && AllDigits(digits)
    ensures IsDigit(t[|pre|])
  {
    assert t[|pre| + 0] == digits[0];
  }

  /** The word "worked" holds no digit. */
  lemma WordAvoidsDigit(t: string, x: nat, m: nat)
    requires LitAt(t, x, "worked") && m < |t| && IsDigit(t[m])
    ensures m < x || x + 6 <= m
  {
    if x <= m < x + 6 {
      LitChar(t, x, "worked", m);
      LetterNotDigit(t[m]);
    }
  }

  /** A character that lowers to a letter of "worked" is no digit. */
  lemma LetterNotDigit(c: char)
    requires ToLower(c) in "worked"
    ensures !IsDigit(c)
  {
  }

  /**
   * A "worked" form at `q`: its digits, then only non-digits up to the word
   * "worked".
   */
  lemma WorkedShape(t: string, q: nat) returns (n: nat, x: nat)
    requires q <= |t| && HoursWorkedAt(t, q).Some?
    ensures n == Run(Digit, t, q) && q + n < x && x + 6 <= |t| && LitAt(t, x, "worked")
    ensures forall j :: q + n <= j < x ==> !IsDigit(t[j])
  {
    var k, unit;
    n, k, unit, x := WorkedParts(t, q);
    WorkedGap(t, q + n, k, unit, k + |unit|);
  }

  /** Whitespace, a unit word and whitespace again hold no digit. */
  lemma WorkedGap(t: string, p: nat, k: nat, unit: string, u: nat)
    requires p <= |t| && k == p + Run(Space, t, p) && (unit == "hrs" || unit == "hours")
    requires LitAt(t, k, unit) && u == k + |unit|
    ensures forall j :: p <= j < u + Run(Space, t, u) ==> !IsDigit(t[j])
  {
    SpacesNoDigit(t, p);
    UnitNoDigit(t, k, unit);
    SpacesNoDigit(t, u);
  }

  /** What a match of the "worked" form is made of. */
  lemma WorkedParts(t: string, q: nat) returns (n: nat, k: nat, unit: string, x: nat)
    requires q <= |t| && HoursWorkedAt(t, q).Some?
    ensures n == Run(Digit, t, q) && n >= 1 && q + n <= |t| && k == q + n + Run(Space, t, q + n)
    ensures (unit == "hrs" || unit == "hours") && LitAt(t, k, unit)
    ensures x == k + |unit| + Run(Space, t, k + |unit|) && k + |unit| < x && LitAt(t, x, "worked")
  {
    n := Run(Digit, t, q);
    k := q + n + Run(Space, t, q + n);
    unit := UnitWord(t, k);
    x := WorkedWord(t, k + |unit|);
  }

  /** The unit word the matcher takes at `k`. */
  lemma UnitWord(t: string, k: nat) returns (unit: string)
    requires UnitLen(t, k) > 0
    ensures (unit == "hrs" || unit == "hours") && |unit| == UnitLen(t, k) && LitAt(t, k, unit)
  {
    unit := if UnitLen(t, k) == 3 then "hrs" else "hours";
  }

  /** Where the word "worked" starts after the whitespace at `u`. */
  lemma WorkedWord(t: string, u: nat) returns (x: nat)
    requires u <= |t| && WorkedAfter(t, u)
    ensures x == u + Run(Space, t, u) && u < x && LitAt(t, x, "worked")
  {
    x := u + Run(Space, t, u);
  }

  /** Whitespace holds no digit. */
  lemma SpacesNoDigit(t: string, p: nat)
    requires p <= |t|
    ensures forall j :: p <= j < p + Run(Space, t, p) ==> !IsDigit(t[j])
  {
    RunChars(Space, t, p);
    forall j | p <= j < p + Run(Space, t, p) ensures !IsDigit(t[j]) {
      assert InClass(Space, t[j]);
    }
  }

  /** A unit word holds no digit. */
  lemma UnitNoDigit(t: string, k: nat, unit: string)
    requires unit == "hrs" || unit == "hours"
    requires LitAt(t, k, unit)
    ensures forall j :: k <= j < k + |unit| ==> !IsDigit(t[j])
  {
    forall j | k <= j < k + |unit| ensures !IsDigit(t[j]) {
      LitChar(t, k, unit, j);
    }
  }

  /**
   * Digits at `i` followed by one space, a unit word of length `u` ("hours"
   * or "hrs"), one space and "worked", with no "worked" form starting
   * earlier: the hours are the digits.
   */
  lemma HoursWorkedFrom(t: string, i: nat, digits: string, u: nat)
    requires |digits| >= 1 && AllDigits(digits) && HoldsAt(t, i, digits)
    requires UnitAt(t, i + |digits|, u)
    requires forall q :: 0 <= q < i ==> MatchAt(HoursWorkedPhrase, t, q).None?
    ensures HoursField(t) == digits
  {
    var g := Span(i, i + |digits|);
    WorkedGroupAt(t, i, digits, u);
    assert MatchAt(HoursWorkedPhrase, t, i) == Some(g);
    WorkedFieldFromHit(t, i, digits);
  }

  lemma WorkedGroupAt(t: string, i: nat, digits: string, u: nat)
    requires |digits| >= 1 && AllDigits(digits) && HoldsAt(t, i, digits)
    requires UnitAt(t, i + |digits|, u)
    ensures HoursWorkedAt(t, i) == Some(Span(i, i + |digits|))
  {
    var n := |digits|;
    forall k | i <= k < i + n ensures InClass(Digit, t[k]) { assert t[i + (k - i)] == digits[k - i]; }
    RunExact(Digit, t, i, n);
    UnitStep(t, i, n, u);
  }

  lemma WorkedFieldFromHit(t: string, i: nat, digits: string)
    requires HoldsAt(t, i, digits) && MatchAt(HoursWorkedPhrase, t, i) == Some(Span(i, i + |digits|))
    requires forall q :: 0 <= q < i ==> MatchAt(HoursWorkedPhrase, t, q).None?
    ensures HoursField(t) == digits
  {
    SearchFirstAt(HoursWorkedPhrase, t, i, Span(i, i + |digits|));
    SliceIs(t, i, digits);
  }

  /**
   * At `m`: one space, the unit word of length `u` as the matcher takes it
   * ("hrs" is tried first), one space and "worked".
   */
  predicate UnitAt(t: string, m: nat, u: nat) {
    m + u + 8 <= |t| && Run(Space, t, m) == 1 && Run(Space, t, m + 1 + u) == 1 && LitAt(t, m + u + 2, "worked")
    && (if u == 3 then LitAt(t, m + 1, "hrs") else u == 5 && !LitAt(t, m + 1, "hrs") && LitAt(t, m + 1, "hours"))
  }

  lemma UnitStep(t: string, i: nat, n: nat, u: nat)
    requires 1 <= n && i + n <= |t| && Run(Digit, t, i) == n && UnitAt(t, i + n, u)
    ensures HoursWorkedAt(t, i) == Some(Span(i, i + n))
  {
  }

  /** The words of " hours worked" as the hours matcher sees them. */
  lemma HoursWords(t: string, m: nat)
    requires HoldsAt(t, m, " hours worked")
    ensures UnitAt(t, m, 5)
  {
    var w := " hours worked";
    assert t[m + 0] == w[0] && t[m + 1] == w[1] && t[m + 2] == w[2] && t[m + 6] == w[6] && t[m + 7] == w[7];
    assert ToLower(t[m + 1 + 1]) != "hrs"[1];
    RunExact(Space, t, m, 1);
    RunExact(Space, t, m + 6, 1);
    assert LitAt(t, m + 1, "hours") by {
      forall k | 0 <= k < 5 ensures ToLower(t[m + 1 + k]) == "hours"[k] { assert t[m + (1 + k)] == w[1 + k]; }
    }
    assert LitAt(t, m + 7, "worked") by {
      forall k | 0 <= k < 6 ensures ToLower(t[m + 7 + k]) == "worked"[k] { assert t[m + (7 + k)] == w[7 + k]; }
    }
  }

  /** The words of " hrs worked" as the hours matcher sees them. */
  lemma HrsWords(t: string, m: nat)
    requires HoldsAt(t, m, " hrs worked")
    ensures UnitAt(t, m, 3)
  {
    var w := " hrs worked";
    assert t[m + 0] == w[0] && t[m + 1] == w[1] && t[m + 4] == w[4] && t[m + 5] == w[5];
    RunExact(Space, t, m, 1);
    RunExact(Space, t, m + 4, 1);
    assert LitAt(t, m + 1, "hrs") by {
      forall k | 0 <= k < 3 ensures ToLower(t[m + 1 + k]) == "hrs"[k] { assert t[m + (1 + k)] == w[1 + k]; }
    }
    assert LitAt(t, m + 5, "worked") by {
      forall k | 0 <= k < 6 ensures ToLower(t[m + 5 + k]) == "worked"[k] { assert t[m + (5 + k)] == w[5 + k]; }
    }
  }

  /** "Hours: <n>" and nothing else: the label form is used when no "hours worked" phrase is there. */
  lemma HoursLabelOnly(digits: string)
    requires |digits| >= 1 && AllDigits(digits)
    ensures HoursField("Hours: " + digits) == digits
  {
    assert [] + "Hours: " + digits + [] == "Hours: " + digits;
    assert !Mentions([], "worked") && !Mentions([], "hours");
    HoursLabelReadBack([], digits, []);
  }

  /** "Hours: <n> hrs": a unit after the number without "worked" leaves the label form in charge. */
  lemma HoursLabelWithUnit(digits: string)
    requires |digits| >= 1 && AllDigits(digits)
    ensures HoursField("Hours: " + digits + " hrs") == digits
  {
    assert [] + "Hours: " + digits + " hrs" == "Hours: " + digits + " hrs";
    assert !Mentions([], "worked") && !Mentions([], "hours") && !Mentions(" hrs", "worked");
    HoursLabelReadBack([], digits, " hrs");
  }

  /**
   * "Hours: <n>" after text that mentions neither "hours" nor "worked", and
   * followed by text that does not go on with a digit and does not mention
   * "worked": with no "worked" form anywhere, the label gives n.
   */
  lemma HoursLabelReadBack(pre: string, digits: string, rest: string)
    requires !Mentions(pre, "hours") && !Mentions(pre, "worked")
    requires |digits| >= 1 && AllDigits(digits)
    requires (rest == [] || !IsDigit(rest[0])) && !Mentions(rest, "worked")
    ensures HoursField(pre + "Hours: " + digits + rest) == digits
  {
    var t := pre + "Hours: " + digits + rest;
    Pieces4(pre, "Hours: ", digits, rest);
    if rest != [] { assert t[|pre| + 7 + |digits| + 0] == rest[0]; }
    HoursPrefixFree(t, pre);
    HoursLabelAfter(t, |pre|, digits, rest);
  }

  /** Neither "hours" nor "worked" starts inside `pre`. */
  lemma HoursPrefixFree(t: string, pre: string)
    requires HoldsAt(t, 0, pre) && HoldsAt(t, |pre|, "Hours: ")
    requires !Mentions(pre, "hours") && !Mentions(pre, "worked")
    ensures forall q :: 0 <= q < |pre| ==> !LitAt(t, q, "hours") && !LitAt(t, q, "worked")
  {
    FirstLetter(t, |pre|, "Hours: ");
    KeywordNotBefore(t, pre, "hours");
    KeywordNotBefore(t, pre, "worked");
  }

  lemma HoursLabelAfter(t: string, a: nat, digits: string, rest: string)
    requires HoldsAt(t, a, "Hours: ") && HoldsAt(t, a + 7, digits) && HoldsAt(t, a + 7 + |digits|, rest)
    requires |t| == a + 7 + |digits| + |rest| && |digits| >= 1 && AllDigits(digits)
    requires forall q :: 0 <= q < a ==> !LitAt(t, q, "hours") && !LitAt(t, q, "worked")
    requires (rest == [] || !IsDigit(t[a + 7 + |digits|])) && !Mentions(rest, "worked")
    ensures HoursField(t) == digits
  {
    NoWorkedForm(t, a, digits, rest);
    HoursLabelSearch(t, a, digits, rest);
    SliceIs(t, a + 7, digits);
  }

  lemma NoWorkedForm(t: string, a: nat, digits: string, rest: string)
    requires HoldsAt(t, a, "Hours: ") && HoldsAt(t, a + 7, digits) && HoldsAt(t, a + 7 + |digits|, rest)
    requires |t| == a + 7 + |digits| + |rest| && AllDigits(digits)
    requires forall q :: 0 <= q < a ==> !LitAt(t, q, "worked")
    requires !Mentions(rest, "worked")
    ensures Search(HoursWorkedPhrase, t).None?
  {
    forall q | 0 <= q <= |t| ensures MatchAt(HoursWorkedPhrase, t, q).None? {
      if HoursWorkedAt(t, q).Some? {
        var x := WorkedNeedsWord(t, q);
        WordNotInLabel(t, a, digits, rest, x);
      }
    }
  }

  lemma HoursLabelSearch(t: string, a: nat, digits: string, rest: string)
    requires HoldsAt(t, a, "Hours: ") && HoldsAt(t, a + 7, digits) && |digits| >= 1 && AllDigits(digits)
    requires |t| == a + 7 + |digits| + |rest|
    requires forall q :: 0 <= q < a ==> !LitAt(t, q, "hours")
    requires rest == [] || !IsDigit(t[a + 7 + |digits|])
    ensures Search(HoursLabel, t) == Some(Hit(a, Span(a + 7, a + 7 + |digits|)))
  {
    var g := Span(a + 7, a + 7 + |digits|);
    HoursLabelGroup(t, a, digits, rest);
    assert MatchAt(HoursLabel, t, a) == Some(g);
    forall q | 0 <= q < a ensures MatchAt(HoursLabel, t, q).None? {
    }
    SearchFirstAt(HoursLabel, t, a, g);
  }

  /** A "worked" form has the word "worked" in it. */
  lemma WorkedNeedsWord(t: string, q: nat) returns (x: nat)
    requires q <= |t| && HoursWorkedAt(t, q).Some?
    ensures x <= |t| && LitAt(t, x, "worked")
  {
    var n := Run(Digit, t, q);
    var r1 := Run(Space, t, q + n);
    var k := q + n + r1;
    var u := if LitAt(t, k, "hrs") then k + 3 else k + 5;
    x := u + Run(Space, t, u);
  }

  /** "worked" never occurs in "Hours: <n>" or across its end into a rest that does not mention it. */
  lemma WordNotInLabel(t: string, a: nat, digits: string, rest: string, x: nat)
    requires HoldsAt(t, a, "Hours: ") && HoldsAt(t, a + 7, digits) && HoldsAt(t, a + 7 + |digits|, rest)
    requires |t| == a + 7 + |digits| + |rest| && AllDigits(digits)
    requires forall q :: 0 <= q < a ==> !LitAt(t, q, "worked")
    requires !Mentions(rest, "worked") && x <= |t|
    ensures !LitAt(t, x, "worked")
  {
    var n := |digits|;
    if a <= x < a + 7 {
      assert t[a + (x - a)] == "Hours: "[x - a];
      LitChar(t, x, "worked", x);
    } else if a + 7 <= x < a + 7 + n {
      assert t[a + 7 + (x - a - 7)] == digits[x - a - 7];
      LitChar(t, x, "worked", x);
    } else if a + 7 + n <= x && LitAt(t, x, "worked") {
      InsideEnd(t, a + 7 + n, rest, "worked", x - (a + 7 + n));
    }
  }

  lemma HoursLabelGroup(t: string, a: nat, digits: string, rest: string)
    requires HoldsAt(t, a, "Hours: ") && HoldsAt(t, a + 7, digits) && |digits| >= 1 && AllDigits(digits)
    requires |t| == a + 7 + |digits| + |rest|
    requires rest == [] || !IsDigit(t[a + 7 + |digits|])
    ensures HoursLabelAt(t, a) == Some(Span(a + 7, a + 7 + |digits|))
  {
    HoursWordSep(t, a, digits);
    HoursDigits(t, a + 7, digits, rest);
    LabelThenDigits(t, a, a + 7 + |digits|);
  }

  lemma HoursWordSep(t: string, a: nat, digits: string)
    requires HoldsAt(t, a, "Hours: ") && HoldsAt(t, a + 7, digits) && |digits| >= 1 && AllDigits(digits)
    ensures LitAt(t, a, "hours") && IsSep(t[a + 5]) && Run(Space, t, a + 6) == 1
  {
    LowerLitAt(t, a, "Hours: ", "hours");
    assert t[a + 5] == "Hours: "[5] && t[a + 6] == "Hours: "[6];
    assert !IsSpace(t[a + 7]) by { assert t[a + 7 + 0] == digits[0]; }
    RunExact(Space, t, a + 6, 1);
  }

  lemma HoursDigits(t: string, off: nat, digits: string, rest: string)
    requires HoldsAt(t, off, digits) && AllDigits(digits) && |t| == off + |digits| + |rest|
    requires rest == [] || !IsDigit(t[off + |digits|])
    ensures Run(Digit, t, off) == |digits|
  {
    forall k | off <= k < off + |digits| ensures InClass(Digit, t[k]) { assert t[off + (k - off)] == digits[k - off]; }
    RunExact(Digit, t, off, |digits|);
  }

  /** "hours", a separator and one space, then digits to `e`. */
  lemma LabelThenDigits(t: string, a: nat, e: nat)
    requires a + 7 < e <= |t| && LitAt(t, a, "hours") && IsSep(t[a + 5]) && Run(Space, t, a + 6) == 1
    requires Run(Digit, t, a + 7) == e - (a + 7)
    ensures HoursLabelAt(t, a) == Some(Span(a + 7, e))
  {
  }

  // -------------------------------------------------------------- project

  /**
   * "worked on <name> project" and a full stop, comma or newline, after any
   * text that mentions neither "worked on" nor "project": the name reads
   * back with " project" put after it.
   */
  lemma ProjectReadBack(pre: string, name: string, c: char, rest: string)
    requires !Mentions(pre, "worked on") && !Mentions(pre, "project")
    requires name != [] && Trimmed(name) && NoneOf(name, ".,\n") && c in ".,\n"
    ensures ProjectField(pre + "worked on " + name + " project" + [c] + rest) == name + " project"
  {
    var t := pre + "worked on " + name + " project" + [c] + rest;
    Pieces6(pre, "worked on ", name, " project", [c], rest);
    assert t[|pre| + 10 + |name| + 8 + 0] == [c][0];
    ProjectPrefixFree(t, pre);
    ProjectAfter(t, |pre|, name);
  }

  /** Neither "worked on" nor "project" starts inside `pre`. */
  lemma ProjectPrefixFree(t: string, pre: string)
    requires HoldsAt(t, 0, pre) && HoldsAt(t, |pre|, "worked on ")
    requires !Mentions(pre, "worked on") && !Mentions(pre, "project")
    ensures forall q :: 0 <= q < |pre| ==> !LitAt(t, q, "worked on") && !LitAt(t, q, "project")
  {
    FirstLetter(t, |pre|, "worked on ");
    KeywordNotBefore(t, pre, "worked on");
    KeywordNotBefore(t, pre, "project");
  }

  lemma ProjectAfter(t: string, a: nat, name: string)
    requires HoldsAt(t, a, "worked on ") && HoldsAt(t, a + 10, name) && HoldsAt(t, a + 10 + |name|, " project")
    requires a + 10 + |name| + 8 < |t| && t[a + 10 + |name| + 8] in ".,\n"
    requires forall q :: 0 <= q < a ==> !LitAt(t, q, "worked on") && !LitAt(t, q, "project")
    requires name != [] && Trimmed(name) && NoneOf(name, ".,\n")
    ensures ProjectField(t) == name + " project"
  {
    ProjectSearch(t, a, name);
    SliceIs(t, a + 10, name);
    ProjectFromSearch(t, Hit(a, Span(a + 10, a + 10 + |name|)), name);
  }

  lemma ProjectFromSearch(t: string, h: Hit, name: string)
    requires Search(ProjectPhrase, t) == Some(h) && Slice(t, h.group) == name && Trimmed(name)
    ensures ProjectField(t) == name + " project"
  {
    TrimOfTrimmed(name);
  }

  lemma ProjectSearch(t: string, a: nat, name: string)
    requires HoldsAt(t, a, "worked on ") && HoldsAt(t, a + 10, name) && HoldsAt(t, a + 10 + |name|, " project")
    requires a + 10 + |name| + 8 < |t| && t[a + 10 + |name| + 8] in ".,\n"
    requires forall q :: 0 <= q < a ==> !LitAt(t, q, "worked on") && !LitAt(t, q, "project")
    requires name != [] && Trimmed(name) && NoneOf(name, ".,\n")
    ensures Search(ProjectPhrase, t) == Some(Hit(a, Span(a + 10, a + 10 + |name|)))
  {
    var g := Span(a + 10, a + 10 + |name|);
    ProjectGroup(t, a, name);
    assert MatchAt(ProjectPhrase, t, a) == Some(g);
    ProjectNoneBefore(t, a);
    SearchFirstAt(ProjectPhrase, t, a, g);
  }

  lemma ProjectNoneBefore(t: string, a: nat)
    requires a <= |t|
    requires forall q :: 0 <= q < a ==> !LitAt(t, q, "worked on") && !LitAt(t, q, "project")
    ensures forall q :: 0 <= q < a ==> MatchAt(ProjectPhrase, t, q).None?
  {
    forall q | 0 <= q < a ensures MatchAt(ProjectPhrase, t, q).None? {
    }
  }

  lemma ProjectGroup(t: string, a: nat, name: string)
    requires HoldsAt(t, a, "worked on ") && HoldsAt(t, a + 10, name) && HoldsAt(t, a + 10 + |name|, " project")
    requires a + 10 + |name| + 8 < |t| && t[a + 10 + |name| + 8] in ".,\n"
    requires name != [] && Trimmed(name) && NoneOf(name, ".,\n")
    ensures ProjectAt(t, a) == Some(Span(a + 10, a + 10 + |name|))
  {
    WorkedOnWord(t, a, name);
    ProjectNameEnds(t, a + 10, name);
    WorkedOnThenGroup(t, a, a + 10 + |name|);
  }

  lemma WorkedOnWord(t: string, a: nat, name: string)
    requires HoldsAt(t, a, "worked on ") && HoldsAt(t, a + 10, name) && name != []
    requires Trimmed(name)
    ensures LitAt(t, a, "worked on") && Run(Space, t, a + 9) == 1
  {
    LowerLitAt(t, a, "worked on ", "worked on");
    assert t[a + 9] == "worked on "[9];
    assert !IsSpace(t[a + 10]) by { assert t[a + 10 + 0] == name[0]; }
    RunExact(Space, t, a + 9, 1);
  }

  lemma ProjectNameEnds(t: string, off: nat, name: string)
    requires HoldsAt(t, off, name) && HoldsAt(t, off + |name|, " project")
    requires off + |name| + 8 < |t| && t[off + |name| + 8] in ".,\n"
    requires name != [] && Trimmed(name) && NoneOf(name, ".,\n")
    ensures LazyEnd(ProjectTail, t, off) == Some(off + |name|)
  {
    ProjectSuffixIsTail(t, off + |name|);
    forall k | off <= k < off + |name| ensures t[k] != '\n' && !TailAt(ProjectTail, t, k) {
      ProjectNoEarlierTail(t, off, name, k);
    }
    LazyStops(ProjectTail, t, off, |name|);
  }

  /** " project" and a full stop, comma or newline is where the project group stops. */
  lemma ProjectSuffixIsTail(t: string, e: nat)
    requires HoldsAt(t, e, " project") && e + 8 < |t| && t[e + 8] in ".,\n"
    ensures TailAt(ProjectTail, t, e)
  {
    var w := " project";
    assert t[e + 0] == w[0] && t[e + 1] == w[1];
    RunExact(Space, t, e, 1);
    assert LitAt(t, e + 1, "project") by {
      forall k | 0 <= k < 7 ensures ToLower(t[e + 1 + k]) == "project"[k] { assert t[e + (1 + k)] == w[1 + k]; }
    }
  }

  /**
   * Inside the name the tail cannot match: the name has no stop character,
   * and " project" followed by one would need the name to end in whitespace.
   */
  lemma ProjectNoEarlierTail(t: string, off: nat, name: string, k: nat)
    requires HoldsAt(t, off, name) && HoldsAt(t, off + |name|, " project")
    requires name != [] && Trimmed(name) && NoneOf(name, ".,\n")
    requires off <= k < off + |name|
    ensures t[k] != '\n' && !TailAt(ProjectTail, t, k)
  {
    var e0 := off + |name|;
    assert t[off + (k - off)] == name[k - off];
    assert t[e0] == ' ' by { assert t[e0 + 0] == " project"[0]; }
    var r := Run(Space, t, k);
    RunChars(Space, t, k);
    assert t[off + (|name| - 1)] == name[|name| - 1];
    assert !InClass(Space, t[e0 - 1]);
    assert k + r < e0;
    assert k + r + 7 < e0 ==> t[off + (k + r + 7 - off)] == name[k + r + 7 - off];
    LitChar(t, k + r, "project", e0);
  }

  /** "worked on" and one space, then the lazy group decides the match. */
  lemma WorkedOnThenGroup(t: string, a: nat, e: nat)
    requires a + 10 <= e <= |t| && LitAt(t, a, "worked on") && Run(Space, t, a + 9) == 1
    requires LazyEnd(ProjectTail, t, a + 10) == Some(e)
    ensures ProjectAt(t, a) == Some(Span(a + 10, e))
  {
    assert GroupEnd(Lazy(ProjectTail), t, a + 10) == Some(e);
  }

  // ------------------------------------------------------------- blockers

  /** The span the blockers search found, stripped and normalised, is the field. */
  lemma BlockersFromSearch(t: string, h: Hit, s: string)
    requires Search(BlockersPhrase, t) == Some(h) && Slice(t, h.group) == s
    ensures BlockersField(t) == Normalise(Trim(s))
  {
  }

  /**
   * "no blockers" after any text that mentions neither "no blockers" nor
   * "blockers", ending the text or followed by a newline or full stop, reads
   * back as itself.
   */
  lemma NoBlockersReadBack(pre: string, rest: string)
    requires !Mentions(pre, "no blockers") && !Mentions(pre, "blockers")
    requires rest == [] || rest[0] in "\n."
    ensures BlockersField(pre + "no blockers" + rest) == "no blockers"
  {
    var t := pre + "no blockers" + rest;
    Pieces3(pre, "no blockers", rest);
    if rest != [] { assert t[|pre| + 11 + 0] == rest[0]; }
    NoBlockersIn(t, pre);
  }

  /** "no blockers" after a `pre` without either keyword, ending the text or a sentence. */
  lemma NoBlockersIn(t: string, pre: string)
    requires HoldsAt(t, 0, pre) && HoldsAt(t, |pre|, "no blockers") && (|t| == |pre| + 11 || t[|pre| + 11] in "\n.")
    requires !Mentions(pre, "no blockers") && !Mentions(pre, "blockers")
    ensures BlockersField(t) == "no blockers"
  {
    NoBlockersPrefixFree(t, pre);
    NoBlockersAfter(t, |pre|);
  }

  /** Neither blockers keyword starts inside `pre`. */
  lemma NoBlockersPrefixFree(t: string, pre: string)
    requires HoldsAt(t, 0, pre) && HoldsAt(t, |pre|, "no blockers")
    requires !Mentions(pre, "no blockers") && !Mentions(pre, "blockers")
    ensures forall q :: 0 <= q < |pre| ==> !LitAt(t, q, "no blockers") && !LitAt(t, q, "blockers")
  {
    FirstLetter(t, |pre|, "no blockers");
    KeywordNotBefore(t, pre, "no blockers");
    KeywordNotBefore(t, pre, "blockers");
  }

  lemma NoBlockersAfter(t: string, a: nat)
    requires HoldsAt(t, a, "no blockers") && (|t| == a + 11 || t[a + 11] in "\n.")
    requires forall q :: 0 <= q < a ==> !LitAt(t, q, "no blockers") && !LitAt(t, q, "blockers")
    ensures BlockersField(t) == "no blockers"
  {
    NoBlockersSearch(t, a);
    SliceIs(t, a, "no blockers");
    BlockersFromSearch(t, Hit(a, Span(a, a + 11)), "no blockers");
    NoBlockersSaysNone();
  }

  lemma NoBlockersSearch(t: string, a: nat)
    requires HoldsAt(t, a, "no blockers") && (|t| == a + 11 || t[a + 11] in "\n.")
    requires forall q :: 0 <= q < a ==> !LitAt(t, q, "no blockers") && !LitAt(t, q, "blockers")
    ensures Search(BlockersPhrase, t) == Some(Hit(a, Span(a, a + 11)))
  {
    LowerLitAt(t, a, "no blockers", "no blockers");
    assert TailAt(BlockersTail, t, a + 11);
    assert BlockersAt(t, a) == Some(Span(a, a + 11));
    assert MatchAt(BlockersPhrase, t, a) == Some(Span(a, a + 11));
    BlockersNoneBefore(t, a);
    SearchFirstAt(BlockersPhrase, t, a, Span(a, a + 11));
  }

  lemma BlockersNoneBefore(t: string, a: nat)
    requires a <= |t|
    requires forall q :: 0 <= q < a ==> !LitAt(t, q, "no blockers") && !LitAt(t, q, "blockers")
    ensures forall q :: 0 <= q < a ==> MatchAt(BlockersPhrase, t, q).None?
  {
    forall q | 0 <= q < a ensures MatchAt(BlockersPhrase, t, q).None? {
    }
  }

  /** The phrase "no blockers" has the word "no", so it normalises to itself. */
  lemma NoBlockersSaysNone()
    ensures Normalise(Trim("no blockers")) == "no blockers"
  {
    var w := "no blockers";
    TrimOfTrimmed(w);
    assert WholeWordAt(w, 0, "no") by { assert w[2] == ' '; }
  }

  /** `s` ends with "no ", letters compared without regard to case. */
  predicate EndsInNo(s: string) {
    |s| >= 3 && LitAt(s, |s| - 3, "no ")
  }

  /**
   * "Blockers: <description>" ending the text, its line or its sentence,
   * after any text that mentions neither blockers keyword and does not end
   * in "no ": "no blockers" when the description has the word "no" or
   * "none", and the description as written otherwise.
   */
  lemma BlockersLabelReadBack(pre: string, desc: string, rest: string)
    requires !Mentions(pre, "no blockers") && !Mentions(pre, "blockers") && !EndsInNo(pre)
    requires desc != [] && Trimmed(desc) && NoneOf(desc, "\n.") && Absent(desc, "Blockers:")
    requires !Mentions(desc, "tomorrow") && !Mentions(desc, "note")
    requires rest == [] || rest[0] in "\n."
    ensures BlockersField(pre + "Blockers: " + desc + rest) == if SaysNone(desc) then "no blockers" else desc
  {
    var t := pre + "Blockers: " + desc + rest;
    Pieces4(pre, "Blockers: ", desc, rest);
    if rest != [] { assert t[|pre| + 10 + |desc| + 0] == rest[0]; }
    LabelPrefixFree(t, pre);
    BlockersLabelAfter(t, |pre|, desc, rest);
  }

  /** Neither blockers keyword starts inside `pre`; "no " at its very end is the one way "no blockers" could. */
  lemma LabelPrefixFree(t: string, pre: string)
    requires HoldsAt(t, 0, pre) && HoldsAt(t, |pre|, "Blockers: ")
    requires !Mentions(pre, "no blockers") && !Mentions(pre, "blockers") && !EndsInNo(pre)
    ensures forall q :: 0 <= q < |pre| ==> !LitAt(t, q, "no blockers") && !LitAt(t, q, "blockers")
  {
    FirstLetter(t, |pre|, "Blockers: ");
    KeywordNotBefore(t, pre, "blockers");
    forall q | 0 <= q < |pre| ensures !LitAt(t, q, "no blockers") {
      if q + 11 <= |pre| {
        LitInPre(t, pre, q, "no blockers");
        assert !LitAt(pre, q, "no blockers");
      } else if q + 3 == |pre| {
        NoAtPreEnd(t, pre, q);
      } else {
        LitChar(t, q, "no blockers", |pre|);
      }
    }
  }

  /** "no blockers" three characters before the end of `pre` puts "no " at that end. */
  lemma NoAtPreEnd(t: string, pre: string, q: nat)
    requires HoldsAt(t, 0, pre) && q + 3 == |pre|
    ensures LitAt(t, q, "no blockers") ==> EndsInNo(pre)
  {
    if LitAt(t, q, "no blockers") {
      forall k | 0 <= k < 3 ensures ToLower(pre[q + k]) == "no "[k] {
        assert t[0 + (q + k)] == pre[q + k];
        LitChar(t, q, "no blockers", q + k);
      }
    }
  }

  lemma BlockersLabelAfter(t: string, a: nat, desc: string, rest: string)
    requires HoldsAt(t, a, "Blockers: ") && HoldsAt(t, a + 10, desc) && |t| == a + 10 + |desc| + |rest|
    requires rest == [] || t[a + 10 + |desc|] in "\n."
    requires forall q :: 0 <= q < a ==> !LitAt(t, q, "no blockers") && !LitAt(t, q, "blockers")
    requires desc != [] && Trimmed(desc) && NoneOf(desc, "\n.") && Absent(desc, "Blockers:")
    requires !Mentions(desc, "tomorrow") && !Mentions(desc, "note")
    ensures BlockersField(t) == if SaysNone(desc) then "no blockers" else desc
  {
    var s := "Blockers: " + desc;
    BlockersLabelFound(t, a, desc, rest);
    LabelledSlice(t, a, desc);
    BlockersFromSearch(t, Hit(a, Span(a, a + 10 + |desc|)), s);
    LabelledNormalised(desc);
  }

  lemma BlockersLabelFound(t: string, a: nat, desc: string, rest: string)
    requires HoldsAt(t, a, "Blockers: ") && HoldsAt(t, a + 10, desc) && |t| == a + 10 + |desc| + |rest|
    requires rest == [] || t[a + 10 + |desc|] in "\n."
    requires forall q :: 0 <= q < a ==> !LitAt(t, q, "no blockers") && !LitAt(t, q, "blockers")
    requires desc != [] && Trimmed(desc) && NoneOf(desc, "\n.")
    requires !Mentions(desc, "tomorrow") && !Mentions(desc, "note")
    ensures Search(BlockersPhrase, t) == Some(Hit(a, Span(a, a + 10 + |desc|)))
  {
    BlockersAtLabel(t, a, desc, rest);
    BlockersLabelSearch(t, a, a + 10 + |desc|);
  }

  /** The label with a description that the tail ends: the pattern matches at the label. */
  lemma BlockersAtLabel(t: string, a: nat, desc: string, rest: string)
    requires HoldsAt(t, a, "Blockers: ") && HoldsAt(t, a + 10, desc) && |t| == a + 10 + |desc| + |rest|
    requires rest == [] || t[a + 10 + |desc|] in "\n."
    requires desc != [] && Trimmed(desc) && NoneOf(desc, "\n.")
    requires !Mentions(desc, "tomorrow") && !Mentions(desc, "note")
    ensures BlockersAt(t, a) == Some(Span(a, a + 10 + |desc|))
  {
    BlockersDescEnds(t, a + 10, desc, rest);
    BlockersLabelGroup(t, a, desc);
  }

  /** The label and the description, as one slice. */
  lemma LabelledSlice(t: string, a: nat, desc: string)
    requires HoldsAt(t, a, "Blockers: ") && HoldsAt(t, a + 10, desc)
    ensures Slice(t, Span(a, a + 10 + |desc|)) == "Blockers: " + desc
  {
    var s := "Blockers: " + desc;
    assert HoldsAt(t, a, s) by {
      forall k | 0 <= k < |s| ensures t[a + k] == s[k] {
        if k >= 10 { assert t[a + 10 + (k - 10)] == desc[k - 10]; }
      }
    }
    SliceIs(t, a, s);
  }

  /** Normalising "Blockers: <description>" gives "no blockers" or the description. */
  lemma LabelledNormalised(desc: string)
    requires desc != [] && Trimmed(desc) && NoneOf(desc, ".") && Absent(desc, "Blockers:")
    ensures Trim("Blockers: " + desc) == "Blockers: " + desc && NoneOf("Blockers: " + desc, ".")
    ensures Normalise(Trim("Blockers: " + desc)) == if SaysNone(desc) then "no blockers" else desc
  {
    var s := "Blockers: " + desc;
    assert Trimmed(s) by { assert s[|s| - 1] == desc[|desc| - 1]; }
    TrimOfTrimmed(s);
    assert NoneOf(s, ".") by {
      forall k | 0 <= k < |s| ensures s[k] !in "." {
        if k >= 10 { assert s[k] == desc[k - 10]; }
      }
    }
    SaysNoneAfterLabel(desc);
    if !SaysNone(desc) {
      LabelRemoved(desc);
      TrimAfterSpace(desc);
    }
  }

  lemma BlockersLabelSearch(t: string, a: nat, e: nat)
    requires a <= e <= |t| && BlockersAt(t, a) == Some(Span(a, e))
    requires forall q :: 0 <= q < a ==> !LitAt(t, q, "no blockers") && !LitAt(t, q, "blockers")
    ensures Search(BlockersPhrase, t) == Some(Hit(a, Span(a, e)))
  {
    assert MatchAt(BlockersPhrase, t, a) == Some(Span(a, e));
    BlockersNoneBefore(t, a);
    SearchFirstAt(BlockersPhrase, t, a, Span(a, e));
  }

  lemma BlockersLabelGroup(t: string, a: nat, desc: string)
    requires HoldsAt(t, a, "Blockers: ") && HoldsAt(t, a + 10, desc) && desc != [] && Trimmed(desc)
    requires LazyEnd(BlockersTail, t, a + 10) == Some(a + 10 + |desc|)
    ensures BlockersAt(t, a) == Some(Span(a, a + 10 + |desc|))
  {
    BlockersWord(t, a, desc);
    LabelThenGroup(t, a, a + 10 + |desc|);
  }

  lemma BlockersDescEnds(t: string, off: nat, desc: string, rest: string)
    requires HoldsAt(t, off, desc) && |t| == off + |desc| + |rest|
    requires rest == [] || t[off + |desc|] in "\n."
    requires NoneOf(desc, "\n.") && !Mentions(desc, "tomorrow") && !Mentions(desc, "note")
    ensures LazyEnd(BlockersTail, t, off) == Some(off + |desc|)
  {
    assert TailAt(BlockersTail, t, off + |desc|);
    BlockersBodyStops(t, off, desc, rest);
    LazyStops(BlockersTail, t, off, |desc|);
  }

  lemma BlockersWord(t: string, a: nat, desc: string)
    requires HoldsAt(t, a, "Blockers: ") && HoldsAt(t, a + 10, desc) && desc != [] && Trimmed(desc)
    ensures LitAt(t, a, "blockers") && !LitAt(t, a, "no blockers") && t[a + 8] == ':' && Run(Space, t, a + 9) == 1
  {
    LowerLitAt(t, a, "Blockers: ", "blockers");
    assert t[a + 8] == "Blockers: "[8] && t[a + 9] == "Blockers: "[9];
    assert ToLower(t[a]) != "no blockers"[0] by { assert t[a + 0] == "Blockers: "[0]; }
    assert !IsSpace(t[a + 10]) by { assert t[a + 10 + 0] == desc[0]; }
    RunExact(Space, t, a + 9, 1);
  }

  /** "blockers", a colon and one space: the lazy group decides the match. */
  lemma LabelThenGroup(t: string, a: nat, e: nat)
    requires a + 10 <= e <= |t| && LitAt(t, a, "blockers") && !LitAt(t, a, "no blockers")
    requires t[a + 8] == ':' && Run(Space, t, a + 9) == 1
    requires LazyEnd(BlockersTail, t, a + 10) == Some(e)
    ensures BlockersAt(t, a) == Some(Span(a, e))
  {
    assert GroupEnd(Lazy(BlockersTail), t, a + 10) == Some(e);
    assert WsBack(Lazy(BlockersTail), t, a + 9, 1, 0) == Some(Span(a + 10, e));
  }

  /** A literal at `off + j` that runs to the end of a text `body` ends lies inside `body`. */
  lemma InsideEnd(text: string, off: nat, body: string, lit: string, j: nat)
    requires HoldsAt(text, off, body) && off + |body| == |text|
    requires j <= |body| && LitAt(text, off + j, lit)
    ensures LitAt(body, j, lit)
  {
    forall k | 0 <= k < |lit| ensures ToLower(body[j + k]) == lit[k] {
      assert text[off + (j + k)] == body[j + k];
    }
  }

  lemma BlockersBodyStops(t: string, off: nat, desc: string, rest: string)
    requires HoldsAt(t, off, desc) && |t| == off + |desc| + |rest|
    requires rest == [] || t[off + |desc|] in "\n."
    requires NoneOf(desc, "\n.") && !Mentions(desc, "tomorrow") && !Mentions(desc, "note")
    ensures forall k :: off <= k < off + |desc| ==> t[k] != '\n' && !TailAt(BlockersTail, t, k)
  {
    forall k | off <= k < off + |desc| ensures t[k] != '\n' && !TailAt(BlockersTail, t, k) {
      assert t[off + (k - off)] == desc[k - off];
      if rest == [] {
        if LitAt(t, k, "tomorrow") { InsideEnd(t, off, desc, "tomorrow", k - off); }
        if LitAt(t, k, "note") { InsideEnd(t, off, desc, "note", k - off); }
      } else {
        if LitAt(t, k, "tomorrow") { InsideBody(t, off, desc, "tomorrow", k - off); }
        if LitAt(t, k, "note") { InsideBody(t, off, desc, "note", k - off); }
      }
    }
  }

  /** No letter of "Blockers: " lowers to 'n'. */
  lemma LabelHasNoN(j: nat)
    requires j < 10
    ensures ToLower("Blockers: "[j]) != 'n'
  {
    if j < 5 {
      assert j == 0 || j == 1 || j == 2 || j == 3 || j == 4;
    } else {
      assert j == 5 || j == 6 || j == 7 || j == 8 || j == 9;
    }
  }

  /** Putting the label in front changes nothing about the words "no" and "none". */
  lemma SaysNoneAfterLabel(desc: string)
    ensures SaysNone("Blockers: " + desc) <==> SaysNone(desc)
  {
    WordAfterLabel(desc, "no");
    WordAfterLabel(desc, "none");
  }

  lemma WordAfterLabel(desc: string, w: string)
    requires |w| >= 1 && w[0] == 'n'
    ensures HasWholeWord("Blockers: " + desc, w) <==> HasWholeWord(desc, w)
  {
    var p := "Blockers: ";
    var s := p + desc;
    forall q | 0 <= q < 10 ensures ToLower(s[q]) != 'n' {
      LabelHasNoN(q);
      assert s[q] == p[q];
    }
    if HasWholeWord(s, w) {
      var j :| 0 <= j <= |s| && WholeWordAt(s, j, w);
      LitChar(s, j, w, j);
      assert j >= 10;
      assert WholeWordAt(desc, j - 10, w) by {
        forall k | 0 <= k < |w| ensures ToLower(desc[j - 10 + k]) == w[k] {
          assert s[j + k] == desc[j - 10 + k];
        }
        if j > 10 { assert s[j - 1] == desc[j - 10 - 1]; }
        if j + |w| < |s| { assert s[j + |w|] == desc[j - 10 + |w|]; }
      }
    }
    if HasWholeWord(desc, w) {
      var j :| 0 <= j <= |desc| && WholeWordAt(desc, j, w);
      assert WholeWordAt(s, j + 10, w) by {
        forall k | 0 <= k < |w| ensures ToLower(s[j + 10 + k]) == w[k] {
          assert s[j + 10 + k] == desc[j + k];
        }
        assert s[j + 10 - 1] == if j == 0 then ' ' else desc[j - 1];
        if j + |w| < |desc| { assert s[j + 10 + |w|] == desc[j + |w|]; }
      }
    }
  }

  /** Removing "Blockers:" from the labelled description leaves the space and the description. */
  lemma LabelRemoved(desc: string)
    requires Absent(desc, "Blockers:")
    ensures RemoveAll("Blockers: " + desc, "Blockers:") == " " + desc
  {
    assert "Blockers: " + desc == "Blockers:" + (" " + desc);
    RemoveAllLeading("Blockers:", " " + desc);
    var u := " " + desc;
    RemoveAllAbsent(desc, "Blockers:");
    if |u| >= 9 {
      assert u[..9] != "Blockers:" by { assert u[0] != "Blockers:"[0]; }
      assert u[1..] == desc;
    }
  }

  /** Stripping a space put in front of a non-empty stripped string gives it back. */
  lemma TrimAfterSpace(desc: string)
    requires desc != [] && Trimmed(desc)
    ensures Trim(" " + desc) == desc
  {
    var u := " " + desc;
    assert !InClass(Space, u[1]) by { assert u[1] == desc[0]; }
    RunExact(Space, u, 0, 1);
    assert u[|u| - 1] == desc[|desc| - 1];
    assert TrailBefore(u, |u|) == 0;
    assert u[1..|u|] == desc;
  }

  /**
   * "no blockers," is not normalised: the phrase needs a newline, a full
   * stop, "tomorrow", "note" or the end after it, so the match is the label
   * form starting at "blockers", and its span "blockers," has no word "no".
   */
  lemma NoBlockersComma()
    ensures BlockersField("no blockers,") == "blockers,"
  {
    var t := "no blockers,";
    NoBlockersCommaSearch();
    assert Slice(t, Span(3, 12)) == "blockers,";
    CommaSpanKept();
  }

  /**
   * "no blockers" followed by a comma and more text: the phrase needs a
   * terminator right after it, so the label form matches from "blockers"
   * and its lazy group runs on past the comma to the next terminator.
   */
  lemma NoBlockersRunsOn(pre: string, desc: string, rest: string)
    requires !Mentions(pre, "no blockers") && !Mentions(pre, "blockers")
    requires desc != [] && desc[0] == ',' && Trimmed(desc) && NoneOf(desc, "\n.") && Absent(desc, "Blockers:")
    requires !Mentions(desc, "tomorrow") && !Mentions(desc, "note")
    requires rest == [] || rest[0] in "\n."
    ensures BlockersField(pre + "no blockers" + desc + rest) == if SaysNone("blockers" + desc) then "no blockers" else "blockers" + desc
  {
    var t := pre + "no blockers" + desc + rest;
    Pieces4(pre, "no blockers", desc, rest);
    if rest != [] { assert t[|pre| + 11 + |desc| + 0] == rest[0]; }
    NoBlockersPrefixFree(t, pre);
    RunsOnIn(t, |pre|, desc, rest);
  }

  lemma RunsOnIn(t: string, a: nat, desc: string, rest: string)
    requires HoldsAt(t, a, "no blockers") && HoldsAt(t, a + 11, desc) && |t| == a + 11 + |desc| + |rest|
    requires rest == [] || t[a + 11 + |desc|] in "\n."
    requires forall q :: 0 <= q < a ==> !LitAt(t, q, "no blockers") && !LitAt(t, q, "blockers")
    requires desc != [] && desc[0] == ',' && Trimmed(desc) && NoneOf(desc, "\n.") && Absent(desc, "Blockers:")
    requires !Mentions(desc, "tomorrow") && !Mentions(desc, "note")
    ensures BlockersField(t) == if SaysNone("blockers" + desc) then "no blockers" else "blockers" + desc
  {
    RunsOnFound(t, a, desc, rest);
    RunsOnSlice(t, a, desc);
    BlockersFromSearch(t, Hit(a + 3, Span(a + 3, a + 11 + |desc|)), "blockers" + desc);
    RunsOnNormalised(desc);
  }

  lemma RunsOnFound(t: string, a: nat, desc: string, rest: string)
    requires HoldsAt(t, a, "no blockers") && HoldsAt(t, a + 11, desc) && |t| == a + 11 + |desc| + |rest|
    requires rest == [] || t[a + 11 + |desc|] in "\n."
    requires forall q :: 0 <= q < a ==> !LitAt(t, q, "no blockers") && !LitAt(t, q, "blockers")
    requires desc != [] && desc[0] == ',' && NoneOf(desc, "\n.") && !Mentions(desc, "tomorrow") && !Mentions(desc, "note")
    ensures Search(BlockersPhrase, t) == Some(Hit(a + 3, Span(a + 3, a + 11 + |desc|)))
  {
    BlockersNoneBefore(t, a);
    PhraseWithoutTail(t, a, desc);
    RunsOnLabel(t, a, desc, rest);
    assert MatchAt(BlockersPhrase, t, a + 3) == Some(Span(a + 3, a + 11 + |desc|));
    SearchFirstAt(BlockersPhrase, t, a + 3, Span(a + 3, a + 11 + |desc|));
  }

  /** "no blockers" with a comma after it: nothing matches at its first three characters. */
  lemma PhraseWithoutTail(t: string, a: nat, desc: string)
    requires HoldsAt(t, a, "no blockers") && HoldsAt(t, a + 11, desc) && desc != [] && desc[0] == ','
    ensures forall q :: a <= q < a + 3 ==> MatchAt(BlockersPhrase, t, q).None?
  {
    forall q | a <= q < a + 3 ensures MatchAt(BlockersPhrase, t, q).None? {
      if q == a {
        PhraseNoTail(t, a, desc);
      } else {
        NotAKeyword(t, a, q - a);
      }
    }
  }

  /** The phrase itself, with a comma where its tail should be. */
  lemma PhraseNoTail(t: string, a: nat, desc: string)
    requires HoldsAt(t, a, "no blockers") && HoldsAt(t, a + 11, desc) && desc != [] && desc[0] == ','
    ensures MatchAt(BlockersPhrase, t, a).None?
  {
    assert t[a + 11 + 0] == desc[0];
    CommaNoTail(t, a + 11);
    assert t[a + 0] == "no blockers"[0];
    assert ToLower(t[a + 0]) != "blockers"[0];
  }

  lemma CommaNoTail(t: string, e: nat)
    requires e < |t| && t[e] == ','
    ensures !TailAt(BlockersTail, t, e)
  {
    assert ToLower(t[e + 0]) != "tomorrow"[0] && ToLower(t[e + 0]) != "note"[0];
  }

  /** The second and third characters of "no blockers" start neither keyword. */
  lemma NotAKeyword(t: string, a: nat, k: nat)
    requires HoldsAt(t, a, "no blockers") && (k == 1 || k == 2)
    ensures MatchAt(BlockersPhrase, t, a + k).None?
  {
    assert t[a + k] == "no blockers"[k];
    assert ToLower(t[a + k]) != "no blockers"[0] && ToLower(t[a + k]) != "blockers"[0];
  }

  /** From "blockers" the label form takes no separator and no space, and the lazy group runs over `desc`. */
  lemma RunsOnLabel(t: string, a: nat, desc: string, rest: string)
    requires HoldsAt(t, a, "no blockers") && HoldsAt(t, a + 11, desc) && |t| == a + 11 + |desc| + |rest|
    requires rest == [] || t[a + 11 + |desc|] in "\n."
    requires desc != [] && desc[0] == ',' && NoneOf(desc, "\n.") && !Mentions(desc, "tomorrow") && !Mentions(desc, "note")
    ensures BlockersAt(t, a + 3) == Some(Span(a + 3, a + 11 + |desc|))
  {
    BlockersDescEnds(t, a + 11, desc, rest);
    InnerWord(t, a);
    assert t[a + 11 + 0] == desc[0];
    WordThenGroup(t, a + 3, a + 11 + |desc|);
  }

  /** "blockers" inside "no blockers". */
  lemma InnerWord(t: string, a: nat)
    requires HoldsAt(t, a, "no blockers")
    ensures LitAt(t, a + 3, "blockers") && !LitAt(t, a + 3, "no blockers")
  {
    forall k | 0 <= k < 8 ensures ToLower(t[a + 3 + k]) == "blockers"[k] {
      assert t[a + (3 + k)] == "no blockers"[3 + k];
    }
    assert t[a + 3] == "no blockers"[3];
    assert ToLower(t[a + 3 + 0]) != "no blockers"[0];
  }

  /** "blockers" with a comma straight after it: the lazy group starts at the comma. */
  lemma WordThenGroup(t: string, b: nat, e: nat)
    requires b + 8 < |t| && e <= |t| && LitAt(t, b, "blockers") && !LitAt(t, b, "no blockers") && t[b + 8] == ','
    requires LazyEnd(BlockersTail, t, b + 8) == Some(e)
    ensures BlockersAt(t, b) == Some(Span(b, e))
  {
    RunExact(Space, t, b + 8, 0);
    assert GroupEnd(Lazy(BlockersTail), t, b + 8) == Some(e);
    assert WsBack(Lazy(BlockersTail), t, b + 8, 0, 0) == Some(Span(b + 8, e));
  }

  lemma RunsOnSlice(t: string, a: nat, desc: string)
    requires HoldsAt(t, a, "no blockers") && HoldsAt(t, a + 11, desc)
    ensures Slice(t, Span(a + 3, a + 11 + |desc|)) == "blockers" + desc
  {
    var s := "blockers" + desc;
    assert HoldsAt(t, a + 3, s) by {
      forall k | 0 <= k < |s| ensures t[a + 3 + k] == s[k] {
        if k < 8 {
          assert t[a + (3 + k)] == "no blockers"[3 + k];
        } else {
          assert t[a + 11 + (k - 8)] == desc[k - 8];
        }
      }
    }
    SliceIs(t, a + 3, s);
  }

  /** "blockers" and the text after it is already stripped and holds no "Blockers:", so normalising keeps it. */
  lemma RunsOnNormalised(desc: string)
    requires desc != [] && desc[0] == ',' && Trimmed(desc) && NoneOf(desc, ".") && Absent(desc, "Blockers:")
    ensures NoneOf("blockers" + desc, ".") && Trim("blockers" + desc) == "blockers" + desc
    ensures Normalise(Trim("blockers" + desc)) == if SaysNone("blockers" + desc) then "no blockers" else "blockers" + desc
  {
    var s := "blockers" + desc;
    assert Trimmed(s) by { assert s[|s| - 1] == desc[|desc| - 1]; }
    TrimOfTrimmed(s);
    assert NoneOf(s, ".") by {
      forall k | 0 <= k < |s| ensures s[k] !in "." {
        if k >= 8 { assert s[k] == desc[k - 8]; }
      }
    }
    if !SaysNone(s) {
      AbsentAfterWord(desc);
      RemoveAllAbsent(s, "Blockers:");
    }
  }

  /** "Blockers:" cannot start inside the lower-case "blockers", so it occurs in "blockers" + desc only inside desc. */
  lemma AbsentAfterWord(desc: string)
    requires Absent(desc, "Blockers:")
    ensures Absent("blockers" + desc, "Blockers:")
  {
    var s := "blockers" + desc;
    forall k | 0 <= k <= |s| ensures !OccursAt(s, k, "Blockers:") {
      if k < 8 {
        assert s[k] != 'B';
      } else if k + 9 <= |s| {
        assert s[k..k + 9] == desc[k - 8..k - 8 + 9];
        assert !OccursAt(desc, k - 8, "Blockers:");
      }
    }
  }

  lemma NoBlockersCommaSearch()
    ensures Search(BlockersPhrase, "no blockers,") == Some(Hit(3, Span(3, 12)))
  {
    NoBlockersCommaFirst();
    SearchFirstAt(BlockersPhrase, "no blockers,", 3, Span(3, 12));
  }

  /** In "no blockers," the pattern first matches at "blockers". */
  lemma NoBlockersCommaFirst()
    ensures MatchAt(BlockersPhrase, "no blockers,", 3) == Some(Span(3, 12))
    ensures forall q :: 0 <= q < 3 ==> MatchAt(BlockersPhrase, "no blockers,", q).None?
  {
    forall q | 0 <= q < 3 ensures MatchAt(BlockersPhrase, "no blockers,", q).None? {
      NoBlockersCommaBefore(q);
    }
    CommaLabelAt3();
  }

  /** "blockers," has no word "no" and no "Blockers:", so normalising keeps it. */
  lemma CommaSpanKept()
    ensures Normalise(Trim("blockers,")) == "blockers,"
  {
    var s := "blockers,";
    TrimOfTrimmed(s);
    CommaSpanSaysNothing();
    RemoveAllAbsentShort(s);
  }

  lemma CommaSpanSaysNothing()
    ensures !SaysNone("blockers,")
  {
    var s := "blockers,";
    forall j | 0 <= j <= |s| ensures !WholeWordAt(s, j, "no") && !WholeWordAt(s, j, "none") {
      if j < |s| { CommaSpanHasNoN(j); }
    }
  }

  /** No letter of "blockers," lowers to 'n'. */
  lemma CommaSpanHasNoN(j: nat)
    requires j < 9
    ensures ToLower("blockers,"[j]) != 'n'
  {
    if j < 5 {
      assert j == 0 || j == 1 || j == 2 || j == 3 || j == 4;
    } else {
      assert j == 5 || j == 6 || j == 7 || j == 8;
    }
  }

  lemma NoBlockersCommaBefore(q: nat)
    requires q < 3
    ensures BlockersAt("no blockers,", q).None?
  {
    var t := "no blockers,";
    if q == 0 {
      assert !TailAt(BlockersTail, t, 11) by { assert !LitAt(t, 11, "tomorrow") && !LitAt(t, 11, "note"); }
      assert ToLower(t[0]) != "blockers"[0];
    } else if q == 1 {
      assert ToLower(t[1]) != "no blockers"[0] && ToLower(t[1]) != "blockers"[0];
    } else {
      assert ToLower(t[2]) != "no blockers"[0] && ToLower(t[2]) != "blockers"[0];
    }
  }

  lemma CommaLabelAt3()
    ensures BlockersAt("no blockers,", 3) == Some(Span(3, 12))
  {
    var t := "no blockers,";
    assert ToLower(t[3]) != "no blockers"[0];
    assert LitAt(t, 3, "blockers") by { assert HoldsAt(t, 3, "blockers"); LowerLitAt(t, 3, "blockers", "blockers"); }
    assert !IsSep(t[11]);
    RunExact(Space, t, 11, 0);
    assert !TailAt(BlockersTail, t, 11) by { assert !LitAt(t, 11, "tomorrow") && !LitAt(t, 11, "note"); }
    assert TailAt(BlockersTail, t, 12);
    LazyStops(BlockersTail, t, 11, 1);
    assert GroupEnd(Lazy(BlockersTail), t, 11) == Some(12);
    assert WsBack(Lazy(BlockersTail), t, 11, 0, 0) == Some(Span(11, 12));
  }

  /** The leftmost match is the one before which nothing matches. */
  lemma SearchFirstAt(pat: Pattern, text: string, i: nat, g: Span)
    requires i <= |text| && MatchAt(pat, text, i) == Some(g)
    requires forall q :: 0 <= q < i ==> MatchAt(pat, text, q).None?
    ensures Search(pat, text) == Some(Hit(i, g))
  {
    var r := Search(pat, text);
    assert r.Some?;
    assert r.value.at == i;
  }

  /** "Blockers:" cannot be found in "blockers,": its first letter differs. */
  lemma RemoveAllAbsentShort(s: string)
    requires s == "blockers,"
    ensures RemoveAll(s, "Blockers:") == s
  {
    assert Absent(s, "Blockers:") by {
      forall k | 0 <= k <= |s| ensures !OccursAt(s, k, "Blockers:") {
        if k + 9 <= |s| { assert k == 0; assert s[0] != 'B'; }
      }
    }
    RemoveAllAbsent(s, "Blockers:");
  }
}

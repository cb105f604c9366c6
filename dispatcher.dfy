/**
 * `handle_natural_language_update`: a message that begins "Update for
 * <Name>:" (in any letter case, after surrounding whitespace is stripped) is
 * parsed into an entry and logged to the sheet called <Name>; any other
 * message gets a hint about the expected format and changes nothing.
 */
module Dispatcher {
  import opened Wrappers
  import opened Text
  import opened Calendar
  import opened Entry
  import opened Extractor
  import opened Logger

  const UsageHint := "Please begin your message with a clear format like: 'Update for Siva: ...'"

  /** Every character of `s` is one `\w` matches. */
  predicate AllWord(s: string) {
    forall k :: 0 <= k < |s| ==> IsWordChar(s[k])
  }

  /**
   * Group 1 of `re.match(r"Update for (\w+):", prompt.strip(), re.IGNORECASE)`.
   * A shorter `\w+` leaves a word character where `:` must be, so only the
   * whole run of word characters after the header can be followed by `:`.
   */
  function SheetNameOf(prompt: string): (r: Option<string>)
    ensures r.Some? ==> |r.value| >= 1 && AllWord(r.value)
    ensures r.Some? ==> var p := Trim(prompt);
      && LitAt(p, 0, "update for ") && 12 + |r.value| <= |p|
      && p[11..11 + |r.value|] == r.value && p[11 + |r.value|] == ':'
  {
    var p := Trim(prompt);
    if !LitAt(p, 0, "update for ") then None
    else
      var n := Run(Word, p, 11);
      if n == 0 || 11 + n == |p| || p[11 + n] != ':' then None
      else
        var g := p[11..11 + n];
        assert AllWord(g) by {
          RunChars(Word, p, 11);
          forall k | 0 <= k < n ensures IsWordChar(g[k]) {
            assert g[k] == p[11 + k];
            assert InClass(Word, p[11 + k]);
          }
        }
        Some(g)
  }

  /**
   * What `handle_natural_language_update(prompt)` answers and what the
   * spreadsheet holds afterwards.  The whole prompt, not its stripped form,
   * is what gets parsed.
   */
  function HandleOutcome(sheets: Sheets, prompt: string, transport: Transport): (out: (Response, Sheets))
    ensures out.0.Success? <==>
      SheetNameOf(prompt).Some? && transport.Delivered? && SheetNameOf(prompt).value in sheets
    ensures SheetNameOf(prompt).None? ==> out.0 == Error(UsageHint)
    ensures out.1.Keys == sheets.Keys
    ensures forall s :: s in sheets ==>
      out.1[s] == sheets[s] + (if out.0.Success? && s == SheetNameOf(prompt).value then [RowFor(ParseNaturalLanguage(prompt))] else [])
  {
    match SheetNameOf(prompt)
    case None => (Error(UsageHint), sheets)
    case Some(name) =>
      NameIsTrimmed(name);
      LogOutcome(sheets, name, ParseNaturalLanguage(prompt), transport)
  }

  /** `handle_natural_language_update`, logging into `store`. */
  method HandleNaturalLanguageUpdate(store: Spreadsheet, prompt: string, transport: Transport) returns (r: Response)
    modifies store
    ensures (r, store.sheets) == HandleOutcome(old(store.sheets), prompt, transport)
  {
    var nameMatch := SheetNameOf(prompt);
    if nameMatch.None? {
      return Error(UsageHint);
    }
    var name := nameMatch.value;
    var entry := ParseNaturalLanguage(prompt);
    r := store.LogDailyUpdate(name, entry, transport);
  }

  /** A message that does not start with the header gets the hint, and nothing is written. */
  lemma NoHeaderGetsHint(sheets: Sheets, prompt: string, transport: Transport)
    requires !LitAt(Trim(prompt), 0, "update for ")
    ensures HandleOutcome(sheets, prompt, transport) == (Error(UsageHint), sheets)
  {
  }

  /**
   * Nor does a header whose name is followed by anything but a colon,
   * whitespace included: stripping either keeps that whitespace in front of
   * the rest or, when nothing else follows, ends the message at the name.
   */
  lemma NoColonGetsHint(sheets: Sheets, h: string, name: string, c: char, rest: string, transport: Transport)
    requires |h| == 11 && LitAt(h, 0, "update for ") && |name| >= 1 && AllWord(name)
    requires c != ':' && !IsWordChar(c)
    ensures HandleOutcome(sheets, h + name + [c] + rest, transport) == (Error(UsageHint), sheets)
  {
    NoColonNoName(h, name, c, rest);
  }

  lemma NoColonNoName(h: string, name: string, c: char, rest: string)
    requires |h| == 11 && LitAt(h, 0, "update for ") && |name| >= 1 && AllWord(name)
    requires c != ':' && !IsWordChar(c)
    ensures SheetNameOf(h + name + [c] + rest) == None
  {
    var s := h + name + [c] + rest;
    HeaderShape(h, name, c, rest);
    if !IsSpace(c) {
      TrimKeepsHead(s, 12 + |name|);
      HeadRun(Trim(s), s, h, name, c);
    } else {
      SpaceAfterName(s, h, name, c);
    }
  }

  /** Whitespace after the name: stripping keeps it, or the stripped message ends with the name. */
  lemma SpaceAfterName(s: string, h: string, name: string, c: char)
    requires |h| == 11 && LitAt(h, 0, "update for ") && |name| >= 1 && AllWord(name) && !IsWordChar(c) && c != ':'
    requires |s| >= 12 + |name| && !IsSpace(s[0]) && s[11 + |name|] == c
    requires (forall k :: 0 <= k < 11 ==> s[k] == h[k]) && (forall k :: 0 <= k < |name| ==> s[11 + k] == name[k])
    ensures SheetNameOf(s) == None
  {
    var p := Trim(s);
    var n := |name|;
    assert s[11 + (n - 1)] == name[n - 1];
    assert !IsSpace(s[10 + n]);
    TrimKeepsHead(s, 11 + n);
    if |p| >= 12 + n {
      TrimKeepsNext(s, 11 + n);
      assert p[..12 + n] == s[..12 + n] by {
        forall k | 0 <= k < 12 + n ensures p[k] == s[k] {
          if k < 11 + n { assert p[..11 + n][k] == s[..11 + n][k]; }
        }
      }
      HeadRun(p, s, h, name, c);
    } else {
      NameEndsMessage(p, s, h, name);
    }
  }

  /** Stripping a message that starts with non-whitespace keeps the character after a kept head where it was. */
  lemma TrimKeepsNext(s: string, n: nat)
    requires 0 < n < |s| && !IsSpace(s[0]) && n < |Trim(s)|
    ensures Trim(s)[n] == s[n]
  {
    assert !InClass(Space, s[0]);
    RunExact(Space, s, 0, 0);
    assert Trim(s)[n] == s[0 + n];
  }

  /** The stripped message ends with the name: the run of word characters reaches its end. */
  lemma NameEndsMessage(p: string, s: string, h: string, name: string)
    requires |h| == 11 && LitAt(h, 0, "update for ") && |name| >= 1 && AllWord(name)
    requires |s| >= 11 + |name| && (forall k :: 0 <= k < 11 ==> s[k] == h[k])
    requires forall k :: 0 <= k < |name| ==> s[11 + k] == name[k]
    requires |p| == 11 + |name| && p[..11 + |name|] == s[..11 + |name|]
    ensures LitAt(p, 0, "update for ") && 11 + Run(Word, p, 11) == |p|
  {
    forall k | 0 <= k < 11 + |name| ensures p[k] == s[k] {
      assert p[..11 + |name|][k] == p[k];
    }
    forall k | 0 <= k < 11 ensures ToLower(p[0 + k]) == "update for "[k] {
      assert ToLower(h[0 + k]) == "update for "[k];
    }
    forall k | 11 <= k < 11 + |name| ensures InClass(Word, p[k]) {
      assert p[11 + (k - 11)] == name[k - 11];
    }
    RunExact(Word, p, 11, |name|);
  }

  /**
   * The header gives back the name in it, whatever the letter case of
   * "Update for" and whatever whitespace comes before it.
   */
  lemma HeaderRoundTrip(ws: string, h: string, name: string, rest: string)
    requires AllSpace(ws) && |h| == 11 && LitAt(h, 0, "update for ") && |name| >= 1 && AllWord(name)
    ensures SheetNameOf(ws + h + name + ":" + rest) == Some(name)
  {
    var u := h + name + ":" + rest;
    assert ws + h + name + ":" + rest == ws + u;
    HeaderShape(h, name, ':', rest);
    NameAfterSpace(ws, u, h, name);
  }

  /** Whitespace, then the header, the name and ":": stripping leaves the header first, and the name is read. */
  lemma NameAfterSpace(ws: string, u: string, h: string, name: string)
    requires AllSpace(ws) && |h| == 11 && LitAt(h, 0, "update for ") && |name| >= 1 && AllWord(name)
    requires |u| >= 12 + |name| && !IsSpace(u[0]) && u[11 + |name|] == ':'
    requires (forall k :: 0 <= k < 11 ==> u[k] == h[k]) && (forall k :: 0 <= k < |name| ==> u[11 + k] == name[k])
    ensures SheetNameOf(ws + u) == Some(name)
  {
    TrimKeepsHeadAfter(ws, u, 12 + |name|);
    var p := Trim(ws + u);
    HeadRun(p, u, h, name, ':');
    NameSlice(p, name);
  }

  lemma NameSlice(p: string, name: string)
    requires 11 + |name| <= |p| && forall k :: 0 <= k < |name| ==> p[11 + k] == name[k]
    ensures p[11..11 + |name|] == name
  {
    forall k | 0 <= k < |name| ensures p[11..11 + |name|][k] == name[k] {
      assert p[11 + k] == name[k];
    }
  }

  /** Where the pieces of "<header><name><c><rest>" sit. */
  lemma HeaderShape(h: string, name: string, c: char, rest: string)
    requires |h| == 11 && LitAt(h, 0, "update for ")
    ensures var s := h + name + [c] + rest;
      && |s| >= 12 + |name| && !IsSpace(s[0]) && s[11 + |name|] == c
      && (forall k :: 0 <= k < 11 ==> s[k] == h[k])
      && (forall k :: 0 <= k < |name| ==> s[11 + k] == name[k])
  {
    var s := h + name + [c] + rest;
    LitChar(h, 0, "update for ", 0);
    assert s[0] == h[0];
  }

  /** The stripped message: the header, then a run of exactly the name's length. */
  lemma HeadRun(p: string, s: string, h: string, name: string, c: char)
    requires |h| == 11 && LitAt(h, 0, "update for ") && |name| >= 1 && AllWord(name) && !IsWordChar(c)
    requires |s| >= 12 + |name| && s[11 + |name|] == c
    requires (forall k :: 0 <= k < 11 ==> s[k] == h[k]) && (forall k :: 0 <= k < |name| ==> s[11 + k] == name[k])
    requires 12 + |name| <= |p| && p[..12 + |name|] == s[..12 + |name|]
    ensures LitAt(p, 0, "update for ") && Run(Word, p, 11) == |name| && p[11 + |name|] == c
    ensures forall k :: 0 <= k < |name| ==> p[11 + k] == name[k]
  {
    forall k | 0 <= k < 12 + |name| ensures p[k] == s[k] {
      assert p[..12 + |name|][k] == p[k];
    }
    forall k | 0 <= k < 11 ensures ToLower(p[0 + k]) == "update for "[k] {
      assert ToLower(h[0 + k]) == "update for "[k];
    }
    forall k | 11 <= k < 11 + |name| ensures InClass(Word, p[k]) {
      assert p[11 + (k - 11)] == name[k - 11];
    }
    RunExact(Word, p, 11, |name|);
  }

  /**
   * A message with the header naming an existing sheet, the service calls
   * going through: the reply says so, and that sheet gains exactly the row
   * of the entry parsed from the whole message.
   */
  lemma HandleAppends(sheets: Sheets, ws: string, h: string, name: string, rest: string)
    requires AllSpace(ws) && |h| == 11 && LitAt(h, 0, "update for ") && |name| >= 1 && AllWord(name)
    requires name in sheets
    ensures var prompt := ws + h + name + ":" + rest;
      HandleOutcome(sheets, prompt, Delivered)
      == (Success(Added(name)), sheets[name := sheets[name] + [RowFor(ParseNaturalLanguage(prompt))]])
  {
    var prompt := ws + h + name + ":" + rest;
    HeaderRoundTrip(ws, h, name, rest);
    NameIsTrimmed(name);
    LogDelivered(sheets, name, ParseNaturalLanguage(prompt));
  }

  /** A header naming a sheet that does not exist: the reply names the sheet, and nothing is written. */
  lemma HandleMissingSheet(sheets: Sheets, ws: string, h: string, name: string, rest: string, transport: Transport)
    requires AllSpace(ws) && |h| == 11 && LitAt(h, 0, "update for ") && |name| >= 1 && AllWord(name)
    requires name !in sheets && !transport.MetadataFails?
    ensures HandleOutcome(sheets, ws + h + name + ":" + rest, transport) == (Error(MissingSheet(name)), sheets)
  {
    HeaderRoundTrip(ws, h, name, rest);
    NameIsTrimmed(name);
  }

  /** A name of word characters has no whitespace to strip. */
  lemma NameIsTrimmed(name: string)
    requires |name| >= 1 && AllWord(name)
    ensures Trim(name) == name
  {
    assert IsWordChar(name[0]) && IsWordChar(name[|name| - 1]);
    TrimOfTrimmed(name);
  }

  /**
   * The row logged for any message: the first and last cells both hold the
   * date, which is a real date in ISO form or empty; the attendance cell is
   * one of its three values; the hours cell is digits or empty.
   */
  lemma ParsedRow(prompt: string)
    ensures var row := RowFor(ParseNaturalLanguage(prompt));
      && row[0] == row[8] == DateField(prompt)
      && (row[0] == "" || IsIsoDate(row[0]))
      && row[2] in {"WFH", "Office", ""}
      && (row[4] == "" || AllDigits(row[4]))
  {
    var f := Extract(prompt);
    assert ParseNaturalLanguage(prompt) == ToRecord(f);
    RowCells(f);
  }

  /** The cells of the row written for a record built from fields. */
  lemma RowCells(f: Fields)
    ensures var row := RowFor(ToRecord(f));
      && row[0] == f.date && row[8] == f.date && row[2] == f.leave && row[3] == f.tasks && row[4] == f.hours
  {
    var e := ToRecord(f);
    assert e.Keys == set k | k in Columns;
    assert Columns[0] in e && Columns[8] in e && Columns[2] in e && Columns[3] in e && Columns[4] in e;
  }
}

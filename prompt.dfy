/**
 * One whole update as `handle_natural_language_update` receives it, from the
 * "Update for <Name>:" header on: the sheet it goes to and the fields the
 * read-back lemmas give for it.
 */
module PromptReadback {
  import opened Wrappers
  import opened Text
  import opened Calendar
  import opened Extractor
  import opened Readback
  import opened DateReadback
  import opened Entry
  import opened Logger
  import opened Dispatcher

  /**
   * "Update for Kevin: Date: 30 June 2025, completed the login page, 3 hours
   * worked.", written as the pieces the read-back lemmas place.
   */
  const KevinUpdate: string :=
    "Update for Kevin: " + "Date: " + "30 June 2025" + ", " + "completed " + "the login page" + ", " + "3" + " hours worked" + "."

  /** No character of `s` lowers to `c`. */
  predicate Lacks(s: string, c: char) {
    forall k :: 0 <= k < |s| ==> ToLower(s[k]) != c
  }

  /** Two texts that leave out a letter leave it out together. */
  lemma LacksJoin(a: string, b: string, c: char)
    requires Lacks(a, c) && Lacks(b, c)
    ensures Lacks(a + b, c)
  {
    forall k | 0 <= k < |a + b| ensures ToLower((a + b)[k]) != c {
      if k < |a| {
        assert (a + b)[k] == a[k];
      } else {
        assert (a + b)[k] == b[k - |a|];
      }
    }
  }

  /** A text in which no character lowers to one of a keyword's letters does not mention the keyword. */
  lemma LacksLetter(s: string, kw: string, j: nat)
    requires j < |kw| && Lacks(s, kw[j])
    ensures !Mentions(s, kw)
  {
    forall x | 0 <= x <= |s| ensures !LitAt(s, x, kw) {
      if x + |kw| <= |s| {
        LitChar(s, x, kw, x + j);
      }
    }
  }

  /** Where `x` and `y` sit in `x + y`. */
  lemma Split(x: string, y: string)
    ensures HoldsAt(x + y, 0, x) && HoldsAt(x + y, |x|, y) && |x + y| == |x| + |y|
  {
  }

  /** The date, the tasks and the hours of the whole update each read back. */
  lemma UpdatePromptFields()
    ensures DateField(KevinUpdate) == "2025-06-30"
    ensures TasksField(KevinUpdate) == "the login page"
    ensures HoursField(KevinUpdate) == "3"
  {
    var p := KevinUpdate;
    IsoOfSample();
    PromptDate(p);
    PromptTasks(p);
    PromptHours(p);
  }

  /** "Date: 30 June 2025" after a header without digits gives the ISO date. */
  lemma PromptDate(p: string)
    requires p == KevinUpdate
    ensures DateField(p) == Iso(Date(2025, 6, 30))
  {
    var h := "Update for Kevin: ";
    var g := "30 June 2025";
    DatePlaced(p, h, g);
    DatePiecesOf();
    DateGroupValue(g);
    DateFieldIn(p, h, "Date: ", g, "30", "", "June", "2025");
  }

  /** A prefix of `t` is written at its start. */
  lemma PrefixHolds(t: string, x: string)
    requires x <= t
    ensures HoldsAt(t, 0, x)
  {
  }

  /** The header, the label and the date group, in place in the prompt. */
  lemma DatePlaced(p: string, h: string, g: string)
    requires h == "Update for Kevin: " && g == "30 June 2025"
    requires p == h + "Date: " + g + ", " + "completed " + "the login page" + ", " + "3" + " hours worked" + "."
    ensures AfterPrefix(p, h, "Date: ") && HoldsAt(p, |h| + |"Date: "|, g)
  {
    assert h + "Date: " + g <= p;
    PrefixHolds(p, h + "Date: " + g);
    Split(h + "Date: ", g);
    Split(h, "Date: ");
    HoldsWithin(p, 0, h + "Date: " + g, 0, h + "Date: ");
    HoldsWithin(p, 0, h + "Date: " + g, |h + "Date: "|, g);
    HoldsWithin(p, 0, h + "Date: ", 0, h);
    HoldsWithin(p, 0, h + "Date: ", |h|, "Date: ");
    assert NoDigits(h);
  }

  /** "30 June 2025" as the pieces of a date group, and the date it is read as. */
  lemma DateGroupValue(g: string)
    requires g == "30 June 2025"
    ensures |g| == |"30"| + |""| + |"June"| + 2 + |"2025"| && GroupAt(g, 0, "30", "", "June", "2025")
    ensures Strptime(StripOrdinals(Trim(g))) == Some(Date(2025, 6, 30))
  {
    assert g == "30" + "" + " " + "June" + " " + "2025";
    GroupLayout("30", "", "June", "2025");
    JuneThirtieth();
  }

  /** "30", "June" and "2025" as a day, a month word and a year. */
  lemma DatePiecesOf()
    ensures DatePieces("30", "", "June", "2025")
  {
    DayThirty();
    PadYear();
    JuneIsMonth();
    MonthNameIsWord("June", 6);
  }

  /** The group read as 30 June 2025. */
  lemma JuneThirtieth()
    ensures Strptime(StripOrdinals(Trim("30" + "" + " " + "June" + " " + "2025"))) == Some(Date(2025, 6, 30))
  {
    DayThirty();
    PadYear();
    JuneIsMonth();
    JuneHasThirty();
    DateValue(30, 6, 2025, "June", "");
  }

  /** The day 30 as written. */
  lemma DayThirty()
    ensures DayText(30) == "30"
  {
  }

  /** 30 June 2025 is a real date. */
  lemma JuneHasThirty()
    ensures ValidDate(Date(2025, 6, 30))
  {
  }

  /** "June" spells the sixth month. */
  lemma JuneIsMonth()
    ensures |"June"| == |MonthName(6)| && LitAt("June", 0, MonthName(6))
  {
    assert MonthName(6) == "june";
  }

  /** "completed the login page," after text without the pattern's keywords gives the tasks. */
  lemma PromptTasks(p: string)
    requires p == KevinUpdate
    ensures TasksField(p) == "the login page"
  {
    var pre := "Update for Kevin: " + "Date: " + "30 June 2025" + ", ";
    var body := "the login page";
    TasksPlaced(p, pre, body);
    TasksLetters(pre, body);
    TasksPrefixFree(p, pre);
    TasksAfter(p, |pre|, body);
  }

  /** The phrase, the tasks and the comma after them, in place in the prompt. */
  lemma TasksPlaced(p: string, pre: string, body: string)
    requires pre == "Update for Kevin: " + "Date: " + "30 June 2025" + ", " && body == "the login page"
    requires p == pre + "completed " + body + ", " + "3" + " hours worked" + "."
    ensures HoldsAt(p, 0, pre) && HoldsAt(p, |pre|, "completed ") && HoldsAt(p, |pre| + 10, body)
    ensures |pre| + 10 + |body| < |p| && p[|pre| + 10 + |body|] == ','
  {
    var x := pre + "completed " + body + ", ";
    assert x <= p;
    PrefixHolds(p, x);
    Split(pre + "completed " + body, ", ");
    Split(pre + "completed ", body);
    Split(pre, "completed ");
    HoldsWithin(p, 0, x, 0, pre + "completed " + body);
    HoldsWithin(p, 0, x, |pre + "completed " + body|, ", ");
    HoldsWithin(p, 0, pre + "completed " + body, 0, pre + "completed ");
    HoldsWithin(p, 0, pre + "completed " + body, |pre + "completed "|, body);
    HoldsWithin(p, 0, pre + "completed ", 0, pre);
    HoldsWithin(p, 0, pre + "completed ", |pre|, "completed ");
    assert p[|pre| + 10 + |body| + 0] == ", "[0];
  }

  /** Neither the text before the phrase nor the tasks hold a word that would end or move the match. */
  lemma TasksLetters(pre: string, body: string)
    requires pre == "Update for Kevin: " + "Date: " + "30 June 2025" + ", " && body == "the login page"
    ensures !Mentions(pre, "completed") && !Mentions(pre, "tasks done")
    ensures Trimmed(body) && NoneOf(body, ".,\n")
    ensures !Mentions(body, "hours") && !Mentions(body, "blockers") && !Mentions(body, "tomorrow")
  {
    PieceLetters();
    LacksJoin("Update for Kevin: ", "Date: ", 'm');
    LacksJoin("Update for Kevin: " + "Date: ", "30 June 2025", 'm');
    LacksJoin("Update for Kevin: " + "Date: " + "30 June 2025", ", ", 'm');
    LacksJoin("Update for Kevin: ", "Date: ", 's');
    LacksJoin("Update for Kevin: " + "Date: ", "30 June 2025", 's');
    LacksJoin("Update for Kevin: " + "Date: " + "30 June 2025", ", ", 's');
    LacksLetter(pre, "completed", 2);
    LacksLetter(pre, "tasks done", 2);
    LacksLetter(body, "hours", 2);
    LacksLetter(body, "blockers", 0);
    LacksLetter(body, "tomorrow", 2);
    assert !IsSpace(body[0]) && !IsSpace(body[|body| - 1]);
  }

  /** The letters the pieces of the prompt leave out. */
  lemma PieceLetters()
    ensures Lacks("Update for Kevin: ", 'm') && Lacks("Update for Kevin: ", 's') && Lacks("Update for Kevin: ", 'w')
    ensures Lacks("Date: ", 'm') && Lacks("Date: ", 's') && Lacks("Date: ", 'w')
    ensures Lacks("30 June 2025", 'm') && Lacks("30 June 2025", 's') && Lacks("30 June 2025", 'w')
    ensures Lacks(", ", 'm') && Lacks(", ", 's') && Lacks(", ", 'w')
    ensures Lacks("completed ", 'w')
    ensures Lacks("the login page", 'w') && Lacks("the login page", 'u') && Lacks("the login page", 'b') && Lacks("the login page", 'm')
  {
    HeaderLetters();
    DateLetters();
    TasksWordLetters();
  }

  /** The letters the header leaves out. */
  lemma HeaderLetters()
    ensures Lacks("Update for Kevin: ", 'm') && Lacks("Update for Kevin: ", 's') && Lacks("Update for Kevin: ", 'w')
  {
  }

  /** The letters the date and the separator leave out. */
  lemma DateLetters()
    ensures Lacks("Date: ", 'm') && Lacks("Date: ", 's') && Lacks("Date: ", 'w')
    ensures Lacks("30 June 2025", 'm') && Lacks("30 June 2025", 's') && Lacks("30 June 2025", 'w')
    ensures Lacks(", ", 'm') && Lacks(", ", 's') && Lacks(", ", 'w')
  {
  }

  /** The letters the tasks phrase leaves out. */
  lemma TasksWordLetters()
    ensures Lacks("completed ", 'w')
    ensures Lacks("the login page", 'w') && Lacks("the login page", 'u') && Lacks("the login page", 'b') && Lacks("the login page", 'm')
  {
  }

  /** "3 hours worked" after text without "worked" gives the hours. */
  lemma PromptHours(p: string)
    requires p == KevinUpdate
    ensures HoursField(p) == "3"
  {
    var pre := "Update for Kevin: " + "Date: " + "30 June 2025" + ", " + "completed " + "the login page" + ", ";
    HoursPlaced(p, pre);
    HoursLetters(pre);
    WorkedPhraseAfter(p, pre, "3");
  }

  /** The digits and the unit, in place in the prompt. */
  lemma HoursPlaced(p: string, pre: string)
    requires pre == "Update for Kevin: " + "Date: " + "30 June 2025" + ", " + "completed " + "the login page" + ", "
    requires p == pre + "3" + " hours worked" + "."
    ensures HoldsAt(p, 0, pre) && HoldsAt(p, |pre|, "3") && HoldsAt(p, |pre| + |"3"|, " hours worked")
  {
    var x := pre + "3" + " hours worked";
    Split(x, ".");
    Split(pre + "3", " hours worked");
    Split(pre, "3");
    HoldsWithin(p, 0, x, 0, pre + "3");
    HoldsWithin(p, 0, x, |pre + "3"|, " hours worked");
    HoldsWithin(p, 0, pre + "3", 0, pre);
    HoldsWithin(p, 0, pre + "3", |pre|, "3");
  }

  /** The text before the digits does not mention "worked" and ends in a space. */
  lemma HoursLetters(pre: string)
    requires pre == "Update for Kevin: " + "Date: " + "30 June 2025" + ", " + "completed " + "the login page" + ", "
    ensures |"3"| >= 1 && AllDigits("3")
    ensures !Mentions(pre, "worked") && (pre == [] || !IsDigit(pre[|pre| - 1]))
  {
    PieceLetters();
    var a := "Update for Kevin: ";
    LacksJoin(a, "Date: ", 'w');
    LacksJoin(a + "Date: ", "30 June 2025", 'w');
    LacksJoin(a + "Date: " + "30 June 2025", ", ", 'w');
    LacksJoin(a + "Date: " + "30 June 2025" + ", ", "completed ", 'w');
    LacksJoin(a + "Date: " + "30 June 2025" + ", " + "completed ", "the login page", 'w');
    LacksJoin(a + "Date: " + "30 June 2025" + ", " + "completed " + "the login page", ", ", 'w');
    LacksLetter(pre, "worked", 0);
    Split(a + "Date: " + "30 June 2025" + ", " + "completed " + "the login page", ", ");
    assert pre[|pre| - 1] == ' ';
  }

  /**
   * The same update handed to `handle_natural_language_update` with the
   * service calls going through: it is logged to Kevin's sheet, whose new
   * last row holds the date in its first and last cells, the tasks and the
   * hours.
   */
  lemma UpdatePromptLogged(sheets: Sheets)
    requires "Kevin" in sheets
    ensures var row := RowFor(ParseNaturalLanguage(KevinUpdate));
      && HandleOutcome(sheets, KevinUpdate, Delivered) == (Success(Added("Kevin")), sheets["Kevin" := sheets["Kevin"] + [row]])
      && row[0] == row[8] == "2025-06-30" && row[3] == "the login page" && row[4] == "3"
  {
    var p := KevinUpdate;
    PromptSheet(p);
    PromptRow(p);
    HandleLogs(sheets, p, "Kevin");
  }

  /** A prompt whose header names an existing sheet is logged there, the service calls going through. */
  lemma HandleLogs(sheets: Sheets, p: string, name: string)
    requires SheetNameOf(p) == Some(name) && name in sheets
    ensures HandleOutcome(sheets, p, Delivered) == (Success(Added(name)), sheets[name := sheets[name] + [RowFor(ParseNaturalLanguage(p))]])
  {
    NameIsTrimmed(name);
    LogDelivered(sheets, name, ParseNaturalLanguage(p));
  }

  /** The header of the prompt names Kevin's sheet. */
  lemma PromptSheet(p: string)
    requires p == KevinUpdate
    ensures SheetNameOf(p) == Some("Kevin")
  {
    var h := "Update for Kevin: ";
    assert h <= p;
    PrefixHolds(p, h);
    HeaderLetters11();
    assert p[0] == 'U' && p[16] == ':';
    assert forall k :: 0 <= k < 11 ==> p[k] == "Update for "[k];
    assert forall k :: 0 <= k < 5 ==> p[11 + k] == "Kevin"[k];
    assert [] + p == p;
    NameAfterSpace([], p, "Update for ", "Kevin");
  }

  /** The header in its written case, and the name as word characters. */
  lemma HeaderLetters11()
    ensures LitAt("Update for ", 0, "update for ") && AllWord("Kevin")
  {
  }

  /** The cells of the row logged for the prompt. */
  lemma PromptRow(p: string)
    requires p == KevinUpdate
    ensures var row := RowFor(ParseNaturalLanguage(p));
      row[0] == row[8] == "2025-06-30" && row[3] == "the login page" && row[4] == "3"
  {
    UpdatePromptFields();
    var f := Extract(p);
    assert ParseNaturalLanguage(p) == ToRecord(f);
    RowCells(f);
  }

  /** `strftime("%Y-%m-%d")` of 30 June 2025. */
  lemma IsoOfSample()
    ensures Iso(Date(2025, 6, 30)) == "2025-06-30"
  {
    IsoParts();
    IsoJoined();
  }

  /** The ISO pieces joined. */
  lemma IsoJoined()
    ensures "2025" + "-" + "06" + "-" + "30" == "2025-06-30"
  {
  }

  /** The ISO text of 30 June 2025, piece by piece. */
  lemma IsoParts()
    ensures Iso(Date(2025, 6, 30)) == "2025" + "-" + "06" + "-" + "30"
  {
    SamplePads();
  }

  /** The zero-padded year, month and day of 30 June 2025. */
  lemma SamplePads()
    ensures Pad(2025, 4) == "2025" && Pad(6, 2) == "06" && Pad(30, 2) == "30"
  {
    PadYear();
    PadMonth();
    PadDay();
  }

  lemma PadYear()
    ensures Pad(2025, 4) == "2025"
  {
  }

  lemma PadMonth()
    ensures Pad(6, 2) == "06"
  {
  }

  lemma PadDay()
    ensures Pad(30, 2) == "30"
  {
  }
}

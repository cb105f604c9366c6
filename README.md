# Daily task logger: parsing and logging of status updates

This project models the core of a small bridge that turns a free-text daily
status update ("Update for Kevin: worked on ..., completed ..., 2 hours
worked, no blockers, ...") into a nine-field record and appends it as one
row to the employee's own sheet in a spreadsheet. Three functions of
`multi_tool_agent/agent.py` make up that core:

- `parse_natural_language`: one leftmost regular-expression search per field,
  each applied to the whole text independently, with the date normalised
  to ISO form.
- `handle_natural_language_update`: checks the "Update for <Name>:" header
  and passes the name and the whole prompt on.
- `log_daily_update`: appends the row if the sheet exists.

## Modules

| file | module | what it holds |
|---|---|---|
| `text.dfy` | `Wrappers`, `Text` | `Option`; Python's `\s` / `\d` / `\w` classes, ASCII case folding, greedy runs of a class, `str.strip`, `str.replace(pat, "")`, whole-word occurrence (`\bword\b`) |
| `calendar.dfy` | `Calendar` | leap years, days in a month, English month names, `datetime.strptime(s, "%d %B %Y")`, `strftime("%Y-%m-%d")` |
| `patterns.dfy` | `Patterns` | one matcher per regular expression of the core, written out by hand, and the leftmost `re.search` over a matcher |
| `entry.dfy` | `Entry` | the nine keys in column order, `dict.get(key, "")` |
| `extractor.dfy` | `Extractor` | `clean_ordinal_suffix` and the eight field extractors; `parse_natural_language` |
| `readback.dfy` | `Readback` | lemmas: a field written in the shape its pattern expects is read back as written |
| `datereadback.dfy` | `DateReadback` | the same for the date, through the ordinal clean-up and the date parse |
| `logger.dfy` | `Logger` | the spreadsheet as a class whose `sheets` map gains rows; `log_daily_update` |
| `dispatcher.dfy` | `Dispatcher` | the header check and `handle_natural_language_update` |
| `prompt.dfy` | `PromptReadback` | one whole "Update for Kevin: ..." message: its fields, its sheet and the row logged |

The regular expressions are not interpreted by a general engine. Each is a
function that says where its group starts and ends at a given position.
The Python engine's backtracking is written out where it matters:

- `Backoff` / `WsBack`: a whitespace repetition tried longest first.
- `LazyEnd`: a lazy `.*?` that stops at the first position its tail
  matches.
- `AfterOptSep`: an optional `[:\-]` tried with the separator, then without.

`Search` is the leftmost match: no earlier position matches.

The two calls to the Sheets service become a parameter, `Transport`. It
says whether reading the spreadsheet's metadata fails, the append fails,
or both go through. A failure is reported with its message and writes
nothing, as in the `except` branch.

## Model

| member | source | states |
|---|---|---|
| Extractor.ParseNaturalLanguage | multi_tool_agent/agent.py:59-119 | every record has exactly the nine keys; "Date update on" equals "Date"; the date is "" or a valid ISO date; attendance is one of "WFH", "Office", ""; hours are "" or digits; a project ends in " project"; tasks, blockers, plans and notes are stripped and hold none of the characters that end them |
| Extractor.Extract | multi_tool_agent/agent.py:65-117 | each of the eight extracted fields has the shape its pattern and post-processing guarantee |
| Extractor.ToRecord | multi_tool_agent/agent.py:60-117 | the record holds exactly the nine keys, each with its field's value, and "Date update on" repeats the date |
| Extractor.RecordOf | multi_tool_agent/agent.py:59-119 | the field properties carry over to the record |
| Extractor.UnmatchedFieldsBlank | multi_tool_agent/agent.py:65-117 | every field whose pattern finds nothing is "" in the record (both dates included); the project, attendance and hours fields are "" only then |
| Extractor.StripOrdinals | multi_tool_agent/agent.py:62-63 | the clean-up never lengthens the text |
| DateReadback.StripKeeps | multi_tool_agent/agent.py:62-63 | a text with no digit followed by a lower-case ordinal suffix is left unchanged |
| DateReadback.StripDate | multi_tool_agent/agent.py:62-63 | on "<day><suffix> <rest>" the suffix is removed exactly when it is "st", "nd", "rd" or "th" in lower case; nothing else changes |
| Extractor.DateField | multi_tool_agent/agent.py:65-75 | the date is "" or a 10-character YYYY-MM-DD string naming a real calendar date, and "" when the pattern does not match |
| DateReadback.DateReadBack | multi_tool_agent/agent.py:66-72 | "Today's date is ", "Date: " or "Date- " and then "<day><suffix> <Month> <year>", after any text without digits and whatever follows, gives that date in ISO form when the day exists in that month and the suffix is absent or lower case; an impossible date, or a suffix the clean-up leaves (upper case), gives "" |
| DateReadback.UnknownMonthBlank | multi_tool_agent/agent.py:66-74 | a date group whose month word spells no full English month name ("31 Junes 2025") is matched, fails to parse, and gives "" |
| DateReadback.UnstrippedSuffixFails | multi_tool_agent/agent.py:70-72 | a day followed by a letter makes the date parse fail |
| Calendar.Strptime | multi_tool_agent/agent.py:70 | a parsed date is always a valid calendar date |
| Calendar.SpokenDateParses | multi_tool_agent/agent.py:70 | "<day> <Month> <year>" in any letter case parses to that date exactly when the date exists |
| Calendar.MonthAndYearReads | multi_tool_agent/agent.py:70 | after the day, " <Month> <yyyy>" and nothing more reads as month and year, and is refused for a day the month does not have |
| Calendar.DayTextParses | multi_tool_agent/agent.py:70 | `%d` reads one or two digits of a day from 1 to 31 |
| Calendar.MonthNameRecognised | multi_tool_agent/agent.py:70 | `%B` recognises a full English month name in any letter case |
| Calendar.MonthAt | multi_tool_agent/agent.py:70 | a month is found at a position exactly when its full name is there, ignoring case |
| Calendar.DaysInMonth | multi_tool_agent/agent.py:70-72 | a month has 28 to 31 days, and 29 exactly for February of a leap year |
| Calendar.Iso | multi_tool_agent/agent.py:70 | the ISO text of a valid date is well formed, and its year, month and day read back as the date |
| Calendar.Pad | multi_tool_agent/agent.py:70 | zero padding gives exactly `width` digits whose value is the number |
| Extractor.ProjectField | multi_tool_agent/agent.py:77-79 | "" exactly when the project pattern does not match; otherwise, whichever of the two forms matched, a stripped name with no ".", "," or newline followed by " project" |
| Readback.ProjectReadBack | multi_tool_agent/agent.py:78-79 | "worked on <name> project" ended by ".", "," or a newline, after any text that mentions neither "worked on" nor "project", gives "<name> project" |
| Extractor.LeaveField | multi_tool_agent/agent.py:81-87 | "WFH" exactly when "from home" or "wfh" occurs in any case; otherwise "Office" exactly when "office" or "onsite" occurs; otherwise "" |
| Extractor.SearchFinds | multi_tool_agent/agent.py:82-84 | the home and office patterns match somewhere exactly when one of their words occurs, ignoring case |
| Extractor.TasksField | multi_tool_agent/agent.py:89-91 | the tasks are stripped and contain no ".", "," or newline |
| Readback.TasksReadBack | multi_tool_agent/agent.py:90-91 | "completed <tasks>," after any text that mentions neither "completed" nor "tasks done" reads back the tasks as written when they contain no terminator and no "hours", "blockers" or "tomorrow" |
| Extractor.HoursField | multi_tool_agent/agent.py:93-97 | the hours are "" or one or more decimal digits, and "" exactly when neither hours pattern matches |
| Readback.HoursWorkedReadBack | multi_tool_agent/agent.py:94-97 | a text opening with "<n> hours worked" gives n, whatever follows, an "Hours:" label included: the "worked" form is tried first |
| Readback.HrsWorkedReadBack | multi_tool_agent/agent.py:94 | a text opening with "<n> hrs worked" gives n the same way |
| Readback.HoursWorkedAfter | multi_tool_agent/agent.py:94-97 | "<n> hours worked" after any text that does not mention "worked" and does not end in a digit gives n, whatever comes before or after it |
| Readback.HrsWorkedAfter | multi_tool_agent/agent.py:94-97 | "<n> hrs worked" after any text that does not mention "worked" and does not end in a digit gives n, whatever comes before or after it |
| Readback.WorkedBeatsLabel | multi_tool_agent/agent.py:94-97 | in "Hours: <d>, <n> hours worked" the later "worked" form wins over the earlier label: the field is n |
| Readback.HoursLabelReadBack | multi_tool_agent/agent.py:95-97 | "Hours: <n>" after any text that mentions neither "hours" nor "worked", followed by text that does not go on with a digit and does not mention "worked", gives n |
| Readback.HoursLabelOnly | multi_tool_agent/agent.py:95-97 | "Hours: <n>" and nothing else gives n |
| Readback.HoursLabelWithUnit | multi_tool_agent/agent.py:95-97 | "Hours: <n> hrs" gives n: a unit without "worked" leaves the label form in charge |
| Extractor.BlockersField | multi_tool_agent/agent.py:99-109 | the blockers are stripped and contain no "." |
| Extractor.Normalise | multi_tool_agent/agent.py:102-107 | a span with the whole word "no" or "none", in any case, becomes exactly "no blockers"; the result is stripped |
| Readback.NoBlockersReadBack | multi_tool_agent/agent.py:100-105 | "no blockers" after any text that does not mention "blockers", ended by a newline, a full stop or the end of the text, gives "no blockers" |
| Readback.BlockersLabelReadBack | multi_tool_agent/agent.py:100-107 | "Blockers: <text>" after any text that does not mention "blockers" or end in "no " gives "no blockers" when the text has the word "no" or "none", and the text as written otherwise |
| Readback.NoBlockersRunsOn | multi_tool_agent/agent.py:100-107 | "no blockers" followed by a comma and stripped text without "tomorrow", "note" or "Blockers:", up to a newline, a full stop or the end of the text, gives "blockers" and that text, or "no blockers" when it holds the whole word "no" or "none": the label form matches from "blockers" and its lazy group runs on to the terminator |
| Readback.NoBlockersComma | multi_tool_agent/agent.py:100-107 | "no blockers," gives "blockers,": the phrase needs a terminator after it, so the label form matches from "blockers" instead |
| Extractor.TomorrowField | multi_tool_agent/agent.py:111-113 | the plan is stripped and contains no "." or newline |
| Readback.TomorrowReadBack | multi_tool_agent/agent.py:112-113 | "tomorrow will <plan>." after any text that does not mention "tomorrow" reads back the plan as written |
| Extractor.NotesField | multi_tool_agent/agent.py:115-117 | the notes are stripped and contain no newline |
| Readback.NotesReadBack | multi_tool_agent/agent.py:116-117 | "Note: <remark>" up to the end of the text or line, after any text that mentions none of "note:", "notes:" and "remarks", reads back the remark as written |
| Patterns.Search | multi_tool_agent/agent.py:66 | the match found is at the leftmost position where the pattern matches; none is found only when it matches nowhere |
| Patterns.LazyEnd | multi_tool_agent/agent.py:90 | a lazy group ends at the first position where its tail matches, without crossing a newline |
| Patterns.WsBack | multi_tool_agent/agent.py:78 | a whitespace repetition gives up characters one at a time until the group after it matches, and the longest such choice wins |
| Logger.RowFor | multi_tool_agent/agent.py:32-42 | the row has nine cells, each the entry's value for the key of that column, or "" |
| Logger.LogOutcome | multi_tool_agent/agent.py:20-56 | success exactly when both service calls go through and the stripped name is a sheet; no sheet is added or removed; only that sheet changes, by one row at its end |
| Logger.Spreadsheet.LogDailyUpdate | multi_tool_agent/agent.py:20-56 | the reply and the new sheets are those of `LogOutcome` on the old sheets |
| Logger.Spreadsheet.constructor | multi_tool_agent/agent.py:14-17 | the spreadsheet starts with the given sheets |
| Logger.LogDelivered | multi_tool_agent/agent.py:43-54 | logging to an existing sheet reports success naming it and appends the row |
| Logger.MissingSheetRejected | multi_tool_agent/agent.py:26-30 | a missing sheet is reported by its name, and the sheets are unchanged |
| Logger.FailedCallKeepsSheets | multi_tool_agent/agent.py:55-56 | a failed service call is reported with its message, and the sheets are unchanged |
| Logger.LogAppendsOneRow | multi_tool_agent/agent.py:22-54 | the sheet grows by exactly one row, its old rows kept, the new row holding the nine values in column order; every other sheet is unchanged |
| Logger.RowRoundTrip | multi_tool_agent/agent.py:32-42 | reading a row back under the column names gives the entry again |
| Logger.RecordRoundTrip | multi_tool_agent/agent.py:32-42 | a nine-cell row read under the column names and written again is the same row |
| Dispatcher.SheetNameOf | multi_tool_agent/agent.py:126 | a name is found only when the stripped prompt starts with "update for " in any case and then a run of word characters followed by ":"; the name is that run |
| Dispatcher.HandleOutcome | multi_tool_agent/agent.py:124-142 | without a name the reply is the usage hint and nothing changes; with one, the outcome is logging the entry parsed from the whole, unstripped prompt under that name |
| Dispatcher.HandleNaturalLanguageUpdate | multi_tool_agent/agent.py:124-142 | the reply and the new sheets are those of `HandleOutcome` on the old sheets |
| Dispatcher.NoHeaderGetsHint | multi_tool_agent/agent.py:126-134 | a prompt not starting with the header gets the usage hint, and nothing is written |
| Dispatcher.NoColonGetsHint | multi_tool_agent/agent.py:126-134 | a header whose name is not followed by ":" gets the usage hint, and nothing is written |
| Dispatcher.HeaderRoundTrip | multi_tool_agent/agent.py:126-136 | "Update for <name>:" in any case of the header, after any leading whitespace, gives back exactly the name |
| Dispatcher.HandleAppends | multi_tool_agent/agent.py:136-142 | a header naming an existing sheet, with or without leading whitespace, appends exactly the row of the entry parsed from the whole prompt, and nothing else changes |
| Dispatcher.HandleMissingSheet | multi_tool_agent/agent.py:136-142 | a header naming a sheet that does not exist, with or without leading whitespace, gets the error naming it, and nothing is written |
| Dispatcher.ParsedRow | multi_tool_agent/agent.py:139-142 | the row logged for any prompt starts and ends with the same date, ISO or ""; its attendance cell is one of the three values and its hours cell digits or "" |
| PromptReadback.UpdatePromptFields | multi_tool_agent/agent.py:65-97 | for "Update for Kevin: Date: 30 June 2025, completed the login page, 3 hours worked." the date is "2025-06-30", the tasks "the login page" and the hours "3" |
| PromptReadback.UpdatePromptLogged | multi_tool_agent/agent.py:124-142 | the same message, with Kevin's sheet present and the service calls going through, is logged to that sheet as one new row holding that date in its first and last cells, those tasks and those hours |

## Left out

- Credentials, the Sheets client and the environment variables (lines 1-17). The spreadsheet is the `Spreadsheet` object passed in.
- The HTTP calls themselves (lines 23, 43-49). Their outcome is the `Transport` parameter, and the text of `str(e)` is that parameter's `reason`.
- The append position of the Sheets API. The service appends after the last row of the table it detects. The model appends at the end of the sheet's rows.
- Entries whose values are not strings. `log_daily_update` is also a tool exposed on its own and accepts any dictionary; here a record maps strings to strings.
- The agent registration and its language model (lines 146-156), and the sample prompt in the comment at line 160.
- Character classes. `\d` and `\w` are the ASCII digits and the ASCII letters, digits and `_`. Python's `str` patterns also accept other Unicode digits and letters. `\s` and `str.strip` use Python's whitespace set.
- Case folding. `re.IGNORECASE` and `str.lower()` fold the ASCII letters only.
- Locales. `%B` reads English full month names only.
- Calendar.Iso: `strftime("%Y")` is written with four digits, zero padded. For years below 1000, CPython releases on glibc that predate the four-digit padding of `%Y` (gh-120713, in 3.12.5 and 3.13) write the year without padding ("999-06-03"), where the model gives "0999-06-03"; later releases agree with the model. The platform's C library is not modelled.
- Extractor.BlockersField: states only that the result is stripped and has no ".". The exact value is stated for the forms in the read-back lemmas (`NoBlockersReadBack`, `BlockersLabelReadBack`, `NoBlockersRunsOn`, `NoBlockersComma`) and through `Normalise`, not for every text.
- Extractor.HoursField, Extractor.DateField: their contracts state the shape and when the field is "". The value is stated by the read-back lemmas for the forms they name: "<n> hours worked" or "<n> hrs worked" (first, or after text that does not mention "worked" and does not end in a digit), "Hours: <n>" after text without "hours" or "worked", and a date after text without digits. Other placements are covered by the definitions only.
- Extractor.StripOrdinals: its own contract states only that the text does not grow. What the clean-up removes is stated by `DateReadback.StripKeeps` and `DateReadback.StripDate` for the texts the date pattern captures.
- Extractor.TasksField, Extractor.TomorrowField, Extractor.NotesField, Extractor.ProjectField: the exact value for every text is given by their definitions over the matchers. Their contracts state the shape. The read-back lemmas state the value for one written form each ("completed <tasks>,", "tomorrow will <plan>.", "Note: <remark>", "worked on <name> project"), after text free of that pattern's keywords. The other forms ("Tasks Done:", "tomorrow ... to", "Tomorrow:", "Notes:", "Remarks:", "Project:") and texts where a keyword comes earlier are covered by the definitions only.

## Behaviour of the code worth knowing

- Line 100's phrase alternative matches "no blockers" only when a newline, a full stop, "Tomorrow", "Note" or the end of the text comes straight after it, with no space between (`Readback.NoBlockersReadBack` proves the field for those endings). In "no blockers, ..." the label form matches from "blockers" instead, and its lazy group runs on past the comma to the next newline, full stop, "Tomorrow", "Note" or the end of the text. The field is then "blockers" followed by that text (`Readback.NoBlockersRunsOn`): "no blockers," alone gives "blockers," (`Readback.NoBlockersComma`), and "no blockers, waiting on API access." gives "blockers, waiting on API access". When that text holds the whole word "no" or "none", lines 102-107 turn the field into "no blockers" after all ("no blockers, none.").
- Line 79 puts " project" after the group for both forms of the project pattern, the "Project:" label form included (`Extractor.ProjectField`).
- The lazy project group runs to the first ".", "," or newline. For the sample prompt at line 160 the group is therefore "Daily Task Logger project from home", and the field is "Daily Task Logger project from home project".
- The ordinal clean-up at line 63 is case-sensitive, but the date pattern at line 66 is not. "30TH June 2025" matches, keeps its suffix and gives "" (`DateReadback.DateReadBack`).
- `str.replace("Blockers:", "")` at line 107 is case-sensitive. A label written "blockers:" stays in the field.

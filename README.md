# Calendar event normalisation and contact extraction, in Dafny

This project models the core of a Google Calendar export script (`main.py`):

- `extract_emails` and `extract_phone_numbers` pull contact strings out of an event's free text.
- `parse_event_data` turns each event record, in which any key may be missing, into a flat row of 33 columns.
- The summary loop in `main` counts the distinct email and phone strings across all rows.

Modules, one per concern:

- `Wrappers`: `Option` (a missing key or a failed parse) and `Result` (a row, or the exception that escapes).
- `Text`: Python's `sep.join`, `split("; ")`, `replace("Z", "+00:00")` and `list(set(...))`.
- `Clock`: dates, times of day and date-times, aware or naive. Durations are computed from Python's proleptic Gregorian ordinal, exactly, in microseconds.
- `Extract`: the email guard, and the phone clean-and-filter loop as a method proved against a specification function.
- `Normalize`: the event record, the row, the pure per-event row builder, and the `parse_event_data` loop.
- `Summary`: the token-union loop of `main`.

The regular expressions, `datetime.fromisoformat` and `datetime.strptime` are parameters (`Normalize.Env`). Everything the code does with their results is modelled.

Behaviours of the code that its names and comments do not suggest, all modelled as written:

- The loop under the comment `# Clean and deduplicate` (main.py:120) compares the *cleaned* candidate with the *original* strings already kept (main.py:124), so it does not deduplicate by digits. A formatted number found by several patterns (`555-123-4567` matches the US, the international and the dashed pattern) is returned once per pattern. Two spellings of one number both survive (`Extract.RepeatedCandidate`, `Extract.TwoSpellings`).
- `[^\d+]` keeps a `+` anywhere, not only in front, and the `+` counts toward the length of 10 (`Extract.PlusKeptAnywhere`).
- The two date-times are subtracted outside the `try` block (main.py:216). An aware start and a naive end raise `TypeError`, which ends `parse_event_data` for the whole batch (`Normalize.ParseEventFailsExactly`, `Normalize.MixedOffsetsExample`).
- The summary counts the empty string as an email address when an attendee has no email and the row has other addresses (`Summary.MissingAttendeeEmailCounted`, `Summary.EmptyTokenCounted`).

## Model

| member | source | states |
|---|---|---|
| `Text.Join` | main.py:241-246 | `sep.join(parts)` begins with the first part, followed by the separator when there is a second part; `Text.SplitJoin` and `Text.JoinEmpty` state the rest |
| `Text.SplitList` | main.py:371 | `split("; ")` always yields at least one piece; the empty string yields `[""]` |
| `Text.SplitJoin` | main.py:241-246 | splitting a `"; "`-joined list on `"; "` gives the list back when no entry contains the separator |
| `Text.JoinEmpty` | main.py:370-373 | a joined list is empty exactly when the list is empty or is `[""]`, which is when the summary skips the row |
| `Text.ReplaceZ` | main.py:201-202 | after `replace('Z', '+00:00')` no `Z` remains; a string without `Z` is unchanged |
| `Text.ReplaceZAppend` | main.py:201-202 | the replacement acts on each part of a concatenation separately |
| `Text.Dedup` | main.py:186 | `list(set(xs))` has exactly the members of `xs`, each once |
| `Clock.Ordinal` | main.py:216 | Python's `toordinal`; `Clock.OrdinalNextDay` states that it numbers consecutive days consecutively |
| `Clock.OrdinalNextDay` | main.py:216 | the day after a valid date, counted by hand across month and year ends, has the next ordinal |
| `Clock.YearLength` | main.py:216 | a year adds 366 days to the ordinal when it is a leap year and 365 otherwise |
| `Clock.Micros` | main.py:216 | the instant of a date-time in microseconds; `Clock.AwareIsShifted` states how its UTC offset moves it |
| `Clock.AwareIsShifted` | main.py:216 | an aware value lies its UTC offset before the naive value with the same fields |
| `Clock.HoursBetween` | main.py:216 | the duration in hours is negative exactly when the end precedes the start, and zero exactly when they coincide |
| `Clock.WholeDays` | main.py:205-216 | two dates read at naive midnight are 24 hours times the difference of their ordinals apart |
| `Extract.ExtractEmails` | main.py:96-101 | no matching on `None` or `''`, where the result is `[]`; otherwise the pattern's matches, duplicates kept |
| `Extract.Clean` | main.py:123 | the cleaned string keeps only digits and `+`, is no longer than the input, and equals the input exactly when the input has nothing else |
| `Extract.CleanAppend` | main.py:123 | cleaning a concatenation cleans each part |
| `Extract.PlusKeptAnywhere` | main.py:123-124 | a `+` anywhere in a candidate is kept and counts toward the length |
| `Extract.CandidatesInOrder` | main.py:108-118 | the candidates are the US, international, parenthesised and dashed matches, concatenated in that order |
| `Extract.KeptPhones` | main.py:120-127 | the clean-and-filter loop as a value: at most as many strings as candidates, each one of the candidates |
| `Extract.PhoneNumbers` | main.py:103-127 | `extract_phone_numbers` as a value: `[]` for `None` or `''`, otherwise only candidates of the four patterns |
| `Extract.KeptPhonesSubsequence` | main.py:120-127 | the output is the candidates at strictly increasing positions, so an order-preserving subsequence |
| `Extract.KeptPhonesDecision` | main.py:122-125 | candidate `i` is kept exactly when its cleaned length is at least 10 and its cleaned form is not one of the original strings kept before it |
| `Extract.KeptPhonesLongEnough` | main.py:122-125 | every returned string has a cleaned length of at least 10 |
| `Extract.KeptPhonesNoCleanCollision` | main.py:121-125 | no returned string equals the cleaned form of a string returned after it |
| `Extract.RepeatedCandidate` | main.py:115-125 | a candidate seen twice is returned once exactly when it has no formatting; a formatted one is returned twice |
| `Extract.TwoSpellings` | main.py:122-125 | two spellings with the same cleaned form are both kept unless the second's cleaned form is the first's literal text |
| `Extract.ExtractPhoneNumbers` | main.py:103-127 | the loops compute the filter over the four patterns' matches; `[]` for `None` or `''`; every result has cleaned length at least 10 |
| `Normalize.CombinedText` | main.py:170-174 | `' '.join(filter(None, ...))` of summary, description and location; `Normalize.CombinedTextGlued` and `Normalize.CombinedTextEmpty` state what it is |
| `Normalize.CombinedTextGlued` | main.py:170-174 | the combined text is summary, description and location glued with single spaces; a missing or empty field adds neither text nor space |
| `Normalize.CombinedTextEmpty` | main.py:170-174 | the combined text is empty exactly when all three fields are missing or empty |
| `Normalize.AttendeeColumns` | main.py:177-244 | the attendee count is the list's length; an empty list gives three empty columns; when no entry of a column contains `"; "`, that joined column splits back into one entry per attendee, with `''` for a missing sub-field |
| `Normalize.EmailUnion` | main.py:186 | `list(set(...))` of the attendee emails and the text emails: no duplicates, at most as many as the two lists together |
| `Normalize.EmailUnionContents` | main.py:176-186 | the email union holds every attendee email and every text email and nothing else, each once, case kept, with `''` for an attendee without email |
| `Normalize.WhenString` | main.py:192-196 | `dateTime` is taken when present, else `date`, else `''`; a missing `start` or `end` gives `''` |
| `Normalize.ParseBounds` | main.py:195-211 | a `T` in the start selects ISO parsing after the `Z` replacement, and the bounds are then exactly the two ISO parses; otherwise the bounds are the two parsed dates at naive midnight; both bounds parse or neither does; all-day holds exactly when there is no `T` and parsing succeeded |
| `Normalize.Duration` | main.py:213-216 | the duration exists exactly when both bounds parsed; it is negative exactly when the end precedes the start; an aware/naive pair is an error |
| `Normalize.RowTimeFields` | main.py:195-234 | the row's dates are the dates of the parsed bounds and its times their times of day, dropped when all-day; start and end dates both present or both absent; duration present exactly with the dates; a start with `T` is never all-day |
| `Normalize.AllDayWholeDays` | main.py:204-216 | an all-day row lasts 24 hours per day between its dates |
| `Normalize.DurationNotClamped` | main.py:213-216 | the duration is the exact difference of the parsed bounds, negative when the end is earlier |
| `Normalize.ParseEventFailsExactly` | main.py:199-216 | building a row fails exactly when the start has `T`, both strings parse, and one value is aware and the other naive |
| `Normalize.MeetingLinks` | main.py:218-222 | the uris of the video entry points, in order; `Normalize.MeetingLinksAppend` and `Normalize.MeetingLinksExactly` state its properties |
| `Normalize.MeetingLinksAppend` | main.py:222 | the meeting links of consecutive entry points are each part's links, in source order |
| `Normalize.MeetingLinksExactly` | main.py:218-222 | one link per video entry point, and a string is a link exactly when some video entry point has it as its uri |
| `Normalize.RowDefaults` | main.py:224-258 | visibility defaults to `default`, transparency to `opaque`, reminders to `{}`; `is_recurring` holds exactly when the key is present; the meeting links are the video uris |
| `Normalize.ParseEvent` | main.py:168-260 | one event to its row, or to the `TypeError` of the subtraction; the row lemmas above and below state its columns |
| `Normalize.BuildRow` | main.py:224-258 | the 33 columns of the row from the event, the parsed bounds and the duration |
| `Normalize.OnlyIdEvent` | main.py:168-258 | an event with only an id gives a row of defaults without error: empty strings, no dates, not all-day, no duration |
| `Normalize.AllDayExample` | main.py:204-216 | dates 2024-03-01 to 2024-03-02 give an all-day row of 24 hours with no time of day |
| `Normalize.ZuluTimesExample` | main.py:200-216 | `Z`-suffixed start and end at 09:00 and 10:30 give a timed row of 1.5 hours |
| `Normalize.MixedOffsetsExample` | main.py:199-216 | a `Z`-suffixed start with a naive end makes the row builder raise |
| `Normalize.CollectAll` | main.py:166-262 | the batch succeeds exactly when every event does, with one row per event in order |
| `Normalize.CollectFirstError` | main.py:166-262 | a failing batch reports the error of the first event that fails |
| `Normalize.CollectFailurePersists` | main.py:166-262 | once an event fails, the events after it do not change the outcome |
| `Normalize.ParseEventData` | main.py:164-262 | the loop returns the fold over all events; on success one row per event, equal to that event's row |
| `Summary.TokenUnion` | main.py:367-373 | the union of the `split("; ")` pieces of the non-empty column values; `Summary.TokenUnionMembers` states membership |
| `Summary.TokenUnionMembers` | main.py:367-373 | a string is counted exactly when a non-empty column value splits to a piece equal to it |
| `Summary.ContributedTokens` | main.py:369-373 | a joined list adds no tokens when it is `[]` or `[""]`, and otherwise exactly its entries, `''` included |
| `Summary.EmptyTokenCounted` | main.py:370-371 | `''` is counted exactly when it is an entry and not the only one |
| `Summary.SharedEmailCountedOnce` | main.py:367-377 | rows with email columns `a` and `a; b` count two addresses |
| `Summary.MissingAttendeeEmailCounted` | main.py:367-377 | one attendee without email plus one address in the text makes the row count `''` and the address |
| `Summary.Summarize` | main.py:367-378 | the loop returns the event count and the sizes of the email and phone token unions |

## Left out

- `authenticate_google_calendar`: OAuth, the token file and the client library are I/O and foreign code (main.py:65-94).
- `get_calendar_events`: paginated network calls. The model starts from the list of events they return (main.py:129-162).
- `export_to_excel`: pandas and openpyxl serialisation, the library's sort by start date, and styling (main.py:264-307).
- `show_help`, coloured console output, argument parsing and exit codes in `main` are not modelled (main.py:21-63, 309-364, 375-397).
- Regular-expression matching (`\b`, greediness) is a parameter, `Extract.Matcher`. The model takes the match lists as given.
- `datetime.fromisoformat` and `datetime.strptime` are parameters. They are not required to return valid calendar values.
- Extract.Clean: keeps the ASCII digits only, whereas Python's `\d` also keeps other Unicode decimal digits.
- Text.Dedup: fixes first-occurrence order where Python's set iteration order is unspecified. The proved properties are about membership and distinctness only.
- Clock.HoursBetween: exact real arithmetic; the floating-point rounding of `total_seconds() / 3600` is not modelled.
- Clock.Micros: UTC offsets are whole seconds. Subtraction of two aware values always goes through UTC, which agrees with Python for the fixed offsets `fromisoformat` produces.
- `str(event.get('reminders', {}))` is Python's repr of a dictionary. The event record carries that rendering as a string, and `{}` is the default.
- A key that is present with the JSON value `null` is treated as missing. What Python does instead depends on the key:
  - a `null` top-level string key (`summary`, `status`, `htmlLink`, and the like), or a `null` string field of `organizer`, `creator` or `conferenceSolution`, is passed through to the row as `None`. A `null` `summary`, `description` or `location` is still dropped from the combined text by `filter(None, ...)`, as a missing one is;
  - a `null` `reminders` is rendered by `str` as `'None'` and not as `{}` (main.py:254);
  - a `null` `recurringEventId` still makes `is_recurring` true (main.py:248), because the key is present; the model reads it as missing and gives false;
  - a `null` `dateTime` in `start` or `end`, or a `null` `date` where `dateTime` is missing, raises inside the `try` (main.py:199-211), so neither bound is set; the model instead falls back to `date` or to `''`;
  - a `null` value for one of the dictionaries `start`, `end`, `conferenceData`, `conferenceSolution`, `organizer` or `creator` raises `AttributeError` outside the `try` (main.py:192-195, 219-221, 237-240). So does a `null` element of `attendees`, `entryPoints` or `attachments` (main.py:178-180, 222, 255);
  - a `null` value for one of the lists `attendees`, `entryPoints` or `attachments` raises `TypeError` outside the `try` (main.py:177-180, 221-222, 255);
  - a `null` attendee `email`, `displayName` or `responseStatus`, a `null` video entry point `uri`, or a `null` attachment `title` puts `None` into a list, and `'; '.join` raises `TypeError` outside the `try` (main.py:241-245, 251, 255); the model writes `''` there;
  - every exception raised outside the `try` ends `parse_event_data` for the whole batch, and `main` exits with status 1 (main.py:360-364).
- Idempotence of the row builder is not stated as a lemma: `ParseEvent` is a function, so equal events always give equal rows.

# Duty planner: the roster engine

This project models the duty-assignment engine of the duty planner, a single-page tool that reads a
points table and a list of blocked dates and fills a month of duty slots, six per day (AM, PM, two AM
reserves, two PM reserves). The tool is written in JavaScript (`src/App.jsx`). The model covers its core:

- **Reading the points table** (`parsePoints`). The header line is dropped. Every other line
  `name,points` becomes a record with no duties yet. The record is a `Person` object whose
  `assigned` count and `schedule` the engine later updates in place.
- **Reading the blocked dates** (`parseBlockedDates`). Each line declares a name and some date tokens.
  A token is classified in this order:
  - a token with a dash (`a-b` or `a–b`) is a range. Its two ends go through the date library's
    `d MMM yyyy` parse, and the range gives every day from `a` to `b` when both ends parse and no day
    otherwise. The line pattern of `src/App.jsx:35` leaves only digits, dashes, slashes, commas and
    spaces in the date part, so a range end never has the month name that format needs. In the tool
    a range therefore blocks no day at all (`BlockedDatesFacts.RangeBlocksNothing`);
  - otherwise, a token holding a `d/M/yy` date goes through the date library's `d/M/yy` parse as a
    whole, and is one day, or an invalid date when it does not parse;
  - otherwise, a token with a digit is a day number: a token of digits only is that day of the target
    month (counted on past the month's end, as the `Date` constructor does), and any other, such as
    `3/4`, is an invalid date.

  The name is trimmed and lower-cased, and the days of all lines with the same name are concatenated.
  A token that yields an invalid date aborts the whole parse.
- **The blocked-date lookup** (`isBlocked`). It lower-cases the roster name and finds nothing for a
  name without a line.
- **Selecting one slot's holder** (`assignDuty`). The people who may take the slot are those not at
  the cap of 7 AM/PM duties (for AM/PM only), not blocked on the day, and not already on duty that day.
  Among them, the one with the smallest `points + assigned` is chosen, the earliest in roster order on
  a tie. Their record and the day's entry of the assignment table are then updated.
- **The month** (`generateSchedule`). Days 1 to the month's length are filled in order, six slots per
  day. The table is then flattened into one row per day, with a missing name shown as `""`.

Dates are ordinal day numbers of the proleptic Gregorian calendar (module `Calendar`). The tool
compares dates as `yyyy-MM-dd` strings, and two such strings are equal exactly when the days are.

Each part is specified by functions on values:
- `Blocked` and `ExpandTokens` for the parser;
- `Candidates`, `Lightest`, `Pick` and `Assign` for one selection step;
- `RunDay`, `RunDays` and `Rows` for the month.

The loops of the tool, and its updates of the `Person` objects and of the assignment table, are
methods:
- `AppendSpan`, `ExpandLine` and `ParseBlockedDates` for the parser, working on values;
- `NewRecords` (with `ParsePoints` around it) for the points table;
- `EligibleIndices`, `LightestIndex`, `RecordDuty`, `AssignDuty`, `FillDay`, `FillDays`,
  `GenerateSchedule` and `BuildRows` for the engine, updating the records and the table in place.

Each method is proved to compute what the functions say, and the promised properties are proved about the functions
as lemmas (modules `BlockedDatesFacts` and `EngineFacts`).

In `src/App.jsx` every AM or PM slot adds 1 to the taker's count and every reserve slot adds 0
(line 83). There is one cap of 7 primary duties for everyone (lines 7 and 75). Duties are not weighted
by weekday, nobody is kept from working two days in a row, and reserves have no weekly limit; the
model has none of these either.

## Model

| member | source | states |
|---|---|---|
| Calendar.DaysInMonth | src/App.jsx:95 | The length of a month in the Gregorian calendar: 31 for months 1, 3, 5, 7, 8, 10 and 12; 29 for February exactly in leap years; 28 for February otherwise; 30 otherwise. |
| Calendar.NextMonthFollows | src/App.jsx:95-98 | The day after a month's last day is the first day of the next month (1 January of the next year after December), so days 1 to the month's length are exactly the month. |
| Names.TrimIsInnerPart | src/App.jsx:37 | `trim` returns a contiguous part of the name; everything cut off at either end is white space, and the result neither starts nor ends with white space. |
| Names.KeyIdempotent | src/App.jsx:37 | A name key (trimmed, then lower-cased) is its own key, so normalising twice changes nothing. |
| BlockedDates.Classify | src/App.jsx:44-61 | The branches are tried in order: a token with a dash is a range even when it also holds a `d/M/yy` date; otherwise a token holding a `d/M/yy` date is a short date, even though it also holds digits; otherwise a token with a digit is a day number; a token takes no branch, and adds nothing, exactly when it holds neither a dash nor a digit. |
| BlockedDates.ExpandToken | src/App.jsx:44-61 | Only a `d/M/yy` token or a bare day number can fail, and then with the invalid-date error of that token; a range, or a token without digits, never aborts the parse. |
| BlockedDates.IsBlocked | src/App.jsx:68-71 | A name whose lower-cased form has no entry in the table is never blocked. |
| BlockedDates.AppendSpan | src/App.jsx:49-53 | The day-advancing loop appends exactly the days from start to end inclusive, in order, to what was expanded before. |
| BlockedDates.ExpandLine | src/App.jsx:43-62 | The token loop of one line yields the days of its tokens concatenated in order, or the error of the first token whose date is invalid. |
| BlockedDates.ParseBlockedDates | src/App.jsx:31-66 | The line loop builds exactly the table `Blocked` describes: unmatched lines are skipped, each line's days are appended under its key, and the first invalid date aborts the whole parse. |
| BlockedDates.TokenErrorPersists | src/App.jsx:55-60 | Once a token of a line fails, the line fails with that token's error, whatever follows. |
| BlockedDates.LineErrorPersists | src/App.jsx:33-64 | Once a line fails, the parse fails with that error, whatever lines follow. |
| BlockedDatesFacts.DaySpanContents | src/App.jsx:49-53 | A range from `first` to `last` has `last - first + 1` days (none when `first > last`), the `i`-th being `first + i`; a day is in it exactly when it lies between the two ends. |
| BlockedDatesFacts.ShortDateToken | src/App.jsx:54-56 | A dash-free token holding a `d/M/yy` date is one day when the short-date parse reads the whole token, and otherwise the invalid-date error of that token. |
| BlockedDatesFacts.MalformedDayToken | src/App.jsx:57-59 | A dash-free token with a digit but no `d/M/yy` date that is not all digits is an invalid date, because `+part` is NaN for it (the few numeric exceptions are listed under "## Left out"). |
| BlockedDatesFacts.DayMonthTokenFails | src/App.jsx:57-59 | The token `3/4` (day and month without a year) is an invalid date and so aborts the parse. |
| BlockedDatesFacts.BareDayToken | src/App.jsx:57-59 | A token of digits only is a single day: that day of the target month of the target year. |
| BlockedDatesFacts.RangeToken | src/App.jsx:44-53 | A token `a-b` or `a–b` is a range whose ends are `a` and `b` trimmed and parsed against the target month; it gives every day in between when both parse, and no day otherwise. |
| BlockedDatesFacts.RangeBlocksNothing | src/App.jsx:44-53 | When the range-end parse accepts only text holding a letter, as the `d MMM yyyy` format does, a dashed token without letters (all that the line pattern of line 35 lets through) expands to no day and no error. |
| BlockedDatesFacts.TokensExpandIffEach | src/App.jsx:43-62 | A line expands without error exactly when each of its tokens does, and its days are then exactly the days of its tokens. |
| BlockedDatesFacts.BlockedMergesLines | src/App.jsx:33-64 | The parse succeeds exactly when every matched line expands. The table then has an entry for exactly the keys some line declares, and each entry is the concatenation, in line order, of the days of all lines with that key: later lines add to earlier ones and replace nothing. |
| BlockedDatesFacts.DatesForMembers | src/App.jsx:62 | A day is listed under a key exactly when some line for that key has a token standing for that day. |
| BlockedDatesFacts.LookupAfterParse | src/App.jsx:68-71 | After a successful parse, a roster name is blocked on a day exactly when some line whose normalised name equals the lower-cased roster name lists that day; a name without a line is never blocked. |
| Roster.Person.constructor | src/App.jsx:20-25 | A new record has the given name and points, an `assigned` count of 0 and an empty schedule. |
| Roster.Person.TakeDuty | src/App.jsx:83-84 | Taking a duty adds the slot's weight to the count and appends the day to the schedule; name and points are unchanged. |
| Roster.RecordOfLine | src/App.jsx:20-26 | A line `a,b` (or `a,b,...`) gives the name `a` trimmed and the points read from `b` trimmed, with no duties; further columns are ignored. |
| Roster.InitialRoster | src/App.jsx:18-27 | The roster has one record per line after the header, and record `i` is the record of line `i + 1`: exactly the header line is dropped, and the order is kept. |
| Roster.NewRecords | src/App.jsx:19-27 | The line loop creates one new `Person` per line after the header, all distinct, each holding exactly the record of its line. |
| Roster.ParsePoints | src/App.jsx:17-29 | Reads the points table into a new array of distinct new `Person` objects whose values are exactly the records of the lines after the header. |
| Engine.MonthDays | src/App.jsx:97-98 | The days the month loop visits are as many as the month has. |
| Engine.RunDayInSteps | src/App.jsx:100-105 | A day is six selection steps in the fixed order AM, PM, AMR, AMR, PMR, PMR. |
| Engine.DayTable.constructor | src/App.jsx:96 | The assignment table starts empty. |
| Engine.Eligible | src/App.jsx:74-79 | Taking an AM or PM slot never carries an eligible person past the cap of 7; for a reserve slot the count plays no part, and a person is eligible exactly when not blocked and not yet on duty that day. |
| Engine.EligibleIndices | src/App.jsx:74-79 | The filter loop returns the indices, in roster order, of exactly the candidates `Candidates` describes. |
| Engine.LightestIndex | src/App.jsx:80-81 | The sort-and-take-first step returns the first candidate of least load, as `Lightest` describes. |
| Engine.AssignDuty | src/App.jsx:73-91 | One call updates the records and the table exactly as the step `Assign` says and returns the chosen name, or `""` with nothing changed. |
| Engine.RecordDuty | src/App.jsx:83-89 | Recording the chosen person's duty changes only that person's record, as `Take` says (the day appended to the schedule, the count raised for AM/PM), and puts their name in the slot of the day's table entry, setting AM or PM and appending to a reserve list. |
| Engine.FillDay | src/App.jsx:100-105 | The six calls of one day leave the records and the table as `RunDay` says. |
| Engine.FillDays | src/App.jsx:97-106 | The day loop leaves the records and the table as `RunDays` says for the days in order. |
| Engine.GenerateSchedule | src/App.jsx:93-123 | The records end as the month run over the days 1 to the month's length says, starting from the records as they are and an empty table; the rows are that run's table flattened. |
| Engine.BuildRows | src/App.jsx:108-123 | The row loop returns one row per day of the month, each being the day's entry (or the empty entry) flattened. |
| EngineFacts.CandidatesAreEligible | src/App.jsx:74-79 | The filter keeps exactly the eligible people, in strictly increasing roster order. |
| EngineFacts.LightestIsFirstMinimum | src/App.jsx:80-81 | The chosen candidate's load is no larger than any candidate's, and strictly smaller than that of every candidate before it, as a stable sort by load followed by taking the first gives. |
| EngineFacts.TakeRaisesLoad | src/App.jsx:80-83 | Taking a slot raises the sort key `points + assigned` by 1 for AM or PM and by nothing for a reserve. |
| EngineFacts.FairestIsUnique | src/App.jsx:80-81 | At most one person is lightest among the eligible and strictly lighter than every eligible person before them. |
| EngineFacts.LightestIsFairest | src/App.jsx:74-81 | When someone is eligible, the chosen person is eligible, has the least load among the eligible, and is strictly lighter than every eligible person earlier in the roster. |
| EngineFacts.PickIsFairest | src/App.jsx:73-82 | Nobody is picked exactly when nobody is eligible (not over the cap for AM/PM, not blocked, not already on duty that day); otherwise the person picked is exactly the fairest one. |
| EngineFacts.AssignEffect | src/App.jsx:73-91 | With nobody eligible, a step changes nothing and returns `""`. Otherwise the fairest person gets the slot: only their record changes, gaining the day in the schedule and 1 in the count for AM/PM (0 for a reserve); the table gets their name in the slot; their name is returned. |
| EngineFacts.AssignTouchesOneField | src/App.jsx:85-89 | A step changes only the entry of its day, and in it only the slot's own field; a reserve list grows by at most one name; names and points stay. |
| EngineFacts.AssignKeepsSound | src/App.jsx:75-84 | A step keeps every record at no more than 7 AM/PM duties, with no day twice and no day on which the person is blocked. |
| EngineFacts.DayKeepsSound | src/App.jsx:100-105 | So does a day of six steps. |
| EngineFacts.DaysKeepSound | src/App.jsx:97-106 | So does any sequence of days: the cap, blocked dates and no double-booking hold for the whole run. |
| EngineFacts.PlaceCounts | src/App.jsx:85-89 | Putting a name in an empty AM/PM slot or appending it to a reserve list adds one slot (one AM/PM slot for AM/PM) for that name and none for any other. |
| EngineFacts.AssignKeepsLedger | src/App.jsx:73-91 | A step into an open slot keeps the records in agreement with the table: each person holds exactly one slot on each day of their schedule and none on any other, and their count is the number of AM/PM slots among them. |
| EngineFacts.DayKeepsLedger | src/App.jsx:100-105 | Filling a day that has no entry yet keeps that agreement, leaves at most two names in each of its reserve lists, and changes no other day. |
| EngineFacts.DaysKeepLedger | src/App.jsx:97-106 | Filling distinct, not yet filled days keeps that agreement and the bound of two reserves per list, and adds only the days filled. |
| EngineFacts.MonthDaysInOrder | src/App.jsx:95-98 | The month loop's days start at the month's first day, are one day apart, end the day before the next month's first day, and are all different and increasing. |
| EngineFacts.ParsedRosterIsUnloaded | src/App.jsx:17-29 | The roster read from the points table has no duties yet and is within the rules. |
| EngineFacts.GeneratedMonth | src/App.jsx:93-106 | For a roster without duties yet whose names are distinct and not empty, after the month: people and points are kept; nobody passes 7 AM/PM duties; nobody holds more than one slot a day; every slot is on a day of the month on which its holder is not blocked; a schedule is exactly the days of the slots held, each once, in date order; a count is the number of AM/PM slots held; no reserve list has more than two names. |
| EngineFacts.AssignKeepsRespects | src/App.jsx:73-91 | A step never puts a name in a slot on a day on which that name is blocked, so a table with no blocked holder keeps none. |
| EngineFacts.DaysKeepRespects | src/App.jsx:97-106 | Filling any days, six steps each, keeps the table free of blocked holders. |
| EngineFacts.NoDutyOnBlockedDay | src/App.jsx:68-76 | After a successful blocked-date parse and a month run from an empty table, for any roster (loaded or not, names repeated or not), nobody with a non-empty name holds any slot on a day that a blocked-date line for their lower-cased name lists. |
| EngineFacts.AssignKeepsAscending | src/App.jsx:83-84 | A step on a day no earlier than any day already in the schedules keeps every schedule strictly increasing and ending no later than that day: the day is appended only to a schedule that does not hold it yet. |
| EngineFacts.DaysKeepAscending | src/App.jsx:97-106 | Filling strictly increasing days, the first no earlier than any day already in the schedules, keeps every schedule strictly increasing and ending no later than the last day filled. |
| EngineFacts.RowsShowTable | src/App.jsx:108-123 | There is one row per day of the month, in date order, each with its weekday, the day's AM and PM names, and its reserve lists padded with `""` to two names, so no name in the table is lost. |
| EngineFacts.RunDaysAppend | src/App.jsx:97-106 | Filling some days and then more is filling them all in that order. |
| EngineFacts.DayFrame | src/App.jsx:100-105 | A day keeps names and points, changes no other day, and leaves its AM slot as its first step set it. |
| EngineFacts.DaysFrame | src/App.jsx:97-106 | Filling days keeps names and points and changes no day that is not filled. |
| EngineFacts.RegenerationDiffers | src/App.jsx:93-106 | Generating the same month twice for a one-person roster gives the person the AM slot of the 1st the first time and leaves it empty the second time. |
| Roster.Person.ClearDuties | src/App.jsx:24-25 | Clearing a record sets its count to 0 and its schedule to empty and keeps name and points. |
| Roster.ClearLoads | src/App.jsx:24-25 | Every record of the roster is cleared, and nothing else changes. |
| Engine.GenerateFreshSchedule | src/App.jsx:93-123 | Clears the load of every record, then fills the month: the result is the month run from the cleared records. |
| EngineFacts.RegenerationRepeats | src/App.jsx:93-106 | With the load cleared first, generating again on the records a run leaves gives exactly the same records and table. |

## Left out

- The React state, the JSX and the event wiring (`src/App.jsx:9-15`, `136-199`) are interface code. The
  tool's state is passed to the operations as parameters. A blocked-date table that has not been
  confirmed yet is the empty table.
- The CSV export (`src/App.jsx:125-133`) and the text of the rows are left out. `Papa.unparse`, the
  `Blob`, the download link and the `d/M/yyyy` and `EEE` formatting are I/O. A row carries the day
  number and a three-letter weekday label instead.
- The date library's `parse` is left out: the `d MMM yyyy` parse of a range end point and the `d/M/yy`
  parse are given as functions (`Target.parseDayMonth`, `Target.parseShortDate`) that answer `None` for
  an invalid date. `format` is left out; an invalid date is the `InvalidDate` error it throws.
- The line pattern of `src/App.jsx:35`, the split of the text into lines (33) and the split of a date
  part into tokens (43) are left out. A line comes already matched, as a name part and its tokens, or
  as `Unmatched`.
- The splitting of the points text into non-empty lines (18) is left out. `ParsePoints` receives the
  lines.
- `parseFloat` is left out, and with it NaN points. The points are read by a given function
  `readNumber` returning a real. Floating-point rounding of `points + assigned` is left out too: loads
  are exact reals.
- `Names.ToLower` lower-cases only the ASCII letters, and `Names.IsSpace` knows only the ASCII and
  Latin-1 white space and the byte-order mark. Unicode case mapping and the other Unicode space
  characters are left out.
- The month field's text (`monthYear.split('-')`, lines 39-40 and 94) is left out. The year and month
  are given as numbers, the month between 1 and 12. JavaScript maps years 0 to 99 to 1900-1999, but
  the model uses the proleptic Gregorian calendar for every year.
- BlockedDates.ExpandToken treats a day number as an unbounded ordinal. JavaScript's `Date` holds only
  about 100,000,000 days either side of 1 January 1970, a bound that also depends on the local time
  zone. The line pattern lets a long digit run such as `123456789` through; in the tool its `Date` at
  line 58 is invalid, `format` throws at line 59 and the parse aborts, where the model gives a day.
- BlockedDatesFacts.BareDayToken gives a day for every all-digit token, for the same reason.
- `BlockedDates.ExpandToken`: a bare token that JavaScript's unary plus reads as a number but that is
  not all digits (`1.5`, `1e1`, `0x1f`) is treated as an invalid date.
- A name such as `constructor` or `__proto__` that would hit a property of a plain JavaScript object is
  left out. The model's tables are maps.
- EngineFacts.GeneratedMonth and the ledger lemmas assume distinct, non-empty names. The table
  records names only, so people with equal names, or with the empty name an unfilled slot shows,
  cannot be told apart in it.
- EngineFacts.NoDutyOnBlockedDay speaks of non-empty names only, because an unfilled AM or PM slot
  holds `""` as well.
- `Target.parseDayMonth` stands for the date library's `d MMM yyyy` parse of a range end. In the tool
  that parse rejects every range end the line pattern lets through, so a range blocks nothing there.
  The model keeps the parse as a parameter, so it also describes a parse that accepts bare numbers;
  `BlockedDatesFacts.RangeBlocksNothing` states what happens with the tool's parse.

## Findings

| source | as written | input that shows it | evidently intended | confidence | as-written member | corrected member |
|---|---|---|---|---|---|---|
| src/App.jsx:93-106 | `generateSchedule` fills the month on the roster records as they are. It never resets `assigned` or `schedule`, so a second generation inherits the first one's counts and schedules. | A one-person roster, not blocked on the 1st, with the same month generated twice without reading the points table again. The first run gives the person the AM slot of the 1st. The second run leaves it `''`, because the 1st is already in the person's schedule. | Each generation starts from records with no duties, as `parsePoints` creates them (lines 24-25), so generating again gives the same schedule. | medium; not executed | EngineFacts.RegenerationDiffers | Engine.GenerateFreshSchedule, with EngineFacts.RegenerationRepeats |

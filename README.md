# qlikshift backend: scheduling core

This project models the scheduling core of the qlikshift backend, a service
that staffs library service desks with student workers. It covers five parts:

- **The greedy assignment engine**, in both copies. The term copy keys slots
  by weekday, the interim copy by calendar date. Students are sorted by
  seniority and gated on desk eligibility, the preferred desk and their
  shift budget. Each student's slots are walked in input order and each
  slot's shifts in start-time order. A shift goes through four gates in
  turn: availability, the consumed time key, seats and the student's name,
  and the same-day consecutiveness chain. A shift that passes every gate is
  committed with a padded occupant list. Each student is finished with an
  `assigned_shifts` update clamped at `max_shifts`. The result is an ordered
  log (`Assignments`, built on `Rules` and `History`).
- **Desk creation.** Each slot's open hours are cut into two-hour shift
  rows. Term desks align to the opening time, drop pieces under an hour and
  render midnight as `24:00:00`. The `DD-MM-YYYY` to `YYYY-MM-DD` date
  reformatter is part of this (`DeskShifts`).
- **Student import.** This reads the spreadsheet's availability headers,
  converts 12-hour times and maps each data row to a student record with an
  availability map (`StudentImport`).
- **The schedule export.** One fixed-column row per slot is built, with
  `Closed` cells filled by matching shifts. The export's date reformatter,
  the inverse of desk creation's, is included (`ScheduleExport`).
- **The available-student listing of a shift.** Availability records are
  split into `1st Choice` and `2nd Choice` lists of qualified students, each
  without repeated students (`AvailableStudents`).

The engine is a class, `Assignments.Engine`. Its fields are the engine's
maps and counters:

- `shiftAssignments`;
- `studentAssignedTimeSlots`;
- `logSummary`;
- `totalAssignedShifts`;
- the shift-write counter;
- the commits and `assigned_shifts` writes made so far.

Every method is proved equal to a pure step function (`StepShift`,
`ShiftsFrom`, `SlotsFrom`, `StudentPass`, `Pass`). The engine invariant
`Inv` says the state is a view of a history of commits. `HistoryOk` says
each of those commits passed every gate after the commits before it.
`HistoryMeaning` unfolds that into the capacity, duplicate-name, key,
chain, budget and order properties.

A shift write's outcome is an input: `failures` is the set of write numbers
that fail. The desk slicers, the export loops and the import's row
mapping are methods with loops, each proved equal to a specification
function whose properties are proved as lemmas.

Times in the desk slicers are minutes since midnight. Both `/` and `%` are
only applied to naturals there, where Dafny's division agrees with
JavaScript's.

## Model

| member | source | states |
|---|---|---|
| Rules.RealOccupants | src/app/api/assignments/term/route.ts:159-165 | a name stays in the initial occupant list exactly when it is not `open` in some letter case |
| Rules.IsConsecutiveSymmetric | src/app/api/assignments/term/route.ts:37-39 | two shifts touch regardless of which one is the existing shift |
| Rules.HasAvailableSpaceMeaning | src/app/api/assignments/term/route.ts:31-34 | a shift has room exactly while its real occupants are fewer than `max_students`; a missing or zero value means one seat |
| Rules.AdmitBudget | src/app/api/assignments/term/route.ts:179-213 | an admitted student is eligible, prefers the desk when the flag is set, and is below `max_shifts`; the budget is `max_shifts - assigned_shifts` in max mode, otherwise `min(max_shifts, shifts_to_assign)`, or `shifts_to_assign` when `max_shifts` is zero or null |
| Rules.AllowanceMeaning | src/app/api/assignments/term/route.ts:179-213 | a student stopped by a gate may take no commits; in max mode an admitted student may take `max_shifts - assigned_shifts`, which is positive; otherwise the smaller of `max_shifts` and `shifts_to_assign`, or `shifts_to_assign` alone when `max_shifts` is null or zero, and never fewer than zero |
| Rules.StoredAssignedIsMin | src/app/api/assignments/term/route.ts:307-325 | the stored `assigned_shifts` is the smaller of the old count plus the new commits and `max_shifts`; with a null `max_shifts` it is null whenever the sum is positive, because the sum exceeds a null read as 0 |
| Rules.MaxModeNeverClamps | src/app/api/assignments/term/route.ts:196-203 | in max mode, at most the budget of new commits never needs the clamp |
| Rules.SortBySeniorityCorrect | src/app/api/assignments/term/route.ts:151 | students come out in non-increasing seniority (missing counts as 0), as a permutation, with the students of each seniority in input order |
| Rules.SortByStartCorrect | src/app/api/assignments/term/route.ts:227-229 | each slot's shifts are visited in ascending start-time order, as a permutation, with the shifts of each start time in input order |
| Rules.SortByStartStable | src/app/api/assignments/interim/route.ts:197-199 | the sort is stable: the shifts with one start time come out in their input order |
| Rules.SortByStartIdempotent | src/app/api/assignments/interim/route.ts:197-199 | sorting the already sorted array again, on each student's visit, changes nothing |
| Rules.RealOccupantsOfPadded | src/app/api/assignments/term/route.ts:270-272 | the written list is the names, in order, followed by `Open` up to the capacity; its real names are exactly those names |
| Rules.OpenOnlyVanishes | src/app/api/desks/term/route.ts:100 | a freshly created list of `Open` seats has no real occupants |
| Rules.AvailabilityIndexDomain | src/app/api/assignments/term/route.ts:143-148 | the availability map has a key exactly when some fetched record has that key |
| Rules.AvailabilityIndexLast | src/app/api/assignments/interim/route.ts:119-124 | a later record with the same key overwrites an earlier one |
| Rules.AvailableHasRecord | src/app/api/assignments/term/route.ts:237-242 | the availability gate lets a shift through only when some record for that key says `1st Choice` or `2nd Choice` |
| Rules.ChainAppend | src/app/api/assignments/term/route.ts:263-277 | adding the day's first shift, or one that touches an earlier shift of the day, keeps the day's chain |
| Rules.Lines | src/app/api/assignments/term/route.ts:344 | the rendered log has one line per entry, in order |
| Rules.EligibleImpliesJobsMention | src/app/api/assignments/term/route.ts:24-28 | a student eligible under the engine's token test also passes the listing's substring test |
| Rules.EligibilityIsNotSubstring | src/app/api/desks/term/availableStudents/route.ts:59-63 | the job `circulation` does not make a student eligible for desk `circ`, although the listing's substring test accepts it |
| Rules.DeskNameNotTrimmed | src/app/api/assignments/term/route.ts:24-28 | the desk name itself is not trimmed: a desk name starting with white space matches no job |
| Rules.SingleJobOfOtherLength | src/app/api/assignments/term/route.ts:24-28 | a single job whose trimmed text differs in length from the desk name never matches |
| History.InitialOccupantsHas | src/app/api/assignments/interim/route.ts:133-139 | with consistent shift ids, each shift starts with its stored list minus its `open` entries |
| History.HistoryAppend | src/app/api/assignments/term/route.ts:269-287 | a commit that is admissible after a valid history extends it to a valid history |
| History.HistoryMeaning | src/app/api/assignments/term/route.ts:176-305 | in a valid history, every commit: passed the student gates, availability, seats and name; saw the shift's initial occupants plus the earlier commits' names; comes in student order; uses a fresh time key; continues its day's chain; fits its student's budget |
| History.NoRepeatedName | src/app/api/assignments/term/route.ts:256-260 | no name is committed twice into one shift, nor into a shift that already held it |
| History.OccupancyBound | src/app/api/assignments/interim/route.ts:224-229 | a shift that received commits ends with at most capacity real occupants |
| History.DayChains | src/app/api/assignments/interim/route.ts:232-245 | a student's shifts on one day or date form a chain: each after the first touches an earlier one |
| History.NothingAfter | src/app/api/assignments/term/route.ts:215-216 | a student starts with no commits and no shifts on any day |
| History.TermUsedKeyIgnoresDay | src/app/api/assignments/term/route.ts:248 | in term mode the consumed key does not depend on the slot, so one commit blocks the same time range on every day |
| Assignments.UpdatesForMeaning | src/app/api/assignments/term/route.ts:307-325 | an `assigned_shifts` write exists exactly for a student with commits, carrying the clamped sum |
| Assignments.UpdatesForOrdered | src/app/api/assignments/term/route.ts:176-328 | the `assigned_shifts` writes come in student order, at most one each |
| Assignments.BuildIndex | src/app/api/assignments/term/route.ts:144-148 | the loop builds the availability map of the records |
| Assignments.BuildInitial | src/app/api/assignments/term/route.ts:159-165 | the nested loop builds the initial occupant map |
| Assignments.AddShifts | src/app/api/assignments/term/route.ts:160-164 | the inner loop adds one slot's shifts to the occupant map |
| Assignments.MakeContextOk | src/app/api/assignments/term/route.ts:156-165 | every shift of the desk has its initial occupants in the map |
| Assignments.InvInitial | src/app/api/assignments/term/route.ts:86-88 | the state before any student, with only the header line, satisfies the invariant |
| Assignments.InvCommit | src/app/api/assignments/term/route.ts:274-287 | a commit that passed every gate keeps the invariant: occupants, consumed keys, log, counters and history |
| Assignments.InvWriteFailed | src/app/api/assignments/term/route.ts:300-303 | a failed write keeps the invariant, adding the term copy's error line |
| Assignments.UnavailableLogsOneLine | src/app/api/assignments/interim/route.ts:204-211 | an unavailable shift logs exactly one skip line and changes nothing else |
| Assignments.FailedWriteChangesNothing | src/app/api/assignments/interim/route.ts:243-262 | a refused write leaves occupants, keys, counters, commits and locals unchanged; the interim copy logs nothing, the term copy logs one error line |
| Assignments.UpdateLinesReportSum | src/app/api/assignments/term/route.ts:307-328 | the update line reports the unclamped sum, preceded by an `ERROR:` line exactly when the sum exceeds `max_shifts` |
| Assignments.StepShiftOk | src/app/api/assignments/term/route.ts:231-304 | one shift step keeps the invariant and the per-student locals, and adds at most one commit, for this student only |
| Assignments.StepShiftGates | src/app/api/assignments/term/route.ts:237-267 | a shift that passes every gate yields a commit that is admissible after the history |
| Assignments.StepShiftCommits | src/app/api/assignments/term/route.ts:269-287 | a shift past every gate with a successful write is the commit: the occupant list grows by the name, the day's shifts by the shift |
| Assignments.ShiftsFromOk | src/app/api/assignments/term/route.ts:231-232 | the shift loop keeps the invariant and stops within the budget |
| Assignments.SlotsFromOk | src/app/api/assignments/term/route.ts:224-225 | the slot loop keeps the invariant and stops within the budget |
| Assignments.SkippedStudentOk | src/app/api/assignments/term/route.ts:179-213 | a student stopped by a student gate adds one log line and nothing else |
| Assignments.StudentPassOk | src/app/api/assignments/term/route.ts:176-328 | one student keeps the invariant, commits only for its own position, and writes its update exactly when it received commits |
| Assignments.FinishOk | src/app/api/assignments/term/route.ts:307-328 | the finish writes the clamped update and its lines exactly when there were commits |
| Assignments.StudentsFromOk | src/app/api/assignments/term/route.ts:176-329 | the student loop keeps the invariant and writes exactly the updates of `UpdatesFor` |
| Assignments.PassMeaning | src/app/api/assignments/term/route.ts:143-331 | the pass's commits form a valid history (gates, order, keys, chains, budgets, occupants); the updates are `UpdatesFor`; the log starts with the header and ends with the total, which is the number of commits; the `Assigned` lines are the commits; the failed writes are the writes without a commit in term mode and log nothing in interim mode |
| Assignments.PassOk | src/app/api/assignments/term/route.ts:143-331 | the whole pass ends in a state satisfying the invariant, with the updates of `UpdatesFor` and the total line last |
| Assignments.AttemptsBound | src/app/api/assignments/term/route.ts:274-279 | there are at least as many shift writes as commits |
| Assignments.Engine.constructor | src/app/api/assignments/term/route.ts:143-174 | the engine starts from the context built from the request: sorted students, availability map, initial occupants, empty maps, the header line |
| Assignments.Engine.TryShift | src/app/api/assignments/term/route.ts:231-304 | one candidate shift goes through the four gates and the write, as `StepShift` |
| Assignments.Engine.ProcessSlot | src/app/api/assignments/interim/route.ts:194-202 | one slot's shifts, in start-time order, until the budget is reached, as `ShiftsFrom` |
| Assignments.Engine.ProcessStudent | src/app/api/assignments/interim/route.ts:147-282 | one student's gates, slots and finish, as `StudentPass` |
| Assignments.Engine.Run | src/app/api/assignments/interim/route.ts:147-285 | every student in order, then the total line, as `Pass` |
| Assignments.Assign | src/app/api/assignments/term/route.ts:143-331 | the handler's log, commits, updates, total and occupants are those of `Pass` on the context built from the request, so `PassMeaning` applies to them; the log starts with the header and ends with `Total shifts assigned: N`; the returned lines are the rendered log |
| DeskShifts.TermPiecesShape | src/app/api/desks/term/route.ts:76-107 | the term cuts are contiguous, one to two hours long, and start at the aligned start; there are none exactly when under an hour is available; less than an hour is left uncovered |
| DeskShifts.InterimPiecesShape | src/app/api/desks/interim/route.ts:64-92 | the interim cuts are contiguous, at most two hours long, and cover exactly the shift's range; none exactly when the shift is empty |
| DeskShifts.TwoDigitsPadded | src/app/api/desks/term/route.ts:97 | an hour or minute is written as its decimal digits padded to two characters |
| DeskShifts.ClockShape | src/app/api/desks/term/route.ts:97 | a rendered time is five characters, `HH:MM` |
| DeskShifts.TermEndTextMidnight | src/app/api/desks/term/route.ts:86-88 | the end renders as `24:00:00` exactly at midnight, otherwise as `HH:MM` |
| DeskShifts.TermRowSeats | src/app/api/desks/term/route.ts:99-100 | each term row stores `max_students` or 1, and a list of that many `Open` seats, or 2 when `max_students` is missing |
| DeskShifts.InterimRowSeats | src/app/api/desks/interim/route.ts:78-79 | each interim row stores `max_students` or 1, and exactly that many `Open` seats |
| DeskShifts.TermSlotDefaults | src/app/api/desks/term/route.ts:56-62 | a closed slot inserts nothing; an open slot without shifts gets one opening-to-closing shift with one seat |
| DeskShifts.FormatDateReorders | src/app/api/desks/interim/route.ts:137-140 | `d-m-y` becomes `y-m-d` |
| DeskShifts.TermCut | src/app/api/desks/term/route.ts:77-104 | one turn of the term loop inserts the clamped cut exactly when it lasts an hour or more |
| DeskShifts.SliceTermShift | src/app/api/desks/term/route.ts:66-107 | the slicing loop inserts the rows of the term cuts from the aligned start |
| DeskShifts.SliceTermShifts | src/app/api/desks/term/route.ts:65-108 | the shift loop inserts every shift's rows, in order |
| DeskShifts.SliceTermSlot | src/app/api/desks/term/route.ts:56-109 | a slot inserts its shifts' rows when open, nothing when closed |
| DeskShifts.CreateTermShifts | src/app/api/desks/term/route.ts:42-110 | the slot loop inserts the rows of `TermDeskRows`, in request order |
| DeskShifts.MakeInterimRow | src/app/api/desks/interim/route.ts:65-80 | the row for one interim cut |
| DeskShifts.SliceInterimShift | src/app/api/desks/interim/route.ts:60-92 | the slicing loop inserts the rows of the interim cuts |
| DeskShifts.SliceInterimShifts | src/app/api/desks/interim/route.ts:59-93 | the shift loop inserts every shift's rows, in order |
| DeskShifts.CreateInterimShifts | src/app/api/desks/interim/route.ts:43-94 | each slot's stored date is its reformatted date; the rows are those of `InterimDeskRows` |
| ScheduleExport.Labels | src/app/api/desks/term/export/route.ts:40-49 | eight column labels for term desks, six for interim desks |
| ScheduleExport.LabelsDistinct | src/app/api/desks/interim/export/route.ts:133-140 | no two columns share a label |
| ScheduleExport.FindLabel | src/app/api/desks/term/export/route.ts:65-67 | the result is the first column with the shift's range, or none when no column has it |
| ScheduleExport.WithoutOpen | src/app/api/desks/term/export/route.ts:71-73 | exactly the names other than `Open`, compared case-sensitively, each as often as in the input; a single name is kept exactly when it is not `Open` |
| ScheduleExport.WithoutOpenAppend | src/app/api/desks/term/export/route.ts:71-73 | the filter keeps order: filtering two runs of names one after the other gives the first run's names, then the second's |
| ScheduleExport.FillCell | src/app/api/desks/term/export/route.ts:64-77 | a column keeps its initial value unless some shift has its range; then the last such shift decides the cell |
| ScheduleExport.RowOfCells | src/app/api/desks/term/export/route.ts:51-79 | a row has one cell per column: `Closed` where no shift matches, otherwise the last matching shift's cell |
| ScheduleExport.UnlabelledShiftIgnored | src/app/api/desks/term/export/route.ts:65-69 | a shift whose range is no column label changes nothing |
| ScheduleExport.CellMeaning | src/app/api/desks/interim/export/route.ts:159-164 | a cell reads `Open` when no real name remains, and the name itself when one remains |
| ScheduleExport.FillCells | src/app/api/desks/interim/export/route.ts:142-166 | the shift loop overwrites the cells as `Fill` says |
| ScheduleExport.PrepareExcelData | src/app/api/desks/term/export/route.ts:32-83 | one row per slot, in order, each keyed by the weekday or the reformatted date |
| ScheduleExport.FormatDateRoundTrip | src/app/api/desks/interim/export/route.ts:175-178 | reformatting a date with exactly two hyphens at desk creation and back at export gives the original text |
| StudentImport.FirstHour | src/app/api/students/term/route.ts:54 | the leftmost `\d+(am\|pm)` match found, or no match anywhere |
| StudentImport.ConvertExcelTimeMeaning | src/app/api/students/term/route.ts:48-64 | `noon` gives `12:00` and `midnight` gives `00:00`; otherwise the first `<digits>am`/`<digits>pm` match gives its 24-hour `HH:00:00`; conversion fails exactly when there is no match |
| StudentImport.ConvertHourForms | src/app/api/students/term/route.ts:49-63 | any spelling whose lower-cased, space-free form is `<n>am` or `<n>pm` converts: pm adds 12 unless n is 12, and 12am becomes 0 |
| StudentImport.TenAm | src/app/api/students/term/route.ts:57-63 | `10am` is `10:00:00` |
| StudentImport.TwelvePm | src/app/api/students/term/route.ts:60 | `12pm` is `12:00:00` |
| StudentImport.MatchStrictHeader | src/app/api/students/term/route.ts:69 | a match is the whole leading word as the day, a run of white space, the first time token as the start, then at most one hyphen and a second time token running to the end as the end |
| StudentImport.ParseTermHeader | src/app/api/students/term/route.ts:66-77 | a header is rejected exactly when the strict pattern fails or either time fails to convert; a parsed header's day is the pattern's leading word and its time is `<converted start> - <converted end>` |
| StudentImport.HyphenatedHeaderSelected | src/app/api/students/term/route.ts:105-110 | every header the parser accepts with a hyphen between the times also passes the column filter |
| StudentImport.SpacedHyphenHeaderSkipped | src/app/api/students/term/route.ts:105-157 | `Mon 10am - 12pm` passes the column filter but fails the parse, so its column is skipped |
| StudentImport.GluedHeaderNotSelected | src/app/api/students/term/route.ts:69-110 | `Mon 10am12pm` parses to Monday `10:00:00 - 12:00:00`, but the filter does not select it |
| StudentImport.NormalTermHeaderUntouched | src/app/api/students/term/route.ts:67 | a single-spaced header without outer blanks is already normal |
| StudentImport.FirstDate | src/app/api/students/interim/route.ts:90-92 | the leftmost `\d+/\d+` match found, or none anywhere |
| StudentImport.FirstRange | src/app/api/students/interim/route.ts:101-102 | the leftmost match of the main time-range pattern, with its four groups |
| StudentImport.FirstNoonRange | src/app/api/students/interim/route.ts:103 | the leftmost match of the `12noon - 2pm` pattern |
| StudentImport.FirstNoonNumber | src/app/api/students/interim/route.ts:96-98 | the leftmost number glued to `noon`, or none anywhere |
| StudentImport.ParseInterimHeader | src/app/api/students/interim/route.ts:80-143 | the parse fails exactly when the normalised header has no weekday prefix, no `M/D` date, or no time range after `noon` is split from its number; otherwise the day is the prefix re-cased, one of the weekday names, the date is the first `M/D` text, and the time is that of `InterimTime` |
| StudentImport.Hour24Meaning | src/app/api/students/interim/route.ts:125-127 | an hour from 1 to 12 is a plain number; `am` gives it modulo 12 and `pm` gives it modulo 12 plus 12, so 12am is 0 and 12pm is 12 |
| StudentImport.InterimTime | src/app/api/students/interim/route.ts:99-133 | no time exactly when both range patterns fail; the main pattern's leftmost match, with `noon` read as `pm`, takes precedence; otherwise the `12noon - 2pm` pattern's match gives a `pm` start |
| StudentImport.NoonHeaderExample | src/app/api/students/interim/route.ts:80-140 | `Mon 1/15 12noon-2pm` parses to day `Mon`, date `1/15` and time `12:00:00 - 14:00:00` |
| StudentImport.DayNameOf | src/app/api/students/interim/route.ts:85-87 | the day is the matched prefix with its first letter upper-cased and the rest lower-cased, one of the seven weekday names |
| StudentImport.NoonFilterSubsumed | src/app/api/students/interim/route.ts:70-75 | wherever the `12noon` filter pattern matches, the general time pattern matches too |
| StudentImport.InterimFilterMeaning | src/app/api/students/interim/route.ts:61-76 | the interim filter is exactly: a weekday prefix, a `d/d` date and a dash-separated time range |
| StudentImport.WorkingFlags | src/app/api/students/term/route.ts:131-141 | the two scheduled and sub texts set working; only the sub text sets sub; anything else sets neither |
| StudentImport.MaxShifts | src/app/api/students/interim/route.ts:193 | `floor(hours / 2)` on the term sheet, `max(10, floor(hours / 2))` on the interim sheet, not a number when the hours are not |
| StudentImport.InterimDefaultStatus | src/app/api/students/interim/route.ts:219-221 | a non-text cell reads `Sub` for a sub, `Unavailable` for a working student, `Not Available` otherwise |
| StudentImport.ParseColumn | src/app/api/students/term/route.ts:143-157 | a column is skipped exactly when its header fails to parse |
| StudentImport.ColumnEntry | src/app/api/students/interim/route.ts:214-229 | a parsed column gives its key and the cell's trimmed text, or the default status for a non-text cell |
| StudentImport.FillMeaning | src/app/api/students/term/route.ts:143-157 | a key is in the availability map exactly when some column has it, and holds the last such column's entry |
| StudentImport.StoreColumns | src/app/api/students/term/route.ts:143-157 | the `forEach` loop builds the availability map as `Fill` |
| StudentImport.MapRow | src/app/api/students/interim/route.ts:183-235 | one row's student: trimmed fields, converted counts, working flags and availability map; a numeric `Preferred Name` on the term sheet is an error |
| StudentImport.MapRows | src/app/api/students/term/route.ts:112-159 | every row mapped in order; the first failing row fails the whole |
| StudentImport.AllStudentsAt | src/app/api/students/term/route.ts:112-159 | a mapped sheet holds each row's student at that row's position |
| StudentImport.AllStudentsFail | src/app/api/students/term/route.ts:114 | one failing row fails the mapping of the whole sheet |
| StudentImport.InterimMappingTotal | src/app/api/students/interim/route.ts:185 | the interim sheet's mapping never fails |
| StudentImport.Keep | src/app/api/students/term/route.ts:160-165 | exactly the students with an email, a name, a year and a term remain |
| StudentImport.KeepComplete | src/app/api/students/interim/route.ts:236-241 | the filter loop's result is `Keep(all)`: with `KeepAppend` and `KeepCount`, every complete student in input order and as often as it occurs, and no incomplete one |
| StudentImport.KeepAppend | src/app/api/students/term/route.ts:160-165 | the filter keeps order: filtering two runs gives the first run's complete students, then the second's |
| StudentImport.KeepCount | src/app/api/students/interim/route.ts:236-241 | a complete student is kept as often as it occurs, an incomplete one never |
| StudentImport.SelectHeaders | src/app/api/students/term/route.ts:105-110 | exactly the first row's names that pass the sheet's header filter, no more names than keys |
| StudentImport.SelectHeadersAppend | src/app/api/students/term/route.ts:105-110 | the filter keeps order: the headers of two runs of keys are the first run's, then the second's |
| StudentImport.SelectHeadersCount | src/app/api/students/interim/route.ts:172-174 | a selected header occurs as often as among the keys, an unselected one never |
| StudentImport.SelectHeadersSingle | src/app/api/students/term/route.ts:105-110 | a single key is kept exactly when the filter selects it |
| StudentImport.StudentsNeedRows | src/app/api/students/term/route.ts:105 | a sheet without data rows fails, because the first row's keys cannot be read |
| StudentImport.InterimStudentsNeedTimeSlots | src/app/api/students/interim/route.ts:176-181 | an interim sheet with no time-slot column is refused |
| StudentImport.StudentsComplete | src/app/api/students/term/route.ts:160-165 | a successful import holds complete students only, at most one per row |
| StudentImport.ImportStudents | src/app/api/students/term/route.ts:103-165 | the handler selects the columns, maps the rows and filters the students, as `Students` |
| AvailableStudents.FindIndex | src/app/api/desks/term/availableStudents/route.ts:105 | the first position with the key, or -1 when there is none |
| AvailableStudents.FirstOccurrence | src/app/api/desks/term/availableStudents/route.ts:104-106 | a position passes the `findIndex` test exactly when its key does not occur earlier |
| AvailableStudents.KeepFirstIsUnseen | src/app/api/desks/interim/availableStudents/route.ts:92-98 | the `findIndex` filter equals a single walk that keeps an element when its key is unseen |
| AvailableStudents.KeepFirstMeaning | src/app/api/desks/term/availableStudents/route.ts:104-112 | de-duplication gives an order-preserving subsequence with unique keys, holding exactly the first occurrence of every key |
| AvailableStudents.KeepFirstKeepsKeys | src/app/api/desks/term/availableStudents/route.ts:104-112 | every key of the input is the key of something kept |
| AvailableStudents.SlotRecords | src/app/api/desks/interim/availableStudents/route.ts:22-31 | exactly the records of the shift's slot and `start - end` time slot |
| AvailableStudents.StudentIdsMeaning | src/app/api/desks/term/availableStudents/route.ts:45 | the lookup id list holds each record's student exactly once |
| AvailableStudents.Fetch | src/app/api/desks/term/availableStudents/route.ts:48-51 | exactly the stored students whose id is listed |
| AvailableStudents.MatchingStudents | src/app/api/desks/term/availableStudents/route.ts:59-63 | exactly the students of the term whose jobs contain the desk name, case-insensitively; a missing desk fails exactly when some student of the term has a job list |
| AvailableStudents.FindStudent | src/app/api/desks/term/availableStudents/route.ts:70 | a found student has the id; none is found only when no student has it |
| AvailableStudents.Choice | src/app/api/desks/term/availableStudents/route.ts:67-81 | exactly the listings of the records with the status whose student was kept |
| AvailableStudents.StatusListMeaning | src/app/api/desks/term/availableStudents/route.ts:67-112 | one status list keeps record order and has no repeated student; everyone on it has a record for the shift with that status and is qualified; no qualified student with such a record is missing |
| AvailableStudents.ChoiceOfNobody | src/app/api/desks/interim/availableStudents/route.ts:59-89 | with no student left after the filter, no record is listed |
| AvailableStudents.ListingsMeaning | src/app/api/desks/interim/availableStudents/route.ts:22-100 | the listing fails exactly when the desk is missing and it is read; otherwise its first and second lists are the `1st Choice` and `2nd Choice` lists of `StatusListMeaning` |

## Left out

- Database access is not modelled: the queries, the upserts, the summary insert, the `assigned_shifts` writes and the availability downgrade after a commit. The engine reads the fetched students, slots and availability records as inputs. Each shift write's outcome comes from the `failures` set. The downgrade is never read back during a run, so it does not affect any decision.
- The `Promise.all` fan-out of the availability fetches is not modelled; the merged record list is an input. Its order is the database's, and the model takes whatever order it is given.
- HTTP handling is not modelled: request validation, status codes, the 404/500 wrapping, CORS and the GET handlers. These exceptions that change a result are modelled: a numeric term `Preferred Name`, an empty sheet, an interim sheet without time-slot columns, a missing desk parameter in the listing. The interim `Invalid date` exception is not; see the `Date` line.
- The xlsx workbook read and write are not modelled. The import takes the first row's column names, in order, and the rows by column name. The export's result is the rows.
- `Date` and time zones are left out. Desk times are minutes since midnight, and `toTimeString().slice(0, 5)` is modelled as a zero-padded `HH:MM`. The interim import's `formatDate` (src/app/api/students/interim/route.ts:50-58) and its current-year lookup (src/app/api/students/interim/route.ts:135-136) depend on the clock and `toISOString`. The model keeps the raw `M/D` text as the entry's date instead. When `new Date(...)` rejects the text, `formatDate` throws `Invalid date`, and the `try`/`catch` around each column (src/app/api/students/interim/route.ts:214-232) drops that column from the student's availability. The model keeps every column with an `M/D` date: a header such as `Mon 13/45 10am-12pm` gives an availability entry in the model and none in the source. Which texts the `Date` parser accepts is engine-defined and is not modelled.
- `Number()` on spreadsheet cells is narrowed: a number cell is a whole number, and a text cell is its trimmed decimal digits, with empty text read as 0. Any other text is NaN, so `Number()` of decimal, signed, exponent or hexadecimal text is not modelled.
- White space (`\s`) is modelled as the ASCII blanks plus U+00A0 and U+FEFF, not every Unicode space character.
- `toLowerCase` and `toUpperCase` are modelled on ASCII letters only.
- console output is not modelled: only the log summary is observable.
- Rules.SortByStart: start times are compared by code units, as `StrLe` does, where the source uses `localeCompare`. The two agree on the stored `HH:MM:SS` times, whose characters are digits and colons in fixed positions, but not on arbitrary text.
- DeskShifts: `max_students` is a `nat`. In the source a negative or fractional `max_students` makes `Array(max_students || 2)` (src/app/api/desks/term/route.ts:100) or `Array(max_students || 1)` (src/app/api/desks/interim/route.ts:79) throw a `RangeError`; the model cannot express such a request.
- StudentImport.ParseColumns: the source parses every selected header once per row inside `forEach`. Parsing is pure, so the model parses each header once and reuses the result for every row.

## Behaviour of the source the model keeps

These are modelled as written and stated by the lemmas named beside them:

- The term engine builds its consumed-time key from `slot.date`, which a term slot does not have (src/app/api/desks/term/route.ts:44-50), so the key renders as `undefined`. One term commit therefore blocks the same time range on every other weekday for that student (`History.TermUsedKeyIgnoresDay`).
- The term export's last column is `22:00:00 - 00:00:00`, but desk creation writes midnight as `24:00:00`. So a shift ending at midnight never fills that column (`ScheduleExport.UnlabelledShiftIgnored`).
- The term import filter accepts `Mon 10am - 12pm`, which the parser rejects, so that column is silently skipped (`StudentImport.SpacedHyphenHeaderSkipped`). `Mon 10am12pm` parses, but the filter does not select it (`StudentImport.GluedHeaderNotSelected`).
- The interim import filter accepts an en or em dash between the times, but the parser wants a hyphen, so such a column is skipped.
- On the term sheet a numeric `Preferred Name` cell has no `trim`, and the whole import fails (`StudentImport.AllStudentsFail`).
- The listing dereferences a missing `desk` parameter only once some student of the term has a job list; only then does the request fail (`AvailableStudents.MatchingStudents`).
- The engine's eligibility is token equality on trimmed jobs, while the listing's is a substring test (`Rules.EligibilityIsNotSubstring`, `Rules.EligibleImpliesJobsMention`).

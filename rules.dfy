/** The entities the assignment engine reads, the one-line rules it applies to
    each candidate (eligibility, capacity, consecutiveness), the per-student
    budget, the two orderings (seniority, start time) and the decision log,
    shared by the weekday-keyed term copy and the date-keyed interim copy. */
module Rules {
  import opened Wrappers
  import opened Text

  /** Term slots are keyed by weekday, interim slots by calendar date. */
  datatype Mode = Term | Interim

  /** A student row. `jobs`, `preferredDesk` and `maxShifts` are nullable
      columns; `seniority` and `assignedShifts` are read through `|| 0`, so 0
      stands for a missing value there. */
  datatype Student = Student(
    id: string,
    preferredName: string,
    jobs: Option<string>,
    preferredDesk: Option<string>,
    seniority: int,
    assignedShifts: int,
    maxShifts: Option<int>)

  /** A shift row: `maxStudents` 0 stands for a missing value, a missing
      occupant list for an empty one. Start and end are the stored text. */
  datatype Shift = Shift(
    id: string,
    maxStudents: int,
    studentsDetailed: seq<string>,
    startTime: string,
    endTime: string)

  /** A slot row with its shifts. A term slot row has no `date` property at
      all (`None`); an interim slot row has one. */
  datatype Slot = Slot(id: string, dayOfWeek: string, date: Option<string>, shifts: seq<Shift>)

  /** An availability record of the merged fetch. */
  datatype AvailabilityRecord = AvailabilityRecord(
    studentId: string,
    dayOfWeek: string,
    date: string,
    timeSlot: string,
    scheduledStatus: string)

  /** The run flags of the request body. */
  datatype Flags = Flags(setToMaxShifts: bool, shiftsToAssign: int, considerPreferredDesk: bool)

  /** The placeholder for an unfilled seat. */
  const OpenSeat := "Open"

  /** How a template literal renders a property: `undefined` when the row has none. */
  function Render(o: Option<string>): string {
    match o
    case None => "undefined"
    case Some(s) => s
  }

  /** How a template literal renders a nullable column: `null` when absent. */
  function RenderNull(o: Option<string>): string {
    match o
    case None => "null"
    case Some(s) => s
  }

  /** How a template literal renders a nullable number: `null` when absent. */
  function RenderNullInt(o: Option<int>): string {
    match o
    case None => "null"
    case Some(m) => IntToString(m)
  }

  /** `max_shifts` as comparisons, subtraction and truthiness read it: a null
      column counts as 0. */
  function MaxShifts(st: Student): int {
    match st.maxShifts
    case None => 0
    case Some(m) => m
  }

  /** The field a slot is grouped by: the weekday in term mode, the date in interim mode. */
  function SlotKey(mode: Mode, slot: Slot): string {
    if mode == Term then slot.dayOfWeek else Render(slot.date)
  }

  /** `"${start_time} - ${end_time}"`. */
  function TimeSlot(shift: Shift): string {
    shift.startTime + " - " + shift.endTime
  }

  function Key3(a: string, b: string, c: string): string {
    a + "|" + b + "|" + c
  }

  /** The availability map's key of a record. */
  function RecordKey(mode: Mode, rec: AvailabilityRecord): string {
    Key3(rec.studentId, if mode == Term then rec.dayOfWeek else rec.date, rec.timeSlot)
  }

  /** The key looked up for a candidate shift. */
  function AvailabilityKey(mode: Mode, st: Student, slot: Slot, shift: Shift): string {
    Key3(st.id, SlotKey(mode, slot), TimeSlot(shift))
  }

  /** The key marked as consumed after a commit. Both copies build it from
      `slot.date`, which term slots do not have. */
  function UsedTimeKey(st: Student, slot: Slot, shift: Shift): string {
    Key3(st.id, Render(slot.date), TimeSlot(shift))
  }

  /** The availability map: one entry per record key, a later record
      overwriting an earlier one. */
  function AvailabilityIndex(mode: Mode, recs: seq<AvailabilityRecord>): map<string, string> {
    if recs == [] then map[]
    else AvailabilityIndex(mode, recs[..|recs| - 1])[RecordKey(mode, recs[|recs| - 1]) := recs[|recs| - 1].scheduledStatus]
  }

  predicate IsChoice(status: string) {
    status == "1st Choice" || status == "2nd Choice"
  }

  /** The availability gate. */
  predicate IsAvailable(index: map<string, string>, key: string) {
    key in index && IsChoice(index[key])
  }

  /** `student.jobs ? student.jobs.split(',') : []`. */
  function Jobs(st: Student): seq<string> {
    match st.jobs
    case None => []
    case Some(j) => if j == "" then [] else Split(j, ',')
  }

  /** `isEligibleForDesk`: some job, trimmed and lower-cased, equals the
      lower-cased desk name; the desk name itself is not trimmed. */
  predicate IsEligibleForDesk(jobs: seq<string>, desk: string) {
    exists j :: j in jobs && ToLower(Trim(j)) == ToLower(desk)
  }

  /** `student.preferred_desk?.toLowerCase() === desk_name.toLowerCase()`. */
  predicate PrefersDesk(st: Student, desk: string) {
    st.preferredDesk.Some? && ToLower(st.preferredDesk.value) == ToLower(desk)
  }

  /** `shift.max_students || 1`. */
  function Capacity(shift: Shift): int {
    if shift.maxStudents == 0 then 1 else shift.maxStudents
  }

  /** `hasAvailableSpace`. */
  predicate HasAvailableSpace(shift: Shift, current: seq<string>) {
    |current| < Capacity(shift)
  }

  /** `isConsecutive`: the two shifts touch at a boundary, in either order. */
  predicate IsConsecutive(existing: Shift, candidate: Shift) {
    existing.endTime == candidate.startTime || candidate.endTime == existing.startTime
  }

  /** Touching does not depend on which shift came first. */
  lemma IsConsecutiveSymmetric(a: Shift, b: Shift)
    ensures IsConsecutive(a, b) <==> IsConsecutive(b, a)
  {
  }

  /** A shift has room exactly while its real occupants are fewer than
      `max_students`, a missing or zero value counting as one. */
  lemma HasAvailableSpaceMeaning(shift: Shift, current: seq<string>)
    ensures HasAvailableSpace(shift, current) <==>
            if shift.maxStudents == 0 then current == [] else |current| < shift.maxStudents
  {
  }

  /** `alreadyAssignedShifts.some(existing => isConsecutive(existing, shift))`. */
  predicate AnyConsecutive(existing: seq<Shift>, candidate: Shift) {
    exists e :: e in existing && IsConsecutive(e, candidate)
  }

  /** Every shift after the first touches at least one earlier shift. */
  predicate ChainOk(s: seq<Shift>) {
    forall i :: 0 < i < |s| ==> AnyConsecutive(s[..i], s[i])
  }

  predicate IsOpenMarker(name: string) {
    ToLower(name) == "open"
  }

  /** The stored occupant list with every `open` entry, in any case, removed. */
  function RealOccupants(names: seq<string>): (r: seq<string>)
    ensures forall x :: x in r <==> x in names && !IsOpenMarker(x)
  {
    if names == [] then []
    else if IsOpenMarker(names[0]) then RealOccupants(names[1..])
    else [names[0]] + RealOccupants(names[1..])
  }

  /** The list written on a commit: the names, then `'Open'` up to the capacity. */
  function Padded(names: seq<string>, cap: int): seq<string> {
    names + Repeat(OpenSeat, if cap - |names| > 0 then cap - |names| else 0)
  }

  /** What the student gates decide before any slot is looked at. */
  datatype Admission = Ineligible | DeskMismatch | AtMax | Admitted(budget: int)

  /** Steps a to d of the per-student loop. */
  function Admit(st: Student, desk: string, flags: Flags): Admission {
    if !IsEligibleForDesk(Jobs(st), desk) then Ineligible
    else if flags.considerPreferredDesk && !PrefersDesk(st, desk) then DeskMismatch
    else if flags.setToMaxShifts && MaxShifts(st) - st.assignedShifts <= 0 then AtMax
    else if st.assignedShifts >= MaxShifts(st) then AtMax
    else if flags.setToMaxShifts then Admitted(MaxShifts(st) - st.assignedShifts)
    else if MaxShifts(st) != 0 then Admitted(if MaxShifts(st) < flags.shiftsToAssign then MaxShifts(st) else flags.shiftsToAssign)
    else Admitted(flags.shiftsToAssign)
  }

  /** The most commits a student may receive in one run. */
  function Allowance(st: Student, desk: string, flags: Flags): nat {
    match Admit(st, desk, flags)
    case Admitted(b) => if b > 0 then b else 0
    case _ => 0
  }

  lemma AllowanceOfBudget(st: Student, desk: string, flags: Flags, budget: int)
    requires Admit(st, desk, flags) == Admitted(budget)
    ensures Allowance(st, desk, flags) == if budget > 0 then budget else 0
  {
  }

  /** The stored `assigned_shifts` after a student's commits: the sum, or
      `max_shifts` itself (null when the column is null) when the sum passes it. */
  function StoredAssigned(st: Student, added: nat): Option<int> {
    if st.assignedShifts + added > MaxShifts(st) then st.maxShifts else Some(st.assignedShifts + added)
  }

  /** One line of `logSummary`, before rendering. */
  datatype LogEntry =
    | Header(desk: string, year: string, termOrBreak: string)
    | NotEligible(name: string)
    | PreferredDeskMismatch(name: string, preferredDesk: Option<string>)
    | MaxReached(name: string, maxShifts: Option<int>)
    | NotAvailable(name: string, slotKey: string, timeSlot: string)
    | AlreadyAssigned(name: string)
    | Assigned(name: string, shiftId: string, slotKey: string, timeSlot: string, availabilityKey: string)
    | WriteFailed(name: string, shiftId: string)
    | ExceedsMax(name: string, maxShifts: Option<int>)
    | Updated(name: string, added: int, total: int)
    | Total(count: int)

  /** The text each copy pushes for an entry. */
  function Line(mode: Mode, e: LogEntry): string {
    match e
    case Header(d, y, t) =>
      "Processing assignments for Desk: " + d + ", Year: " + y + ", Term/Break: " + t + (if mode == Term then "\n" else "")
    case NotEligible(n) => "Skipping " + n + " (not eligible for desk)"
    case PreferredDeskMismatch(n, p) =>
      if mode == Term then "Skipping " + n + " as their preferred desk is " + RenderNull(p)
      else "Skipping " + n + " (preferred desk mismatch)"
    case MaxReached(n, m) => "Skipping " + n + " (already reached max_shifts limit of " + RenderNullInt(m) + ")"
    case NotAvailable(n, k, t) =>
      if mode == Term then "Skipping " + n + " as they are not available for " + k + " " + t
      else "Skipping " + n + " (not available or not \"1st Choice\" or \"2nd Choice\")"
    case AlreadyAssigned(n) => "Skipping " + n + " (already assigned to this time slot)"
    case Assigned(n, id, k, t, a) =>
      if mode == Term then "Assigned " + n + " to a shift on " + k + " (" + t + ")"
      else "Assigned " + n + " to shift " + id + " (" + t + ") on " + k + " with availability ID " + a
    case WriteFailed(n, id) => "ERROR: Failed to assign " + n + " to shift " + id
    case ExceedsMax(n, m) =>
      "ERROR: " + n + " would exceed max_shifts limit (" + RenderNullInt(m) + "). Adjusting assigned_shifts."
    case Updated(n, a, t) => "Updated " + n + " with +" + IntToString(a) + " shifts (total: " + IntToString(t) + ")"
    case Total(c) => "Total shifts assigned: " + IntToString(c)
  }

  function Lines(mode: Mode, log: seq<LogEntry>): (r: seq<string>)
    ensures |r| == |log| && forall i :: 0 <= i < |log| ==> r[i] == Line(mode, log[i])
  {
    if log == [] then [] else [Line(mode, log[0])] + Lines(mode, log[1..])
  }

  // ---------------------------------------------------------------------------
  // Ordering: students by descending seniority, shifts by ascending start time.
  // Both JavaScript sorts are stable; both are modelled as insertion sorts.

  function InsertBySeniority(x: Student, s: seq<Student>): seq<Student> {
    if s == [] || s[0].seniority <= x.seniority then [x] + s
    else [s[0]] + InsertBySeniority(x, s[1..])
  }

  /** `students.sort((a, b) => (b.seniority || 0) - (a.seniority || 0))`. */
  function SortBySeniority(s: seq<Student>): seq<Student> {
    if s == [] then [] else InsertBySeniority(s[0], SortBySeniority(s[1..]))
  }

  predicate SeniorityDescending(s: seq<Student>) {
    forall i, j :: 0 <= i < j < |s| ==> s[j].seniority <= s[i].seniority
  }

  /** The students of one seniority, in their order. */
  function WithSeniority(s: seq<Student>, k: int): seq<Student> {
    if s == [] then []
    else (if s[0].seniority == k then [s[0]] else []) + WithSeniority(s[1..], k)
  }

  function StartKey(shift: Shift): string {
    shift.startTime
  }

  function InsertByStart(x: Shift, s: seq<Shift>): seq<Shift> {
    if s == [] || StrLe(StartKey(x), StartKey(s[0])) then [x] + s
    else [s[0]] + InsertByStart(x, s[1..])
  }

  /** `shifts.sort((a, b) => (a.start_time || '').localeCompare(b.start_time || ''))`. */
  function SortByStart(s: seq<Shift>): seq<Shift> {
    if s == [] then [] else InsertByStart(s[0], SortByStart(s[1..]))
  }

  /** The shifts with one start time, in their order. */
  function WithStart(s: seq<Shift>, k: string): seq<Shift> {
    if s == [] then []
    else (if StartKey(s[0]) == k then [s[0]] else []) + WithStart(s[1..], k)
  }

  predicate StartAscending(s: seq<Shift>) {
    forall i, j :: 0 <= i < j < |s| ==> StrLe(StartKey(s[i]), StartKey(s[j]))
  }

  // ---------------------------------------------------------------------------
  // Lemmas

  lemma {:induction false} InsertBySeniorityPerm(x: Student, s: seq<Student>)
    ensures multiset(InsertBySeniority(x, s)) == multiset(s) + multiset{x}
  {
    if !(s == [] || s[0].seniority <= x.seniority) {
      InsertBySeniorityPerm(x, s[1..]);
      assert s == [s[0]] + s[1..];
    }
  }

  /** Neighbours are in non-increasing seniority. */
  predicate SeniorityAdjacent(s: seq<Student>) {
    forall i :: 0 < i < |s| ==> s[i].seniority <= s[i - 1].seniority
  }

  lemma {:induction false} InsertBySenioritySorted(x: Student, s: seq<Student>)
    requires SeniorityAdjacent(s)
    ensures SeniorityAdjacent(InsertBySeniority(x, s))
  {
    if !(s == [] || s[0].seniority <= x.seniority) {
      InsertBySenioritySorted(x, s[1..]);
      var t := InsertBySeniority(x, s[1..]);
      var r := [s[0]] + t;
      assert t[0] == x || t[0] == s[1];
      forall i | 0 < i < |r| ensures r[i].seniority <= r[i - 1].seniority {
        if i > 1 { assert r[i] == t[i - 1] && r[i - 1] == t[i - 2]; }
      }
    }
  }

  lemma {:induction false} SeniorityAdjacentDescending(s: seq<Student>)
    requires SeniorityAdjacent(s)
    ensures SeniorityDescending(s)
  {
    if |s| > 1 {
      SeniorityAdjacentDescending(s[1..]);
      forall i, j | 0 <= i < j < |s| ensures s[j].seniority <= s[i].seniority {
        if i > 0 { assert s[i] == s[1..][i - 1] && s[j] == s[1..][j - 1]; }
        else if j > 1 { assert s[j] == s[1..][j - 1] && s[1] == s[1..][0]; }
      }
    }
  }

  lemma {:induction false} InsertBySeniorityStable(x: Student, s: seq<Student>, k: int)
    ensures WithSeniority(InsertBySeniority(x, s), k) ==
            (if x.seniority == k then [x] else []) + WithSeniority(s, k)
  {
    var own: seq<Student> := if x.seniority == k then [x] else [];
    if s == [] || s[0].seniority <= x.seniority {
      assert InsertBySeniority(x, s) == [x] + s;
      assert ([x] + s)[1..] == s;
    } else {
      var t := InsertBySeniority(x, s[1..]);
      InsertBySeniorityStable(x, s[1..], k);
      assert InsertBySeniority(x, s) == [s[0]] + t;
      assert ([s[0]] + t)[1..] == t;
      var head: seq<Student> := if s[0].seniority == k then [s[0]] else [];
      assert WithSeniority(s, k) == head + WithSeniority(s[1..], k);
      assert WithSeniority([s[0]] + t, k) == head + own + WithSeniority(s[1..], k);
      assert head == [] || own == [];
    }
  }

  /** Students come out in non-increasing seniority, as a permutation of the
      input, and students of equal seniority keep their input order. */
  lemma {:induction false} SortBySeniorityCorrect(s: seq<Student>)
    ensures SeniorityDescending(SortBySeniority(s))
    ensures multiset(SortBySeniority(s)) == multiset(s)
    ensures forall k :: WithSeniority(SortBySeniority(s), k) == WithSeniority(s, k)
  {
    SortBySenioritySorted(s);
    SeniorityAdjacentDescending(SortBySeniority(s));
    if s != [] {
      SortBySeniorityCorrect(s[1..]);
      InsertBySeniorityPerm(s[0], SortBySeniority(s[1..]));
      assert s == [s[0]] + s[1..];
      forall k ensures WithSeniority(SortBySeniority(s), k) == WithSeniority(s, k) {
        InsertBySeniorityStable(s[0], SortBySeniority(s[1..]), k);
      }
    }
  }

  lemma {:induction false} InsertByStartPerm(x: Shift, s: seq<Shift>)
    ensures multiset(InsertByStart(x, s)) == multiset(s) + multiset{x}
  {
    if !(s == [] || StrLe(StartKey(x), StartKey(s[0]))) {
      InsertByStartPerm(x, s[1..]);
      assert s == [s[0]] + s[1..];
    }
  }

  /** Neighbours are in ascending start time. */
  predicate StartAdjacent(s: seq<Shift>) {
    forall i :: 0 < i < |s| ==> StrLe(StartKey(s[i - 1]), StartKey(s[i]))
  }

  lemma {:induction false} InsertByStartSorted(x: Shift, s: seq<Shift>)
    requires StartAdjacent(s)
    ensures StartAdjacent(InsertByStart(x, s))
  {
    if !(s == [] || StrLe(StartKey(x), StartKey(s[0]))) {
      StrLeTotal(StartKey(x), StartKey(s[0]));
      InsertByStartSorted(x, s[1..]);
      var t := InsertByStart(x, s[1..]);
      var r := [s[0]] + t;
      assert t[0] == x || t[0] == s[1];
      forall i | 0 < i < |r| ensures StrLe(StartKey(r[i - 1]), StartKey(r[i])) {
        if i > 1 { assert r[i] == t[i - 1] && r[i - 1] == t[i - 2]; }
      }
    }
  }

  lemma {:induction false} StartAdjacentAscending(s: seq<Shift>)
    requires StartAdjacent(s)
    ensures StartAscending(s)
  {
    if |s| > 1 {
      StartAdjacentAscending(s[1..]);
      forall i, j | 0 <= i < j < |s| ensures StrLe(StartKey(s[i]), StartKey(s[j])) {
        if i > 0 { assert s[i] == s[1..][i - 1] && s[j] == s[1..][j - 1]; }
        else if j > 1 {
          assert s[j] == s[1..][j - 1] && s[1] == s[1..][0];
          StrLeTransitive(StartKey(s[0]), StartKey(s[1]), StartKey(s[j]));
        }
      }
    }
  }

  /** Each slot's shifts are visited in ascending start time, as a
      permutation of the slot's shifts. */
  lemma {:induction false} SortByStartCorrect(s: seq<Shift>)
    ensures StartAscending(SortByStart(s))
    ensures multiset(SortByStart(s)) == multiset(s)
    ensures forall k :: WithStart(SortByStart(s), k) == WithStart(s, k)
  {
    SortByStartSorted(s);
    StartAdjacentAscending(SortByStart(s));
    SortByStartPerm(s);
    SortByStartStable(s);
  }

  /** Shifts with the same start time keep their input order. */
  lemma {:induction false} SortByStartStable(s: seq<Shift>)
    ensures forall k :: WithStart(SortByStart(s), k) == WithStart(s, k)
  {
    if s != [] {
      SortByStartStable(s[1..]);
      assert s == [s[0]] + s[1..];
      forall k ensures WithStart(SortByStart(s), k) == WithStart(s, k) {
        InsertByStartStable(s[0], SortByStart(s[1..]), k);
      }
    }
  }

  /** A shift is inserted ahead of every shift with its own start time. */
  lemma {:induction false} InsertByStartStable(x: Shift, s: seq<Shift>, k: string)
    ensures WithStart(InsertByStart(x, s), k) == (if StartKey(x) == k then [x] else []) + WithStart(s, k)
  {
    var own: seq<Shift> := if StartKey(x) == k then [x] else [];
    if s == [] || StrLe(StartKey(x), StartKey(s[0])) {
      assert InsertByStart(x, s) == [x] + s;
      AppendTail([x], s);
    } else {
      var t := InsertByStart(x, s[1..]);
      InsertByStartStable(x, s[1..], k);
      assert InsertByStart(x, s) == [s[0]] + t;
      AppendTail([s[0]], t);
      var head: seq<Shift> := if StartKey(s[0]) == k then [s[0]] else [];
      var rest := WithStart(s[1..], k);
      assert WithStart(s, k) == head + rest;
      assert WithStart([s[0]] + t, k) == head + (own + rest);
      assert head == [] || own == [] by {
        StrLeReflexive(StartKey(x));
      }
      SwapEmpty(head, own, rest);
    }
  }

  lemma {:induction false} SortByStartPerm(s: seq<Shift>)
    ensures multiset(SortByStart(s)) == multiset(s)
  {
    if s != [] {
      SortByStartPerm(s[1..]);
      InsertByStartPerm(s[0], SortByStart(s[1..]));
      assert s == [s[0]] + s[1..];
    }
  }

  lemma {:induction false} SortBySenioritySorted(s: seq<Student>)
    ensures SeniorityAdjacent(SortBySeniority(s))
  {
    if s != [] {
      SortBySenioritySorted(s[1..]);
      InsertBySenioritySorted(s[0], SortBySeniority(s[1..]));
    }
  }

  lemma {:induction false} SortByStartSorted(s: seq<Shift>)
    ensures StartAdjacent(SortByStart(s))
  {
    if s != [] {
      SortByStartSorted(s[1..]);
      InsertByStartSorted(s[0], SortByStart(s[1..]));
    }
  }

  /** The copy sorts each slot's shift array in place once per student; a
      sorted array is left as it is, so every student sees the same order. */
  lemma {:induction false} SortByStartIdempotent(s: seq<Shift>)
    ensures SortByStart(SortByStart(s)) == SortByStart(s)
  {
    SortByStartSorted(s);
    SortedFixed(SortByStart(s));
  }

  lemma {:induction false} SortedFixed(s: seq<Shift>)
    requires StartAdjacent(s)
    ensures SortByStart(s) == s
  {
    if s != [] {
      SortedFixed(s[1..]);
      assert [s[0]] + s[1..] == s;
    }
  }

  /** A commit is the only way a shift's list grows; re-reading the list it
      wrote gives back exactly the real names, in order. */
  lemma {:induction false} RealOccupantsOfPadded(names: seq<string>, cap: int)
    requires forall x :: x in names ==> !IsOpenMarker(x)
    ensures RealOccupants(Padded(names, cap)) == names
    ensures |Padded(names, cap)| == if cap > |names| then cap else |names|
    ensures Padded(names, cap)[..|names|] == names
  {
    var n := if cap - |names| > 0 then cap - |names| else 0;
    OpenOnlyVanishes(n);
    RealOccupantsAppend(names, Repeat(OpenSeat, n));
    RealOccupantsIdentity(names);
  }

  lemma {:induction false} OpenOnlyVanishes(n: nat)
    ensures RealOccupants(Repeat(OpenSeat, n)) == []
  {
    if n > 0 {
      assert Repeat(OpenSeat, n)[1..] == Repeat(OpenSeat, n - 1);
      OpenOnlyVanishes(n - 1);
    }
  }

  lemma {:induction false} RealOccupantsAppend(a: seq<string>, b: seq<string>)
    ensures RealOccupants(a + b) == RealOccupants(a) + RealOccupants(b)
  {
    if a != [] {
      assert (a + b)[1..] == a[1..] + b;
      RealOccupantsAppend(a[1..], b);
    } else {
      assert a + b == b;
    }
  }

  lemma {:induction false} RealOccupantsIdentity(a: seq<string>)
    requires forall x :: x in a ==> !IsOpenMarker(x)
    ensures RealOccupants(a) == a
  {
    if a != [] {
      RealOccupantsIdentity(a[1..]);
    }
  }

  /** What the student gates let through: an eligible student, on the
      preferred desk when that flag is set, below `max_shifts`, with the
      remaining count as budget in max mode and otherwise `min(max_shifts,
      shifts_to_assign)`, or `shifts_to_assign` when `max_shifts` is unset. */
  lemma AdmitBudget(st: Student, desk: string, flags: Flags)
    requires Admit(st, desk, flags).Admitted?
    ensures IsEligibleForDesk(Jobs(st), desk)
    ensures flags.considerPreferredDesk ==> PrefersDesk(st, desk)
    ensures st.assignedShifts < MaxShifts(st)
    ensures var b := Admit(st, desk, flags).budget;
            (flags.setToMaxShifts ==> b == MaxShifts(st) - st.assignedShifts && b > 0) &&
            (!flags.setToMaxShifts && MaxShifts(st) != 0 ==>
               b <= flags.shiftsToAssign && b <= MaxShifts(st) && (b == flags.shiftsToAssign || b == MaxShifts(st))) &&
            (!flags.setToMaxShifts && MaxShifts(st) == 0 ==> b == flags.shiftsToAssign)
  {
  }

  /** The commits a student may receive: none for a student the gates stop;
      otherwise the remaining count `max_shifts - assigned_shifts` in max mode,
      and `min(max_shifts, shifts_to_assign)` (just `shifts_to_assign` when
      `max_shifts` is unset) in the other mode, never below zero. */
  lemma AllowanceMeaning(st: Student, desk: string, flags: Flags)
    ensures var a := Allowance(st, desk, flags);
            var rest := MaxShifts(st) - st.assignedShifts;
            var asked := flags.shiftsToAssign;
            (!Admit(st, desk, flags).Admitted? ==> a == 0) &&
            (Admit(st, desk, flags).Admitted? && flags.setToMaxShifts ==> a == rest && a > 0) &&
            (Admit(st, desk, flags).Admitted? && !flags.setToMaxShifts && MaxShifts(st) != 0 ==>
               a == (var m := if MaxShifts(st) < asked then MaxShifts(st) else asked; if m > 0 then m else 0)) &&
            (Admit(st, desk, flags).Admitted? && !flags.setToMaxShifts && MaxShifts(st) == 0 ==>
               a == if asked > 0 then asked else 0)
  {
    if Admit(st, desk, flags).Admitted? {
      AdmitBudget(st, desk, flags);
    }
  }

  /** In max mode the count never needs clamping: the stored value is the plain sum. */
  lemma MaxModeNeverClamps(st: Student, desk: string, flags: Flags, added: nat)
    requires flags.setToMaxShifts && added <= Allowance(st, desk, flags)
    requires Admit(st, desk, flags).Admitted?
    ensures StoredAssigned(st, added) == Some(st.assignedShifts + added)
  {
  }

  /** The clamp: with `max_shifts` set, the stored count is the minimum of the
      sum and `max_shifts`; with it null, a sum above 0 stores null. */
  lemma StoredAssignedIsMin(st: Student, added: nat)
    ensures var r := StoredAssigned(st, added);
            var sum := st.assignedShifts + added;
            (st.maxShifts.Some? ==> r.Some? && r.value <= st.maxShifts.value && r.value <= sum &&
                                    (r.value == st.maxShifts.value || r.value == sum)) &&
            (st.maxShifts.None? ==> (r.None? <==> sum > 0) && (r.Some? ==> r.value == sum))
  {
  }

  /** The availability map holds a key exactly when some record has it. */
  lemma {:induction false} AvailabilityIndexDomain(mode: Mode, recs: seq<AvailabilityRecord>, key: string)
    ensures key in AvailabilityIndex(mode, recs) <==> exists i :: 0 <= i < |recs| && RecordKey(mode, recs[i]) == key
  {
    if recs != [] {
      var init := recs[..|recs| - 1];
      AvailabilityIndexDomain(mode, init, key);
      if RecordKey(mode, recs[|recs| - 1]) != key {
        if exists i :: 0 <= i < |recs| && RecordKey(mode, recs[i]) == key {
          var i :| 0 <= i < |recs| && RecordKey(mode, recs[i]) == key;
          assert init[i] == recs[i];
        }
      }
    }
  }

  /** A later record overwrites an earlier one: the map holds the status of
      the last record with the key. */
  lemma {:induction false} AvailabilityIndexLast(mode: Mode, recs: seq<AvailabilityRecord>, i: nat)
    requires i < |recs|
    requires forall j :: i < j < |recs| ==> RecordKey(mode, recs[j]) != RecordKey(mode, recs[i])
    ensures RecordKey(mode, recs[i]) in AvailabilityIndex(mode, recs)
    ensures AvailabilityIndex(mode, recs)[RecordKey(mode, recs[i])] == recs[i].scheduledStatus
  {
    if i < |recs| - 1 {
      var init := recs[..|recs| - 1];
      assert init[i] == recs[i];
      AvailabilityIndexLast(mode, init, i);
    }
  }

  /** A shift is offered to a student only if some fetched record for that
      student, slot key and time range says first or second choice. */
  lemma AvailableHasRecord(mode: Mode, recs: seq<AvailabilityRecord>, key: string)
    requires IsAvailable(AvailabilityIndex(mode, recs), key)
    ensures exists i :: 0 <= i < |recs| && RecordKey(mode, recs[i]) == key && IsChoice(recs[i].scheduledStatus)
  {
    AvailabilityIndexDomain(mode, recs, key);
    var i :| 0 <= i < |recs| && RecordKey(mode, recs[i]) == key;
    while exists j :: i < j < |recs| && RecordKey(mode, recs[j]) == key
      invariant 0 <= i < |recs| && RecordKey(mode, recs[i]) == key
      decreases |recs| - i
    {
      var j :| i < j < |recs| && RecordKey(mode, recs[j]) == key;
      i := j;
    }
    AvailabilityIndexLast(mode, recs, i);
  }

  /** Adding a shift that touches an earlier one (or the first of its day) keeps the chain. */
  lemma ChainAppend(s: seq<Shift>, x: Shift)
    requires ChainOk(s)
    requires s == [] || AnyConsecutive(s, x)
    ensures ChainOk(s + [x])
  {
    var r := s + [x];
    forall i | 0 < i < |r| ensures AnyConsecutive(r[..i], r[i]) {
      if i < |s| {
        assert r[..i] == s[..i];
      } else {
        assert r[..i] == s;
      }
    }
  }

  /** The engine's token test is stricter than the listing's substring test:
      eligibility for the desk implies that the lower-cased job string
      contains the lower-cased desk name. */
  lemma EligibleImpliesJobsMention(jobs: string, desk: string)
    requires IsEligibleForDesk(Split(jobs, ','), desk)
    ensures Contains(ToLower(jobs), ToLower(desk))
  {
    var j :| j in Split(jobs, ',') && ToLower(Trim(j)) == ToLower(desk);
    var a, b := SplitPieceIsInfix(jobs, ',', j);
    var c, e := TrimIsInfix(j);
    InfixOfInfix(jobs, a, j, b, c, Trim(j), e);
    LowerInfixContained(a + c, Trim(j), e + b);
  }

  lemma InfixOfInfix(s: string, a: string, j: string, b: string, c: string, m: string, e: string)
    requires s == a + j + b && j == c + m + e
    ensures s == (a + c) + m + (e + b)
  {
    AppendAssoc(a, c + m + e, b);
    AppendAssoc(a, c + m, e);
    AppendAssoc(a, c, m);
    AppendAssoc(a + c + m, e, b);
  }

  /** Eligibility is token equality, not substring: a job named
      `circulation` does not make a student eligible for desk `circ`, though
      the listing's substring test would let it through. */
  lemma EligibilityIsNotSubstring()
    ensures !IsEligibleForDesk(Split("circulation", ','), "circ")
    ensures Contains(ToLower("circulation"), ToLower("circ"))
  {
    NotEligibleCirculation();
    assert "circulation" == [] + "circ" + "ulation";
    LowerInfixContained([], "circ", "ulation");
  }

  lemma NotEligibleCirculation()
    ensures !IsEligibleForDesk(Split("circulation", ','), "circ")
  {
    SplitNoSeparator("circulation", ',');
    TrimCirculation();
    SingleJobOfOtherLength(Split("circulation", ','), "circulation", "circ");
  }

  /** A single job whose trimmed text is not as long as the desk name never matches it. */
  lemma SingleJobOfOtherLength(jobs: seq<string>, job: string, desk: string)
    requires jobs == [job] && |Trim(job)| != |desk|
    ensures !IsEligibleForDesk(jobs, desk)
  {
    assert |ToLower(Trim(job))| != |ToLower(desk)|;
  }

  lemma TrimCirculation()
    ensures Trim("circulation") == "circulation"
  {
    var s := "circulation";
    assert !IsSpace(s[0]) && !IsSpace(s[|s| - 1]);
    assert TrimStart(s) == s;
    assert TrimEnd(s) == s;
  }

  /** The desk name is not trimmed: a name that starts with white space
      matches no job, since every trimmed job starts with something else. */
  lemma DeskNameNotTrimmed(jobs: seq<string>, desk: string)
    requires desk != [] && IsSpace(desk[0])
    ensures !IsEligibleForDesk(jobs, desk)
  {
    forall j | j in jobs ensures ToLower(Trim(j)) != ToLower(desk) {
      var t := Trim(j);
      if t != [] {
        TrimStartsWithNonSpace(j);
        assert ToLower(t)[0] == LowerChar(t[0]) && ToLower(desk)[0] == LowerChar(desk[0]);
      }
    }
  }

  lemma TrimStartsWithNonSpace(j: string)
    requires Trim(j) != []
    ensures !IsSpace(Trim(j)[0])
  {
    var u := TrimStart(j);
    assert Trim(j) == u[..|Trim(j)|];
  }
}

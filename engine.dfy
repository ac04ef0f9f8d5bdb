/** The greedy assignment pass of both engine copies: one object holding the
    maps and counters the request handler mutates, its nested loops over
    students, slots and shifts, and the top-level entry point. Database
    reads become the inputs, the shift write becomes the set of failing
    write numbers, and every other database write is left out. */
module Assignments {
  import opened Wrappers
  import opened Text
  import opened Rules
  import opened History

  /** Every shift of the desk has its initial occupants in the map. */
  predicate ContextOk(ctx: Context) {
    forall slot, x :: slot in ctx.slots && x in slot.shifts ==>
      x.id in ctx.initial && ctx.initial[x.id] == RealOccupants(x.studentsDetailed)
  }

  function HeaderOf(ctx: Context): LogEntry {
    Header(ctx.desk, ctx.year, ctx.termOrBreak)
  }

  /** What the engine reads, from the request inputs: students in the order
      the seniority sort leaves them, the merged availability map, and the
      initial occupant map. */
  function MakeContext(mode: Mode, desk: string, year: string, termOrBreak: string, flags: Flags,
                       students: seq<Student>, slots: seq<Slot>, records: seq<AvailabilityRecord>,
                       failures: set<nat>): Context
  {
    Context(mode, desk, year, termOrBreak, flags, SortBySeniority(students), slots,
            AvailabilityIndex(mode, records), InitialOccupants(slots), failures)
  }

  /** The engine's mutable state, gathered for frame statements. */
  datatype EngineState = EngineState(
    occupants: map<string, seq<string>>,
    used: map<string, set<string>>,
    log: seq<LogEntry>,
    total: nat,
    writes: nat,
    commits: seq<Commit>,
    updates: seq<StudentUpdate>)

  /** What a student's finalisation writes to the log. */
  function UpdateEntries(st: Student, added: nat): seq<LogEntry> {
    var sum := st.assignedShifts + added;
    (if sum > MaxShifts(st) then [ExceedsMax(st.preferredName, st.maxShifts)] else []) +
    [Updated(st.preferredName, added, sum)]
  }

  /** The log entry of a student stopped by one of the student gates. */
  function SkipEntry(st: Student, a: Admission): LogEntry
    requires !a.Admitted?
  {
    match a
    case Ineligible => NotEligible(st.preferredName)
    case DeskMismatch => PreferredDeskMismatch(st.preferredName, st.preferredDesk)
    case AtMax => MaxReached(st.preferredName, st.maxShifts)
  }

  /** The `assigned_shifts` writes for the students before position `n`, in
      order: one for each student that received commits, with the stored
      (clamped) total. */
  function UpdatesFor(ctx: Context, cs: seq<Commit>, n: nat): seq<StudentUpdate>
    requires n <= |ctx.students|
  {
    if n == 0 then []
    else
      var q := n - 1;
      var st := ctx.students[q];
      UpdatesFor(ctx, cs, q) +
      (if CountAt(cs, q) > 0 then [StudentUpdate(q, st.id, StoredAssigned(st, CountAt(cs, q)))] else [])
  }

  /** An update is written exactly for a student with commits, carrying the
      clamped sum of its old and new counts. */
  lemma {:induction false} UpdatesForMeaning(ctx: Context, cs: seq<Commit>, n: nat, u: StudentUpdate)
    requires n <= |ctx.students|
    ensures u in UpdatesFor(ctx, cs, n) <==>
      u.position < n && CountAt(cs, u.position) > 0 &&
      u.studentId == ctx.students[u.position].id &&
      u.assignedShifts == StoredAssigned(ctx.students[u.position], CountAt(cs, u.position))
  {
    if n > 0 {
      UpdatesForMeaning(ctx, cs, n - 1, u);
    }
  }

  /** The updates come in student order, at most one per student. */
  lemma {:induction false} UpdatesForOrdered(ctx: Context, cs: seq<Commit>, n: nat)
    requires n <= |ctx.students|
    ensures forall k :: 0 <= k < |UpdatesFor(ctx, cs, n)| ==> UpdatesFor(ctx, cs, n)[k].position < n
    ensures forall k, l :: 0 <= k < l < |UpdatesFor(ctx, cs, n)| ==>
      UpdatesFor(ctx, cs, n)[k].position < UpdatesFor(ctx, cs, n)[l].position
  {
    if n > 0 {
      UpdatesForOrdered(ctx, cs, n - 1);
    }
  }

  /** The updates before `n` depend only on the counts before `n`. */
  lemma {:induction false} UpdatesForSame(ctx: Context, cs: seq<Commit>, cs': seq<Commit>, n: nat)
    requires n <= |ctx.students|
    requires forall q: nat :: q < n ==> CountAt(cs, q) == CountAt(cs', q)
    ensures UpdatesFor(ctx, cs, n) == UpdatesFor(ctx, cs', n)
  {
    if n > 0 {
      UpdatesForSame(ctx, cs, cs', n - 1);
    }
  }

  /** The availability map, filled record by record. */
  method BuildIndex(mode: Mode, records: seq<AvailabilityRecord>) returns (index: map<string, string>)
    ensures index == AvailabilityIndex(mode, records)
  {
    index := map[];
    var i := 0;
    while i < |records|
      invariant 0 <= i <= |records|
      invariant index == AvailabilityIndex(mode, records[..i])
    {
      assert records[..i + 1][..i] == records[..i];
      index := index[RecordKey(mode, records[i]) := records[i].scheduledStatus];
      i := i + 1;
    }
    assert records[..i] == records;
  }

  /** The initial occupant map, filled slot by slot. */
  method BuildInitial(slots: seq<Slot>) returns (initial: map<string, seq<string>>)
    ensures initial == InitialOccupants(slots)
  {
    initial := map[];
    var s := 0;
    while s < |slots|
      invariant 0 <= s <= |slots|
      invariant initial == OccupantIndex(ShiftsOf(slots[..s]))
    {
      initial := AddShifts(initial, ShiftsOf(slots[..s]), slots[s].shifts);
      assert slots[..s + 1][..s] == slots[..s];
      s := s + 1;
    }
    assert slots[..s] == slots;
  }

  /** The inner loop: one slot's shifts, each mapped to its real occupants. */
  method AddShifts(initial: map<string, seq<string>>, done: seq<Shift>, shifts: seq<Shift>)
    returns (r: map<string, seq<string>>)
    requires initial == OccupantIndex(done)
    ensures r == OccupantIndex(done + shifts)
  {
    r := initial;
    var j := 0;
    assert done + shifts[..0] == done;
    while j < |shifts|
      invariant 0 <= j <= |shifts|
      invariant r == OccupantIndex(done + shifts[..j])
    {
      AddShiftsNext(done, shifts, j, r);
      r := r[shifts[j].id := RealOccupants(shifts[j].studentsDetailed)];
      j := j + 1;
    }
    assert shifts[..j] == shifts;
  }

  lemma AddShiftsNext(done: seq<Shift>, shifts: seq<Shift>, j: nat, r: map<string, seq<string>>)
    requires j < |shifts| && r == OccupantIndex(done + shifts[..j])
    ensures r[shifts[j].id := RealOccupants(shifts[j].studentsDetailed)] == OccupantIndex(done + shifts[..j + 1])
  {
    assert done + shifts[..j + 1] == (done + shifts[..j]) + [shifts[j]];
    OccupantIndexSnoc(done + shifts[..j], shifts[j]);
  }

  /** The occupant map is the initial one plus the committed names. */
  ghost predicate OccupantsOk(ctx: Context, occupants: map<string, seq<string>>, cs: seq<Commit>) {
    occupants.Keys == ctx.initial.Keys &&
    forall id :: id in ctx.initial ==> occupants[id] == ctx.initial[id] + NamesFor(cs, id)
  }

  /** The consumed-key map holds, per student id, the keys of its commits. */
  ghost predicate UsedOk(used: map<string, set<string>>, cs: seq<Commit>) {
    (forall sid :: sid in used ==> used[sid] == UsedKeysOf(cs, sid)) &&
    (forall sid :: sid !in used ==> UsedKeysOf(cs, sid) == {})
  }

  /** The log starts with the header, its `Assigned` lines are the commits,
      and its error lines are the failed writes (term mode) or absent (interim). */
  ghost predicate LogOk(ctx: Context, log: seq<LogEntry>, cs: seq<Commit>, writes: nat) {
    |log| >= 1 && log[0] == HeaderOf(ctx) &&
    AssignedEntries(log) == Entries(ctx.mode, cs) &&
    (cs != [] ==> Last(cs).attempt < writes) &&
    FailedCount(log) == (if ctx.mode == Term then writes - |cs| else 0)
  }

  /** The engine invariant, on a state value. */
  ghost predicate Inv(ctx: Context, s: EngineState) {
    ContextOk(ctx) && HistoryOk(ctx, s.commits) && s.total == |s.commits| &&
    OccupantsOk(ctx, s.occupants, s.commits) && UsedOk(s.used, s.commits) &&
    LogOk(ctx, s.log, s.commits, s.writes)
  }

  /** The per-student locals `assignedSoFar` and `assignedShiftsByDay`
      (by date in interim mode) agree with the commits of student `p`. */
  ghost predicate LocalsOk(ctx: Context, s: EngineState, p: nat, count: nat, byDay: map<string, seq<Shift>>) {
    (s.commits != [] ==> Last(s.commits).position <= p) &&
    count == CountAt(s.commits, p) &&
    (forall d :: DayShifts(ctx.mode, s.commits, p, d) == if d in byDay then byDay[d] else [])
  }

  /** A skip line keeps the invariant. */
  lemma InvSkipLine(ctx: Context, s: EngineState, e: LogEntry)
    requires Inv(ctx, s) && !e.Assigned? && !e.WriteFailed?
    ensures Inv(ctx, s.(log := s.log + [e]))
  {
    LogSkipLine(ctx, s.log, s.commits, s.writes, e);
  }

  lemma LogSkipLine(ctx: Context, log: seq<LogEntry>, cs: seq<Commit>, writes: nat, e: LogEntry)
    requires LogOk(ctx, log, cs, writes) && !e.Assigned? && !e.WriteFailed?
    ensures LogOk(ctx, log + [e], cs, writes)
  {
    AppendLog(log, e);
  }

  /** A failed shift write changes only the write counter and, in term mode,
      adds one error line. */
  lemma InvWriteFailed(ctx: Context, s: EngineState, name: string, id: string)
    requires Inv(ctx, s)
    ensures Inv(ctx, s.(writes := s.writes + 1, log := s.log + (if ctx.mode == Term then [WriteFailed(name, id)] else [])))
  {
    LogWriteFailed(ctx, s.log, s.commits, s.writes, name, id);
  }

  lemma LogWriteFailed(ctx: Context, log: seq<LogEntry>, cs: seq<Commit>, writes: nat, name: string, id: string)
    requires LogOk(ctx, log, cs, writes)
    ensures LogOk(ctx, log + (if ctx.mode == Term then [WriteFailed(name, id)] else []), cs, writes + 1)
  {
    if ctx.mode == Term {
      AppendLog(log, WriteFailed(name, id));
    } else {
      assert log + [] == log;
    }
  }

  lemma OccupantsCommit(ctx: Context, occupants: map<string, seq<string>>, cs: seq<Commit>, c: Commit)
    requires OccupantsOk(ctx, occupants, cs) && c.shift.id in ctx.initial && c.before == occupants[c.shift.id]
    ensures OccupantsOk(ctx, occupants[c.shift.id := c.before + [NameOf(c)]], cs + [c])
  {
    AppendNames(cs, c);
  }

  lemma UsedCommit(used: map<string, set<string>>, cs: seq<Commit>, c: Commit)
    requires UsedOk(used, cs) && c.student.id in used
    ensures UsedOk(used[c.student.id := used[c.student.id] + {UsedKeyOf(c)}], cs + [c])
  {
    AppendUsed(cs, c);
  }

  lemma LogCommit(ctx: Context, log: seq<LogEntry>, cs: seq<Commit>, writes: nat, c: Commit)
    requires LogOk(ctx, log, cs, writes) && c.attempt == writes
    ensures LogOk(ctx, log + [EntryOf(ctx.mode, c)], cs + [c], writes + 1)
  {
    AppendEntries(ctx.mode, cs, c);
    AppendLog(log, EntryOf(ctx.mode, c));
  }

  /** The per-student locals after a commit: one more shift, on its day. */
  lemma LocalsCommit(ctx: Context, s: EngineState, p: nat, count: nat, byDay: map<string, seq<Shift>>, c: Commit)
    requires LocalsOk(ctx, s, p, count, byDay) && c.position == p && c.student.id in s.used
    ensures var day := DayOf(ctx.mode, c);
            var prior := if day in byDay then byDay[day] else [];
            LocalsOk(ctx, Committed(ctx.mode, s, c), p, count + 1, byDay[day := prior + [c.shift]])
  {
    AppendCount(s.commits, c);
    AppendDays(ctx.mode, s.commits, c);
  }

  /** The gates the engine applies before a write, stated on a state value. */
  ghost predicate GatesPassed(ctx: Context, s: EngineState, p: nat, count: nat, byDay: map<string, seq<Shift>>, c: Commit) {
    p < |ctx.students| && count < AllowanceAt(ctx, p) &&
    c.position == p && c.student == ctx.students[p] && c.attempt == s.writes &&
    c.slot in ctx.slots && c.shift in c.slot.shifts && c.student.id in s.used &&
    Admit(c.student, ctx.desk, ctx.flags).Admitted? &&
    IsAvailable(ctx.index, AvailabilityKeyOf(ctx.mode, c)) &&
    UsedKeyOf(c) !in s.used[c.student.id] &&
    c.shift.id in s.occupants && c.before == s.occupants[c.shift.id] &&
    NameOf(c) !in c.before && HasAvailableSpace(c.shift, c.before) &&
    c.written == Padded(c.before + [NameOf(c)], Capacity(c.shift)) &&
    (var prior := if DayOf(ctx.mode, c) in byDay then byDay[DayOf(ctx.mode, c)] else [];
     prior == [] || AnyConsecutive(prior, c.shift))
  }

  /** The state after a successful write of commit `c`. */
  function Committed(mode: Mode, s: EngineState, c: Commit): EngineState {
    var sid := c.student.id;
    s.(occupants := s.occupants[c.shift.id := c.before + [NameOf(c)]],
       used := if sid in s.used then s.used[sid := s.used[sid] + {UsedKeyOf(c)}] else s.used,
       log := s.log + [EntryOf(mode, c)],
       total := s.total + 1,
       writes := s.writes + 1,
       commits := s.commits + [c])
  }

  /** A commit that passed every gate extends a valid history. */
  lemma HistoryCommit(ctx: Context, s: EngineState, p: nat, count: nat, byDay: map<string, seq<Shift>>, c: Commit)
    requires Inv(ctx, s) && LocalsOk(ctx, s, p, count, byDay)
    requires GatesPassed(ctx, s, p, count, byDay, c) && s.writes !in ctx.failures
    ensures HistoryOk(ctx, s.commits + [c])
  {
    assert CommitOk(ctx, c);
    assert c.before == ctx.initial[c.shift.id] + NamesFor(s.commits, c.shift.id);
    assert UsedKeyOf(c) !in UsedKeysOf(s.commits, c.student.id);
    assert ChainStep(ctx.mode, s.commits, c);
    assert Admissible(ctx, s.commits, c);
    HistoryAppend(ctx, s.commits, c);
  }

  /** A commit that passed every gate keeps the invariant. */
  lemma InvCommit(ctx: Context, s: EngineState, p: nat, count: nat, byDay: map<string, seq<Shift>>, c: Commit)
    requires Inv(ctx, s) && LocalsOk(ctx, s, p, count, byDay)
    requires GatesPassed(ctx, s, p, count, byDay, c) && s.writes !in ctx.failures
    ensures Inv(ctx, Committed(ctx.mode, s, c))
  {
    HistoryCommit(ctx, s, p, count, byDay, c);
    OccupantsCommit(ctx, s.occupants, s.commits, c);
    UsedCommit(s.used, s.commits, c);
    LogCommit(ctx, s.log, s.commits, s.writes, c);
  }

  /** The state before any student: nothing committed, the header logged. */
  lemma InvInitial(ctx: Context)
    requires ContextOk(ctx)
    ensures Inv(ctx, EngineState(ctx.initial, map[], [HeaderOf(ctx)], 0, 0, [], []))
  {
    AppendLog([], HeaderOf(ctx));
    assert [] + [HeaderOf(ctx)] == [HeaderOf(ctx)];
  }

  /** Registering an empty key set for a new student id keeps the invariant. */
  lemma InvAddUsed(ctx: Context, s: EngineState, sid: string)
    requires Inv(ctx, s) && sid !in s.used
    ensures Inv(ctx, s.(used := s.used[sid := {}]))
  {
    UsedAddEmpty(s.used, s.commits, sid);
  }

  lemma UsedAddEmpty(used: map<string, set<string>>, cs: seq<Commit>, sid: string)
    requires UsedOk(used, cs) && sid !in used
    ensures UsedOk(used[sid := {}], cs)
  {
  }

  /** Before any of its shifts, a student's locals are empty. */
  lemma LocalsFresh(ctx: Context, s: EngineState, p: nat)
    requires HistoryOk(ctx, s.commits) && (s.commits != [] ==> Last(s.commits).position < p)
    ensures LocalsOk(ctx, s, p, 0, map[])
  {
    NothingAfter(ctx, s.commits, p);
  }

  /** Lines that are neither assignments nor write failures keep the invariant. */
  lemma InvSkipLines(ctx: Context, s: EngineState, es: seq<LogEntry>)
    requires Inv(ctx, s)
    requires forall k :: 0 <= k < |es| ==> !es[k].Assigned? && !es[k].WriteFailed?
    ensures Inv(ctx, s.(log := s.log + es))
  {
    LogSkipLines(ctx, s.log, s.commits, s.writes, es);
  }

  lemma {:induction false} LogSkipLines(ctx: Context, log: seq<LogEntry>, cs: seq<Commit>, writes: nat, es: seq<LogEntry>)
    requires LogOk(ctx, log, cs, writes)
    requires forall k :: 0 <= k < |es| ==> !es[k].Assigned? && !es[k].WriteFailed?
    ensures LogOk(ctx, log + es, cs, writes)
    decreases |es|
  {
    if es == [] {
      assert log + es == log;
    } else {
      LogSkipLine(ctx, log, cs, writes, es[0]);
      LogSkipLines(ctx, log + [es[0]], cs, writes, es[1..]);
      AppendAssoc(log, [es[0]], es[1..]);
      assert [es[0]] + es[1..] == es;
    }
  }

  // ---------------------------------------------------------------------------
  // The pass, as functions of the state

  /** The state with the per-student locals `assignedSoFar` and
      `assignedShiftsByDay`. */
  datatype Step = Step(state: EngineState, count: nat, byDay: map<string, seq<Shift>>)

  /** `shiftAssignments.get(shift.id) || []`. */
  function CurrentOf(s: EngineState, shift: Shift): seq<string> {
    if shift.id in s.occupants then s.occupants[shift.id] else []
  }

  /** `assignedShiftsByDay[day] || []`. */
  function PriorOf(byDay: map<string, seq<Shift>>, day: string): seq<Shift> {
    if day in byDay then byDay[day] else []
  }

  /** One candidate shift for the student at position `p`. */
  function StepShift(ctx: Context, s: EngineState, p: nat, slot: Slot, shift: Shift,
                     count: nat, byDay: map<string, seq<Shift>>): Step
    requires p < |ctx.students|
  {
    var st := ctx.students[p];
    var name := st.preferredName;
    var day := SlotKey(ctx.mode, slot);
    var here := Step(s, count, byDay);
    if !IsAvailable(ctx.index, AvailabilityKey(ctx.mode, st, slot, shift)) then
      here.(state := s.(log := s.log + [NotAvailable(name, day, TimeSlot(shift))]))
    else if st.id in s.used && UsedTimeKey(st, slot, shift) in s.used[st.id] then
      here.(state := s.(log := s.log + [AlreadyAssigned(name)]))
    else
      var cur := CurrentOf(s, shift);
      var prior := PriorOf(byDay, day);
      if name in cur || !HasAvailableSpace(shift, cur) || (prior != [] && !AnyConsecutive(prior, shift)) then
        here
      else if s.writes in ctx.failures then
        var failed := if ctx.mode == Term then [WriteFailed(name, shift.id)] else [];
        here.(state := s.(writes := s.writes + 1, log := s.log + failed))
      else
        var c := Commit(p, st, slot, shift, s.writes, cur, Padded(cur + [name], Capacity(shift)));
        Step(Committed(ctx.mode, s, c), count + 1, byDay[day := prior + [shift]])
  }

  /** An unavailable shift logs exactly one skip line and changes nothing else. */
  lemma UnavailableLogsOneLine(ctx: Context, s: EngineState, p: nat, slot: Slot, shift: Shift,
                               count: nat, byDay: map<string, seq<Shift>>)
    requires p < |ctx.students|
    requires !IsAvailable(ctx.index, AvailabilityKey(ctx.mode, ctx.students[p], slot, shift))
    ensures var r := StepShift(ctx, s, p, slot, shift, count, byDay);
            r.count == count && r.byDay == byDay &&
            r.state == s.(log := s.log + [NotAvailable(ctx.students[p].preferredName, SlotKey(ctx.mode, slot), TimeSlot(shift))])
  {
  }

  /** A refused shift write: the interim copy leaves the occupants, the
      consumed keys, the counters and the log as they were; the term copy
      adds one error line. Only the write number moves on. */
  lemma FailedWriteChangesNothing(ctx: Context, s: EngineState, p: nat, slot: Slot, shift: Shift,
                                  count: nat, byDay: map<string, seq<Shift>>)
    requires p < |ctx.students| && ctx.students[p].id in s.used
    requires var st := ctx.students[p];
             var cur := CurrentOf(s, shift);
             var prior := PriorOf(byDay, SlotKey(ctx.mode, slot));
             IsAvailable(ctx.index, AvailabilityKey(ctx.mode, st, slot, shift)) &&
             UsedTimeKey(st, slot, shift) !in s.used[st.id] &&
             st.preferredName !in cur && HasAvailableSpace(shift, cur) &&
             (prior == [] || AnyConsecutive(prior, shift))
    requires s.writes in ctx.failures
    ensures var r := StepShift(ctx, s, p, slot, shift, count, byDay);
            r.count == count && r.byDay == byDay &&
            r.state.occupants == s.occupants && r.state.used == s.used && r.state.total == s.total &&
            r.state.commits == s.commits && r.state.updates == s.updates && r.state.writes == s.writes + 1 &&
            r.state.log == s.log + (if ctx.mode == Term then [WriteFailed(ctx.students[p].preferredName, shift.id)] else [])
  {
  }

  /** The update lines: an error line exactly when the sum passes
      `max_shifts`, then the update line with the unclamped sum. */
  lemma UpdateLinesReportSum(st: Student, added: nat)
    ensures var es := UpdateEntries(st, added);
            var sum := st.assignedShifts + added;
            es[|es| - 1] == Updated(st.preferredName, added, sum) &&
            (|es| == 2 <==> sum > MaxShifts(st)) &&
            (|es| == 2 ==> es[0] == ExceedsMax(st.preferredName, st.maxShifts))
  {
  }

  /** The shifts of one slot from index `i` on, stopping at the budget. */
  function ShiftsFrom(ctx: Context, s: EngineState, p: nat, slot: Slot, shifts: seq<Shift>, i: nat,
                      budget: int, count: nat, byDay: map<string, seq<Shift>>): Step
    requires p < |ctx.students| && i <= |shifts|
    decreases |shifts| - i
  {
    if i == |shifts| || count >= budget then Step(s, count, byDay)
    else
      var r := StepShift(ctx, s, p, slot, shifts[i], count, byDay);
      ShiftsFrom(ctx, r.state, p, slot, shifts, i + 1, budget, r.count, r.byDay)
  }

  /** The slots from index `j` on, each with its shifts in start-time order,
      stopping at the budget. */
  function SlotsFrom(ctx: Context, s: EngineState, p: nat, j: nat,
                     budget: int, count: nat, byDay: map<string, seq<Shift>>): Step
    requires p < |ctx.students| && j <= |ctx.slots|
    decreases |ctx.slots| - j
  {
    if j == |ctx.slots| || count >= budget then Step(s, count, byDay)
    else
      var slot := ctx.slots[j];
      var r := ShiftsFrom(ctx, s, p, slot, SortByStart(slot.shifts), 0, budget, count, byDay);
      SlotsFrom(ctx, r.state, p, j + 1, budget, r.count, r.byDay)
  }

  /** The state after the `assigned_shifts` update of a student with `n > 0` new shifts. */
  function Finished(s: EngineState, p: nat, st: Student, n: nat): EngineState {
    s.(log := s.log + UpdateEntries(st, n),
       updates := s.updates + [StudentUpdate(p, st.id, StoredAssigned(st, n))])
  }

  /** One student: the student gates, the slots, the update. */
  function StudentPass(ctx: Context, s: EngineState, p: nat): EngineState
    requires p < |ctx.students|
  {
    var st := ctx.students[p];
    var a := Admit(st, ctx.desk, ctx.flags);
    if !a.Admitted? then s.(log := s.log + [SkipEntry(st, a)])
    else
      var s1 := if st.id in s.used then s else s.(used := s.used[st.id := {}]);
      var r := SlotsFrom(ctx, s1, p, 0, a.budget, 0, map[]);
      if r.count > 0 then Finished(r.state, p, st, r.count) else r.state
  }

  /** The students from position `p` on. */
  function StudentsFrom(ctx: Context, s: EngineState, p: nat): EngineState
    requires p <= |ctx.students|
    decreases |ctx.students| - p
  {
    if p == |ctx.students| then s else StudentsFrom(ctx, StudentPass(ctx, s, p), p + 1)
  }

  /** The state before the first student. */
  function InitialState(ctx: Context): EngineState {
    EngineState(ctx.initial, map[], [HeaderOf(ctx)], 0, 0, [], [])
  }

  /** The whole pass, ending with the total line. */
  function Pass(ctx: Context): EngineState {
    var s := StudentsFrom(ctx, InitialState(ctx), 0);
    s.(log := s.log + [Total(s.total)])
  }

  // ---------------------------------------------------------------------------
  // The pass keeps the invariant

  /** `t` has the counts of `s` for every student other than the one at `p`. */
  ghost predicate Unmoved(s: EngineState, t: EngineState, p: nat) {
    forall q: nat :: q != p ==> CountAt(t.commits, q) == CountAt(s.commits, q)
  }

  /** What every step of one student's pass guarantees: the invariant and
      the locals hold, only the student at `p` received commits, no update
      was written, and the count stays within `bound`. */
  ghost predicate StepOk(ctx: Context, s: EngineState, p: nat, bound: int, r: Step) {
    p < |ctx.students| && Inv(ctx, r.state) && LocalsOk(ctx, r.state, p, r.count, r.byDay) &&
    Unmoved(s, r.state, p) && r.state.updates == s.updates && ctx.students[p].id in r.state.used &&
    r.count <= bound
  }

  lemma StepSkipOk(ctx: Context, s: EngineState, p: nat, count: nat, byDay: map<string, seq<Shift>>, e: LogEntry)
    requires Inv(ctx, s) && LocalsOk(ctx, s, p, count, byDay) && p < |ctx.students| && ctx.students[p].id in s.used
    requires !e.Assigned? && !e.WriteFailed?
    ensures StepOk(ctx, s, p, count + 1, Step(s.(log := s.log + [e]), count, byDay))
  {
    InvSkipLine(ctx, s, e);
  }

  lemma StepSameOk(ctx: Context, s: EngineState, p: nat, count: nat, byDay: map<string, seq<Shift>>)
    requires Inv(ctx, s) && LocalsOk(ctx, s, p, count, byDay) && p < |ctx.students| && ctx.students[p].id in s.used
    ensures StepOk(ctx, s, p, count + 1, Step(s, count, byDay))
  {
  }

  lemma StepFailOk(ctx: Context, s: EngineState, p: nat, count: nat, byDay: map<string, seq<Shift>>, shift: Shift)
    requires Inv(ctx, s) && LocalsOk(ctx, s, p, count, byDay) && p < |ctx.students| && ctx.students[p].id in s.used
    ensures var name := ctx.students[p].preferredName;
            var failed := if ctx.mode == Term then [WriteFailed(name, shift.id)] else [];
            StepOk(ctx, s, p, count + 1, Step(s.(writes := s.writes + 1, log := s.log + failed), count, byDay))
  {
    InvWriteFailed(ctx, s, ctx.students[p].preferredName, shift.id);
  }

  lemma StepCommitOk(ctx: Context, s: EngineState, p: nat, count: nat, byDay: map<string, seq<Shift>>, c: Commit)
    requires Inv(ctx, s) && LocalsOk(ctx, s, p, count, byDay)
    requires GatesPassed(ctx, s, p, count, byDay, c) && s.writes !in ctx.failures
    ensures var day := DayOf(ctx.mode, c);
            StepOk(ctx, s, p, count + 1,
                   Step(Committed(ctx.mode, s, c), count + 1, byDay[day := PriorOf(byDay, day) + [c.shift]]))
  {
    InvCommit(ctx, s, p, count, byDay, c);
    LocalsCommit(ctx, s, p, count, byDay, c);
    AppendCount(s.commits, c);
  }

  /** One shift step keeps the invariant and the locals, and adds at most one
      commit, for position `p`. */
  lemma StepShiftOk(ctx: Context, s: EngineState, p: nat, slot: Slot, shift: Shift,
                    budget: int, count: nat, byDay: map<string, seq<Shift>>)
    requires Inv(ctx, s) && LocalsOk(ctx, s, p, count, byDay)
    requires p < |ctx.students| && Admit(ctx.students[p], ctx.desk, ctx.flags) == Admitted(budget)
    requires ctx.students[p].id in s.used && slot in ctx.slots && shift in slot.shifts && count < budget
    ensures StepOk(ctx, s, p, count + 1, StepShift(ctx, s, p, slot, shift, count, byDay))
  {
    var st := ctx.students[p];
    var name := st.preferredName;
    var cur := CurrentOf(s, shift);
    var prior := PriorOf(byDay, SlotKey(ctx.mode, slot));
    if !IsAvailable(ctx.index, AvailabilityKey(ctx.mode, st, slot, shift)) ||
       UsedTimeKey(st, slot, shift) in s.used[st.id] {
      StepShiftSkipOk(ctx, s, p, slot, shift, count, byDay);
    } else if name in cur || !HasAvailableSpace(shift, cur) || (prior != [] && !AnyConsecutive(prior, shift)) {
      StepSameOk(ctx, s, p, count, byDay);
    } else if s.writes in ctx.failures {
      StepFailOk(ctx, s, p, count, byDay, shift);
    } else {
      StepShiftCommitOk(ctx, s, p, slot, shift, budget, count, byDay);
    }
  }

  /** The two gates that log a line and move on. */
  lemma StepShiftSkipOk(ctx: Context, s: EngineState, p: nat, slot: Slot, shift: Shift,
                        count: nat, byDay: map<string, seq<Shift>>)
    requires Inv(ctx, s) && LocalsOk(ctx, s, p, count, byDay)
    requires p < |ctx.students| && ctx.students[p].id in s.used
    requires var st := ctx.students[p];
             !IsAvailable(ctx.index, AvailabilityKey(ctx.mode, st, slot, shift)) ||
             UsedTimeKey(st, slot, shift) in s.used[st.id]
    ensures StepOk(ctx, s, p, count + 1, StepShift(ctx, s, p, slot, shift, count, byDay))
  {
    var st := ctx.students[p];
    var name := st.preferredName;
    if !IsAvailable(ctx.index, AvailabilityKey(ctx.mode, st, slot, shift)) {
      StepSkipOk(ctx, s, p, count, byDay, NotAvailable(name, SlotKey(ctx.mode, slot), TimeSlot(shift)));
    } else {
      StepSkipOk(ctx, s, p, count, byDay, AlreadyAssigned(name));
    }
  }

  /** The successful write. */
  lemma StepShiftCommitOk(ctx: Context, s: EngineState, p: nat, slot: Slot, shift: Shift,
                          budget: int, count: nat, byDay: map<string, seq<Shift>>)
    requires Inv(ctx, s) && LocalsOk(ctx, s, p, count, byDay)
    requires p < |ctx.students| && Admit(ctx.students[p], ctx.desk, ctx.flags) == Admitted(budget)
    requires ctx.students[p].id in s.used && slot in ctx.slots && shift in slot.shifts && count < budget
    requires var st := ctx.students[p];
             var cur := CurrentOf(s, shift);
             var prior := PriorOf(byDay, SlotKey(ctx.mode, slot));
             IsAvailable(ctx.index, AvailabilityKey(ctx.mode, st, slot, shift)) &&
             UsedTimeKey(st, slot, shift) !in s.used[st.id] &&
             st.preferredName !in cur && HasAvailableSpace(shift, cur) &&
             (prior == [] || AnyConsecutive(prior, shift)) && s.writes !in ctx.failures
    ensures StepOk(ctx, s, p, count + 1, StepShift(ctx, s, p, slot, shift, count, byDay))
  {
    var st := ctx.students[p];
    var cur := CurrentOf(s, shift);
    var c := Commit(p, st, slot, shift, s.writes, cur, Padded(cur + [st.preferredName], Capacity(shift)));
    assert shift.id in ctx.initial;
    StepShiftGates(ctx, s, p, slot, shift, budget, count, byDay);
    StepCommitOk(ctx, s, p, count, byDay, c);
    StepShiftCommits(ctx, s, p, slot, shift, count, byDay);
  }

  /** Past every gate of the step, the commit satisfies `GatesPassed`. */
  lemma StepShiftGates(ctx: Context, s: EngineState, p: nat, slot: Slot, shift: Shift,
                       budget: int, count: nat, byDay: map<string, seq<Shift>>)
    requires p < |ctx.students| && Admit(ctx.students[p], ctx.desk, ctx.flags) == Admitted(budget)
    requires ctx.students[p].id in s.used && slot in ctx.slots && shift in slot.shifts && count < budget
    requires shift.id in s.occupants
    requires var st := ctx.students[p];
             var cur := CurrentOf(s, shift);
             var prior := PriorOf(byDay, SlotKey(ctx.mode, slot));
             IsAvailable(ctx.index, AvailabilityKey(ctx.mode, st, slot, shift)) &&
             UsedTimeKey(st, slot, shift) !in s.used[st.id] &&
             st.preferredName !in cur && HasAvailableSpace(shift, cur) &&
             (prior == [] || AnyConsecutive(prior, shift))
    ensures var st := ctx.students[p];
            var cur := CurrentOf(s, shift);
            GatesPassed(ctx, s, p, count, byDay,
                        Commit(p, st, slot, shift, s.writes, cur, Padded(cur + [st.preferredName], Capacity(shift))))
  {
    AllowanceOfBudget(ctx.students[p], ctx.desk, ctx.flags, budget);
  }

  /** Past every gate, the step is the commit. */
  lemma StepShiftCommits(ctx: Context, s: EngineState, p: nat, slot: Slot, shift: Shift,
                         count: nat, byDay: map<string, seq<Shift>>)
    requires p < |ctx.students| && ctx.students[p].id in s.used
    requires var st := ctx.students[p];
             var cur := CurrentOf(s, shift);
             var prior := PriorOf(byDay, SlotKey(ctx.mode, slot));
             IsAvailable(ctx.index, AvailabilityKey(ctx.mode, st, slot, shift)) &&
             UsedTimeKey(st, slot, shift) !in s.used[st.id] &&
             st.preferredName !in cur && HasAvailableSpace(shift, cur) &&
             (prior == [] || AnyConsecutive(prior, shift)) && s.writes !in ctx.failures
    ensures var st := ctx.students[p];
            var cur := CurrentOf(s, shift);
            var day := SlotKey(ctx.mode, slot);
            var c := Commit(p, st, slot, shift, s.writes, cur, Padded(cur + [st.preferredName], Capacity(shift)));
            StepShift(ctx, s, p, slot, shift, count, byDay) ==
            Step(Committed(ctx.mode, s, c), count + 1, byDay[day := PriorOf(byDay, day) + [shift]])
  {
  }

  lemma StepOkTrans(ctx: Context, s: EngineState, p: nat, bound: int, r1: Step, r2: Step)
    requires StepOk(ctx, s, p, bound, r1) && StepOk(ctx, r1.state, p, bound, r2)
    ensures StepOk(ctx, s, p, bound, r2)
  {
  }

  /** The shift loop keeps the invariant and stays within the budget. */
  lemma {:induction false} ShiftsFromOk(ctx: Context, s: EngineState, p: nat, slot: Slot, shifts: seq<Shift>, i: nat,
                                        budget: int, count: nat, byDay: map<string, seq<Shift>>)
    requires Inv(ctx, s) && LocalsOk(ctx, s, p, count, byDay)
    requires p < |ctx.students| && Admit(ctx.students[p], ctx.desk, ctx.flags) == Admitted(budget)
    requires ctx.students[p].id in s.used && slot in ctx.slots && count <= budget
    requires i <= |shifts| && forall x :: x in shifts ==> x in slot.shifts
    ensures StepOk(ctx, s, p, budget, ShiftsFrom(ctx, s, p, slot, shifts, i, budget, count, byDay))
    decreases |shifts| - i, 1
  {
    if i < |shifts| && count < budget {
      ShiftsFromStep(ctx, s, p, slot, shifts, i, budget, count, byDay);
    }
  }

  lemma {:induction false} ShiftsFromStep(ctx: Context, s: EngineState, p: nat, slot: Slot, shifts: seq<Shift>, i: nat,
                                          budget: int, count: nat, byDay: map<string, seq<Shift>>)
    requires Inv(ctx, s) && LocalsOk(ctx, s, p, count, byDay)
    requires p < |ctx.students| && Admit(ctx.students[p], ctx.desk, ctx.flags) == Admitted(budget)
    requires ctx.students[p].id in s.used && slot in ctx.slots && count < budget
    requires i < |shifts| && forall x :: x in shifts ==> x in slot.shifts
    ensures StepOk(ctx, s, p, budget, ShiftsFrom(ctx, s, p, slot, shifts, i, budget, count, byDay))
    decreases |shifts| - i, 0
  {
    var r := StepShift(ctx, s, p, slot, shifts[i], count, byDay);
    StepShiftOk(ctx, s, p, slot, shifts[i], budget, count, byDay);
    ShiftsFromOk(ctx, r.state, p, slot, shifts, i + 1, budget, r.count, r.byDay);
    StepOkTrans(ctx, s, p, budget, r, ShiftsFrom(ctx, r.state, p, slot, shifts, i + 1, budget, r.count, r.byDay));
    ShiftsFromUnfold(ctx, s, p, slot, shifts, i, budget, count, byDay);
  }

  lemma ShiftsFromUnfold(ctx: Context, s: EngineState, p: nat, slot: Slot, shifts: seq<Shift>, i: nat,
                         budget: int, count: nat, byDay: map<string, seq<Shift>>)
    requires p < |ctx.students| && i < |shifts| && count < budget
    ensures var r := StepShift(ctx, s, p, slot, shifts[i], count, byDay);
            ShiftsFrom(ctx, s, p, slot, shifts, i, budget, count, byDay) ==
            ShiftsFrom(ctx, r.state, p, slot, shifts, i + 1, budget, r.count, r.byDay)
  {
  }

  /** The slot loop keeps the invariant and stays within the budget. */
  lemma {:induction false} SlotsFromOk(ctx: Context, s: EngineState, p: nat, j: nat,
                                       budget: int, count: nat, byDay: map<string, seq<Shift>>)
    requires Inv(ctx, s) && LocalsOk(ctx, s, p, count, byDay)
    requires p < |ctx.students| && Admit(ctx.students[p], ctx.desk, ctx.flags) == Admitted(budget)
    requires ctx.students[p].id in s.used && count <= budget && j <= |ctx.slots|
    ensures StepOk(ctx, s, p, budget, SlotsFrom(ctx, s, p, j, budget, count, byDay))
    decreases |ctx.slots| - j, 1
  {
    if j < |ctx.slots| && count < budget {
      SlotsFromStep(ctx, s, p, j, budget, count, byDay);
    }
  }

  lemma {:induction false} SlotsFromStep(ctx: Context, s: EngineState, p: nat, j: nat,
                                         budget: int, count: nat, byDay: map<string, seq<Shift>>)
    requires Inv(ctx, s) && LocalsOk(ctx, s, p, count, byDay)
    requires p < |ctx.students| && Admit(ctx.students[p], ctx.desk, ctx.flags) == Admitted(budget)
    requires ctx.students[p].id in s.used && count < budget && j < |ctx.slots|
    ensures StepOk(ctx, s, p, budget, SlotsFrom(ctx, s, p, j, budget, count, byDay))
    decreases |ctx.slots| - j, 0
  {
    var slot := ctx.slots[j];
    var shifts := SortByStart(slot.shifts);
    SortedShiftsBelong(slot.shifts);
    var r := ShiftsFrom(ctx, s, p, slot, shifts, 0, budget, count, byDay);
    ShiftsFromOk(ctx, s, p, slot, shifts, 0, budget, count, byDay);
    SlotsFromOk(ctx, r.state, p, j + 1, budget, r.count, r.byDay);
    StepOkTrans(ctx, s, p, budget, r, SlotsFrom(ctx, r.state, p, j + 1, budget, r.count, r.byDay));
    SlotsFromUnfold(ctx, s, p, j, budget, count, byDay);
  }

  lemma SlotsFromUnfold(ctx: Context, s: EngineState, p: nat, j: nat,
                        budget: int, count: nat, byDay: map<string, seq<Shift>>)
    requires p < |ctx.students| && count < budget && j < |ctx.slots|
    ensures var slot := ctx.slots[j];
            var r := ShiftsFrom(ctx, s, p, slot, SortByStart(slot.shifts), 0, budget, count, byDay);
            SlotsFrom(ctx, s, p, j, budget, count, byDay) == SlotsFrom(ctx, r.state, p, j + 1, budget, r.count, r.byDay)
  {
  }

  lemma SortedShiftsBelong(shifts: seq<Shift>)
    ensures forall x :: x in SortByStart(shifts) ==> x in shifts
  {
    SortByStartCorrect(shifts);
    forall x | x in SortByStart(shifts) ensures x in shifts {
      assert x in multiset(SortByStart(shifts));
    }
  }

  /** The facts each student starts from: the invariant, every commit for an
      earlier student, and the updates of the earlier students. */
  ghost predicate Before(ctx: Context, s: EngineState, p: nat) {
    p <= |ctx.students| && Inv(ctx, s) &&
    (s.commits != [] ==> Last(s.commits).position < p) &&
    s.updates == UpdatesFor(ctx, s.commits, p)
  }

  /** A student stopped by a student gate gets one line and nothing else. */
  lemma SkippedStudentOk(ctx: Context, s: EngineState, p: nat)
    requires Before(ctx, s, p) && p < |ctx.students|
    requires !Admit(ctx.students[p], ctx.desk, ctx.flags).Admitted?
    ensures Before(ctx, StudentPass(ctx, s, p), p + 1)
  {
    var st := ctx.students[p];
    NothingAfter(ctx, s.commits, p);
    InvSkipLine(ctx, s, SkipEntry(st, Admit(st, ctx.desk, ctx.flags)));
  }

  /** The slot loop of an admitted student, from its empty locals. */
  lemma AdmittedSlotsOk(ctx: Context, s: EngineState, p: nat, budget: int)
    requires Before(ctx, s, p) && p < |ctx.students|
    requires Admit(ctx.students[p], ctx.desk, ctx.flags) == Admitted(budget)
    ensures var s1 := if ctx.students[p].id in s.used then s else s.(used := s.used[ctx.students[p].id := {}]);
            var r := SlotsFrom(ctx, s1, p, 0, budget, 0, map[]);
            Inv(ctx, r.state) && LocalsOk(ctx, r.state, p, r.count, r.byDay) &&
            Unmoved(s, r.state, p) && r.state.updates == s.updates
  {
    var sid := ctx.students[p].id;
    var s1 := if sid in s.used then s else s.(used := s.used[sid := {}]);
    if sid !in s.used {
      InvAddUsed(ctx, s, sid);
    }
    LocalsFresh(ctx, s1, p);
    if budget > 0 {
      SlotsFromOk(ctx, s1, p, 0, budget, 0, map[]);
    }
  }

  /** One student keeps the invariant, commits only for its own position, and
      writes its update exactly when it received shifts. */
  lemma StudentPassOk(ctx: Context, s: EngineState, p: nat)
    requires Before(ctx, s, p) && p < |ctx.students|
    ensures Before(ctx, StudentPass(ctx, s, p), p + 1)
  {
    var st := ctx.students[p];
    var a := Admit(st, ctx.desk, ctx.flags);
    if !a.Admitted? {
      SkippedStudentOk(ctx, s, p);
    } else {
      AdmittedStudentOk(ctx, s, p, a.budget);
    }
  }

  lemma AdmittedStudentOk(ctx: Context, s: EngineState, p: nat, budget: int)
    requires Before(ctx, s, p) && p < |ctx.students|
    requires Admit(ctx.students[p], ctx.desk, ctx.flags) == Admitted(budget)
    ensures Before(ctx, StudentPass(ctx, s, p), p + 1)
  {
    var st := ctx.students[p];
    var s1 := if st.id in s.used then s else s.(used := s.used[st.id := {}]);
    var r := SlotsFrom(ctx, s1, p, 0, budget, 0, map[]);
    AdmittedSlotsOk(ctx, s, p, budget);
    FinishOk(ctx, s, p, r);
  }

  /** The finalisation: the update exactly when there were commits. */
  lemma FinishOk(ctx: Context, s: EngineState, p: nat, r: Step)
    requires Before(ctx, s, p) && p < |ctx.students|
    requires Inv(ctx, r.state) && LocalsOk(ctx, r.state, p, r.count, r.byDay)
    requires Unmoved(s, r.state, p) && r.state.updates == s.updates
    ensures var st := ctx.students[p];
            Before(ctx, if r.count > 0 then Finished(r.state, p, st, r.count) else r.state, p + 1)
  {
    UpdatesForSame(ctx, s.commits, r.state.commits, p);
    if r.count > 0 {
      FinishUpdated(ctx, r.state, p, r.count);
    } else {
      FinishQuiet(ctx, r.state, p);
    }
  }

  lemma FinishUpdated(ctx: Context, t: EngineState, p: nat, n: nat)
    requires p < |ctx.students| && Inv(ctx, t) && (t.commits != [] ==> Last(t.commits).position <= p)
    requires n == CountAt(t.commits, p) && n > 0 && t.updates == UpdatesFor(ctx, t.commits, p)
    ensures Before(ctx, Finished(t, p, ctx.students[p], n), p + 1)
  {
    InvFinished(ctx, t, p, ctx.students[p], n);
  }

  lemma FinishQuiet(ctx: Context, t: EngineState, p: nat)
    requires p < |ctx.students| && Inv(ctx, t) && (t.commits != [] ==> Last(t.commits).position <= p)
    requires CountAt(t.commits, p) == 0 && t.updates == UpdatesFor(ctx, t.commits, p)
    ensures Before(ctx, t, p + 1)
  {
    UpdatesForQuiet(ctx, t.commits, p);
  }

  /** A student without commits adds no update. */
  lemma UpdatesForQuiet(ctx: Context, cs: seq<Commit>, p: nat)
    requires p < |ctx.students| && CountAt(cs, p) == 0
    ensures UpdatesFor(ctx, cs, p + 1) == UpdatesFor(ctx, cs, p)
  {
    assert UpdatesFor(ctx, cs, p) + [] == UpdatesFor(ctx, cs, p);
  }

  /** The update's log lines keep the invariant. */
  lemma InvFinished(ctx: Context, s: EngineState, p: nat, st: Student, n: nat)
    requires Inv(ctx, s)
    ensures Inv(ctx, Finished(s, p, st, n))
  {
    LogSkipLines(ctx, s.log, s.commits, s.writes, UpdateEntries(st, n));
  }

  /** The student loop keeps the invariant and writes exactly the updates
      `UpdatesFor` describes. */
  lemma {:induction false} StudentsFromOk(ctx: Context, s: EngineState, p: nat)
    requires Before(ctx, s, p)
    ensures Before(ctx, StudentsFrom(ctx, s, p), |ctx.students|)
    decreases |ctx.students| - p, 1
  {
    if p < |ctx.students| {
      StudentsFromStep(ctx, s, p);
    }
  }

  lemma {:induction false} StudentsFromStep(ctx: Context, s: EngineState, p: nat)
    requires Before(ctx, s, p) && p < |ctx.students|
    ensures Before(ctx, StudentsFrom(ctx, s, p), |ctx.students|)
    decreases |ctx.students| - p, 0
  {
    StudentPassOk(ctx, s, p);
    StudentsFromOk(ctx, StudentPass(ctx, s, p), p + 1);
  }

  /** The whole pass ends in a state satisfying the invariant, with the
      updates of `UpdatesFor` and the total line last. */
  lemma PassOk(ctx: Context)
    requires ContextOk(ctx)
    ensures var s := Pass(ctx);
            Inv(ctx, s) && s.updates == UpdatesFor(ctx, s.commits, |ctx.students|) &&
            s.log[|s.log| - 1] == Total(s.total)
  {
    InvInitial(ctx);
    var s := StudentsFrom(ctx, InitialState(ctx), 0);
    StudentsFromOk(ctx, InitialState(ctx), 0);
    InvSkipLine(ctx, s, Total(s.total));
  }

  /** The context built from the request satisfies `ContextOk`. */
  lemma MakeContextOk(mode: Mode, desk: string, year: string, termOrBreak: string, flags: Flags,
                      students: seq<Student>, slots: seq<Slot>, records: seq<AvailabilityRecord>,
                      failures: set<nat>)
    requires ConsistentShiftIds(slots)
    ensures ContextOk(MakeContext(mode, desk, year, termOrBreak, flags, students, slots, records, failures))
  {
    forall slot, x | slot in slots && x in slot.shifts
      ensures x.id in InitialOccupants(slots) && InitialOccupants(slots)[x.id] == RealOccupants(x.studentsDetailed)
    {
      InitialOccupantsHas(slots, slot, x);
    }
  }

  // ---------------------------------------------------------------------------
  // The request handler's state and loops

  class Engine {
    const ctx: Context
    /** `shiftAssignments`: real occupants per shift id. */
    var occupants: map<string, seq<string>>
    /** `studentAssignedTimeSlots`: consumed time keys per student id. */
    var used: map<string, set<string>>
    /** `logSummary`, as entries. */
    var log: seq<LogEntry>
    /** `totalAssignedShifts`. */
    var total: nat
    /** The number of shift writes issued so far. */
    var writes: nat
    /** The successful commits, in order. */
    var commits: seq<Commit>
    /** The `assigned_shifts` writes, in order. */
    var updates: seq<StudentUpdate>

    function State(): EngineState
      reads this
    {
      EngineState(occupants, used, log, total, writes, commits, updates)
    }

    /** Reads the inputs: the students sorted by seniority, the availability
        map and the initial occupant map. */
    constructor (mode: Mode, desk: string, year: string, termOrBreak: string, flags: Flags,
                 students: seq<Student>, slots: seq<Slot>, records: seq<AvailabilityRecord>,
                 failures: set<nat>)
      ensures ctx == MakeContext(mode, desk, year, termOrBreak, flags, students, slots, records, failures)
      ensures State() == InitialState(ctx)
    {
      var index := BuildIndex(mode, records);
      var initial := BuildInitial(slots);
      ctx := Context(mode, desk, year, termOrBreak, flags, SortBySeniority(students), slots,
                     index, initial, failures);
      occupants := initial;
      used := map[];
      log := [Header(desk, year, termOrBreak)];
      total := 0;
      writes := 0;
      commits := [];
      updates := [];
    }

    /** One candidate shift for the student at position `p`: the availability
        gate, the consumed-key gate, the capacity and duplicate-name gate, the
        consecutiveness gate, then the write and, if it succeeds, the commit. */
    method TryShift(p: nat, slot: Slot, shift: Shift, count: nat, byDay: map<string, seq<Shift>>)
      returns (count': nat, byDay': map<string, seq<Shift>>)
      requires p < |ctx.students|
      modifies this
      ensures Step(State(), count', byDay') == StepShift(ctx, old(State()), p, slot, shift, count, byDay)
    {
      var st := ctx.students[p];
      var name := st.preferredName;
      var day := SlotKey(ctx.mode, slot);
      var ts := TimeSlot(shift);
      count', byDay' := count, byDay;
      var key := AvailabilityKey(ctx.mode, st, slot, shift);
      if !(key in ctx.index && IsChoice(ctx.index[key])) {
        Put(State().(log := log + [NotAvailable(name, day, ts)]));
        return;
      }
      var uk := UsedTimeKey(st, slot, shift);
      if st.id in used && uk in used[st.id] {
        Put(State().(log := log + [AlreadyAssigned(name)]));
        return;
      }
      var cur := if shift.id in occupants then occupants[shift.id] else [];
      if name in cur || !HasAvailableSpace(shift, cur) {
        return;
      }
      var prior := if day in byDay then byDay[day] else [];
      if |prior| > 0 && !AnyConsecutive(prior, shift) {
        return;
      }
      var written := Padded(cur + [name], Capacity(shift));
      if writes !in ctx.failures {
        var c := Commit(p, st, slot, shift, writes, cur, written);
        Put(Committed(ctx.mode, State(), c));
        count', byDay' := count + 1, byDay[day := prior + [shift]];
      } else {
        Put(State().(writes := writes + 1, log := log + (if ctx.mode == Term then [WriteFailed(name, shift.id)] else [])));
      }
    }

    /** One slot for the student at position `p`: its shifts in start-time
        order, stopping once the student's budget is reached. */
    method ProcessSlot(p: nat, slot: Slot, budget: int, count: nat, byDay: map<string, seq<Shift>>)
      returns (count': nat, byDay': map<string, seq<Shift>>)
      requires p < |ctx.students|
      modifies this
      ensures Step(State(), count', byDay') ==
              ShiftsFrom(ctx, old(State()), p, slot, SortByStart(slot.shifts), 0, budget, count, byDay)
    {
      var shifts := SortByStart(slot.shifts);
      count', byDay' := count, byDay;
      var i := 0;
      while i < |shifts| && count' < budget
        invariant 0 <= i <= |shifts|
        invariant ShiftsFrom(ctx, State(), p, slot, shifts, i, budget, count', byDay') ==
                  ShiftsFrom(ctx, old(State()), p, slot, shifts, 0, budget, count, byDay)
        decreases |shifts| - i
      {
        count', byDay' := TryShift(p, slot, shifts[i], count', byDay');
        i := i + 1;
      }
    }

    /** One student: the student gates, then the slots in order until the
        budget is reached, then the `assigned_shifts` update and its lines. */
    method ProcessStudent(p: nat)
      requires p < |ctx.students|
      modifies this
      ensures State() == StudentPass(ctx, old(State()), p)
    {
      var st := ctx.students[p];
      var a := Admit(st, ctx.desk, ctx.flags);
      if !a.Admitted? {
        Put(State().(log := log + [SkipEntry(st, a)]));
        return;
      }
      var budget := a.budget;
      if st.id !in used {
        Put(State().(used := used[st.id := {}]));
      }
      ghost var s1 := State();
      var count: nat, byDay: map<string, seq<Shift>> := 0, map[];
      var j := 0;
      while j < |ctx.slots| && count < budget
        invariant 0 <= j <= |ctx.slots|
        invariant SlotsFrom(ctx, State(), p, j, budget, count, byDay) == SlotsFrom(ctx, s1, p, 0, budget, 0, map[])
        decreases |ctx.slots| - j
      {
        count, byDay := ProcessSlot(p, ctx.slots[j], budget, count, byDay);
        j := j + 1;
      }
      if count > 0 {
        Put(Finished(State(), p, st, count));
      }
    }

    /** The whole pass: every student in seniority order, then the total line. */
    method Run()
      requires State() == InitialState(ctx)
      modifies this
      ensures State() == Pass(ctx)
    {
      var p := 0;
      while p < |ctx.students|
        invariant 0 <= p <= |ctx.students|
        invariant StudentsFrom(ctx, State(), p) == StudentsFrom(ctx, InitialState(ctx), 0)
        decreases |ctx.students| - p
      {
        ProcessStudent(p);
        p := p + 1;
      }
      Put(State().(log := log + [Total(total)]));
    }

    /** Replaces the whole state at once. */
    method Put(s: EngineState)
      modifies this
      ensures State() == s
    {
      occupants, used, log, total, writes, commits, updates := s.occupants, s.used, s.log, s.total, s.writes, s.commits, s.updates;
    }
  }

  /** What the whole pass guarantees: every commit in its history passed
      every gate after the commits before it, the occupant map is the view of
      those commits, the `assigned_shifts` writes are those of `UpdatesFor`,
      the log starts with the header and ends with the total, which counts
      the commits, its `Assigned` lines are the commits in order, and the
      term copy logs one error per failed write while the interim copy logs
      none. */
  lemma PassMeaning(ctx: Context)
    requires ContextOk(ctx)
    ensures var r := Pass(ctx);
            HistoryOk(ctx, r.commits) &&
            CommitsOk(ctx, r.commits) && BeforeOk(ctx, r.commits) && OrderOk(r.commits) && KeysOk(r.commits) &&
            ChainsOk(ctx.mode, r.commits) && BudgetOk(ctx, r.commits) &&
            OccupantsOk(ctx, r.occupants, r.commits) &&
            r.updates == UpdatesFor(ctx, r.commits, |ctx.students|)
    ensures var r := Pass(ctx);
            |r.log| >= 2 && r.log[0] == HeaderOf(ctx) && r.log[|r.log| - 1] == Total(r.total)
    ensures var r := Pass(ctx);
            r.total == |r.commits| && AssignedEntries(r.log) == Entries(ctx.mode, r.commits) &&
            FailedCount(r.log) == (if ctx.mode == Term then r.writes - |r.commits| else 0) &&
            |r.commits| <= r.writes
  {
    var r := Pass(ctx);
    PassOk(ctx);
    HistoryMeaning(ctx, r.commits);
    AttemptsBound(ctx, r.commits, r.writes);
  }

  /** The request handler: runs the pass over the request's inputs and
      returns the rendered log, the commits (the successful shift writes),
      the `assigned_shifts` writes, the total, the number of shift writes
      issued and the final occupant map, all of them those of `Pass`, so
      `PassMeaning` describes them. */
  method Assign(mode: Mode, desk: string, year: string, termOrBreak: string, flags: Flags,
                students: seq<Student>, slots: seq<Slot>, records: seq<AvailabilityRecord>,
                failures: set<nat>)
    returns (lines: seq<string>, log: seq<LogEntry>, commits: seq<Commit>, updates: seq<StudentUpdate>,
             total: nat, writes: nat, occupants: map<string, seq<string>>)
    requires ConsistentShiftIds(slots)
    ensures ContextOk(MakeContext(mode, desk, year, termOrBreak, flags, students, slots, records, failures))
    ensures var r := Pass(MakeContext(mode, desk, year, termOrBreak, flags, students, slots, records, failures));
            log == r.log && commits == r.commits && updates == r.updates &&
            total == r.total && writes == r.writes && occupants == r.occupants
    ensures |log| >= 2 && log[0] == Header(desk, year, termOrBreak) && log[|log| - 1] == Total(total)
    ensures lines == Lines(mode, log)
  {
    MakeContextOk(mode, desk, year, termOrBreak, flags, students, slots, records, failures);
    var e := new Engine(mode, desk, year, termOrBreak, flags, students, slots, records, failures);
    e.Run();
    PassMeaning(e.ctx);
    log, commits, updates, total, writes, occupants := e.log, e.commits, e.updates, e.total, e.writes, e.occupants;
    lines := Lines(mode, log);
  }

  /** Each commit used its own write number, so there were at least as many
      writes as commits. */
  lemma {:induction false} AttemptsBound(ctx: Context, cs: seq<Commit>, writes: nat)
    requires HistoryOk(ctx, cs) && (cs != [] ==> Last(cs).attempt < writes)
    ensures |cs| <= writes
  {
    if cs != [] {
      var init := Init(cs);
      if init != [] {
        assert Last(init).attempt < Last(cs).attempt;
      }
      AttemptsBound(ctx, init, Last(cs).attempt);
    }
  }
}

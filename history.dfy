/** What one greedy pass has committed so far, as a value: the sequence of
    successful commits, the views the engine keeps of it (occupants per
    shift, consumed time keys per student id, shifts per student and day),
    and the property every reachable history has. */
module History {
  import opened Wrappers
  import opened Text
  import opened Rules

  /** Everything the pass reads and never changes: the request, the students
      in processing order, the slots in input order, the availability map,
      the real occupants each shift starts with, and the numbers of the
      shift writes that fail. */
  datatype Context = Context(
    mode: Mode,
    desk: string,
    year: string,
    termOrBreak: string,
    flags: Flags,
    students: seq<Student>,
    slots: seq<Slot>,
    index: map<string, string>,
    initial: map<string, seq<string>>,
    failures: set<nat>)

  /** One successful commit: the student (and its place in the processing
      order), the slot and shift, the number of the write that stored it,
      the real occupants just before it, and the list written. */
  datatype Commit = Commit(
    position: nat,
    student: Student,
    slot: Slot,
    shift: Shift,
    attempt: nat,
    before: seq<string>,
    written: seq<string>)

  /** The per-student summary written after a student's commits. */
  datatype StudentUpdate = StudentUpdate(position: nat, studentId: string, assignedShifts: Option<int>)

  function NameOf(c: Commit): string {
    c.student.preferredName
  }

  function DayOf(mode: Mode, c: Commit): string {
    SlotKey(mode, c.slot)
  }

  function UsedKeyOf(c: Commit): string {
    UsedTimeKey(c.student, c.slot, c.shift)
  }

  function AvailabilityKeyOf(mode: Mode, c: Commit): string {
    AvailabilityKey(mode, c.student, c.slot, c.shift)
  }

  /** All shifts of all slots, in order. */
  function ShiftsOf(slots: seq<Slot>): seq<Shift> {
    if slots == [] then [] else ShiftsOf(slots[..|slots| - 1]) + slots[|slots| - 1].shifts
  }

  /** Initial occupant map: each shift's stored list without its `open` entries. */
  function OccupantIndex(shifts: seq<Shift>): map<string, seq<string>> {
    if shifts == [] then map[]
    else OccupantIndex(shifts[..|shifts| - 1])[shifts[|shifts| - 1].id := RealOccupants(shifts[|shifts| - 1].studentsDetailed)]
  }

  lemma OccupantIndexSnoc(shifts: seq<Shift>, x: Shift)
    ensures OccupantIndex(shifts + [x]) == OccupantIndex(shifts)[x.id := RealOccupants(x.studentsDetailed)]
  {
    assert (shifts + [x])[..|shifts|] == shifts;
  }

  /** Two shifts with the same id are the same row. */
  predicate ConsistentShiftIds(slots: seq<Slot>) {
    var all := ShiftsOf(slots);
    forall i, j :: 0 <= i < |all| && 0 <= j < |all| && all[i].id == all[j].id ==> all[i] == all[j]
  }

  /** The initial occupant map built from every shift of every slot. */
  function InitialOccupants(slots: seq<Slot>): map<string, seq<string>> {
    OccupantIndex(ShiftsOf(slots))
  }

  lemma {:induction false} ShiftsOfHas(slots: seq<Slot>, slot: Slot, x: Shift)
    requires slot in slots && x in slot.shifts
    ensures x in ShiftsOf(slots)
  {
    var n := |slots| - 1;
    if slots[n] != slot {
      assert slot in slots[..n];
      ShiftsOfHas(slots[..n], slot, x);
    }
  }

  lemma {:induction false} OccupantIndexHas(shifts: seq<Shift>, k: nat)
    requires k < |shifts|
    requires forall i, j :: 0 <= i < |shifts| && 0 <= j < |shifts| && shifts[i].id == shifts[j].id ==> shifts[i] == shifts[j]
    ensures shifts[k].id in OccupantIndex(shifts)
    ensures OccupantIndex(shifts)[shifts[k].id] == RealOccupants(shifts[k].studentsDetailed)
  {
    var n := |shifts| - 1;
    if k < n && shifts[n].id != shifts[k].id {
      var init := shifts[..n];
      assert init[k] == shifts[k];
      OccupantIndexHas(init, k);
    }
  }

  /** With consistent ids, each shift's id maps to its own stored list
      without the `open` entries. */
  lemma InitialOccupantsHas(slots: seq<Slot>, slot: Slot, x: Shift)
    requires ConsistentShiftIds(slots) && slot in slots && x in slot.shifts
    ensures x.id in InitialOccupants(slots)
    ensures InitialOccupants(slots)[x.id] == RealOccupants(x.studentsDetailed)
  {
    ShiftsOfHas(slots, slot, x);
    var all := ShiftsOf(slots);
    var k :| 0 <= k < |all| && all[k] == x;
    OccupantIndexHas(all, k);
  }

  function AllowanceAt(ctx: Context, p: nat): nat {
    if p < |ctx.students| then Allowance(ctx.students[p], ctx.desk, ctx.flags) else 0
  }

  function Last<T>(s: seq<T>): T
    requires s != []
  {
    s[|s| - 1]
  }

  function Init<T>(s: seq<T>): seq<T>
    requires s != []
  {
    s[..|s| - 1]
  }

  /** The names committed into the shift with this id, in commit order. */
  function NamesFor(cs: seq<Commit>, id: string): seq<string> {
    if cs == [] then []
    else NamesFor(Init(cs), id) + (if Last(cs).shift.id == id then [NameOf(Last(cs))] else [])
  }

  /** The number of commits made for the student at position `p`. */
  function CountAt(cs: seq<Commit>, p: nat): nat {
    if cs == [] then 0
    else CountAt(Init(cs), p) + (if Last(cs).position == p then 1 else 0)
  }

  /** The time keys consumed by students with this id. */
  function UsedKeysOf(cs: seq<Commit>, sid: string): set<string> {
    if cs == [] then {}
    else UsedKeysOf(Init(cs), sid) + (if Last(cs).student.id == sid then {UsedKeyOf(Last(cs))} else {})
  }

  /** The shifts committed for the student at position `p` on day (or date) `d`. */
  function DayShifts(mode: Mode, cs: seq<Commit>, p: nat, d: string): seq<Shift> {
    if cs == [] then []
    else
      var here := Last(cs).position == p && DayOf(mode, Last(cs)) == d;
      DayShifts(mode, Init(cs), p, d) + (if here then [Last(cs).shift] else [])
  }

  /** The `Assigned …` log entry of a commit. */
  function EntryOf(mode: Mode, c: Commit): LogEntry {
    Assigned(NameOf(c), c.shift.id, DayOf(mode, c), TimeSlot(c.shift), AvailabilityKeyOf(mode, c))
  }

  function Entries(mode: Mode, cs: seq<Commit>): (r: seq<LogEntry>)
    ensures |r| == |cs| && forall i :: 0 <= i < |cs| ==> r[i] == EntryOf(mode, cs[i])
  {
    if cs == [] then [] else Entries(mode, Init(cs)) + [EntryOf(mode, Last(cs))]
  }

  /** The `Assigned …` entries of a log, in order. */
  function AssignedEntries(log: seq<LogEntry>): seq<LogEntry> {
    if log == [] then []
    else AssignedEntries(Init(log)) + (if Last(log).Assigned? then [Last(log)] else [])
  }

  /** The number of `ERROR: Failed to assign …` entries of a log. */
  function FailedCount(log: seq<LogEntry>): nat {
    if log == [] then 0
    else FailedCount(Init(log)) + (if Last(log).WriteFailed? then 1 else 0)
  }

  /** The consecutiveness gate of a commit, against the same student's earlier
      commits on the same day. */
  predicate ChainStep(mode: Mode, prefix: seq<Commit>, c: Commit) {
    var ds := DayShifts(mode, prefix, c.position, DayOf(mode, c));
    ds == [] || AnyConsecutive(ds, c.shift)
  }

  /** What every gate guarantees about one commit on its own. */
  predicate CommitOk(ctx: Context, c: Commit) {
    c.position < |ctx.students| && c.student == ctx.students[c.position] &&
    c.slot in ctx.slots && c.shift in c.slot.shifts &&
    Admit(c.student, ctx.desk, ctx.flags).Admitted? &&
    IsAvailable(ctx.index, AvailabilityKeyOf(ctx.mode, c)) &&
    |c.before| < Capacity(c.shift) && NameOf(c) !in c.before &&
    c.written == Padded(c.before + [NameOf(c)], Capacity(c.shift)) &&
    c.attempt !in ctx.failures
  }

  /** Every commit passed its gates. */
  predicate CommitsOk(ctx: Context, cs: seq<Commit>) {
    forall i :: 0 <= i < |cs| ==> CommitOk(ctx, cs[i])
  }

  /** Each commit saw the shift's initial occupants followed by the names
      committed into it earlier. */
  predicate BeforeOk(ctx: Context, cs: seq<Commit>) {
    forall i :: 0 <= i < |cs| ==>
      cs[i].shift.id in ctx.initial && cs[i].before == ctx.initial[cs[i].shift.id] + NamesFor(cs[..i], cs[i].shift.id)
  }

  /** Students are served in order; write numbers increase. */
  predicate OrderOk(cs: seq<Commit>) {
    forall i, j :: 0 <= i < j < |cs| ==> cs[i].position <= cs[j].position && cs[i].attempt < cs[j].attempt
  }

  /** One student id never consumes the same time key twice. */
  predicate KeysOk(cs: seq<Commit>) {
    forall i, j :: 0 <= i < j < |cs| && cs[i].student.id == cs[j].student.id ==> UsedKeyOf(cs[i]) != UsedKeyOf(cs[j])
  }

  /** Each commit touches an earlier commit of the same student and day, if any. */
  predicate ChainsOk(mode: Mode, cs: seq<Commit>) {
    forall i :: 0 <= i < |cs| ==> ChainStep(mode, cs[..i], cs[i])
  }

  /** No student receives more commits than its budget. */
  predicate BudgetOk(ctx: Context, cs: seq<Commit>) {
    forall p :: 0 <= p < |ctx.students| ==> CountAt(cs, p) <= AllowanceAt(ctx, p)
  }

  /** The gates that held when commit `c` was made after the commits
      `prefix`: its own checks, the occupants it saw, the processing order,
      a fresh time key, the consecutiveness chain and the student's budget. */
  predicate Admissible(ctx: Context, prefix: seq<Commit>, c: Commit) {
    CommitOk(ctx, c) &&
    c.shift.id in ctx.initial && c.before == ctx.initial[c.shift.id] + NamesFor(prefix, c.shift.id) &&
    (prefix != [] ==> Last(prefix).position <= c.position && Last(prefix).attempt < c.attempt) &&
    UsedKeyOf(c) !in UsedKeysOf(prefix, c.student.id) &&
    ChainStep(ctx.mode, prefix, c) &&
    CountAt(prefix, c.position) < AllowanceAt(ctx, c.position)
  }

  /** The property of every history the pass can produce: each commit was
      admissible after the ones before it. */
  predicate HistoryOk(ctx: Context, cs: seq<Commit>) {
    cs == [] || (HistoryOk(ctx, Init(cs)) && Admissible(ctx, Init(cs), Last(cs)))
  }

  // ---------------------------------------------------------------------------
  // The views after one more commit

  lemma AppendLast(cs: seq<Commit>, c: Commit)
    ensures Init(cs + [c]) == cs && Last(cs + [c]) == c
  {
    assert Init(cs + [c]) == cs;
  }

  lemma AppendNames(cs: seq<Commit>, c: Commit)
    ensures forall id :: NamesFor(cs + [c], id) == NamesFor(cs, id) + (if c.shift.id == id then [NameOf(c)] else [])
  {
    AppendLast(cs, c);
  }

  lemma AppendCount(cs: seq<Commit>, c: Commit)
    ensures forall p :: CountAt(cs + [c], p) == CountAt(cs, p) + (if c.position == p then 1 else 0)
  {
    AppendLast(cs, c);
  }

  lemma AppendUsed(cs: seq<Commit>, c: Commit)
    ensures forall sid :: UsedKeysOf(cs + [c], sid) == UsedKeysOf(cs, sid) + (if c.student.id == sid then {UsedKeyOf(c)} else {})
  {
    AppendLast(cs, c);
  }

  lemma AppendDays(mode: Mode, cs: seq<Commit>, c: Commit)
    ensures forall p, d ::
      var here := c.position == p && DayOf(mode, c) == d;
      DayShifts(mode, cs + [c], p, d) == DayShifts(mode, cs, p, d) + (if here then [c.shift] else [])
  {
    AppendLast(cs, c);
  }

  lemma AppendEntries(mode: Mode, cs: seq<Commit>, c: Commit)
    ensures Entries(mode, cs + [c]) == Entries(mode, cs) + [EntryOf(mode, c)]
  {
    AppendLast(cs, c);
  }

  lemma AppendLog(log: seq<LogEntry>, e: LogEntry)
    ensures AssignedEntries(log + [e]) == AssignedEntries(log) + (if e.Assigned? then [e] else [])
    ensures FailedCount(log + [e]) == FailedCount(log) + (if e.WriteFailed? then 1 else 0)
  {
    assert Init(log + [e]) == log;
  }

  /** Every commit's consumed key is in its student id's set. */
  lemma {:induction false} UsedKeysOfHas(cs: seq<Commit>, k: nat)
    requires k < |cs|
    ensures UsedKeyOf(cs[k]) in UsedKeysOf(cs, cs[k].student.id)
  {
    if k < |cs| - 1 {
      UsedKeysOfHas(Init(cs), k);
    }
  }

  /** With no commit at or after position `p`, the student at `p` has none yet. */
  lemma {:induction false} NothingAtFresh(mode: Mode, cs: seq<Commit>, p: nat)
    requires forall k :: 0 <= k < |cs| ==> cs[k].position < p
    ensures CountAt(cs, p) == 0
    ensures forall d :: DayShifts(mode, cs, p, d) == []
  {
    if cs != [] {
      NothingAtFresh(mode, Init(cs), p);
    }
  }

  /** Commits all made for position `p` leave every other position's count alone. */
  lemma {:induction false} CountAtOthers(cs: seq<Commit>, ext: seq<Commit>, p: nat)
    requires forall k :: 0 <= k < |ext| ==> ext[k].position == p
    ensures forall q :: q != p ==> CountAt(cs + ext, q) == CountAt(cs, q)
  {
    if ext == [] {
      assert cs + ext == cs;
    } else {
      var r := cs + ext;
      assert Init(r) == cs + Init(ext);
      assert Last(r) == Last(ext);
      CountAtOthers(cs, Init(ext), p);
    }
  }

  lemma PrefixesOfAppend(cs: seq<Commit>, c: Commit)
    ensures forall i :: 0 <= i <= |cs| ==> (cs + [c])[..i] == if i < |cs| then cs[..i] else cs
  {
    var r := cs + [c];
    forall i | 0 <= i <= |cs| ensures r[..i] == if i < |cs| then cs[..i] else cs {
    }
  }

  lemma BeforeAppend(ctx: Context, cs: seq<Commit>, c: Commit)
    requires BeforeOk(ctx, cs)
    requires c.shift.id in ctx.initial && c.before == ctx.initial[c.shift.id] + NamesFor(cs, c.shift.id)
    ensures BeforeOk(ctx, cs + [c])
  {
    PrefixesOfAppend(cs, c);
  }

  lemma KeysAppend(cs: seq<Commit>, c: Commit)
    requires KeysOk(cs)
    requires UsedKeyOf(c) !in UsedKeysOf(cs, c.student.id)
    ensures KeysOk(cs + [c])
  {
    var r := cs + [c];
    forall i, j | 0 <= i < j < |r| && r[i].student.id == r[j].student.id
      ensures UsedKeyOf(r[i]) != UsedKeyOf(r[j])
    {
      if j == |cs| {
        UsedKeysOfHas(cs, i);
      }
    }
  }

  lemma ChainsAppend(mode: Mode, cs: seq<Commit>, c: Commit)
    requires ChainsOk(mode, cs)
    requires ChainStep(mode, cs, c)
    ensures ChainsOk(mode, cs + [c])
  {
    PrefixesOfAppend(cs, c);
  }

  lemma BudgetAppend(ctx: Context, cs: seq<Commit>, c: Commit)
    requires BudgetOk(ctx, cs)
    requires CountAt(cs, c.position) < AllowanceAt(ctx, c.position)
    ensures BudgetOk(ctx, cs + [c])
  {
    AppendCount(cs, c);
  }

  lemma CommitsAppend(ctx: Context, cs: seq<Commit>, c: Commit)
    requires CommitsOk(ctx, cs) && CommitOk(ctx, c)
    ensures CommitsOk(ctx, cs + [c])
  {
    var r := cs + [c];
    forall i | 0 <= i < |r| ensures CommitOk(ctx, r[i]) {
      if i < |cs| { assert r[i] == cs[i]; }
    }
  }

  lemma OrderAppend(cs: seq<Commit>, c: Commit)
    requires OrderOk(cs)
    requires forall k :: 0 <= k < |cs| ==> cs[k].position <= c.position && cs[k].attempt < c.attempt
    ensures OrderOk(cs + [c])
  {
    var r := cs + [c];
    forall i, j | 0 <= i < j < |r| ensures r[i].position <= r[j].position && r[i].attempt < r[j].attempt {
      assert r[i] == cs[i];
      if j < |cs| { assert r[j] == cs[j]; }
    }
  }

  lemma HistoryAppend(ctx: Context, cs: seq<Commit>, c: Commit)
    requires HistoryOk(ctx, cs) && Admissible(ctx, cs, c)
    ensures HistoryOk(ctx, cs + [c])
  {
    AppendLast(cs, c);
  }

  /** A valid history has every property the gates promise, stated over all
      its commits and pairs of commits. */
  lemma {:induction false} HistoryMeaning(ctx: Context, cs: seq<Commit>)
    requires HistoryOk(ctx, cs)
    ensures CommitsOk(ctx, cs) && BeforeOk(ctx, cs) && OrderOk(cs) && KeysOk(cs)
    ensures ChainsOk(ctx.mode, cs) && BudgetOk(ctx, cs)
  {
    if cs != [] {
      var init, c := Init(cs), Last(cs);
      assert cs == init + [c];
      HistoryMeaning(ctx, init);
      CommitsAppend(ctx, init, c);
      BeforeAppend(ctx, init, c);
      forall k | 0 <= k < |init| ensures init[k].position <= c.position && init[k].attempt < c.attempt {
        assert init[k].position <= Last(init).position && init[k].attempt <= Last(init).attempt by {
          if k < |init| - 1 {
            assert init[k].position <= init[|init| - 1].position;
          }
        }
      }
      OrderAppend(init, c);
      KeysAppend(init, c);
      ChainsAppend(ctx.mode, init, c);
      BudgetAppend(ctx, init, c);
    }
  }

  /** With every commit before position `p`, the student at `p` has none yet. */
  lemma {:induction false} NothingAfter(ctx: Context, cs: seq<Commit>, p: nat)
    requires HistoryOk(ctx, cs) && (cs != [] ==> Last(cs).position < p)
    ensures CountAt(cs, p) == 0
    ensures forall d :: DayShifts(ctx.mode, cs, p, d) == []
  {
    if cs != [] {
      NothingAfter(ctx, Init(cs), p);
    }
  }

  // ---------------------------------------------------------------------------
  // What a history guarantees

  lemma {:induction false} NamesForLength(cs: seq<Commit>, id: string)
    ensures |NamesFor(cs, id)| <= |cs|
  {
    if cs != [] { NamesForLength(Init(cs), id); }
  }

  /** The names a commit may not repeat: everything that was in the shift
      before it, the initial occupants and the earlier commits' names. */
  lemma NoRepeatedName(ctx: Context, cs: seq<Commit>, i: nat, j: nat)
    requires BeforeOk(ctx, cs) && CommitsOk(ctx, cs)
    requires i < j < |cs| && cs[i].shift.id == cs[j].shift.id
    ensures NameOf(cs[i]) != NameOf(cs[j])
    ensures NameOf(cs[j]) !in ctx.initial[cs[j].shift.id]
  {
    var id := cs[j].shift.id;
    NamesForHas(cs[..j], i, id);
    assert cs[..j][i] == cs[i];
  }

  lemma {:induction false} NamesForHas(cs: seq<Commit>, k: nat, id: string)
    requires k < |cs| && cs[k].shift.id == id
    ensures NameOf(cs[k]) in NamesFor(cs, id)
  {
    if k < |cs| - 1 {
      NamesForHas(Init(cs), k, id);
    }
  }

  /** No commit went into a full shift, so a shift ends with at most as many
      real occupants as its capacity, or as it started with if that was more. */
  lemma {:induction false} OccupancyBound(ctx: Context, cs: seq<Commit>, id: string, cap: int)
    requires CommitsOk(ctx, cs) && BeforeOk(ctx, cs) && id in ctx.initial
    requires forall k :: 0 <= k < |cs| && cs[k].shift.id == id ==> Capacity(cs[k].shift) == cap
    ensures NamesFor(cs, id) == [] || |ctx.initial[id] + NamesFor(cs, id)| <= cap
  {
    if cs != [] {
      var n := |cs| - 1;
      assert cs[..n] == Init(cs);
      if Last(cs).shift.id == id {
        assert CommitOk(ctx, cs[n]);
      } else {
        PrefixOk(ctx, cs, n);
        OccupancyBound(ctx, Init(cs), id, cap);
      }
    }
  }

  /** A prefix keeps the commit-local and the before-list properties. */
  lemma PrefixOk(ctx: Context, cs: seq<Commit>, n: nat)
    requires n <= |cs|
    ensures CommitsOk(ctx, cs) ==> CommitsOk(ctx, cs[..n])
    ensures BeforeOk(ctx, cs) ==> BeforeOk(ctx, cs[..n])
    ensures ChainsOk(ctx.mode, cs) ==> ChainsOk(ctx.mode, cs[..n])
  {
    var r := cs[..n];
    forall i | 0 <= i <= n ensures r[..i] == cs[..i] {
    }
  }

  /** Within one day, the student's shifts form a chain: each after the first
      touches an earlier one. */
  lemma {:induction false} DayChains(mode: Mode, cs: seq<Commit>, p: nat, d: string)
    requires ChainsOk(mode, cs)
    ensures ChainOk(DayShifts(mode, cs, p, d))
  {
    if cs != [] {
      var n := |cs| - 1;
      var c := cs[n];
      var init := cs[..n];
      assert Init(cs) == init && Last(cs) == c;
      assert ChainsOk(mode, init) by {
        forall i | 0 <= i < n ensures ChainStep(mode, init[..i], init[i]) {
          assert init[..i] == cs[..i] && init[i] == cs[i];
        }
      }
      DayChains(mode, init, p, d);
      var ds := DayShifts(mode, init, p, d);
      if c.position == p && DayOf(mode, c) == d {
        assert DayShifts(mode, cs, p, d) == ds + [c.shift];
        assert ChainStep(mode, init, c);
        ChainAppend(ds, c.shift);
      } else {
        assert DayShifts(mode, cs, p, d) == ds;
      }
    }
  }

  /** In term mode the consumed key does not depend on the day: one commit
      for a time range consumes that range for the student on every weekday.
      Term slot rows have no `date`, so `a.date == b.date == None` there; the
      requires allows any shared date, which covers that case. */
  lemma TermUsedKeyIgnoresDay(st: Student, a: Slot, b: Slot, x: Shift, y: Shift)
    requires a.date == b.date && TimeSlot(x) == TimeSlot(y)
    ensures UsedTimeKey(st, a, x) == UsedTimeKey(st, b, y)
  {
  }
}

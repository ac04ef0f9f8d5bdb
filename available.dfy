/** The available-student listing of a shift: the availability records of the
    shift's slot and time range, joined with the students who hold the desk's
    job in the requested term, split into first- and second-choice lists and
    cleared of repeated students. The term listing keys slots by weekday, the
    interim listing by date; everything else is the same pipeline. */
module AvailableStudents {
  import opened Wrappers
  import opened Text

  // ---------------------------------------------------------------------------
  // De-duplication by key

  /** `findIndex(s => key(s) === k)`: the first position whose key is `k`, or -1. */
  function FindIndex<T, K(==)>(xs: seq<T>, key: T -> K, k: K): (r: int)
    ensures -1 <= r < |xs|
    ensures r >= 0 ==> key(xs[r]) == k && forall j :: 0 <= j < r ==> key(xs[j]) != k
    ensures r == -1 ==> forall j :: 0 <= j < |xs| ==> key(xs[j]) != k
  {
    if xs == [] then -1
    else if key(xs[0]) == k then 0
    else
      var r := FindIndex(xs[1..], key, k);
      if r == -1 then -1 else r + 1
  }

  /** `xs.filter((x, i, self) => i === self.findIndex(s => key(s) === key(x)))`,
      run over the positions from `i` on. */
  function KeepFirstFrom<T, K(==)>(xs: seq<T>, key: T -> K, i: nat): seq<T>
    requires i <= |xs|
    decreases |xs| - i
  {
    if i == |xs| then []
    else (if FindIndex(xs, key, key(xs[i])) == i then [xs[i]] else []) + KeepFirstFrom(xs, key, i + 1)
  }

  /** The list with every element dropped whose key occurred earlier. */
  function KeepFirst<T, K(==)>(xs: seq<T>, key: T -> K): seq<T> {
    KeepFirstFrom(xs, key, 0)
  }

  /** `ys` is `xs` with some elements deleted, order kept. */
  predicate Subsequence<T(==)>(ys: seq<T>, xs: seq<T>)
    decreases |xs|
  {
    if ys == [] then true
    else if xs == [] then false
    else Subsequence(ys, xs[1..]) || (ys[0] == xs[0] && Subsequence(ys[1..], xs[1..]))
  }

  /** No key occurs twice. */
  predicate UniqueKeys<T, K(==)>(r: seq<T>, key: T -> K) {
    forall p, q :: 0 <= p < q < |r| ==> key(r[p]) != key(r[q])
  }

  /** The keys met in `ys`. */
  function KeySet<T, K>(ys: seq<T>, key: T -> K): set<K> {
    set j | 0 <= j < |ys| :: key(ys[j])
  }

  /** An independent statement of de-duplication: walk the list once,
      keeping an element exactly when its key has not been seen yet. */
  function Unseen<T, K(==)>(xs: seq<T>, key: T -> K, seen: set<K>): seq<T> {
    if xs == [] then []
    else if key(xs[0]) in seen then Unseen(xs[1..], key, seen)
    else [xs[0]] + Unseen(xs[1..], key, seen + {key(xs[0])})
  }

  /** Position `i` holds the first occurrence of its key exactly when that key
      is not among the keys before `i`. */
  lemma FirstOccurrence<T, K>(xs: seq<T>, key: T -> K, i: nat)
    requires i < |xs|
    ensures FindIndex(xs, key, key(xs[i])) == i <==> key(xs[i]) !in KeySet(xs[..i], key)
  {
    var f := FindIndex(xs, key, key(xs[i]));
    if f != i {
      assert 0 <= f < i;
      assert xs[..i][f] == xs[f];
    } else {
      forall j | 0 <= j < i ensures key(xs[..i][j]) != key(xs[i]) {
        assert xs[..i][j] == xs[j];
      }
    }
  }

  /** The findIndex filter and the seen-set walk agree on every suffix. */
  lemma {:induction false} KeepFirstFromIsUnseen<T, K>(xs: seq<T>, key: T -> K, i: nat)
    requires i <= |xs|
    ensures KeepFirstFrom(xs, key, i) == Unseen(xs[i..], key, KeySet(xs[..i], key))
    decreases |xs| - i
  {
    if i < |xs| {
      var seen := KeySet(xs[..i], key);
      var head := if key(xs[i]) in seen then [] else [xs[i]];
      assert KeepFirstFrom(xs, key, i) == head + KeepFirstFrom(xs, key, i + 1) by {
        FirstOccurrence(xs, key, i);
      }
      assert KeepFirstFrom(xs, key, i + 1) == Unseen(xs[i + 1..], key, seen + {key(xs[i])}) by {
        KeepFirstFromIsUnseen(xs, key, i + 1);
        assert xs[..i + 1] == xs[..i] + [xs[i]];
        KeySetSnoc(xs[..i], xs[i], key);
      }
      var tail := xs[i..];
      assert tail[0] == xs[i] && tail[1..] == xs[i + 1..];
      UnseenStep(tail, key, seen);
    } else {
      assert xs[i..] == [];
    }
  }

  lemma KeySetSnoc<T, K>(ys: seq<T>, y: T, key: T -> K)
    ensures KeySet(ys + [y], key) == KeySet(ys, key) + {key(y)}
  {
    var zs := ys + [y];
    forall k | k in KeySet(zs, key) ensures k in KeySet(ys, key) + {key(y)} {
      var j :| 0 <= j < |zs| && key(zs[j]) == k;
      if j < |ys| { assert zs[j] == ys[j]; }
    }
    forall k | k in KeySet(ys, key) ensures k in KeySet(zs, key) {
      var j :| 0 <= j < |ys| && key(ys[j]) == k;
      assert zs[j] == ys[j];
    }
    assert zs[|ys|] == y;
  }

  /** One step of the seen-set walk; a key already seen adds nothing to the set. */
  lemma UnseenStep<T, K>(xs: seq<T>, key: T -> K, seen: set<K>)
    requires xs != []
    ensures Unseen(xs, key, seen) ==
            (if key(xs[0]) in seen then [] else [xs[0]]) + Unseen(xs[1..], key, seen + {key(xs[0])})
  {
    if key(xs[0]) in seen {
      assert seen + {key(xs[0])} == seen;
    }
  }

  /** The source's filter is the seen-set walk from an empty set. */
  lemma KeepFirstIsUnseen<T, K>(xs: seq<T>, key: T -> K)
    ensures KeepFirst(xs, key) == Unseen(xs, key, {})
  {
    KeepFirstFromIsUnseen(xs, key, 0);
    assert xs[0..] == xs;
    assert KeySet(xs[..0], key) == {};
  }

  /** Everything kept from `i` on is the first occurrence of its key, at or after `i`. */
  lemma {:induction false} KeptAreFirst<T, K>(xs: seq<T>, key: T -> K, i: nat, y: T)
    requires i <= |xs| && y in KeepFirstFrom(xs, key, i)
    ensures i <= FindIndex(xs, key, key(y)) && xs[FindIndex(xs, key, key(y))] == y
    decreases |xs| - i
  {
    if FindIndex(xs, key, key(xs[i])) == i && y == xs[i] {
    } else {
      KeptAreFirst(xs, key, i + 1, y);
    }
  }

  /** No key is kept twice. */
  lemma {:induction false} KeepFirstFromUnique<T, K>(xs: seq<T>, key: T -> K, i: nat)
    requires i <= |xs|
    ensures UniqueKeys(KeepFirstFrom(xs, key, i), key)
    decreases |xs| - i
  {
    if i < |xs| {
      KeepFirstFromUnique(xs, key, i + 1);
      var rest := KeepFirstFrom(xs, key, i + 1);
      if FindIndex(xs, key, key(xs[i])) == i {
        var r := KeepFirstFrom(xs, key, i);
        assert r == [xs[i]] + rest;
        forall p, q | 0 <= p < q < |r| ensures key(r[p]) != key(r[q]) {
          if p == 0 {
            assert r[0] == xs[i] && r[q] == rest[q - 1];
            assert rest[q - 1] in rest;
            KeptAreFirst(xs, key, i + 1, rest[q - 1]);
          } else {
            assert r[p] == rest[p - 1] && r[q] == rest[q - 1];
          }
        }
      } else {
        assert KeepFirstFrom(xs, key, i) == rest;
      }
    }
  }

  /** Every first occurrence from `i` on is kept. */
  lemma {:induction false} FirstsAreKept<T, K>(xs: seq<T>, key: T -> K, i: nat, j: nat)
    requires i <= j < |xs| && FindIndex(xs, key, key(xs[j])) == j
    ensures xs[j] in KeepFirstFrom(xs, key, i)
    decreases j - i
  {
    if i < j {
      FirstsAreKept(xs, key, i + 1, j);
    }
  }

  /** What is kept from `i` on is a subsequence of the list from `i` on. */
  lemma {:induction false} KeepFirstFromSubsequence<T, K>(xs: seq<T>, key: T -> K, i: nat)
    requires i <= |xs|
    ensures Subsequence(KeepFirstFrom(xs, key, i), xs[i..])
    decreases |xs| - i
  {
    if i < |xs| {
      KeepFirstFromSubsequence(xs, key, i + 1);
      assert xs[i..][1..] == xs[i + 1..];
      var rest := KeepFirstFrom(xs, key, i + 1);
      assert xs[i..] != [] && xs[i..][0] == xs[i];
      if FindIndex(xs, key, key(xs[i])) == i {
        assert KeepFirstFrom(xs, key, i) == [xs[i]] + rest;
        assert ([xs[i]] + rest)[1..] == rest;
      } else {
        assert KeepFirstFrom(xs, key, i) == rest;
      }
    } else {
      assert KeepFirstFrom(xs, key, i) == [];
    }
  }

  /** De-duplication keeps the order of the input, keeps no key twice, keeps
      each element only as the first occurrence of its key, and loses no key. */
  lemma KeepFirstMeaning<T, K>(xs: seq<T>, key: T -> K)
    ensures Subsequence(KeepFirst(xs, key), xs)
    ensures UniqueKeys(KeepFirst(xs, key), key)
    ensures forall y :: y in KeepFirst(xs, key) ==> 0 <= FindIndex(xs, key, key(y)) && xs[FindIndex(xs, key, key(y))] == y
    ensures forall j :: 0 <= j < |xs| ==> xs[FindIndex(xs, key, key(xs[j]))] in KeepFirst(xs, key)
  {
    KeepFirstFromSubsequence(xs, key, 0);
    assert xs[0..] == xs;
    KeepFirstFromUnique(xs, key, 0);
    forall y | y in KeepFirst(xs, key)
      ensures 0 <= FindIndex(xs, key, key(y)) && xs[FindIndex(xs, key, key(y))] == y
    {
      KeptAreFirst(xs, key, 0, y);
    }
    forall j | 0 <= j < |xs| ensures xs[FindIndex(xs, key, key(xs[j]))] in KeepFirst(xs, key) {
      var f := FindIndex(xs, key, key(xs[j]));
      assert FindIndex(xs, key, key(xs[f])) == f;
      FirstsAreKept(xs, key, 0, f);
    }
  }

  /** Every key of the input is the key of something kept. */
  lemma KeepFirstKeepsKeys<T, K>(xs: seq<T>, key: T -> K, y: T)
    requires y in xs
    ensures exists z :: z in KeepFirst(xs, key) && key(z) == key(y)
  {
    var j :| 0 <= j < |xs| && xs[j] == y;
    KeepFirstMeaning(xs, key);
    assert xs[FindIndex(xs, key, key(xs[j]))] in KeepFirst(xs, key);
  }

  // ---------------------------------------------------------------------------
  // The records

  /** An availability record: the student, the slot key (the weekday of a
      term slot, the date of an interim slot), the `start - end` time slot
      and the status. */
  datatype AvailabilityRow = AvailabilityRow(studentId: string, slotKey: string, timeSlot: string, status: string)

  /** The student columns the listing reads; all but the id are nullable. */
  datatype StudentRow = StudentRow(
    id: string,
    preferredName: Option<string>,
    email: Option<string>,
    jobs: Option<string>,
    termOrBreak: Option<string>)

  /** One listed student. */
  datatype Listing = Listing(studentId: string, preferredName: Option<string>, email: Option<string>, status: string)

  /** The two lists the listing answers with. */
  datatype Choices = Choices(firstChoice: seq<Listing>, secondChoice: seq<Listing>)

  const FirstChoice: string := "1st Choice"
  const SecondChoice: string := "2nd Choice"

  function StudentIdOf(a: AvailabilityRow): string { a.studentId }
  function ListedIdOf(l: Listing): string { l.studentId }
  function Same(id: string): string { id }

  /** `${start_time} - ${end_time}`. */
  function TimeSlot(startTime: string, endTime: string): string {
    startTime + " - " + endTime
  }

  /** The records of one slot and time slot, in stored order. */
  function SlotRecords(rows: seq<AvailabilityRow>, slotKey: string, timeSlot: string): (r: seq<AvailabilityRow>)
    ensures forall a :: a in r <==> a in rows && a.slotKey == slotKey && a.timeSlot == timeSlot
  {
    if rows == [] then []
    else (if rows[0].slotKey == slotKey && rows[0].timeSlot == timeSlot then [rows[0]] else []) +
         SlotRecords(rows[1..], slotKey, timeSlot)
  }

  /** The ids of the records, in order. */
  function RecordIds(slots: seq<AvailabilityRow>): (r: seq<string>)
    ensures |r| == |slots| && forall i :: 0 <= i < |slots| ==> r[i] == slots[i].studentId
  {
    seq(|slots|, i requires 0 <= i < |slots| => slots[i].studentId)
  }

  /** `[...new Set(ids)]`: each id once, in order of first appearance. */
  function StudentIds(slots: seq<AvailabilityRow>): seq<string> {
    KeepFirst(RecordIds(slots), Same)
  }

  /** The lookup list holds each record's student exactly once. */
  lemma StudentIdsMeaning(slots: seq<AvailabilityRow>)
    ensures var ids := StudentIds(slots);
            (forall p, q :: 0 <= p < q < |ids| ==> ids[p] != ids[q]) &&
            (forall id :: id in ids <==> exists a :: a in slots && a.studentId == id)
  {
    var all := RecordIds(slots);
    var ids := StudentIds(slots);
    KeepFirstMeaning(all, Same);
    forall id | id in ids ensures exists a :: a in slots && a.studentId == id {
      var f := FindIndex(all, Same, Same(id));
      assert slots[f] in slots && slots[f].studentId == id;
    }
    forall a | a in slots ensures a.studentId in ids {
      var j :| 0 <= j < |slots| && slots[j] == a;
      var f := FindIndex(all, Same, Same(all[j]));
      assert all[f] == a.studentId;
    }
  }

  /** `.in('id', studentIds)`: the stored students whose id is listed. */
  function Fetch(table: seq<StudentRow>, ids: seq<string>): (r: seq<StudentRow>)
    ensures forall s :: s in r <==> s in table && s.id in ids
  {
    if table == [] then []
    else (if table[0].id in ids then [table[0]] else []) + Fetch(table[1..], ids)
  }

  /** `student.jobs &&`: a job list that is present and not empty. */
  predicate HasJobs(s: StudentRow) {
    s.jobs.Some? && s.jobs.value != ""
  }

  /** The student is in the requested term and the desk name occurs in the
      job list, both lower-cased. */
  predicate Matches(s: StudentRow, termOrBreak: Option<string>, desk: string) {
    s.termOrBreak == termOrBreak && HasJobs(s) && Contains(ToLower(s.jobs.value), ToLower(desk))
  }

  /** The student filter. A missing desk parameter is only dereferenced once
      a student passes the term and job-list tests, and then the whole
      request fails. */
  function MatchingStudents(all: seq<StudentRow>, termOrBreak: Option<string>, desk: Option<string>): (r: Result<seq<StudentRow>>)
    ensures r.Err? <==> desk.None? && exists s :: s in all && s.termOrBreak == termOrBreak && HasJobs(s)
    ensures r.Ok? ==> forall s :: s in r.value <==> s in all && desk.Some? && Matches(s, termOrBreak, desk.value)
    ensures r.Ok? && desk.None? ==> r.value == []
  {
    if all == [] then Ok([])
    else
      var s := all[0];
      if s.termOrBreak == termOrBreak && HasJobs(s) && desk.None? then Err("Internal Server Error")
      else match MatchingStudents(all[1..], termOrBreak, desk)
        case Err(e) => Err(e)
        case Ok(rest) =>
          assert all == [s] + all[1..];
          Ok((if s.termOrBreak == termOrBreak && HasJobs(s) && Contains(ToLower(s.jobs.value), ToLower(desk.value))
              then [s] else []) + rest)
  }

  /** `students.find(s => s.id === id)`. */
  function FindStudent(students: seq<StudentRow>, id: string): (r: Option<StudentRow>)
    ensures r.Some? ==> r.value in students && r.value.id == id
    ensures r.None? ==> forall s :: s in students ==> s.id != id
  {
    if students == [] then None
    else if students[0].id == id then Some(students[0])
    else FindStudent(students[1..], id)
  }

  /** The listing for a record: its student's name and e-mail, or nothing
      when the student did not pass the filter. */
  function ListingFor(a: AvailabilityRow, students: seq<StudentRow>): Option<Listing> {
    match FindStudent(students, a.studentId)
    case None => None
    case Some(s) => Some(Listing(a.studentId, s.preferredName, s.email, a.status))
  }

  /** The records with one status, mapped to listings, the unmatched dropped. */
  function Choice(slots: seq<AvailabilityRow>, students: seq<StudentRow>, status: string): (r: seq<Listing>)
    ensures forall l :: l in r <==> exists a :: a in slots && a.status == status && ListingFor(a, students) == Some(l)
  {
    if slots == [] then []
    else
      var a := slots[0];
      var head := if a.status == status && ListingFor(a, students).Some? then [ListingFor(a, students).value] else [];
      var rest := Choice(slots[1..], students, status);
      assert slots == [a] + slots[1..];
      assert forall l :: l in head <==> a.status == status && ListingFor(a, students) == Some(l);
      head + rest
  }

  /** One status list: the records with that status, mapped to listings,
      repeated students removed. */
  function StatusList(slots: seq<AvailabilityRow>, students: seq<StudentRow>, status: string): seq<Listing> {
    KeepFirst(Choice(slots, students, status), ListedIdOf)
  }

  /** The students looked up for a shift's records. */
  function Candidates(rows: seq<AvailabilityRow>, table: seq<StudentRow>, slotKey: string, slot: string): seq<StudentRow> {
    Fetch(table, StudentIds(SlotRecords(rows, slotKey, slot)))
  }

  /** The whole listing for one shift: the records of its slot and time slot,
      the students they name, the filter, then each status list with repeated
      students removed. */
  function Listings(rows: seq<AvailabilityRow>, table: seq<StudentRow>, slotKey: string,
                    startTime: string, endTime: string,
                    termOrBreak: Option<string>, desk: Option<string>): Result<Choices>
  {
    var slot := TimeSlot(startTime, endTime);
    var slots := SlotRecords(rows, slotKey, slot);
    match MatchingStudents(Candidates(rows, table, slotKey, slot), termOrBreak, desk)
    case Err(e) => Err(e)
    case Ok(students) =>
      Ok(Choices(StatusList(slots, students, FirstChoice), StatusList(slots, students, SecondChoice)))
  }

  /** A record the listing is about: the shift's slot and time slot and the given status. */
  predicate Offers(a: AvailabilityRow, slotKey: string, timeSlot: string, status: string) {
    a.slotKey == slotKey && a.timeSlot == timeSlot && a.status == status
  }

  /** A stored student of the term whose jobs include the desk. */
  predicate Qualified(table: seq<StudentRow>, id: string, termOrBreak: Option<string>, desk: string) {
    exists s :: s in table && s.id == id && Matches(s, termOrBreak, desk)
  }

  /** Everyone listed has a record for the shift with the list's status and is qualified. */
  predicate AllJustified(r: seq<Listing>, rows: seq<AvailabilityRow>, table: seq<StudentRow>, slotKey: string,
                         slot: string, termOrBreak: Option<string>, desk: string, status: string)
  {
    forall l :: l in r ==>
      l.status == status && Qualified(table, l.studentId, termOrBreak, desk) &&
      exists a :: a in rows && a.studentId == l.studentId && Offers(a, slotKey, slot, status)
  }

  /** Everyone qualified with a record for the shift with the list's status is listed. */
  predicate NoneMissing(r: seq<Listing>, rows: seq<AvailabilityRow>, table: seq<StudentRow>, slotKey: string,
                        slot: string, termOrBreak: Option<string>, desk: string, status: string)
  {
    forall a :: a in rows && Offers(a, slotKey, slot, status) && Qualified(table, a.studentId, termOrBreak, desk) ==>
      exists l :: l in r && l.studentId == a.studentId
  }

  /** Some candidate of the term has a job list, so the desk name is read. */
  predicate DeskRead(cands: seq<StudentRow>, termOrBreak: Option<string>) {
    exists s :: s in cands && s.termOrBreak == termOrBreak && HasJobs(s)
  }

  /** One status list, for filtered `students`: it keeps the order of the
      mapped records, nobody is listed twice, everyone listed is justified,
      and nobody qualified is missing. */
  lemma StatusListMeaning(rows: seq<AvailabilityRow>, table: seq<StudentRow>, slotKey: string, slot: string,
                          termOrBreak: Option<string>, desk: string, status: string, students: seq<StudentRow>)
    requires forall s :: s in students <==> s in Candidates(rows, table, slotKey, slot) && Matches(s, termOrBreak, desk)
    ensures Subsequence(StatusList(SlotRecords(rows, slotKey, slot), students, status),
                        Choice(SlotRecords(rows, slotKey, slot), students, status))
    ensures UniqueKeys(StatusList(SlotRecords(rows, slotKey, slot), students, status), ListedIdOf)
    ensures AllJustified(StatusList(SlotRecords(rows, slotKey, slot), students, status),
                         rows, table, slotKey, slot, termOrBreak, desk, status)
    ensures NoneMissing(StatusList(SlotRecords(rows, slotKey, slot), students, status),
                        rows, table, slotKey, slot, termOrBreak, desk, status)
  {
    KeepFirstMeaning(Choice(SlotRecords(rows, slotKey, slot), students, status), ListedIdOf);
    StatusListJustified(rows, table, slotKey, slot, termOrBreak, desk, status, students);
    StatusListComplete(rows, table, slotKey, slot, termOrBreak, desk, status, students);
  }

  lemma StatusListJustified(rows: seq<AvailabilityRow>, table: seq<StudentRow>, slotKey: string, slot: string,
                            termOrBreak: Option<string>, desk: string, status: string, students: seq<StudentRow>)
    requires forall s :: s in students <==> s in Candidates(rows, table, slotKey, slot) && Matches(s, termOrBreak, desk)
    ensures AllJustified(StatusList(SlotRecords(rows, slotKey, slot), students, status),
                         rows, table, slotKey, slot, termOrBreak, desk, status)
  {
    var slots := SlotRecords(rows, slotKey, slot);
    var c := Choice(slots, students, status);
    var r := StatusList(slots, students, status);
    KeepFirstMeaning(c, ListedIdOf);
    forall l | l in r
      ensures l.status == status && Qualified(table, l.studentId, termOrBreak, desk) &&
              exists a :: a in rows && a.studentId == l.studentId && Offers(a, slotKey, slot, status)
    {
      var f := FindIndex(c, ListedIdOf, ListedIdOf(l));
      assert c[f] == l && l in c;
      var a :| a in slots && a.status == status && ListingFor(a, students) == Some(l);
      var s := FindStudent(students, a.studentId).value;
      assert s in table && s.id == l.studentId && Matches(s, termOrBreak, desk);
    }
  }

  lemma StatusListComplete(rows: seq<AvailabilityRow>, table: seq<StudentRow>, slotKey: string, slot: string,
                           termOrBreak: Option<string>, desk: string, status: string, students: seq<StudentRow>)
    requires forall s :: s in students <==> s in Candidates(rows, table, slotKey, slot) && Matches(s, termOrBreak, desk)
    ensures NoneMissing(StatusList(SlotRecords(rows, slotKey, slot), students, status),
                        rows, table, slotKey, slot, termOrBreak, desk, status)
  {
    var slots := SlotRecords(rows, slotKey, slot);
    var c := Choice(slots, students, status);
    var r := StatusList(slots, students, status);
    StudentIdsMeaning(slots);
    forall a | a in rows && Offers(a, slotKey, slot, status) && Qualified(table, a.studentId, termOrBreak, desk)
      ensures exists l :: l in r && l.studentId == a.studentId
    {
      var s :| s in table && s.id == a.studentId && Matches(s, termOrBreak, desk);
      assert a in slots;
      assert s in Candidates(rows, table, slotKey, slot);
      assert s in students;
      var l := ListingFor(a, students).value;
      assert l in c;
      KeepFirstKeepsKeys(c, ListedIdOf, l);
    }
  }

  /** With nobody left after the filter, no record is listed. */
  lemma {:induction false} ChoiceOfNobody(slots: seq<AvailabilityRow>, status: string)
    ensures Choice(slots, [], status) == []
  {
    if slots != [] {
      ChoiceOfNobody(slots[1..], status);
    }
  }

  /** The listing fails only when the desk parameter is missing and some
      candidate of the term has a job list; otherwise the first list is the
      `1st Choice` list and the second the `2nd Choice` list, each as
      `StatusListMeaning` says (both empty when the desk is missing). */
  lemma ListingsMeaning(rows: seq<AvailabilityRow>, table: seq<StudentRow>, slotKey: string,
                        startTime: string, endTime: string,
                        termOrBreak: Option<string>, desk: Option<string>)
    ensures var r := Listings(rows, table, slotKey, startTime, endTime, termOrBreak, desk);
            var slot := TimeSlot(startTime, endTime);
            (r.Err? <==> desk.None? && DeskRead(Candidates(rows, table, slotKey, slot), termOrBreak)) &&
            (r.Ok? && desk.None? ==> r.value.firstChoice == [] && r.value.secondChoice == []) &&
            (r.Ok? && desk.Some? ==>
               UniqueKeys(r.value.firstChoice, ListedIdOf) && UniqueKeys(r.value.secondChoice, ListedIdOf) &&
               AllJustified(r.value.firstChoice, rows, table, slotKey, slot, termOrBreak, desk.value, FirstChoice) &&
               NoneMissing(r.value.firstChoice, rows, table, slotKey, slot, termOrBreak, desk.value, FirstChoice) &&
               AllJustified(r.value.secondChoice, rows, table, slotKey, slot, termOrBreak, desk.value, SecondChoice) &&
               NoneMissing(r.value.secondChoice, rows, table, slotKey, slot, termOrBreak, desk.value, SecondChoice))
  {
    var slot := TimeSlot(startTime, endTime);
    var slots := SlotRecords(rows, slotKey, slot);
    var m := MatchingStudents(Candidates(rows, table, slotKey, slot), termOrBreak, desk);
    if m.Ok? {
      if desk.Some? {
        StatusListMeaning(rows, table, slotKey, slot, termOrBreak, desk.value, FirstChoice, m.value);
        StatusListMeaning(rows, table, slotKey, slot, termOrBreak, desk.value, SecondChoice, m.value);
      } else {
        ChoiceOfNobody(slots, FirstChoice);
        ChoiceOfNobody(slots, SecondChoice);
      }
    }
  }
}

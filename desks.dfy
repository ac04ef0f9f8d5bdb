/** Desk creation: the open hours of each slot cut into two-hour shift rows,
    for term desks (aligned to the opening time, pieces under one hour
    dropped, midnight rendered `24:00:00`) and interim desks (cut from each
    shift's own start, clamped, no minimum), and the date reformatting of
    interim slots. Times are minutes after midnight; the database inserts
    become the returned rows. */
module DeskShifts {
  import opened Text

  /** A time of day in minutes, `24:00` included. */
  type Minutes = m: nat | m <= 1440

  /** Two hours, the length of a full piece. */
  const Step: nat := 120

  /** A requested shift; `maxStudents == 0` stands for a missing or zero
      `max_students`. */
  datatype ShiftRequest = ShiftRequest(start: Minutes, end: Minutes, maxStudents: nat)

  /** A requested term slot (its weekday is stored unchanged and plays no part here). */
  datatype TermSlotRequest = TermSlotRequest(isOpen: bool, shifts: seq<ShiftRequest>)

  /** A requested interim slot, its date written `DD-MM-YYYY`. */
  datatype InterimSlotRequest = InterimSlotRequest(date: string, shifts: seq<ShiftRequest>)

  /** One cut of a shift, `[start, end)` in minutes. */
  datatype Piece = Piece(start: nat, end: nat)

  /** One inserted shift row, with the position of its slot in the request. */
  datatype ShiftRow = ShiftRow(slot: nat, startTime: string, endTime: string,
                               maxStudents: nat, studentsDetailed: seq<string>)

  // ---------------------------------------------------------------------------
  // Cutting

  function Min(a: nat, b: nat): nat {
    if a < b then a else b
  }

  /** The term cuts from `s` on: two-hour steps while before `e`, each clamped
      at `e`, keeping only those of at least an hour. */
  function TermPieces(s: nat, e: nat): seq<Piece>
    decreases e - s
  {
    if s >= e then []
    else
      var pe := Min(s + Step, e);
      (if pe - s >= 60 then [Piece(s, pe)] else []) + TermPieces(s + Step, e)
  }

  /** The interim cuts from `s` on: two-hour steps while before `e`, the last
      clamped at `e`. */
  function InterimPieces(s: nat, e: nat): seq<Piece>
    decreases e - s
  {
    if s >= e then [] else [Piece(s, Min(s + Step, e))] + InterimPieces(s + Step, e)
  }

  /** Consecutive pieces touch: each ends where the next starts. */
  predicate Contiguous(ps: seq<Piece>) {
    forall i :: 0 <= i < |ps| - 1 ==> ps[i].end == ps[i + 1].start
  }

  /** The term cuts are contiguous pieces of one to two hours starting at `s`,
      there are none exactly when less than an hour is available, and what
      they leave uncovered at the end is under an hour. */
  lemma {:induction false} TermPiecesShape(s: nat, e: nat)
    ensures var ps := TermPieces(s, e);
            (ps == [] <==> e < s + 60) &&
            (ps != [] ==> ps[0].start == s && ps[|ps| - 1].end <= e && e < ps[|ps| - 1].end + 60) &&
            (forall i :: 0 <= i < |ps| ==> ps[i].start + 60 <= ps[i].end <= ps[i].start + Step) &&
            Contiguous(ps)
    decreases e - s
  {
    if s < e {
      var pe := Min(s + Step, e);
      var rest := TermPieces(s + Step, e);
      TermPiecesShape(s + Step, e);
      if pe - s >= 60 {
        var ps := [Piece(s, pe)] + rest;
        assert ps[1..] == rest;
        if rest != [] {
          assert pe == s + Step;
        }
      }
    }
  }

  /** The interim cuts are contiguous pieces of at most two hours that cover
      `[s, e)` exactly. */
  lemma {:induction false} InterimPiecesShape(s: nat, e: nat)
    ensures var ps := InterimPieces(s, e);
            (ps == [] <==> e <= s) &&
            (ps != [] ==> ps[0].start == s && ps[|ps| - 1].end == e) &&
            (forall i :: 0 <= i < |ps| ==> ps[i].start < ps[i].end <= ps[i].start + Step) &&
            Contiguous(ps)
    decreases e - s
  {
    if s < e {
      var pe := Min(s + Step, e);
      var rest := InterimPieces(s + Step, e);
      InterimPiecesShape(s + Step, e);
      var ps := [Piece(s, pe)] + rest;
      assert ps[1..] == rest;
      if rest != [] {
        assert pe == s + Step;
      }
    }
  }

  // ---------------------------------------------------------------------------
  // Rendering

  /** A number below 100 written with two digits, as `padStart(2, "0")` writes it. */
  function TwoDigits(n: nat): (r: string)
    requires n < 100
  {
    [DigitChar(n / 10), DigitChar(n % 10)]
  }

  /** Two digits are the decimal text of the number, zero-padded to width two. */
  lemma TwoDigitsPadded(n: nat)
    requires n < 100
    ensures TwoDigits(n) == Pad2(NatToString(n))
  {
    if n >= 10 {
      assert NatToString(n) == NatToString(n / 10) + [DigitChar(n % 10)];
    }
  }

  /** `toTimeString().slice(0, 5)`: the clock time `HH:MM`, midnight of the
      next day reading `00:00`. */
  function Clock(m: nat): string {
    TwoDigits((m / 60) % 24) + ":" + TwoDigits(m % 60)
  }

  /** A clock time has five characters, a colon in the middle. */
  lemma ClockShape(m: nat)
    ensures |Clock(m)| == 5 && Clock(m)[2] == ':'
  {
  }

  /** The term end time: `24:00:00` for midnight, `HH:MM` otherwise. */
  function TermEndText(m: nat): string {
    if m % 1440 == 0 then "24:00:00" else Clock(m)
  }

  /** For an end after the start of the day, the term end text is
      `24:00:00` exactly at midnight and a five-character clock time before it. */
  lemma TermEndTextMidnight(m: Minutes)
    requires m > 0
    ensures TermEndText(m) == "24:00:00" <==> m == 1440
    ensures m < 1440 ==> TermEndText(m) == Clock(m)
  {
    if m < 1440 {
      assert m % 1440 != 0;
      assert TermEndText(m) == Clock(m);
      ClockShape(m);
      assert |"24:00:00"| == 8;
      assert Clock(m) != "24:00:00";
    } else {
      assert m == 1440;
    }
  }

  /** `max_students || 1`. */
  function StoredMax(m: nat): nat {
    if m != 0 then m else 1
  }

  function TermRow(slot: nat, m: nat, p: Piece): ShiftRow {
    ShiftRow(slot, Clock(p.start), TermEndText(p.end), StoredMax(m),
             Repeat("Open", if m != 0 then m else 2))
  }

  function InterimRow(slot: nat, m: nat, p: Piece): ShiftRow {
    ShiftRow(slot, Clock(p.start), Clock(p.end), StoredMax(m), Repeat("Open", StoredMax(m)))
  }

  function TermRows(slot: nat, m: nat, ps: seq<Piece>): seq<ShiftRow> {
    if ps == [] then [] else [TermRow(slot, m, ps[0])] + TermRows(slot, m, ps[1..])
  }

  function InterimRows(slot: nat, m: nat, ps: seq<Piece>): seq<ShiftRow> {
    if ps == [] then [] else [InterimRow(slot, m, ps[0])] + InterimRows(slot, m, ps[1..])
  }

  /** Every term row of a shift stores `max_students || 1` and a list of
      `max_students || 2` open seats. */
  lemma TermRowSeats(slot: nat, m: nat, ps: seq<Piece>, k: nat)
    requires k < |ps|
    ensures |TermRows(slot, m, ps)| == |ps|
    ensures var r := TermRows(slot, m, ps)[k];
            r.maxStudents >= 1 && (m != 0 ==> r.maxStudents == m) &&
            |r.studentsDetailed| == (if m != 0 then m else 2) &&
            forall j :: 0 <= j < |r.studentsDetailed| ==> r.studentsDetailed[j] == "Open"
  {
    TermRowsIndex(slot, m, ps, k);
  }

  lemma {:induction false} TermRowsIndex(slot: nat, m: nat, ps: seq<Piece>, k: nat)
    requires k < |ps|
    ensures |TermRows(slot, m, ps)| == |ps| && TermRows(slot, m, ps)[k] == TermRow(slot, m, ps[k])
  {
    if k > 0 {
      TermRowsIndex(slot, m, ps[1..], k - 1);
    } else if |ps| > 1 {
      TermRowsIndex(slot, m, ps[1..], 0);
    }
  }

  lemma {:induction false} InterimRowsIndex(slot: nat, m: nat, ps: seq<Piece>, k: nat)
    requires k < |ps|
    ensures |InterimRows(slot, m, ps)| == |ps| && InterimRows(slot, m, ps)[k] == InterimRow(slot, m, ps[k])
  {
    if k > 0 {
      InterimRowsIndex(slot, m, ps[1..], k - 1);
    } else if |ps| > 1 {
      InterimRowsIndex(slot, m, ps[1..], 0);
    }
  }

  /** Every interim row stores `max_students || 1` and exactly that many open seats. */
  lemma InterimRowSeats(slot: nat, m: nat, ps: seq<Piece>, k: nat)
    requires k < |ps|
    ensures |InterimRows(slot, m, ps)| == |ps|
    ensures var r := InterimRows(slot, m, ps)[k];
            r.maxStudents >= 1 && (m != 0 ==> r.maxStudents == m) &&
            |r.studentsDetailed| == r.maxStudents &&
            forall j :: 0 <= j < |r.studentsDetailed| ==> r.studentsDetailed[j] == "Open"
  {
    InterimRowsIndex(slot, m, ps, k);
  }

  // ---------------------------------------------------------------------------
  // What each request inserts

  /** The shifts of an open term slot: the requested ones, or one shift over
      the opening hours with one seat. */
  function TermShiftsOf(opening: Minutes, closing: Minutes, slot: TermSlotRequest): seq<ShiftRequest> {
    if |slot.shifts| > 0 then slot.shifts else [ShiftRequest(opening, closing, 1)]
  }

  /** The start of the first term cut: the shift start, moved up to the opening time. */
  function AlignedStart(opening: Minutes, sh: ShiftRequest): nat {
    if sh.start < opening then opening else sh.start
  }

  function TermShiftRows(opening: Minutes, slot: nat, sh: ShiftRequest): seq<ShiftRow> {
    TermRows(slot, sh.maxStudents, TermPieces(AlignedStart(opening, sh), sh.end))
  }

  function TermShiftsRows(opening: Minutes, slot: nat, shs: seq<ShiftRequest>): seq<ShiftRow> {
    if shs == [] then []
    else TermShiftsRows(opening, slot, shs[..|shs| - 1]) + TermShiftRows(opening, slot, shs[|shs| - 1])
  }

  function TermSlotRows(opening: Minutes, closing: Minutes, slot: nat, req: TermSlotRequest): seq<ShiftRow> {
    if req.isOpen then TermShiftsRows(opening, slot, TermShiftsOf(opening, closing, req)) else []
  }

  /** Every row a term desk request inserts, in insertion order. */
  function TermDeskRows(opening: Minutes, closing: Minutes, slots: seq<TermSlotRequest>): seq<ShiftRow> {
    if slots == [] then []
    else
      var n := |slots| - 1;
      TermDeskRows(opening, closing, slots[..n]) + TermSlotRows(opening, closing, n, slots[n])
  }

  function InterimShiftRows(slot: nat, sh: ShiftRequest): seq<ShiftRow> {
    InterimRows(slot, sh.maxStudents, InterimPieces(sh.start, sh.end))
  }

  function InterimShiftsRows(slot: nat, shs: seq<ShiftRequest>): seq<ShiftRow> {
    if shs == [] then []
    else InterimShiftsRows(slot, shs[..|shs| - 1]) + InterimShiftRows(slot, shs[|shs| - 1])
  }

  /** Every shift row an interim desk request inserts, in insertion order. */
  function InterimDeskRows(slots: seq<InterimSlotRequest>): seq<ShiftRow> {
    if slots == [] then []
    else
      var n := |slots| - 1;
      InterimDeskRows(slots[..n]) + InterimShiftsRows(n, slots[n].shifts)
  }

  /** A closed term slot inserts nothing; an open one without shifts inserts
      the cuts of its opening hours. */
  lemma TermSlotDefaults(opening: Minutes, closing: Minutes, slot: nat, req: TermSlotRequest)
    ensures !req.isOpen ==> TermSlotRows(opening, closing, slot, req) == []
    ensures req.isOpen && req.shifts == [] ==>
      TermSlotRows(opening, closing, slot, req) == TermRows(slot, 1, TermPieces(opening, closing))
  {
    if req.isOpen && req.shifts == [] {
      var shs := [ShiftRequest(opening, closing, 1)];
      assert shs[..0] == [];
      assert TermShiftsRows(opening, slot, shs) == TermShiftsRows(opening, slot, []) + TermShiftRows(opening, slot, shs[0]);
    }
  }

  // ---------------------------------------------------------------------------
  // Dates

  /** The `i`-th piece of a destructured split, `undefined` when absent. */
  function Part(parts: seq<string>, i: nat): string {
    if i < |parts| then parts[i] else "undefined"
  }

  /** `DD-MM-YYYY` to `YYYY-MM-DD`: split at `-`, then the third, second and
      first piece joined by `-`. */
  function FormatDate(s: string): string {
    var parts := Split(s, '-');
    Part(parts, 2) + "-" + Part(parts, 1) + "-" + Part(parts, 0)
  }

  /** A date with exactly two hyphens has its pieces reversed. */
  lemma FormatDateReorders(d: string, m: string, y: string)
    requires '-' !in d && '-' !in m && '-' !in y
    ensures FormatDate(d + "-" + m + "-" + y) == y + "-" + m + "-" + d
  {
    SplitThree(d, m, y, '-');
  }

  // ---------------------------------------------------------------------------
  // The request handlers' loops

  /** One turn of the term loop: the cut from `s`, clamped at `e`, becomes a
      row when it lasts at least an hour. */
  method TermCut(slot: nat, m: nat, s: nat, e: nat) returns (more: seq<ShiftRow>)
    ensures var pe := Min(s + Step, e);
            more == if pe - s >= 60 then [TermRow(slot, m, Piece(s, pe))] else []
  {
    var slotEndTime := s + Step;
    if slotEndTime > e {
      slotEndTime := e;
    }
    more := [];
    if slotEndTime - s >= 60 {
      var endText := if slotEndTime % 1440 == 0 then "24:00:00" else Clock(slotEndTime);
      more := [ShiftRow(slot, Clock(s), endText, if m != 0 then m else 1, Repeat("Open", if m != 0 then m else 2))];
    }
  }

  /** The slicing loop of one term shift. */
  method SliceTermShift(opening: Minutes, slot: nat, sh: ShiftRequest) returns (rows: seq<ShiftRow>)
    ensures rows == TermShiftRows(opening, slot, sh)
  {
    var startTime: nat := sh.start;
    if startTime < opening {
      startTime := opening;
    }
    rows := [];
    ghost var done: seq<Piece> := [];
    TermSliceStart(opening, slot, sh);
    while startTime < sh.end
      invariant TermSliced(opening, slot, sh, startTime, done, rows)
      decreases sh.end - startTime
    {
      var more := TermCut(slot, sh.maxStudents, startTime, sh.end);
      ghost var cut := TermSliceStep(opening, slot, sh, startTime, done, rows, more);
      rows := rows + more;
      startTime := startTime + Step;
      done := done + cut;
    }
    TermSliceEnd(opening, slot, sh, startTime, done, rows);
  }

  /** The term loop's invariant: the cuts done and the cuts from `s` on make
      up all the cuts of the shift, and the rows are those of the cuts done. */
  predicate TermSliced(opening: Minutes, slot: nat, sh: ShiftRequest, s: nat, done: seq<Piece>, rows: seq<ShiftRow>) {
    done + TermPieces(s, sh.end) == TermPieces(AlignedStart(opening, sh), sh.end) &&
    rows == TermRows(slot, sh.maxStudents, done)
  }

  lemma TermSliceStart(opening: Minutes, slot: nat, sh: ShiftRequest)
    ensures TermSliced(opening, slot, sh, AlignedStart(opening, sh), [], [])
  {
    assert [] + TermPieces(AlignedStart(opening, sh), sh.end) == TermPieces(AlignedStart(opening, sh), sh.end);
  }

  lemma TermSliceEnd(opening: Minutes, slot: nat, sh: ShiftRequest, s: nat, done: seq<Piece>, rows: seq<ShiftRow>)
    requires s >= sh.end && TermSliced(opening, slot, sh, s, done, rows)
    ensures rows == TermShiftRows(opening, slot, sh)
  {
    assert done + [] == done;
  }

  /** One turn of the term loop, on the cuts: the next cut, if kept, moves
      from the cuts to do to the cuts done, and its row joins the rows. */
  lemma TermSliceStep(opening: Minutes, slot: nat, sh: ShiftRequest, s: nat, done: seq<Piece>,
                      rows: seq<ShiftRow>, more: seq<ShiftRow>) returns (cut: seq<Piece>)
    requires s < sh.end && TermSliced(opening, slot, sh, s, done, rows)
    requires var pe := Min(s + Step, sh.end);
             more == if pe - s >= 60 then [TermRow(slot, sh.maxStudents, Piece(s, pe))] else []
    ensures TermSliced(opening, slot, sh, s + Step, done + cut, rows + more)
  {
    var e, m := sh.end, sh.maxStudents;
    var pe := Min(s + Step, e);
    cut := if pe - s >= 60 then [Piece(s, pe)] else [];
    assert TermPieces(s, e) == cut + TermPieces(s + Step, e);
    AppendAssoc(done, cut, TermPieces(s + Step, e));
    TermRowsAppend(slot, m, done, cut);
    if pe - s >= 60 {
      assert cut[1..] == [];
    }
  }

  /** The slicing loop of one interim shift. */
  method SliceInterimShift(slot: nat, sh: ShiftRequest) returns (rows: seq<ShiftRow>)
    ensures rows == InterimShiftRows(slot, sh)
  {
    var startTime: nat := sh.start;
    rows := [];
    ghost var done: seq<Piece> := [];
    InterimSliceStart(slot, sh);
    while startTime < sh.end
      invariant InterimSliced(slot, sh, startTime, done, rows)
      decreases sh.end - startTime
    {
      var slotEndTime := startTime + Step;
      if slotEndTime > sh.end {
        slotEndTime := sh.end;
      }
      var row := MakeInterimRow(slot, sh.maxStudents, startTime, slotEndTime);
      InterimSliceStep(slot, sh, startTime, done, rows, row);
      rows := rows + [row];
      done := done + [Piece(startTime, slotEndTime)];
      startTime := startTime + Step;
    }
    InterimSliceEnd(slot, sh, startTime, done, rows);
  }

  /** The interim loop's invariant: the cuts done and the cuts from `s` on
      make up all the cuts of the shift, and the rows are those of the cuts done. */
  predicate InterimSliced(slot: nat, sh: ShiftRequest, s: nat, done: seq<Piece>, rows: seq<ShiftRow>) {
    done + InterimPieces(s, sh.end) == InterimPieces(sh.start, sh.end) &&
    rows == InterimRows(slot, sh.maxStudents, done)
  }

  lemma InterimSliceStart(slot: nat, sh: ShiftRequest)
    ensures InterimSliced(slot, sh, sh.start, [], [])
  {
    assert [] + InterimPieces(sh.start, sh.end) == InterimPieces(sh.start, sh.end);
  }

  lemma InterimSliceEnd(slot: nat, sh: ShiftRequest, s: nat, done: seq<Piece>, rows: seq<ShiftRow>)
    requires s >= sh.end && InterimSliced(slot, sh, s, done, rows)
    ensures rows == InterimShiftRows(slot, sh)
  {
    assert done + [] == done;
  }

  /** The row the interim loop inserts for the cut `[s, pe)`. */
  method MakeInterimRow(slot: nat, m: nat, s: nat, pe: nat) returns (row: ShiftRow)
    ensures row == InterimRow(slot, m, Piece(s, pe))
  {
    var seats := if m != 0 then m else 1;
    row := ShiftRow(slot, Clock(s), Clock(pe), seats, Repeat("Open", seats));
  }

  /** One turn of the interim loop, on the cuts: the next cut moves from the
      cuts to do to the cuts done, and its row joins the rows. */
  lemma InterimSliceStep(slot: nat, sh: ShiftRequest, s: nat, done: seq<Piece>, rows: seq<ShiftRow>, row: ShiftRow)
    requires s < sh.end && InterimSliced(slot, sh, s, done, rows)
    requires row == InterimRow(slot, sh.maxStudents, Piece(s, Min(s + Step, sh.end)))
    ensures InterimSliced(slot, sh, s + Step, done + [Piece(s, Min(s + Step, sh.end))], rows + [row])
  {
    var e, m := sh.end, sh.maxStudents;
    var cut := [Piece(s, Min(s + Step, e))];
    assert InterimPieces(s, e) == cut + InterimPieces(s + Step, e);
    AppendAssoc(done, cut, InterimPieces(s + Step, e));
    InterimRowsAppend(slot, m, done, cut);
    assert cut[1..] == [];
  }

  /** The shift loop of one open term slot. */
  method SliceTermShifts(opening: Minutes, slot: nat, shifts: seq<ShiftRequest>) returns (rows: seq<ShiftRow>)
    ensures rows == TermShiftsRows(opening, slot, shifts)
  {
    rows := [];
    var j := 0;
    while j < |shifts|
      invariant 0 <= j <= |shifts|
      invariant rows == TermShiftsRows(opening, slot, shifts[..j])
    {
      var piece := SliceTermShift(opening, slot, shifts[j]);
      TermShiftsNext(opening, slot, shifts, j, rows, piece);
      rows := rows + piece;
      j := j + 1;
    }
    assert shifts[..j] == shifts;
  }

  lemma TermShiftsNext(opening: Minutes, slot: nat, shifts: seq<ShiftRequest>, j: nat, rows: seq<ShiftRow>, piece: seq<ShiftRow>)
    requires j < |shifts| && rows == TermShiftsRows(opening, slot, shifts[..j])
    requires piece == TermShiftRows(opening, slot, shifts[j])
    ensures rows + piece == TermShiftsRows(opening, slot, shifts[..j + 1])
  {
    assert shifts[..j + 1][..j] == shifts[..j];
  }

  /** The rows of one term slot: none when it is closed, else those of its shifts. */
  method SliceTermSlot(opening: Minutes, closing: Minutes, slot: nat, req: TermSlotRequest) returns (rows: seq<ShiftRow>)
    ensures rows == TermSlotRows(opening, closing, slot, req)
  {
    rows := [];
    if req.isOpen {
      rows := SliceTermShifts(opening, slot, TermShiftsOf(opening, closing, req));
    }
  }

  /** The term desk's slot and shift loops. */
  method CreateTermShifts(opening: Minutes, closing: Minutes, slots: seq<TermSlotRequest>) returns (rows: seq<ShiftRow>)
    ensures rows == TermDeskRows(opening, closing, slots)
  {
    rows := [];
    var i := 0;
    while i < |slots|
      invariant 0 <= i <= |slots|
      invariant rows == TermDeskRows(opening, closing, slots[..i])
    {
      var more := SliceTermSlot(opening, closing, i, slots[i]);
      TermDeskNext(opening, closing, slots, i, rows, more);
      rows := rows + more;
      i := i + 1;
    }
    assert slots[..i] == slots;
  }

  lemma TermDeskNext(opening: Minutes, closing: Minutes, slots: seq<TermSlotRequest>, i: nat, rows: seq<ShiftRow>, more: seq<ShiftRow>)
    requires i < |slots| && rows == TermDeskRows(opening, closing, slots[..i])
    requires more == TermSlotRows(opening, closing, i, slots[i])
    ensures rows + more == TermDeskRows(opening, closing, slots[..i + 1])
  {
    assert slots[..i + 1][..i] == slots[..i];
  }

  /** The shift loop of one interim slot. */
  method SliceInterimShifts(slot: nat, shifts: seq<ShiftRequest>) returns (rows: seq<ShiftRow>)
    ensures rows == InterimShiftsRows(slot, shifts)
  {
    rows := [];
    var j := 0;
    while j < |shifts|
      invariant 0 <= j <= |shifts|
      invariant rows == InterimShiftsRows(slot, shifts[..j])
    {
      var piece := SliceInterimShift(slot, shifts[j]);
      InterimShiftsNext(slot, shifts, j, rows, piece);
      rows := rows + piece;
      j := j + 1;
    }
    assert shifts[..j] == shifts;
  }

  lemma InterimShiftsNext(slot: nat, shifts: seq<ShiftRequest>, j: nat, rows: seq<ShiftRow>, piece: seq<ShiftRow>)
    requires j < |shifts| && rows == InterimShiftsRows(slot, shifts[..j])
    requires piece == InterimShiftRows(slot, shifts[j])
    ensures rows + piece == InterimShiftsRows(slot, shifts[..j + 1])
  {
    assert shifts[..j + 1][..j] == shifts[..j];
  }

  /** The interim desk's slot and shift loops: the stored slot dates and the
      shift rows. */
  method CreateInterimShifts(slots: seq<InterimSlotRequest>) returns (dates: seq<string>, rows: seq<ShiftRow>)
    ensures |dates| == |slots| && forall i :: 0 <= i < |slots| ==> dates[i] == FormatDate(slots[i].date)
    ensures rows == InterimDeskRows(slots)
  {
    dates, rows := [], [];
    var i := 0;
    while i < |slots|
      invariant 0 <= i <= |slots|
      invariant |dates| == i && forall k :: 0 <= k < i ==> dates[k] == FormatDate(slots[k].date)
      invariant rows == InterimDeskRows(slots[..i])
    {
      dates := dates + [FormatDate(slots[i].date)];
      var more := SliceInterimShifts(i, slots[i].shifts);
      InterimDeskNext(slots, i, rows, more);
      rows := rows + more;
      i := i + 1;
    }
    assert slots[..i] == slots;
  }

  lemma InterimDeskNext(slots: seq<InterimSlotRequest>, i: nat, rows: seq<ShiftRow>, more: seq<ShiftRow>)
    requires i < |slots| && rows == InterimDeskRows(slots[..i])
    requires more == InterimShiftsRows(i, slots[i].shifts)
    ensures rows + more == InterimDeskRows(slots[..i + 1])
  {
    assert slots[..i + 1][..i] == slots[..i];
  }

  lemma {:induction false} TermRowsAppend(slot: nat, m: nat, a: seq<Piece>, b: seq<Piece>)
    ensures TermRows(slot, m, a + b) == TermRows(slot, m, a) + TermRows(slot, m, b)
  {
    if a == [] {
      assert a + b == b;
    } else {
      assert (a + b)[1..] == a[1..] + b;
      TermRowsAppend(slot, m, a[1..], b);
      AppendAssoc([TermRow(slot, m, a[0])], TermRows(slot, m, a[1..]), TermRows(slot, m, b));
    }
  }

  lemma {:induction false} InterimRowsAppend(slot: nat, m: nat, a: seq<Piece>, b: seq<Piece>)
    ensures InterimRows(slot, m, a + b) == InterimRows(slot, m, a) + InterimRows(slot, m, b)
  {
    if a == [] {
      assert a + b == b;
    } else {
      assert (a + b)[1..] == a[1..] + b;
      InterimRowsAppend(slot, m, a[1..], b);
      AppendAssoc([InterimRow(slot, m, a[0])], InterimRows(slot, m, a[1..]), InterimRows(slot, m, b));
    }
  }
}

/** The schedule export: one spreadsheet row per slot, with a fixed column
    per two-hour range, each cell `Closed` unless a shift of that exact range
    fills it with its occupants. The workbook itself is left out; the rows
    are the result. */
module ScheduleExport {
  import opened Wrappers
  import opened Text
  import opened Rules
  import DeskShifts

  /** A stored shift as the export reads it; a missing occupant list is empty. */
  datatype ExportShift = ExportShift(startTime: string, endTime: string, studentsDetailed: seq<string>)

  /** A stored slot: the weekday of a term slot, the `YYYY-MM-DD` date of an
      interim slot, and its shifts (a missing list is empty). */
  datatype ExportSlot = ExportSlot(dayOfWeek: string, date: string, shifts: seq<ExportShift>)

  /** One spreadsheet row: the `Day` or `Date` cell, then the time columns in order. */
  datatype Row = Row(key: string, cells: seq<string>)

  const Closed: string := "Closed"

  /** The column labels: eight for term desks, the first six for interim desks. */
  function Labels(mode: Mode): (r: seq<string>)
    ensures |r| == if mode == Term then 8 else 6
  {
    var six := ["08:00:00 - 10:00:00", "10:00:00 - 12:00:00", "12:00:00 - 14:00:00",
                "14:00:00 - 16:00:00", "16:00:00 - 18:00:00", "18:00:00 - 20:00:00"];
    if mode == Term then six + ["20:00:00 - 22:00:00", "22:00:00 - 00:00:00"] else six
  }

  /** No two columns share a label. */
  lemma LabelsDistinct(mode: Mode, i: nat, j: nat)
    requires i < j < |Labels(mode)|
    ensures Labels(mode)[i] != Labels(mode)[j]
  {
    var ls := Labels(mode);
    assert forall k :: 0 <= k < |ls| ==> |ls[k]| >= 2 && StartHour(ls[k]) == 8 + 2 * k;
  }

  /** The hour a label starts at, read from its first two digits. */
  function StartHour(l: string): int
    requires |l| >= 2
  {
    (l[0] as int - '0' as int) * 10 + (l[1] as int - '0' as int)
  }

  /** `${start_time} - ${end_time}`. */
  function RangeOf(sh: ExportShift): string {
    sh.startTime + " - " + sh.endTime
  }

  /** `timeSlots.find(...)`: the first column whose label is `range`. */
  function FindLabel(labels: seq<string>, range: string): (r: Option<nat>)
    ensures r.Some? ==> r.value < |labels| && labels[r.value] == range &&
                        forall k :: 0 <= k < r.value ==> labels[k] != range
    ensures r.None? ==> range !in labels
  {
    if labels == [] then None
    else if labels[0] == range then Some(0)
    else match FindLabel(labels[1..], range)
      case None => None
      case Some(k) => Some(k + 1)
  }

  /** The names other than the literal `Open`, in order (the comparison is case-sensitive). */
  function WithoutOpen(names: seq<string>): (r: seq<string>)
    ensures forall x :: x in r <==> x in names && x != "Open"
    ensures forall x :: multiset(r)[x] == if x == "Open" then 0 else multiset(names)[x]
    ensures |names| == 1 ==> r == if names[0] != "Open" then names else []
  {
    if names == [] then []
    else
      assert names == [names[0]] + names[1..];
      (if names[0] != "Open" then [names[0]] else []) + WithoutOpen(names[1..])
  }

  /** Dropping `Open` keeps the order: the names of two runs are those of the
      first run followed by those of the second. */
  lemma {:induction false} WithoutOpenAppend(a: seq<string>, b: seq<string>)
    ensures WithoutOpen(a + b) == WithoutOpen(a) + WithoutOpen(b)
  {
    if a != [] {
      AppendTail(a, b);
      WithoutOpenAppend(a[1..], b);
    } else {
      assert a + b == b;
    }
  }

  /** The cell for a shift: its real names joined by `, `, or `Open` when that is empty. */
  function Cell(sh: ExportShift): string {
    var joined := Join(WithoutOpen(sh.studentsDetailed), ", ");
    if joined == "" then "Open" else joined
  }

  /** One shift's effect on the time cells. */
  function Apply(labels: seq<string>, cells: seq<string>, sh: ExportShift): (r: seq<string>)
    ensures |r| == |cells|
  {
    match FindLabel(labels, RangeOf(sh))
    case Some(k) => if k < |cells| then cells[k := Cell(sh)] else cells
    case None => cells
  }

  /** The time cells after the shifts, applied in list order. */
  function Fill(labels: seq<string>, cells: seq<string>, shs: seq<ExportShift>): (r: seq<string>)
    ensures |r| == |cells|
  {
    if shs == [] then cells else Apply(labels, Fill(labels, cells, shs[..|shs| - 1]), shs[|shs| - 1])
  }

  /** The key cell: the weekday, or the slot date written back as `DD-MM-YYYY`. */
  function KeyOf(mode: Mode, slot: ExportSlot): string {
    if mode == Term then slot.dayOfWeek else DeskShifts.FormatDate(slot.date)
  }

  function RowOf(mode: Mode, slot: ExportSlot): Row {
    var labels := Labels(mode);
    Row(KeyOf(mode, slot), Fill(labels, Repeat(Closed, |labels|), slot.shifts))
  }

  // ---------------------------------------------------------------------------
  // What a cell holds

  /** The last shift whose range is `range`, if any. */
  function LastWithRange(shs: seq<ExportShift>, range: string): Option<ExportShift> {
    if shs == [] then None
    else if RangeOf(shs[|shs| - 1]) == range then Some(shs[|shs| - 1])
    else LastWithRange(shs[..|shs| - 1], range)
  }

  /** A column keeps its initial value unless a shift has exactly its label;
      then the last such shift decides the cell. */
  lemma {:induction false} FillCell(mode: Mode, cells: seq<string>, shs: seq<ExportShift>, k: nat)
    requires |cells| == |Labels(mode)| && k < |cells|
    ensures Fill(Labels(mode), cells, shs)[k] ==
            match LastWithRange(shs, Labels(mode)[k])
            case None => cells[k]
            case Some(sh) => Cell(sh)
  {
    var labels := Labels(mode);
    if shs != [] {
      var init := shs[..|shs| - 1];
      var sh := shs[|shs| - 1];
      FillCell(mode, cells, init, k);
      match FindLabel(labels, RangeOf(sh))
      case None =>
      case Some(j) =>
        if j != k && RangeOf(sh) == labels[k] {
          if j < k { LabelsDistinct(mode, j, k); } else { LabelsDistinct(mode, k, j); }
        }
    }
  }

  /** Each row: the key, one cell per column, `Closed` where no shift has the
      column's range, and otherwise the cell of the last shift that has it. */
  lemma RowOfCells(mode: Mode, slot: ExportSlot, k: nat)
    requires k < |Labels(mode)|
    ensures var r := RowOf(mode, slot);
            |r.cells| == |Labels(mode)| &&
            r.cells[k] == match LastWithRange(slot.shifts, Labels(mode)[k])
                          case None => Closed
                          case Some(sh) => Cell(sh)
  {
    FillCell(mode, Repeat(Closed, |Labels(mode)|), slot.shifts, k);
  }

  /** A shift whose range is no column label changes nothing. */
  lemma UnlabelledShiftIgnored(mode: Mode, cells: seq<string>, sh: ExportShift)
    requires RangeOf(sh) !in Labels(mode)
    ensures Apply(Labels(mode), cells, sh) == cells
  {
  }

  /** A cell names the real occupants exactly, or reads `Open` when there are none. */
  lemma CellMeaning(sh: ExportShift)
    ensures WithoutOpen(sh.studentsDetailed) == [] ==> Cell(sh) == "Open"
    ensures |WithoutOpen(sh.studentsDetailed)| == 1 && WithoutOpen(sh.studentsDetailed)[0] != "" ==>
            Cell(sh) == WithoutOpen(sh.studentsDetailed)[0]
  {
  }

  // ---------------------------------------------------------------------------
  // The loop

  /** The inner loop's step: the next shift applied to the cells so far. */
  lemma FillNext(labels: seq<string>, init: seq<string>, shs: seq<ExportShift>, j: nat, cells: seq<string>)
    requires j < |shs| && cells == Fill(labels, init, shs[..j]) && |init| == |labels|
    ensures Fill(labels, init, shs[..j + 1]) == Apply(labels, cells, shs[j])
    ensures |cells| == |labels|
  {
    assert shs[..j + 1][..j] == shs[..j];
  }

  /** One row's time cells: all `Closed`, then each shift in order
      overwrites the cell of the column whose label is its range. */
  method FillCells(labels: seq<string>, shs: seq<ExportShift>) returns (cells: seq<string>)
    ensures cells == Fill(labels, Repeat(Closed, |labels|), shs)
  {
    cells := Repeat(Closed, |labels|);
    var j := 0;
    while j < |shs|
      invariant 0 <= j <= |shs|
      invariant cells == Fill(labels, Repeat(Closed, |labels|), shs[..j])
    {
      var sh := shs[j];
      FillNext(labels, Repeat(Closed, |labels|), shs, j, cells);
      var found := FindLabel(labels, RangeOf(sh));
      if found.Some? {
        var names := Join(WithoutOpen(sh.studentsDetailed), ", ");
        cells := cells[found.value := if names == "" then "Open" else names];
      }
      j := j + 1;
    }
    assert shs[..j] == shs;
  }

  /** `prepareExcelData`: a row per slot, in order, each built by overwriting
      the cells of matching shifts. */
  method PrepareExcelData(mode: Mode, slots: seq<ExportSlot>) returns (rows: seq<Row>)
    ensures |rows| == |slots|
    ensures forall i :: 0 <= i < |slots| ==> rows[i] == RowOf(mode, slots[i])
  {
    var labels := Labels(mode);
    rows := [];
    var i := 0;
    while i < |slots|
      invariant 0 <= i <= |slots|
      invariant |rows| == i && forall k :: 0 <= k < i ==> rows[k] == RowOf(mode, slots[k])
    {
      var slot := slots[i];
      var key := if mode == Term then slot.dayOfWeek else DeskShifts.FormatDate(slot.date);
      var cells := FillCells(labels, slot.shifts);
      rows := rows + [Row(key, cells)];
      i := i + 1;
    }
  }

  // ---------------------------------------------------------------------------
  // Dates

  /** Turning a `DD-MM-YYYY` date into `YYYY-MM-DD` at desk creation and back
      at export gives the original text, for any text with exactly two hyphens.
      Both directions split at `-` and write the three pieces in reverse order. */
  lemma FormatDateRoundTrip(s: string)
    requires |Split(s, '-')| == 3
    ensures DeskShifts.FormatDate(DeskShifts.FormatDate(s)) == s
  {
    var parts := Split(s, '-');
    SplitPartsHaveNoSeparator(s, '-');
    assert parts[0] in parts && parts[1] in parts && parts[2] in parts;
    JoinSplit(s, '-');
    assert "-" == ['-'];
    assert Join(parts, "-") == parts[0] + "-" + parts[1] + "-" + parts[2] by {
      assert |parts[1..]| == 2 && parts[1..][0] == parts[1] && parts[1..][1..] == [parts[2]];
      assert Join(parts[1..], "-") == parts[1] + "-" + parts[2];
      AppendAssoc(parts[0], "-", parts[1] + "-" + parts[2]);
      AppendAssoc(parts[0] + "-", parts[1], "-" + parts[2]);
      AppendAssoc(parts[0] + "-" + parts[1], "-", parts[2]);
    }
    DeskShifts.FormatDateReorders(parts[0], parts[1], parts[2]);
    DeskShifts.FormatDateReorders(parts[2], parts[1], parts[0]);
  }
}

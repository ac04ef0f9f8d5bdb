/** Student import: reading the spreadsheet's availability column headers and
    turning each data row into a student record with an availability map.
    The term sheet's headers read `<Day> <time>-<time>`; the interim sheet's
    read `<Day> <M/D> <time>-<time>`. The workbook reader, the database
    writes and date formatting with the clock are not modelled: the header
    names of the first row and the rows (by column name) are the inputs. */
module StudentImport {
  import opened Wrappers
  import opened Text

  // ---------------------------------------------------------------------------
  // Scanning

  /** The end of the run of digits starting at `i`. */
  function DigitsEnd(s: string, i: nat): (r: nat)
    requires i <= |s|
    ensures i <= r <= |s| && AllDigits(s[i..r]) && (r == |s| || !IsDigit(s[r]))
    decreases |s| - i
  {
    if i < |s| && IsDigit(s[i]) then
      var r := DigitsEnd(s, i + 1);
      assert s[i..r] == [s[i]] + s[i + 1..r];
      r
    else i
  }

  /** The end of the run of `\w` characters starting at `i`. */
  function WordEnd(s: string, i: nat): (r: nat)
    requires i <= |s|
    ensures i <= r <= |s| && (forall k :: i <= k < r ==> IsWordChar(s[k])) && (r == |s| || !IsWordChar(s[r]))
    decreases |s| - i
  {
    if i < |s| && IsWordChar(s[i]) then WordEnd(s, i + 1) else i
  }

  /** The end of the run of white space starting at `i`. */
  function SpacesEnd(s: string, i: nat): (r: nat)
    requires i <= |s|
    ensures i <= r <= |s| && (forall k :: i <= k < r ==> IsSpace(s[k])) && (r == |s| || !IsSpace(s[r]))
    decreases |s| - i
  {
    if i < |s| && IsSpace(s[i]) then SpacesEnd(s, i + 1) else i
  }

  /** The end of the run of hyphens and white space (`[-\s]*`) starting at `i`. */
  function SeparatorEnd(s: string, i: nat): (r: nat)
    requires i <= |s|
    ensures i <= r <= |s| && (r == |s| || (s[r] != '-' && !IsSpace(s[r])))
    decreases |s| - i
  {
    if i < |s| && (s[i] == '-' || IsSpace(s[i])) then SeparatorEnd(s, i + 1) else i
  }

  // ---------------------------------------------------------------------------
  // convertExcelTime

  /** `/(\d+)(am|pm)/` matches at `i` of an already lower-cased text: a digit
      run followed directly by `am` or `pm`. */
  predicate HourAt(t: string, i: nat)
    requires i <= |t|
  {
    i < |t| && IsDigit(t[i]) &&
    var e := DigitsEnd(t, i);
    e + 2 <= |t| && (t[e] == 'a' || t[e] == 'p') && t[e + 1] == 'm'
  }

  /** The leftmost match of `/(\d+)(am|pm)/` at or after `i`. */
  function FirstHour(t: string, i: nat): (r: Option<nat>)
    requires i <= |t|
    ensures r.Some? ==> i <= r.value < |t| && HourAt(t, r.value) &&
                        forall k :: i <= k < r.value ==> !HourAt(t, k)
    ensures r.None? ==> forall k :: i <= k <= |t| ==> !HourAt(t, k)
    decreases |t| - i
  {
    if i == |t| then None
    else if HourAt(t, i) then Some(i)
    else FirstHour(t, i + 1)
  }

  /** The text `convertExcelTime` matches: lower-cased, all white space removed. */
  function TimeText(timeStr: string): string {
    RemoveSpaces(ToLower(timeStr))
  }

  /** `convertExcelTime`: `noon` and `midnight` by name, otherwise the first
      `<digits>am`/`<digits>pm` in the text as a 24-hour `HH:00:00`: `pm` adds
      twelve except to 12, and 12am is hour 0; no such match is an error. */
  function ConvertExcelTime(timeStr: string): Result<string> {
    var t := TimeText(timeStr);
    if t == "noon" then Ok("12:00")
    else if t == "midnight" then Ok("00:00")
    else match FirstHour(t, 0)
      case None => Err("Invalid time format: " + timeStr)
      case Some(i) => Ok(HourText(HourOfMatch(t, i)))
  }

  /** The 24-hour value of the match at `i`. */
  function HourOfMatch(t: string, i: nat): nat
    requires i <= |t| && HourAt(t, i)
  {
    var e := DigitsEnd(t, i);
    var hours := ParseNat(t[i..e]);
    if t[e] == 'p' && hours != 12 then hours + 12
    else if t[e] == 'a' && hours == 12 then 0
    else hours
  }

  /** The rendered hour. */
  function HourText(h: nat): string {
    Pad2(NatToString(h)) + ":00:00"
  }

  /** The conversion fails exactly when the text is neither `noon` nor
      `midnight` and has no `<digits>am`/`<digits>pm` anywhere; a success is
      `12:00`, `00:00` or ends in `:00:00`. */
  lemma ConvertExcelTimeMeaning(timeStr: string)
    ensures var r := ConvertExcelTime(timeStr); var t := TimeText(timeStr);
            (r.Err? <==> t != "noon" && t != "midnight" && forall k :: 0 <= k <= |t| ==> !HourAt(t, k)) &&
            (r.Ok? ==> r.value == "12:00" || r.value == "00:00" ||
                       (|r.value| >= 8 && r.value[|r.value| - 6..] == ":00:00"))
    ensures var r := ConvertExcelTime(timeStr); var t := TimeText(timeStr);
            (t == "noon" ==> r == Ok("12:00")) && (t == "midnight" ==> r == Ok("00:00")) &&
            (t != "noon" && t != "midnight" && FirstHour(t, 0).Some? ==>
               r == Ok(HourText(HourOfMatch(t, FirstHour(t, 0).value))))
  {
  }

  /** Any spelling whose lower-cased, space-free form is `<n>am` or `<n>pm`
      converts to the 24-hour clock: 12am is 00, 12pm is 12, any other `pm`
      hour gains twelve, any other `am` hour is kept. */
  lemma ConvertHourForms(timeStr: string, n: nat, pm: bool)
    requires TimeText(timeStr) == NatToString(n) + (if pm then "pm" else "am")
    ensures ConvertExcelTime(timeStr) ==
            Ok(HourText(if pm then (if n == 12 then 12 else n + 12) else (if n == 12 then 0 else n)))
  {
    var t := TimeText(timeStr);
    var d := NatToString(n);
    assert t[..|d|] == d && t[|d|] == (if pm then 'p' else 'a') && t[|d| + 1] == 'm';
    assert DigitsEnd(t, 0) == |d| by { DigitsEndOfRun(t, 0, |d|); }
    assert HourAt(t, 0);
    assert FirstHour(t, 0) == Some(0);
    assert t[0..|d|] == d;
    ParseNatToString(n);
    assert HourOfMatch(t, 0) == (if pm then (if n == 12 then 12 else n + 12) else (if n == 12 then 0 else n));
    assert t != "noon" && t != "midnight" by { assert IsDigit(t[0]); }
  }

  /** A run of digits from `i` to `e` followed by a non-digit ends at `e`. */
  lemma {:induction false} DigitsEndOfRun(s: string, i: nat, e: nat)
    requires i <= e < |s| && (forall k :: i <= k < e ==> IsDigit(s[k])) && !IsDigit(s[e])
    ensures DigitsEnd(s, i) == e
    decreases e - i
  {
    if i < e {
      DigitsEndOfRun(s, i + 1, e);
    }
  }

  // ---------------------------------------------------------------------------
  // Term headers

  /** `noon`, in any letter case, at `i`. */
  predicate NoonAt(s: string, i: nat) {
    i + 4 <= |s| && LowerChar(s[i]) == 'n' && LowerChar(s[i + 1]) == 'o' &&
    LowerChar(s[i + 2]) == 'o' && LowerChar(s[i + 3]) == 'n'
  }

  /** `midnight`, in any letter case, at `i`. */
  predicate MidnightAt(s: string, i: nat) {
    i + 8 <= |s| && LowerChar(s[i]) == 'm' && LowerChar(s[i + 1]) == 'i' &&
    LowerChar(s[i + 2]) == 'd' && LowerChar(s[i + 3]) == 'n' && LowerChar(s[i + 4]) == 'i' &&
    LowerChar(s[i + 5]) == 'g' && LowerChar(s[i + 6]) == 'h' && LowerChar(s[i + 7]) == 't'
  }

  /** `[ap]m`, in any letter case, at `i`. */
  predicate AmPmAt(s: string, i: nat) {
    i + 2 <= |s| && (LowerChar(s[i]) == 'a' || LowerChar(s[i]) == 'p') && LowerChar(s[i + 1]) == 'm'
  }

  /** A time token `\d+[ap]m|noon|midnight`, in any letter case, starting at `i`:
      its end. */
  function TimeTokenEnd(s: string, i: nat): (r: Option<nat>)
    requires i <= |s|
    ensures r.Some? ==> i < r.value <= |s|
  {
    if i < |s| && IsDigit(s[i]) then
      var e := DigitsEnd(s, i);
      if AmPmAt(s, e) then Some(e + 2) else None
    else if NoonAt(s, i) then Some(i + 4)
    else if MidnightAt(s, i) then Some(i + 8)
    else None
  }

  /** A time token neither starts nor ends with a hyphen or white space. */
  lemma TokenEdges(s: string, i: nat)
    requires i <= |s| && TimeTokenEnd(s, i).Some?
    ensures s[i] != '-' && !IsSpace(s[i])
    ensures var e := TimeTokenEnd(s, i).value; s[e - 1] != '-' && !IsSpace(s[e - 1])
  {
  }

  /** The pieces of a header the strict pattern accepts. */
  datatype HeaderMatch = HeaderMatch(day: string, start: string, end: string)

  /** `^(\w+)\s+(T)-?(T)$` on a normalised term header, `T` a time token. */
  function MatchStrictHeader(s: string): (r: Option<HeaderMatch>)
    ensures r.Some? ==> r.value.day != [] && IsPrefix(r.value.day, s) &&
                        (forall k :: 0 <= k < |r.value.day| ==> IsWordChar(r.value.day[k])) &&
                        |r.value.end| < |s| && r.value.end == s[|s| - |r.value.end|..]
    ensures r.Some? ==> var w := |r.value.day|;
                        w == WordEnd(s, 0) && w < |s| && IsSpace(s[w]) &&
                        var b := SpacesEnd(s, w);
                        TimeTokenEnd(s, b).Some? && r.value.start == s[b..TimeTokenEnd(s, b).value] &&
                        var a, c := TimeTokenEnd(s, b).value, |s| - |r.value.end|;
                        (c == a || (c == a + 1 && s[a] == '-')) && TimeTokenEnd(s, c) == Some(|s|)
  {
    var w := WordEnd(s, 0);
    if w == 0 || w == |s| || !IsSpace(s[w]) then None
    else
      var b := SpacesEnd(s, w);
      match TimeTokenEnd(s, b)
      case None => None
      case Some(a) =>
        match SecondToken(s, a)
        case None => None
        case Some(c) => Some(HeaderMatch(s[..w], s[b..a], s[c..]))
  }

  /** `-?(T)$` after the first time token, which ends at `a`: where the second
      token starts, after an optional bare hyphen, when it runs to the end. */
  function SecondToken(s: string, a: nat): (r: Option<nat>)
    requires a <= |s|
    ensures r.Some? ==> a <= r.value < |s| && TimeTokenEnd(s, r.value) == Some(|s|)
    ensures r.Some? && r.value != a ==> r.value == a + 1 && s[a] == '-'
  {
    if a < |s| && s[a] == '-' && TimeTokenEnd(s, a + 1) == Some(|s|) then Some(a + 1)
    else if TimeTokenEnd(s, a) == Some(|s|) then Some(a)
    else None
  }

  /** `^\w+\s+(T)[-\s]+(T)$`: the looser pattern that selects the columns. */
  predicate MatchLooseHeader(s: string) {
    var w := WordEnd(s, 0);
    0 < w < |s| && IsSpace(s[w]) &&
    var b := SpacesEnd(s, w);
    match TimeTokenEnd(s, b)
    case None => false
    case Some(a) =>
      var c := SeparatorEnd(s, a);
      a < c && TimeTokenEnd(s, c) == Some(|s|)
  }

  /** `header.replace(/\s+/g, ' ').trim()`. */
  function NormalTermHeader(header: string): string {
    Trim(CollapseSpaces(header))
  }

  /** The column a term header gives: `day` and `time = "<start> - <end>"`. */
  datatype TermColumn = TermColumn(day: string, time: string)

  /** `parseTimeSlotHeader` of the term sheet: the first word as the day and
      the two converted times; a header the strict pattern rejects is an error. */
  function ParseTermHeader(header: string): (r: Result<TermColumn>)
    ensures r.Ok? ==> var s := NormalTermHeader(header);
                      MatchStrictHeader(s).Some? && r.value.day == MatchStrictHeader(s).value.day
    ensures var m := MatchStrictHeader(NormalTermHeader(header));
            r.Err? <==> m.None? || ConvertExcelTime(m.value.start).Err? || ConvertExcelTime(m.value.end).Err?
    ensures r.Ok? ==> var m := MatchStrictHeader(NormalTermHeader(header)).value;
                      r.value.time == ConvertExcelTime(m.start).value + " - " + ConvertExcelTime(m.end).value
  {
    var s := NormalTermHeader(header);
    match MatchStrictHeader(s)
    case None => Err("Invalid time slot header: " + s)
    case Some(m) =>
      match ConvertExcelTime(m.start)
      case Err(e) => Err(e)
      case Ok(st) =>
        match ConvertExcelTime(m.end)
        case Err(e) => Err(e)
        case Ok(en) => Ok(TermColumn(m.day, st + " - " + en))
  }

  /** The header filter of the term import. */
  predicate IsTermTimeSlotHeader(header: string) {
    MatchLooseHeader(NormalTermHeader(header))
  }

  /** Every header the parser accepts with a hyphen between the two times also
      passes the column filter. */
  lemma HyphenatedHeaderSelected(header: string)
    requires HyphenatedStrict(NormalTermHeader(header))
    ensures IsTermTimeSlotHeader(header)
  {
    HyphenatedMatchLoose(NormalTermHeader(header));
  }

  lemma LooseFromPieces(s: string, w: nat, b: nat, a: nat, c: nat)
    requires w == WordEnd(s, 0) && 0 < w < |s| && IsSpace(s[w]) && b == SpacesEnd(s, w)
    requires b <= |s| && TimeTokenEnd(s, b) == Some(a) && a < c == SeparatorEnd(s, a) && TimeTokenEnd(s, c) == Some(|s|)
    ensures MatchLooseHeader(s)
  {
  }

  /** The positions the strict pattern found: the day ends at `w`, the first
      time runs from `b` to `a`, and the second starts at `c`. */
  lemma StrictPieces(s: string) returns (w: nat, b: nat, a: nat, c: nat)
    requires MatchStrictHeader(s).Some?
    ensures w == WordEnd(s, 0) && 0 < w < |s| && IsSpace(s[w]) && b == SpacesEnd(s, w)
    ensures b <= |s| && TimeTokenEnd(s, b) == Some(a) && SecondToken(s, a) == Some(c)
    ensures MatchStrictHeader(s).value.end == s[c..]
  {
    w := WordEnd(s, 0);
    b := SpacesEnd(s, w);
    a := TimeTokenEnd(s, b).value;
    c := SecondToken(s, a).value;
  }

  /** The strict pattern matched with a hyphen just before the second time. */
  predicate HyphenatedStrict(s: string) {
    var m := MatchStrictHeader(s);
    m.Some? && s[|s| - |m.value.end| - 1] == '-'
  }

  lemma HyphenatedMatchLoose(s: string)
    requires HyphenatedStrict(s)
    ensures MatchLooseHeader(s)
  {
    var w, b, a, c := StrictPieces(s);
    assert c == a + 1 by {
      assert s[c - 1] == '-' by {
        assert |MatchStrictHeader(s).value.end| == |s| - c;
      }
      DashBeforeSecond(s, b, a, c);
    }
    DashSeparator(s, a);
    LooseFromPieces(s, w, b, a, c);
  }

  /** The hyphen before the second time is not the last character of the
      first one, so the second time follows a bare hyphen. */
  lemma DashBeforeSecond(s: string, b: nat, a: nat, c: nat)
    requires b <= |s| && TimeTokenEnd(s, b) == Some(a) && SecondToken(s, a) == Some(c)
    requires s[c - 1] == '-'
    ensures c == a + 1
  {
    TokenEdges(s, b);
  }

  /** A bare hyphen followed by a time token is one separator. */
  lemma DashSeparator(s: string, a: nat)
    requires a < |s| && s[a] == '-' && TimeTokenEnd(s, a + 1).Some?
    ensures SeparatorEnd(s, a) == a + 1
  {
    TokenEdges(s, a + 1);
    assert SeparatorEnd(s, a + 1) == a + 1;
  }

  lemma {:induction false} WordEndOfRun(s: string, i: nat, e: nat)
    requires i <= e < |s| && (forall k :: i <= k < e ==> IsWordChar(s[k])) && !IsWordChar(s[e])
    ensures WordEnd(s, i) == e
    decreases e - i
  {
    if i < e {
      WordEndOfRun(s, i + 1, e);
    }
  }

  lemma {:induction false} SeparatorEndOfRun(s: string, i: nat, e: nat)
    requires i <= e < |s| && (forall k :: i <= k < e ==> s[k] == '-' || IsSpace(s[k])) && s[e] != '-' && !IsSpace(s[e])
    ensures SeparatorEnd(s, i) == e
    decreases e - i
  {
    if i < e {
      SeparatorEndOfRun(s, i + 1, e);
    }
  }

  /** A single-spaced header with no blank at either end is already normal. */
  lemma NormalTermHeaderUntouched(s: string)
    requires SingleSpaced(s) && (s == [] || (!IsSpace(s[0]) && !IsSpace(s[|s| - 1])))
    ensures NormalTermHeader(s) == s
  {
    CollapseSingleSpaced(s);
    TrimUntouched(s);
  }

  /** A header starting `Mon 10am`: the day ends at 3 and the first time runs
      from 4 to 8. */
  lemma MondayTenAm(s: string)
    requires |s| >= 8 && s[0] == 'M' && s[1] == 'o' && s[2] == 'n' && s[3] == ' '
    requires s[4] == '1' && s[5] == '0' && s[6] == 'a' && s[7] == 'm'
    ensures WordEnd(s, 0) == 3 && IsSpace(s[3]) && SpacesEnd(s, 3) == 4 && TimeTokenEnd(s, 4) == Some(8)
  {
    WordEndOfRun(s, 0, 3);
    assert SpacesEnd(s, 3) == 4;
    DigitsEndOfRun(s, 4, 6);
  }

  lemma SpacedHyphenPieces(s: string)
    requires s == "Mon 10am - 12pm"
    ensures MatchStrictHeader(s).None? && MatchLooseHeader(s)
  {
    assert |s| == 15 && s[0] == 'M' && s[1] == 'o' && s[2] == 'n' && s[3] == ' ' && s[4] == '1' && s[5] == '0' &&
           s[6] == 'a' && s[7] == 'm' && s[8] == ' ' && s[9] == '-' && s[10] == ' ' && s[11] == '1' && s[12] == '2' &&
           s[13] == 'p' && s[14] == 'm';
    SpacedHyphenChars(s);
  }

  lemma SpacedHyphenChars(s: string)
    requires |s| == 15 && s[0] == 'M' && s[1] == 'o' && s[2] == 'n' && s[3] == ' ' && s[4] == '1' && s[5] == '0'
    requires s[6] == 'a' && s[7] == 'm' && s[8] == ' ' && s[9] == '-' && s[10] == ' ' && s[11] == '1' && s[12] == '2'
    requires s[13] == 'p' && s[14] == 'm'
    ensures MatchStrictHeader(s).None? && MatchLooseHeader(s)
  {
    MondayTenAm(s);
    assert SecondToken(s, 8) == None by {
      assert TimeTokenEnd(s, 8) == None;
    }
    assert SeparatorEnd(s, 8) == 11 by {
      SeparatorEndOfRun(s, 8, 11);
    }
    assert TimeTokenEnd(s, 11) == Some(15) by {
      DigitsEndOfRun(s, 11, 13);
    }
  }

  /** `Mon 10am - 12pm` passes the column filter, yet the parser, which allows
      only a bare hyphen between the times, rejects it: such a column is
      skipped for every row. */
  lemma SpacedHyphenHeaderSkipped(s: string)
    requires s == "Mon 10am - 12pm"
    ensures IsTermTimeSlotHeader(s) && ParseTermHeader(s).Err?
  {
    assert SingleSpaced(s) by {
      forall i | 0 <= i < |s| && IsSpace(s[i]) ensures s[i] == ' ' && (i + 1 == |s| || !IsSpace(s[i + 1])) {
        assert i == 3 || i == 8 || i == 10;
      }
    }
    NormalTermHeaderUntouched(s);
    SpacedHyphenPieces(s);
  }

  lemma GluedChars(s: string)
    requires |s| == 12 && s[0] == 'M' && s[1] == 'o' && s[2] == 'n' && s[3] == ' ' && s[4] == '1' && s[5] == '0'
    requires s[6] == 'a' && s[7] == 'm' && s[8] == '1' && s[9] == '2' && s[10] == 'p' && s[11] == 'm'
    ensures MatchStrictHeader(s) == Some(HeaderMatch(s[..3], s[4..8], s[8..])) && !MatchLooseHeader(s)
  {
    MondayTenAm(s);
    assert TimeTokenEnd(s, 8) == Some(12) by {
      DigitsEndOfRun(s, 8, 10);
    }
    assert SecondToken(s, 8) == Some(8);
    assert SeparatorEnd(s, 8) == 8;
  }

  /** `Mon 10am12pm` parses, yet the filter, which wants a hyphen or blank
      between the times, does not select it. */
  lemma GluedHeaderNotSelected(s: string)
    requires Spells(s, "Mon 10am12pm")
    ensures !IsTermTimeSlotHeader(s) && ParseTermHeader(s) == Ok(TermColumn("Mon", HourText(10) + " - " + HourText(12)))
  {
    assert |s| == 12 && s[0] == 'M' && s[1] == 'o' && s[2] == 'n' && s[3] == ' ' && s[4] == '1' && s[5] == '0' &&
           s[6] == 'a' && s[7] == 'm' && s[8] == '1' && s[9] == '2' && s[10] == 'p' && s[11] == 'm';
    assert NormalTermHeader(s) == s by {
      assert SingleSpaced(s) by {
        forall i | 0 <= i < |s| && IsSpace(s[i]) ensures s[i] == ' ' && (i + 1 == |s| || !IsSpace(s[i + 1])) {
          assert i == 3;
        }
      }
      NormalTermHeaderUntouched(s);
    }
    assert s[..3] == "Mon";
    GluedParse(s);
  }

  lemma GluedParse(s: string)
    requires |s| == 12 && s[0] == 'M' && s[1] == 'o' && s[2] == 'n' && s[3] == ' ' && s[4] == '1' && s[5] == '0'
    requires s[6] == 'a' && s[7] == 'm' && s[8] == '1' && s[9] == '2' && s[10] == 'p' && s[11] == 'm'
    requires NormalTermHeader(s) == s
    ensures !IsTermTimeSlotHeader(s) && ParseTermHeader(s) == Ok(TermColumn(s[..3], HourText(10) + " - " + HourText(12)))
  {
    GluedChars(s);
    var m := MatchStrictHeader(s).value;
    assert m.start == s[4..8] && m.end == s[8..];
    FourCharHour(m.start, 10, false);
    FourCharHour(m.end, 12, true);
  }

  /** The two hours the examples below use, rendered. */
  lemma ClockTexts()
    ensures HourText(10) == "10:00:00" && HourText(12) == "12:00:00"
  {
    TwoDigitHourText(10, "10");
    TwoDigitHourText(12, "12");
  }

  /** `10am` is ten o'clock. */
  lemma TenAm(a: string)
    requires a == "10am"
    ensures ConvertExcelTime(a) == Ok(HourText(10))
  {
    assert |a| == 4 && a[0] == '1' && a[1] == '0' && a[2] == 'a' && a[3] == 'm';
    FourCharHour(a, 10, false);
  }

  /** `12pm` is noon. */
  lemma TwelvePm(b: string)
    requires b == "12pm"
    ensures ConvertExcelTime(b) == Ok(HourText(12))
  {
    assert |b| == 4 && b[0] == '1' && b[1] == '2' && b[2] == 'p' && b[3] == 'm';
    FourCharHour(b, 12, true);
  }

  /** A four-character `<two digits>am` or `<two digits>pm`. */
  lemma FourCharHour(a: string, n: nat, pm: bool)
    requires 10 <= n <= 12 && |a| == 4 && a[0] == DigitChar(n / 10) && a[1] == DigitChar(n % 10) &&
             a[2] == (if pm then 'p' else 'a') && a[3] == 'm'
    ensures ConvertExcelTime(a) ==
            Ok(HourText(if pm then (if n == 12 then 12 else n + 12) else (if n == 12 then 0 else n)))
  {
    assert NatToString(n) == [DigitChar(n / 10), DigitChar(n % 10)] by {
      assert NatToString(n / 10) == [DigitChar(n / 10)];
    }
    assert a == NatToString(n) + (if pm then "pm" else "am");
    HourExample(a, n, pm);
  }

  /** A two-digit hour needs no padding. */
  lemma TwoDigitHourText(h: nat, d: string)
    requires 10 <= h < 100 && d == NatToString(h)
    ensures |d| == 2 && HourText(h) == d + ":00:00"
  {
    NatToStringShort(h);
  }

  /** A two-digit hour written plainly converts like its spaced, capitalised forms. */
  lemma HourExample(a: string, n: nat, pm: bool)
    requires 10 <= n <= 12 && a == NatToString(n) + (if pm then "pm" else "am")
    ensures ConvertExcelTime(a) ==
            Ok(HourText(if pm then (if n == 12 then 12 else n + 12) else (if n == 12 then 0 else n)))
  {
    assert |a| == 4 && IsDigit(a[0]) && IsDigit(a[1]) && (a[2] == 'a' || a[2] == 'p') && a[3] == 'm';
    ToLowerUntouched(a);
    RemoveSpacesUntouched(a);
    ConvertHourForms(a, n, pm);
  }

  // ---------------------------------------------------------------------------
  // Interim headers

  /** `header.replace(/\r\n/g, ' ').replace(/\s+/g, ' ').trim()`. */
  function NormalInterimHeader(header: string): string {
    Trim(CollapseSpaces(ReplaceCrLf(header)))
  }

  const Weekdays: seq<string> := ["mon", "tue", "wed", "thu", "fri", "sat", "sun"]

  /** `/^(mon|tue|wed|thu|fri|sat|sun)/i`. */
  predicate DayPrefix(s: string) {
    |s| >= 3 && ToLower(s[..3]) in Weekdays
  }

  /** `\d+\/\d+` matches at `i`. */
  predicate DateAt(s: string, i: nat)
    requires i <= |s|
  {
    i < |s| && IsDigit(s[i]) &&
    var e := DigitsEnd(s, i);
    e + 1 < |s| && s[e] == '/' && IsDigit(s[e + 1])
  }

  /** The leftmost match of `\d+\/\d+` at or after `i`. */
  function FirstDate(s: string, i: nat): (r: Option<nat>)
    requires i <= |s|
    ensures r.Some? ==> i <= r.value < |s| && DateAt(s, r.value) &&
                        forall k :: i <= k < r.value ==> !DateAt(s, k)
    ensures r.None? ==> forall k :: i <= k <= |s| ==> !DateAt(s, k)
    decreases |s| - i
  {
    if i == |s| then None
    else if DateAt(s, i) then Some(i)
    else FirstDate(s, i + 1)
  }

  /** A period `am|pm|noon` (any letter case) at `i`: its end. */
  function PeriodEnd(s: string, i: nat): (r: Option<nat>)
    requires i <= |s|
    ensures r.Some? ==> i + 2 <= r.value <= |s|
  {
    if AmPmAt(s, i) then Some(i + 2) else if NoonAt(s, i) then Some(i + 4) else None
  }

  /** One of the hyphen, the en dash and the em dash. */
  predicate IsDash(c: char) {
    c == '-' || c == '\U{2013}' || c == '\U{2014}'
  }

  /** The four groups of a time range: start digits, start period, end
      digits, end period. For the `12noon - 2pm` pattern, which has three
      groups, the fourth is empty. */
  datatype RangeMatch = RangeMatch(g1: string, g2: string, g3: string, g4: string)

  /** `(\d+)\s*([ap]m|noon)D\s*(\d+)\s*([ap]m|noon)`, case-insensitive, at `i`,
      where `D` is `[-–—]` when `anyDash` holds and `-` otherwise. */
  function RangeFrom(s: string, i: nat, anyDash: bool): (r: Option<RangeMatch>)
    requires i <= |s|
    ensures r.Some? ==> AllDigits(r.value.g1) && |r.value.g1| > 0 && AllDigits(r.value.g3) &&
                        PeriodText(r.value.g2) && PeriodText(r.value.g4)
  {
    if i < |s| && IsDigit(s[i]) then
      var e := DigitsEnd(s, i);
      var p := SpacesEnd(s, e);
      match PeriodEnd(s, p)
      case None => None
      case Some(q) =>
        if q < |s| && (if anyDash then IsDash(s[q]) else s[q] == '-') then
          var d := SpacesEnd(s, q + 1);
          if d < |s| && IsDigit(s[d]) then
            var f := DigitsEnd(s, d);
            var u := SpacesEnd(s, f);
            match PeriodEnd(s, u)
            case None => None
            case Some(v) =>
              PeriodTextAt(s, p); PeriodTextAt(s, u);
              Some(RangeMatch(s[i..e], s[p..q], s[d..f], s[u..v]))
          else None
        else None
    else None
  }

  /** A period spelt in any letter case. */
  predicate PeriodText(t: string) {
    var l := ToLower(t); l == "am" || l == "pm" || l == "noon"
  }

  lemma PeriodTextAt(s: string, p: nat)
    requires p <= |s| && PeriodEnd(s, p).Some?
    ensures PeriodText(s[p..PeriodEnd(s, p).value])
  {
    var t := s[p..PeriodEnd(s, p).value];
    if AmPmAt(s, p) {
      assert ToLower(t) == [LowerChar(s[p]), LowerChar(s[p + 1])];
    } else {
      assert ToLower(t) == [LowerChar(s[p]), LowerChar(s[p + 1]), LowerChar(s[p + 2]), LowerChar(s[p + 3])];
    }
  }

  /** The leftmost match of the main time-range pattern (hyphen only). */
  function FirstRange(s: string, i: nat): (r: Option<RangeMatch>)
    requires i <= |s|
    ensures r.Some? ==> AllDigits(r.value.g1) && |r.value.g1| > 0 && AllDigits(r.value.g3) &&
                        PeriodText(r.value.g2) && PeriodText(r.value.g4)
    decreases |s| - i
  {
    if i == |s| then None
    else if RangeFrom(s, i, false).Some? then RangeFrom(s, i, false)
    else FirstRange(s, i + 1)
  }

  /** `(\d+)\s*noon\s*-\s*(\d+)\s*([ap]m)`, case-insensitive, at `i`. */
  function NoonRangeFrom(s: string, i: nat): (r: Option<RangeMatch>)
    requires i <= |s|
    ensures r.Some? ==> AllDigits(r.value.g1) && AllDigits(r.value.g2) && |r.value.g2| > 0 && r.value.g4 == ""
  {
    if i < |s| && IsDigit(s[i]) then
      var e := DigitsEnd(s, i);
      var p := SpacesEnd(s, e);
      if NoonAt(s, p) then
        var q := SpacesEnd(s, p + 4);
        if q < |s| && s[q] == '-' then
          var d := SpacesEnd(s, q + 1);
          if d < |s| && IsDigit(s[d]) then
            var f := DigitsEnd(s, d);
            var u := SpacesEnd(s, f);
            if AmPmAt(s, u) then Some(RangeMatch(s[i..e], s[d..f], s[u..u + 2], "")) else None
          else None
        else None
      else None
    else None
  }

  /** The leftmost match of the `12noon - 2pm` pattern. */
  function FirstNoonRange(s: string, i: nat): (r: Option<RangeMatch>)
    requires i <= |s|
    ensures r.Some? ==> AllDigits(r.value.g1) && AllDigits(r.value.g2) && |r.value.g2| > 0 && r.value.g4 == ""
    decreases |s| - i
  {
    if i == |s| then None
    else if NoonRangeFrom(s, i).Some? then NoonRangeFrom(s, i)
    else FirstNoonRange(s, i + 1)
  }

  /** `(\d+)noon` matches at `i`. */
  predicate NoonNumberAt(s: string, i: nat)
    requires i <= |s|
  {
    i < |s| && IsDigit(s[i]) && NoonAt(s, DigitsEnd(s, i))
  }

  function FirstNoonNumber(s: string, i: nat): (r: Option<nat>)
    requires i <= |s|
    ensures r.Some? ==> i <= r.value < |s| && NoonNumberAt(s, r.value) &&
                        forall k :: i <= k < r.value ==> !NoonNumberAt(s, k)
    ensures r.None? ==> forall k :: i <= k <= |s| ==> !NoonNumberAt(s, k)
    decreases |s| - i
  {
    if i == |s| then None
    else if NoonNumberAt(s, i) then Some(i)
    else FirstNoonNumber(s, i + 1)
  }

  /** `replace(/(\d+)noon/i, '$1 noon')`: the first number glued to `noon`
      gets a blank before a lower-case `noon`. */
  function SpaceBeforeNoon(s: string): string {
    match FirstNoonNumber(s, 0)
    case None => s
    case Some(i) =>
      var e := DigitsEnd(s, i);
      s[..e] + " noon" + s[e + 4..]
  }

  /** The 24-hour hour of a captured number and its period: `pm` adds twelve
      unless the text is `12`, and `am` with the text `12` is 0. */
  function Hour24(time: string, period: string): nat
    requires AllDigits(time)
  {
    if period == "pm" && time != "12" then ParseNat(time) + 12
    else if period == "am" && time == "12" then 0
    else ParseNat(time)
  }

  /** The 24-hour clock of the 12-hour hours 1 to 12: `am` keeps the hour
      except that 12am is 0, `pm` adds twelve except that 12pm is 12. */
  lemma Hour24Meaning(n: nat)
    requires 1 <= n <= 12
    ensures AllDigits(NatToString(n))
    ensures Hour24(NatToString(n), "am") == n % 12
    ensures Hour24(NatToString(n), "pm") == n % 12 + 12
  {
    ParseNatToString(n);
    ParseNatToString(12);
    assert NatToString(12) == "12" by { assert NatToString(1) == "1"; }
  }

  /** The column an interim header gives; `date` is the `M/D` text as captured. */
  datatype InterimColumn = InterimColumn(day: string, time: string, date: string)

  const WeekdayNames: seq<string> := ["Mon", "Tue", "Wed", "Thu", "Fri", "Sat", "Sun"]

  /** The `M/D` text of the date match at `i`. */
  function DateText(s: string, i: nat): string
    requires i <= |s| && DateAt(s, i)
  {
    s[i..DigitsEnd(s, DigitsEnd(s, i) + 1)]
  }

  /** The header the time-range patterns read: when it contains `noon`, the
      first number glued to `noon` is split from it. */
  function NoonSpaced(s: string): string {
    if Contains(s, "noon") then SpaceBeforeNoon(s) else s
  }

  /** A captured period as the conversion reads it: lower-cased, `noon` as `pm`. */
  function Period24(p: string): string {
    var l := ToLower(p);
    if l == "noon" then "pm" else l
  }

  /** The time of a main-pattern match: both hours on the 24-hour clock. */
  function RangeText(g: RangeMatch): string
    requires AllDigits(g.g1) && AllDigits(g.g3)
  {
    HourText(Hour24(g.g1, Period24(g.g2))) + " - " + HourText(Hour24(g.g3, Period24(g.g4)))
  }

  /** The time of a `12noon - 2pm` match: the start in the afternoon, the end
      by its own period. */
  function NoonRangeText(g: RangeMatch): string
    requires AllDigits(g.g1) && AllDigits(g.g2)
  {
    HourText(Hour24(g.g1, "pm")) + " - " + HourText(Hour24(g.g2, ToLower(g.g3)))
  }

  /** The time of the first range match of `m`: the main pattern's, or,
      when that has none, the `12noon - 2pm` pattern's, chosen as the source
      does, by whether the second group is a period. */
  function InterimTime(m: string): (r: Option<string>)
    ensures r.None? <==> FirstRange(m, 0).None? && FirstNoonRange(m, 0).None?
    ensures FirstRange(m, 0).Some? ==> r == Some(RangeText(FirstRange(m, 0).value))
    ensures FirstRange(m, 0).None? && FirstNoonRange(m, 0).Some? ==> r == Some(NoonRangeText(FirstNoonRange(m, 0).value))
  {
    var found := if FirstRange(m, 0).Some? then FirstRange(m, 0) else FirstNoonRange(m, 0);
    match found
    case None => None
    case Some(g) =>
      var lowered := ToLower(g.g2);
      if lowered == "am" || lowered == "pm" || lowered == "noon" then
        assert FirstRange(m, 0).Some? by { DigitsNotPeriod(g.g2); }
        var startPeriod := if lowered == "noon" then "pm" else lowered;
        var endPeriod := if ToLower(g.g4) == "noon" then "pm" else ToLower(g.g4);
        Some(HourText(Hour24(g.g1, startPeriod)) + " - " + HourText(Hour24(g.g3, endPeriod)))
      else
        var endPeriod := ToLower(g.g3);
        Some(HourText(Hour24(g.g1, "pm")) + " - " + HourText(Hour24(g.g2, endPeriod)))
  }

  /** `parseTimeSlotHeader` of the interim sheet: the capitalised weekday, the
      first `M/D` date and the first time range, each missing part an error. */
  function ParseInterimHeader(header: string): (r: Result<InterimColumn>)
    ensures var s := NormalInterimHeader(header);
            r.Err? <==> !DayPrefix(s) || FirstDate(s, 0).None? || InterimTime(NoonSpaced(s)).None?
    ensures r.Ok? ==> var s := NormalInterimHeader(header);
                      DayPrefix(s) && r.value.day == [UpperChar(s[0])] + ToLower(s[1..3]) &&
                      r.value.day in WeekdayNames &&
                      FirstDate(s, 0).Some? && r.value.date == DateText(s, FirstDate(s, 0).value) &&
                      Some(r.value.time) == InterimTime(NoonSpaced(s))
  {
    var s := NormalInterimHeader(header);
    if !DayPrefix(s) then Err("Could not extract day from header: " + s)
    else
      var day := [UpperChar(s[0])] + ToLower(s[1..3]);
      match FirstDate(s, 0)
      case None => Err("Could not extract date from header: " + s)
      case Some(i) =>
        var m := NoonSpaced(s);
        match InterimTime(m)
        case None => Err("Could not extract time range from header: " + m)
        case Some(time) =>
          DayNameOf(s);
          Ok(InterimColumn(day, time, DateText(s, i)))
  }

  // ---------------------------------------------------------------------------
  // `Mon 1/15 12noon-2pm`

  /** The characters of `Mon 1/15 12noon-2pm`. */
  predicate NoonHeaderChars(s: string) {
    |s| == 19 && s[0] == 'M' && s[1] == 'o' && s[2] == 'n' && s[3] == ' ' && s[4] == '1' && s[5] == '/' &&
    s[6] == '1' && s[7] == '5' && s[8] == ' ' && s[9] == '1' && s[10] == '2' && s[11] == 'n' && s[12] == 'o' &&
    s[13] == 'o' && s[14] == 'n' && s[15] == '-' && s[16] == '2' && s[17] == 'p' && s[18] == 'm'
  }

  /** The characters of `Mon 1/15 12 noon-2pm`, the header the range patterns read. */
  predicate SpacedNoonChars(m: string) {
    |m| == 20 && m[0] == 'M' && m[1] == 'o' && m[2] == 'n' && m[3] == ' ' && m[4] == '1' && m[5] == '/' &&
    m[6] == '1' && m[7] == '5' && m[8] == ' ' && m[9] == '1' && m[10] == '2' && m[11] == ' ' && m[12] == 'n' &&
    m[13] == 'o' && m[14] == 'o' && m[15] == 'n' && m[16] == '-' && m[17] == '2' && m[18] == 'p' && m[19] == 'm'
  }

  lemma NoonHeaderNormal(s: string)
    requires NoonHeaderChars(s)
    ensures NormalInterimHeader(s) == s
  {
    ReplaceCrLfUntouched(s);
    assert SingleSpaced(s) by {
      forall i | 0 <= i < |s| && IsSpace(s[i]) ensures s[i] == ' ' && (i + 1 == |s| || !IsSpace(s[i + 1])) {
        assert i == 3 || i == 8;
      }
    }
    CollapseSingleSpaced(s);
    TrimUntouched(s);
  }

  lemma NoonHeaderDate(s: string)
    requires NoonHeaderChars(s)
    ensures DayPrefix(s) && FirstDate(s, 0) == Some(4) && DateText(s, 4) == s[4..8]
  {
    assert ToLower(s[..3]) == "mon";
    assert DigitsEnd(s, 4) == 5;
    assert DigitsEnd(s, 6) == 8 by { DigitsEndOfRun(s, 6, 8); }
    assert DateAt(s, 4);
    assert FirstDate(s, 0) == Some(4) by {
      assert !DateAt(s, 0) && !DateAt(s, 1) && !DateAt(s, 2) && !DateAt(s, 3);
    }
  }

  lemma NoonHeaderSpaced(s: string) returns (m: string)
    requires NoonHeaderChars(s)
    ensures m == NoonSpaced(s) && SpacedNoonChars(m)
  {
    assert Contains(s, "noon") by {
      assert s == s[..11] + "noon" + s[15..];
      ContainsInfix(s[..11], "noon", s[15..]);
    }
    assert DigitsEnd(s, 9) == 11 by { DigitsEndOfRun(s, 9, 11); }
    assert NoonNumberAt(s, 9);
    assert DigitsEnd(s, 4) == 5;
    assert DigitsEnd(s, 6) == 8 by { DigitsEndOfRun(s, 6, 8); }
    assert DigitsEnd(s, 7) == 8;
    assert FirstNoonNumber(s, 0) == Some(9) by {
      forall k | 0 <= k < 9 ensures !NoonNumberAt(s, k) {
        assert k == 4 || k == 6 || k == 7 || !IsDigit(s[k]);
      }
    }
    m := s[..11] + " noon" + s[15..];
  }

  lemma SpacedNoonRange(m: string)
    requires SpacedNoonChars(m)
    ensures FirstRange(m, 0) == Some(RangeMatch(m[9..11], m[12..16], m[17..18], m[18..20]))
  {
    RangeAtNine(m);
    forall k | 0 <= k < 9 ensures RangeFrom(m, k, false).None? {
      NoRangeBeforeNine(m, k);
    }
    FirstRangeFrom(m, 0, 9);
  }

  /** The leftmost range match is the first position with one. */
  lemma {:induction false} FirstRangeFrom(m: string, j: nat, n: nat)
    requires j <= n < |m| && RangeFrom(m, n, false).Some?
    requires forall k :: j <= k < n ==> RangeFrom(m, k, false).None?
    ensures FirstRange(m, j) == RangeFrom(m, n, false)
    decreases n - j
  {
    if j < n {
      FirstRangeFrom(m, j + 1, n);
    }
  }

  lemma RangeAtNine(m: string)
    requires SpacedNoonChars(m)
    ensures RangeFrom(m, 9, false) == Some(RangeMatch(m[9..11], m[12..16], m[17..18], m[18..20]))
  {
    assert DigitsEnd(m, 9) == 11 by { DigitsEndOfRun(m, 9, 11); }
    assert SpacesEnd(m, 11) == 12;
    assert PeriodEnd(m, 12) == Some(16);
    assert SpacesEnd(m, 17) == 17;
    assert DigitsEnd(m, 17) == 18;
    assert SpacesEnd(m, 18) == 18;
    assert PeriodEnd(m, 18) == Some(20);
  }

  lemma NoRangeBeforeNine(m: string, k: nat)
    requires SpacedNoonChars(m) && k < 9
    ensures RangeFrom(m, k, false).None?
  {
    if k == 4 {
      assert DigitsEnd(m, 4) == 5;
    } else if k == 6 || k == 7 {
      assert DigitsEnd(m, k) == 8 by { DigitsEndOfRun(m, k, 8); }
      assert SpacesEnd(m, 8) == 9;
    } else {
      assert !IsDigit(m[k]);
    }
  }

  lemma NoonRangeHours(g: RangeMatch)
    requires g.g1 == "12" && ToLower(g.g2) == "noon" && g.g3 == "2" && ToLower(g.g4) == "pm"
    ensures RangeText(g) == HourText(12) + " - " + HourText(14)
  {
    assert Period24(g.g2) == "pm" && Period24(g.g4) == "pm";
    assert Hour24(g.g1, "pm") == 12 by {
      ParseNatToString(12);
      assert NatToString(12) == "12" by { assert NatToString(1) == "1"; }
    }
    assert Hour24(g.g3, "pm") == 14 by {
      ParseNatToString(2);
    }
  }

  /** `Mon 1/15 12noon-2pm` reads as Monday, the date `1/15`, and noon to two
      in the afternoon: the glued `12noon` is split, `noon` counts as `pm`,
      and `12pm` stays 12. */
  lemma NoonHeaderExample(s: string)
    requires Spells(s, "Mon 1/15 12noon-2pm")
    ensures ParseInterimHeader(s) == Ok(InterimColumn(s[..3], HourText(12) + " - " + HourText(14), s[4..8]))
    ensures HourText(12) + " - " + HourText(14) == "12:00:00 - 14:00:00"
  {
    assert NoonHeaderChars(s);
    NoonHeaderParse(s);
    NoonToTwoText(12, 14);
  }

  lemma NoonToTwoText(noon: nat, two: nat)
    requires noon == 12 && two == 14
    ensures HourText(noon) + " - " + HourText(two) == "12:00:00 - 14:00:00"
  {
    var x, y := HourText(noon), HourText(two);
    assert x == ['1', '2', ':', '0', '0', ':', '0', '0'] by { TeenHourText(noon, '2'); }
    assert y == ['1', '4', ':', '0', '0', ':', '0', '0'] by { TeenHourText(two, '4'); }
    NoonToTwoSpelled(x, y);
  }

  lemma NoonToTwoSpelled(noon: string, two: string)
    requires noon == ['1', '2', ':', '0', '0', ':', '0', '0'] && two == ['1', '4', ':', '0', '0', ':', '0', '0']
    ensures noon + " - " + two == "12:00:00 - 14:00:00"
  {
  }

  /** An hour from ten to nineteen is written `1<digit>:00:00`. */
  lemma TeenHourText(h: nat, c: char)
    requires 10 <= h < 20 && c == DigitChar(h - 10)
    ensures HourText(h) == ['1', c, ':', '0', '0', ':', '0', '0']
  {
    assert NatToString(h) == NatToString(1) + [DigitChar(h % 10)];
    assert NatToString(h) == ['1', c];
  }

  lemma NoonHeaderParse(s: string)
    requires NoonHeaderChars(s)
    ensures ParseInterimHeader(s) == Ok(InterimColumn(s[..3], HourText(12) + " - " + HourText(14), s[4..8]))
  {
    NoonHeaderNormal(s);
    NoonHeaderDate(s);
    var m := NoonHeaderSpaced(s);
    var time := SpacedNoonTime(m);
    NoonHeaderDay(s);
    ParsedHeader(s, 4, time);
  }

  lemma NoonHeaderDay(s: string)
    requires NoonHeaderChars(s)
    ensures [UpperChar(s[0])] + ToLower(s[1..3]) == s[..3]
  {
    assert ToLower(s[1..3]) == s[1..3];
  }

  /** A normalised header with a day, a date at `i` and a time range parses to those three. */
  lemma ParsedHeader(s: string, i: nat, time: string)
    requires NormalInterimHeader(s) == s && DayPrefix(s) && FirstDate(s, 0) == Some(i)
    requires InterimTime(NoonSpaced(s)) == Some(time)
    ensures ParseInterimHeader(s) == Ok(InterimColumn([UpperChar(s[0])] + ToLower(s[1..3]), time, DateText(s, i)))
  {
  }

  lemma SpacedNoonTime(m: string) returns (time: string)
    requires SpacedNoonChars(m)
    ensures time == HourText(12) + " - " + HourText(14) && InterimTime(m) == Some(time)
  {
    SpacedNoonRange(m);
    var g := FirstRange(m, 0).value;
    assert ToLower(g.g2) == "noon" && ToLower(g.g4) == "pm" && g.g1 == "12" && g.g3 == "2";
    NoonRangeHours(g);
    time := HourText(12) + " - " + HourText(14);
  }

  /** A non-empty run of digits is no period, in any letter case. */
  lemma DigitsNotPeriod(t: string)
    ensures AllDigits(t) && |t| > 0 ==> !PeriodText(t)
  {
    if AllDigits(t) && |t| > 0 {
      assert ToLower(t)[0] == LowerChar(t[0]) == t[0];
    }
  }

  /** The day is the weekday prefix capitalised. */
  lemma DayNameOf(s: string)
    requires DayPrefix(s)
    ensures [UpperChar(s[0])] + ToLower(s[1..3]) in WeekdayNames
  {
    var l := ToLower(s[..3]);
    assert l[0] == LowerChar(s[0]) && ToLower(s[1..3]) == l[1..];
    assert UpperChar(s[0]) == UpperChar(l[0]);
    var d := [UpperChar(l[0])] + l[1..];
    if l == "mon" { assert d == "Mon"; }
    else if l == "tue" { assert d == "Tue"; }
    else if l == "wed" { assert d == "Wed"; }
    else if l == "thu" { assert d == "Thu"; }
    else if l == "fri" { assert d == "Fri"; }
    else if l == "sat" { assert d == "Sat"; }
    else { assert l == "sun" && d == "Sun"; }
  }

  /** `\d+noon[-–—]\s*\d+\s*(?:am|pm)`, case-insensitive, at `i`. */
  predicate NoonFilterAt(s: string, i: nat)
    requires i <= |s|
  {
    i < |s| && IsDigit(s[i]) &&
    var e := DigitsEnd(s, i);
    NoonAt(s, e) && e + 4 < |s| && IsDash(s[e + 4]) &&
    var d := SpacesEnd(s, e + 5);
    d < |s| && IsDigit(s[d]) && AmPmAt(s, SpacesEnd(s, DigitsEnd(s, d)))
  }

  /** The time-range test of the interim header filter. */
  predicate HasAnyDashRange(s: string) {
    exists i :: 0 <= i < |s| && RangeFrom(s, i, true).Some?
  }

  /** `isTimeSlotHeader`: a weekday prefix, an `M/D` date and a time range
      somewhere in the normalised header. */
  predicate IsInterimTimeSlotHeader(header: string) {
    var s := NormalInterimHeader(header);
    DayPrefix(s) && (exists i :: 0 <= i < |s| && DateAt(s, i)) &&
    (HasAnyDashRange(s) || exists i :: 0 <= i < |s| && NoonFilterAt(s, i))
  }

  /** The `12noon` alternative of the filter accepts nothing the general time
      pattern does not: wherever it matches, the general pattern matches too. */
  lemma NoonFilterSubsumed(s: string, i: nat)
    requires i <= |s| && NoonFilterAt(s, i)
    ensures RangeFrom(s, i, true).Some?
  {
    var e := DigitsEnd(s, i);
    assert SpacesEnd(s, e) == e;
    assert PeriodEnd(s, e) == Some(e + 4);
    var d := SpacesEnd(s, e + 5);
    var u := SpacesEnd(s, DigitsEnd(s, d));
    assert PeriodEnd(s, u) == Some(u + 2);
  }

  /** So the filter is exactly: weekday prefix, date, and the general range. */
  lemma InterimFilterMeaning(header: string)
    ensures var s := NormalInterimHeader(header);
            IsInterimTimeSlotHeader(header) <==>
            DayPrefix(s) && (exists i :: 0 <= i < |s| && DateAt(s, i)) && HasAnyDashRange(s)
  {
    var s := NormalInterimHeader(header);
    if i :| 0 <= i < |s| && NoonFilterAt(s, i) {
      NoonFilterSubsumed(s, i);
    }
  }

  // ---------------------------------------------------------------------------
  // Rows

  /** A spreadsheet cell: text or a (whole) number. */
  datatype Cell = Str(text: string) | Num(n: int)

  /** A data row by column name; an absent name is an empty cell. */
  type Row = map<string, Cell>

  function Get(row: Row, column: string): Option<Cell> {
    if column in row then Some(row[column]) else None
  }

  /** `cell?.toString().trim()`. */
  function TextOf(c: Option<Cell>): Option<string> {
    match c
    case None => None
    case Some(Str(t)) => Some(Trim(t))
    case Some(Num(n)) => Some(IntToString(n))
  }

  /** `text || ''`. */
  function OrEmpty(t: Option<string>): string {
    match t
    case None => ""
    case Some(v) => v
  }

  /** `Number(cell)`, with `None` for NaN: a missing cell is NaN, a number is
      itself, and a text is its trimmed digits (empty text is 0). */
  function NumberOf(c: Option<Cell>): Option<int> {
    match c
    case None => None
    case Some(Num(n)) => Some(n)
    case Some(Str(t)) =>
      var u := Trim(t);
      if AllDigits(u) then Some(ParseNat(u)) else None
  }

  /** `Number(cell || 0)`: a missing cell counts as 0. */
  function NumberOrZero(c: Option<Cell>): Option<int> {
    if c.None? then Some(0) else NumberOf(c)
  }

  /** `Number(cell) || 0`: NaN counts as 0. */
  function NumberElseZero(c: Option<Cell>): int {
    match NumberOf(c)
    case None => 0
    case Some(n) => n
  }

  /** An availability entry: its status, day and time, and for interim sheets
      the date. */
  datatype Entry = Entry(status: string, day: string, time: string, date: Option<string>)

  /** A student as the import builds it, before it is written. An absent
      number (`None`) is NaN. */
  datatype ImportedStudent = ImportedStudent(
    preferredName: string, email: string, jobs: Option<string>,
    isWorking: bool, isSub: bool, preferredDesk: string,
    preferredHoursPerWeek: Option<int>, preferredHoursInARow: Option<int>,
    seniority: int, assignedShifts: int, maxShifts: Option<int>,
    year: string, termOrBreak: string, availability: map<string, Entry>)

  datatype Sheet = TermSheet | InterimSheet

  const PreferredName := "Preferred Name"
  const ScheduledWorking := "Working (scheduled shifts)"
  const SubWorking := "Working (sub)"
  const NotWorking := "Not working"

  /** The working flags `(isWorking, isSub)` a `Working` cell sets. */
  function WorkingFlags(working: Option<string>): (r: (bool, bool))
    ensures r.1 ==> r.0
    ensures r.0 <==> working == Some(ScheduledWorking) || working == Some(SubWorking)
    ensures r.1 <==> working == Some(SubWorking)
  {
    if working == Some(ScheduledWorking) then (true, false)
    else if working == Some(SubWorking) then (true, true)
    else (false, false)
  }

  /** `floor(hours / 2)` on the term sheet; `max(10, floor(hours / 2))` on the
      interim sheet; NaN stays NaN. */
  function MaxShifts(sheet: Sheet, hours: Option<int>): (r: Option<int>)
    ensures r.None? <==> hours.None?
    ensures sheet == TermSheet && hours.Some? ==> 2 * r.value <= hours.value < 2 * r.value + 2
    ensures sheet == InterimSheet && hours.Some? ==>
            r.value >= 10 && 2 * r.value + 2 > hours.value && (r.value > 10 ==> 2 * r.value <= hours.value)
  {
    match hours
    case None => None
    case Some(h) => if sheet == TermSheet then Some(h / 2) else Some(if h / 2 > 10 then h / 2 else 10)
  }

  /** The status of a column without text: `Unavailable` on the term sheet;
      on the interim sheet `Sub`, `Unavailable` or `Not Available` by the
      student's flags. */
  function DefaultStatus(sheet: Sheet, isWorking: bool, isSub: bool): string {
    if sheet == TermSheet then "Unavailable"
    else if isSub then "Sub" else if isWorking then "Unavailable" else "Not Available"
  }

  /** On the interim sheet the default status follows the `Working` cell. */
  lemma InterimDefaultStatus(working: Option<string>)
    ensures var (w, sub) := WorkingFlags(working);
            DefaultStatus(InterimSheet, w, sub) ==
            if working == Some(SubWorking) then "Sub"
            else if working == Some(ScheduledWorking) then "Unavailable"
            else "Not Available"
  {
  }

  /** `typeof value === 'string' ? value.trim() : default`. */
  function StatusOf(c: Option<Cell>, default: string): string {
    match c
    case Some(Str(t)) => Trim(t)
    case _ => default
  }

  /** What a time-slot header parses to: the availability key and the
      entry's day, time and (interim) date. */
  datatype Slot = Slot(key: string, day: string, time: string, date: Option<string>)

  /** A time-slot column: its header and what the header parses to, or
      `None` when parsing throws and the column is skipped. */
  datatype Column = Column(header: string, slot: Option<Slot>)

  /** `parseTimeSlotHeader(header)` inside its `try`: the key is
      `${time}-${day}` on the term sheet and `${time}-${day}-${date}` on the
      interim sheet. */
  function ParseColumn(sheet: Sheet, header: string): (r: Column)
    ensures r.header == header
    ensures sheet == TermSheet ==> (r.slot.None? <==> ParseTermHeader(header).Err?)
    ensures sheet == InterimSheet ==> (r.slot.None? <==> ParseInterimHeader(header).Err?)
  {
    if sheet == TermSheet then
      match ParseTermHeader(header)
      case Err(_) => Column(header, None)
      case Ok(c) => Column(header, Some(Slot(c.time + "-" + c.day, c.day, c.time, None)))
    else
      match ParseInterimHeader(header)
      case Err(_) => Column(header, None)
      case Ok(c) => Column(header, Some(Slot(c.time + "-" + c.day + "-" + c.date, c.day, c.time, Some(c.date))))
  }

  /** The selected headers, each parsed. Parsing does not depend on the row,
      so parsing each header once gives what every row's `forEach` gives. */
  function ParseColumns(sheet: Sheet, headers: seq<string>): (r: seq<Column>)
    ensures |r| == |headers|
  {
    seq(|headers|, j requires 0 <= j < |headers| => ParseColumn(sheet, headers[j]))
  }

  /** The availability entry and its key that one column gives for a row:
      the cell's status under the parsed slot, or nothing for a skipped column. */
  function ColumnEntry(sheet: Sheet, col: Column, row: Row, isWorking: bool, isSub: bool): (r: Option<(string, Entry)>)
    ensures r.Some? <==> col.slot.Some?
    ensures r.Some? ==> r.value.0 == col.slot.value.key &&
                        r.value.1.status == StatusOf(Get(row, col.header), DefaultStatus(sheet, isWorking, isSub))
  {
    match col.slot
    case None => None
    case Some(p) =>
      var status := StatusOf(Get(row, col.header), DefaultStatus(sheet, isWorking, isSub));
      Some((p.key, Entry(status, p.day, p.time, p.date)))
  }

  /** What each column gives for a row, in column order. */
  function Columns(sheet: Sheet, cols: seq<Column>, row: Row, isWorking: bool, isSub: bool): seq<Option<(string, Entry)>> {
    seq(|cols|, j requires 0 <= j < |cols| => ColumnEntry(sheet, cols[j], row, isWorking, isSub))
  }

  /** The map the columns build, in order: a later column with the same key
      replaces an earlier one. */
  function Fill(cs: seq<Option<(string, Entry)>>): map<string, Entry> {
    if cs == [] then map[]
    else
      var before := Fill(cs[..|cs| - 1]);
      match cs[|cs| - 1]
      case None => before
      case Some((k, e)) => before[k := e]
  }

  /** The last column with key `k`. */
  function LastFor(cs: seq<Option<(string, Entry)>>, k: string): (r: Option<nat>)
    ensures r.Some? ==> r.value < |cs| && cs[r.value].Some? && cs[r.value].value.0 == k &&
                        forall j :: r.value < j < |cs| ==> cs[j].None? || cs[j].value.0 != k
    ensures r.None? ==> forall j :: 0 <= j < |cs| ==> cs[j].None? || cs[j].value.0 != k
  {
    if cs == [] then None
    else if cs[|cs| - 1].Some? && cs[|cs| - 1].value.0 == k then Some(|cs| - 1)
    else LastFor(cs[..|cs| - 1], k)
  }

  /** A key is in the map exactly when some column has it, and then it holds
      the entry of the last such column. */
  lemma {:induction false} FillMeaning(cs: seq<Option<(string, Entry)>>, k: string)
    ensures match LastFor(cs, k)
            case None => k !in Fill(cs)
            case Some(j) => k in Fill(cs) && Fill(cs)[k] == cs[j].value.1
  {
    if cs != [] {
      FillMeaning(cs[..|cs| - 1], k);
    }
  }

  /** One more column updates the map by its entry. */
  lemma FillStep(cs: seq<Option<(string, Entry)>>, j: nat)
    requires j < |cs|
    ensures Fill(cs[..j + 1]) == match cs[j] case None => Fill(cs[..j]) case Some((k, e)) => Fill(cs[..j])[k := e]
  {
    assert cs[..j + 1][..j] == cs[..j];
  }

  /** The loop's step: the map so far, updated by the next column's entry. */
  lemma FillNext(cs: seq<Option<(string, Entry)>>, j: nat, before: map<string, Entry>, entry: Option<(string, Entry)>)
    requires j < |cs| && before == Fill(cs[..j]) && cs[j] == entry
    ensures Fill(cs[..j + 1]) == if entry.Some? then before[entry.value.0 := entry.value.1] else before
  {
    FillStep(cs, j);
  }

  /** The availability map of a row. */
  function Availability(sheet: Sheet, cols: seq<Column>, row: Row, isWorking: bool, isSub: bool): map<string, Entry> {
    Fill(Columns(sheet, cols, row, isWorking, isSub))
  }

  /** The student of one row, before the availability columns: fields
      trimmed, counts converted, no shifts assigned yet. On the term sheet a
      numeric `Preferred Name` cell fails the whole import (it has no `trim`). */
  function BaseStudent(sheet: Sheet, row: Row, year: string, termOrBreak: string): Result<ImportedStudent> {
    var nameCell := Get(row, PreferredName);
    if sheet == TermSheet && nameCell.Some? && nameCell.value.Num? then
      Err("row['Preferred Name']?.trim is not a function")
    else
      var hours := NumberOrZero(Get(row, "Preferred Hours Per Week"));
      Ok(ImportedStudent(
        OrEmpty(TextOf(nameCell)), OrEmpty(TextOf(Get(row, "Email"))), TextOf(Get(row, "Jobs")),
        false, false, OrEmpty(TextOf(Get(row, "Preferred Desk"))),
        hours, NumberOrZero(Get(row, "Preferred Hours In A Row")),
        NumberElseZero(Get(row, "Seniority")), 0, MaxShifts(sheet, hours),
        Trim(year), Trim(termOrBreak), map[]))
  }

  /** The student of one row. */
  function StudentOf(sheet: Sheet, cols: seq<Column>, row: Row, year: string, termOrBreak: string): Result<ImportedStudent> {
    match BaseStudent(sheet, row, year, termOrBreak)
    case Err(e) => Err(e)
    case Ok(b) =>
      var (w, sub) := WorkingFlags(TextOf(Get(row, "Working")));
      Ok(b.(isWorking := w, isSub := sub, availability := Availability(sheet, cols, row, w, sub)))
  }

  /** `student.email && student.preferredName && student.year && student.termOrBreak`. */
  predicate Complete(s: ImportedStudent) {
    s.email != "" && s.preferredName != "" && s.year != "" && s.termOrBreak != ""
  }

  /** The complete students, in order. */
  function Keep(xs: seq<ImportedStudent>): (r: seq<ImportedStudent>)
    ensures |r| <= |xs|
    ensures forall x :: x in r <==> x in xs && Complete(x)
  {
    if xs == [] then [] else Keep(xs[..|xs| - 1]) + (if Complete(xs[|xs| - 1]) then [xs[|xs| - 1]] else [])
  }

  /** The filter keeps order: the complete students of two runs of rows are
      those of the first run followed by those of the second. */
  lemma {:induction false} KeepAppend(a: seq<ImportedStudent>, b: seq<ImportedStudent>)
    ensures Keep(a + b) == Keep(a) + Keep(b)
    decreases |b|
  {
    if b == [] {
      assert a + b == a;
    } else {
      var last := if Complete(b[|b| - 1]) then [b[|b| - 1]] else [];
      assert (a + b)[..|a + b| - 1] == a + b[..|b| - 1] && (a + b)[|a + b| - 1] == b[|b| - 1];
      KeepAppend(a, b[..|b| - 1]);
      AppendAssoc(Keep(a), Keep(b[..|b| - 1]), last);
    }
  }

  /** A complete student is kept as often as it occurs, an incomplete one never. */
  lemma {:induction false} KeepCount(xs: seq<ImportedStudent>, x: ImportedStudent)
    ensures multiset(Keep(xs))[x] == if Complete(x) then multiset(xs)[x] else 0
  {
    if xs != [] {
      var init, y := xs[..|xs| - 1], xs[|xs| - 1];
      assert xs == init + [y];
      assert multiset(xs)[x] == multiset(init)[x] + multiset([y])[x];
      KeepCount(init, x);
    }
  }

  /** Every result's value, or the first error. */
  function Collect<T>(rs: seq<Result<T>>): (r: Result<seq<T>>)
    ensures r.Ok? ==> |r.value| == |rs|
  {
    if rs == [] then Ok([])
    else
      match Collect(rs[..|rs| - 1])
      case Err(e) => Err(e)
      case Ok(xs) =>
        match rs[|rs| - 1]
        case Err(e) => Err(e)
        case Ok(x) => Ok(xs + [x])
  }

  /** Each row's student, in row order. */
  function RowResults(sheet: Sheet, cols: seq<Column>, rows: seq<Row>, year: string, termOrBreak: string): seq<Result<ImportedStudent>> {
    seq(|rows|, i requires 0 <= i < |rows| => StudentOf(sheet, cols, rows[i], year, termOrBreak))
  }

  /** Every row's student, or the first failing row's error. */
  function AllStudents(sheet: Sheet, cols: seq<Column>, rows: seq<Row>, year: string, termOrBreak: string): Result<seq<ImportedStudent>> {
    Collect(RowResults(sheet, cols, rows, year, termOrBreak))
  }

  /** Whether the sheet's header filter selects a column. */
  predicate Selected(sheet: Sheet, header: string) {
    if sheet == TermSheet then IsTermTimeSlotHeader(header) else IsInterimTimeSlotHeader(header)
  }

  /** `Object.keys(jsonData[0]).filter(...)`: the selected headers, in order. */
  function SelectHeaders(sheet: Sheet, keys: seq<string>): (r: seq<string>)
    ensures |r| <= |keys|
    ensures forall h :: h in r <==> h in keys && Selected(sheet, h)
  {
    if keys == [] then []
    else (if Selected(sheet, keys[0]) then [keys[0]] else []) + SelectHeaders(sheet, keys[1..])
  }

  /** A selected header appears as often as among the keys, any other not at all. */
  lemma {:induction false} SelectHeadersCount(sheet: Sheet, keys: seq<string>, h: string)
    ensures multiset(SelectHeaders(sheet, keys))[h] == if Selected(sheet, h) then multiset(keys)[h] else 0
  {
    if keys != [] {
      var keep := Selected(sheet, h);
      var head := if Selected(sheet, keys[0]) then [keys[0]] else [];
      var rest := SelectHeaders(sheet, keys[1..]);
      assert SelectHeaders(sheet, keys) == head + rest;
      assert multiset(keys)[h] == multiset{keys[0]}[h] + multiset(keys[1..])[h] by {
        HeadTail(keys);
      }
      assert multiset(rest)[h] == if keep then multiset(keys[1..])[h] else 0 by {
        SelectHeadersCount(sheet, keys[1..], h);
      }
      assert multiset(head)[h] == if keep then multiset{keys[0]}[h] else 0 by {
        if keys[0] == h {
          assert Selected(sheet, keys[0]) == keep;
        }
      }
      assert multiset(head + rest)[h] == multiset(head)[h] + multiset(rest)[h];
    }
  }

  /** A single key is kept exactly when it is selected. */
  lemma SelectHeadersSingle(sheet: Sheet, key: string)
    ensures SelectHeaders(sheet, [key]) == if Selected(sheet, key) then [key] else []
  {
    assert [key][1..] == [];
  }

  /** Filtering keeps the order: the headers of two runs of keys are those of
      the first run followed by those of the second. */
  lemma {:induction false} SelectHeadersAppend(sheet: Sheet, a: seq<string>, b: seq<string>)
    ensures SelectHeaders(sheet, a + b) == SelectHeaders(sheet, a) + SelectHeaders(sheet, b)
  {
    if a == [] {
      assert SelectHeaders(sheet, a + b) == SelectHeaders(sheet, a) + SelectHeaders(sheet, b) by {
        assert a + b == b;
      }
    } else {
      var ra, rb, rab := SelectHeaders(sheet, a[1..]), SelectHeaders(sheet, b), SelectHeaders(sheet, a[1..] + b);
      var head := SelectHeadersStep(sheet, a, b);
      assert rab == ra + rb by { SelectHeadersAppend(sheet, a[1..], b); }
      AppendAssoc(head, ra, rb);
    }
  }

  /** The first key's share of the headers, before and after appending. */
  lemma SelectHeadersStep(sheet: Sheet, a: seq<string>, b: seq<string>) returns (head: seq<string>)
    requires a != []
    ensures SelectHeaders(sheet, a + b) == head + SelectHeaders(sheet, a[1..] + b)
    ensures SelectHeaders(sheet, a) == head + SelectHeaders(sheet, a[1..])
  {
    head := if Selected(sheet, a[0]) then [a[0]] else [];
    AppendTail(a, b);
  }

  const NoRows := "Cannot convert undefined or null to object"
  const NoTimeSlotHeaders := "No time slot headers detected in the Excel file"

  /** The import's student list. The column names are read from the first
      row, so a sheet without rows fails; an interim sheet without a selected
      column is refused; otherwise every row is mapped and the incomplete
      students are dropped. */
  function Students(sheet: Sheet, keys: seq<string>, rows: seq<Row>, year: string, termOrBreak: string): Result<seq<ImportedStudent>> {
    if rows == [] then Err(NoRows)
    else
      var headers := SelectHeaders(sheet, keys);
      if sheet == InterimSheet && headers == [] then Err(NoTimeSlotHeaders)
      else
        match AllStudents(sheet, ParseColumns(sheet, headers), rows, year, termOrBreak)
        case Err(e) => Err(e)
        case Ok(xs) => Ok(Keep(xs))
  }

  /** Collecting fails exactly when some result is an error; otherwise it
      has each value at its position. */
  lemma {:induction false} CollectMeaning<T>(rs: seq<Result<T>>)
    ensures var r := Collect(rs);
            (r.Ok? <==> forall i :: 0 <= i < |rs| ==> rs[i].Ok?) &&
            (r.Ok? ==> forall i :: 0 <= i < |rs| ==> r.value[i] == rs[i].value)
  {
    if rs != [] {
      var init := rs[..|rs| - 1];
      CollectMeaning(init);
      assert forall i :: 0 <= i < |init| ==> init[i] == rs[i];
    }
  }

  /** An error among the first `n` results is the error of the whole. */
  lemma {:induction false} CollectErrPrefix<T>(rs: seq<Result<T>>, n: nat)
    requires n <= |rs| && Collect(rs[..n]).Err?
    ensures Collect(rs) == Collect(rs[..n])
    decreases |rs| - n
  {
    if n < |rs| {
      assert rs[..|rs| - 1][..n] == rs[..n];
      CollectErrPrefix(rs[..|rs| - 1], n);
    } else {
      assert rs[..n] == rs;
    }
  }

  /** One more result extends the collection, or fails it. */
  lemma CollectStep<T>(rs: seq<Result<T>>, i: nat, xs: seq<T>)
    requires i < |rs| && Collect(rs[..i]) == Ok(xs)
    ensures Collect(rs[..i + 1]) == match rs[i] case Err(e) => Err(e) case Ok(x) => Ok(xs + [x])
  {
    assert rs[..i + 1][..i] == rs[..i];
  }

  /** The loop's step: the next result either fails the whole collection or
      extends the values so far. */
  lemma CollectNext<T>(rs: seq<Result<T>>, i: nat, xs: seq<T>, x: Result<T>)
    requires i < |rs| && Collect(rs[..i]) == Ok(xs) && x == rs[i]
    ensures x.Err? ==> Collect(rs) == Err(x.message)
    ensures x.Ok? ==> Collect(rs[..i + 1]) == Ok(xs + [x.value])
  {
    CollectStep(rs, i, xs);
    if x.Err? {
      CollectErrPrefix(rs, i + 1);
    }
  }

  /** One more student extends the kept list when it is complete. */
  lemma KeepStep(xs: seq<ImportedStudent>, k: nat)
    requires k < |xs|
    ensures Keep(xs[..k + 1]) == Keep(xs[..k]) + if Complete(xs[k]) then [xs[k]] else []
  {
    assert xs[..k + 1][..k] == xs[..k];
  }

  lemma RowResultsAt(sheet: Sheet, cols: seq<Column>, rows: seq<Row>, year: string, termOrBreak: string, i: nat)
    requires i < |rows|
    ensures RowResults(sheet, cols, rows, year, termOrBreak)[i] == StudentOf(sheet, cols, rows[i], year, termOrBreak)
  {
  }

  /** The mapping loop's step: the next row either fails the whole sheet or
      extends the students so far by its student. */
  lemma AllStudentsNext(sheet: Sheet, cols: seq<Column>, rows: seq<Row>, year: string, termOrBreak: string,
                        i: nat, xs: seq<ImportedStudent>, x: Result<ImportedStudent>)
    requires i < |rows| && AllStudents(sheet, cols, rows[..i], year, termOrBreak) == Ok(xs)
    requires x == StudentOf(sheet, cols, rows[i], year, termOrBreak)
    ensures x.Err? ==> AllStudents(sheet, cols, rows, year, termOrBreak) == Err(x.message)
    ensures x.Ok? ==> AllStudents(sheet, cols, rows[..i + 1], year, termOrBreak) == Ok(xs + [x.value])
  {
    var rs := RowResults(sheet, cols, rows, year, termOrBreak);
    RowResultsPrefix(sheet, cols, rows, year, termOrBreak, i);
    RowResultsPrefix(sheet, cols, rows, year, termOrBreak, i + 1);
    RowResultsAt(sheet, cols, rows, year, termOrBreak, i);
    CollectNext(rs, i, xs, x);
  }

  lemma RowResultsPrefix(sheet: Sheet, cols: seq<Column>, rows: seq<Row>, year: string, termOrBreak: string, n: nat)
    requires n <= |rows|
    ensures RowResults(sheet, cols, rows, year, termOrBreak)[..n] == RowResults(sheet, cols, rows[..n], year, termOrBreak)
  {
  }

  /** A mapped sheet holds each row's student at that row's position. */
  lemma AllStudentsAt(sheet: Sheet, cols: seq<Column>, rows: seq<Row>, year: string, termOrBreak: string, i: nat)
    requires i < |rows| && AllStudents(sheet, cols, rows, year, termOrBreak).Ok?
    ensures var x := StudentOf(sheet, cols, rows[i], year, termOrBreak);
            x.Ok? && AllStudents(sheet, cols, rows, year, termOrBreak).value[i] == x.value
  {
    var rs := RowResults(sheet, cols, rows, year, termOrBreak);
    CollectMeaning(rs);
    RowResultsAt(sheet, cols, rows, year, termOrBreak, i);
  }

  /** One failing row fails the mapping of the whole sheet. */
  lemma AllStudentsFail(sheet: Sheet, cols: seq<Column>, rows: seq<Row>, year: string, termOrBreak: string, i: nat)
    requires i < |rows| && StudentOf(sheet, cols, rows[i], year, termOrBreak).Err?
    ensures AllStudents(sheet, cols, rows, year, termOrBreak).Err?
  {
    var rs := RowResults(sheet, cols, rows, year, termOrBreak);
    CollectMeaning(rs);
    RowResultsAt(sheet, cols, rows, year, termOrBreak, i);
  }

  /** The interim import maps every row: only the term sheet's numeric
      `Preferred Name` fails. */
  lemma InterimMappingTotal(cols: seq<Column>, rows: seq<Row>, year: string, termOrBreak: string)
    ensures AllStudents(InterimSheet, cols, rows, year, termOrBreak).Ok?
  {
    var rs := RowResults(InterimSheet, cols, rows, year, termOrBreak);
    forall i | 0 <= i < |rs| ensures rs[i].Ok? {
      RowResultsAt(InterimSheet, cols, rows, year, termOrBreak, i);
    }
    CollectMeaning(rs);
  }

  /** `timeSlotHeaders.forEach(...)`: each column's entry, when its header
      parsed, stored under its key in header order. */
  method StoreColumns(cs: seq<Option<(string, Entry)>>) returns (availability: map<string, Entry>)
    ensures availability == Fill(cs)
  {
    availability := map[];
    var j := 0;
    while j < |cs|
      invariant 0 <= j <= |cs|
      invariant availability == Fill(cs[..j])
    {
      FillNext(cs, j, availability, cs[j]);
      if cs[j].Some? {
        availability := availability[cs[j].value.0 := cs[j].value.1];
      }
      j := j + 1;
    }
    assert cs[..j] == cs;
  }

  /** One row of `jsonData.map(...)`: the record built field by field, the
      working flags set from the `Working` cell, then the availability columns. */
  method MapRow(sheet: Sheet, cols: seq<Column>, row: Row, year: string, termOrBreak: string)
    returns (r: Result<ImportedStudent>)
    ensures r == StudentOf(sheet, cols, row, year, termOrBreak)
  {
    var base := BaseStudent(sheet, row, year, termOrBreak);
    if base.Err? {
      return Err(base.message);
    }
    var student := base.value;
    var working := TextOf(Get(row, "Working"));
    if working == Some(ScheduledWorking) {
      student := student.(isWorking := true, isSub := false);
    } else if working == Some(SubWorking) {
      student := student.(isWorking := true, isSub := true);
    } else if working == Some(NotWorking) {
      student := student.(isWorking := false, isSub := false);
    }
    assert (student.isWorking, student.isSub) == WorkingFlags(working);
    var availability := StoreColumns(Columns(sheet, cols, row, student.isWorking, student.isSub));
    r := Ok(student.(availability := availability));
  }

  /** `jsonData.map(...)`: every row mapped in order; the first failing row
      fails the whole mapping. */
  method MapRows(sheet: Sheet, cols: seq<Column>, rows: seq<Row>, year: string, termOrBreak: string)
    returns (r: Result<seq<ImportedStudent>>)
    ensures r == AllStudents(sheet, cols, rows, year, termOrBreak)
  {
    var all: seq<ImportedStudent> := [];
    var i := 0;
    assert rows[..0] == [];
    while i < |rows|
      invariant 0 <= i <= |rows|
      invariant AllStudents(sheet, cols, rows[..i], year, termOrBreak) == Ok(all)
    {
      var x := MapRow(sheet, cols, rows[i], year, termOrBreak);
      AllStudentsNext(sheet, cols, rows, year, termOrBreak, i, all, x);
      if x.Err? {
        return Err(x.message);
      }
      all := all + [x.value];
      i := i + 1;
    }
    assert rows[..i] == rows;
    r := Ok(all);
  }

  /** `.filter(...)`: the complete students, in order. */
  method KeepComplete(all: seq<ImportedStudent>) returns (kept: seq<ImportedStudent>)
    ensures kept == Keep(all)
  {
    kept := [];
    var k := 0;
    while k < |all|
      invariant 0 <= k <= |all|
      invariant kept == Keep(all[..k])
    {
      KeepStep(all, k);
      if Complete(all[k]) {
        kept := kept + [all[k]];
      }
      k := k + 1;
    }
    assert all[..k] == all;
  }

  /** The POST handler's student list: the columns the filter selects from
      the first row's names, then every row mapped (the first failing row
      fails the import), then the students lacking an email, a name, a year
      or a term dropped. */
  method ImportStudents(sheet: Sheet, keys: seq<string>, rows: seq<Row>, year: string, termOrBreak: string)
    returns (r: Result<seq<ImportedStudent>>)
    ensures r == Students(sheet, keys, rows, year, termOrBreak)
  {
    if rows == [] {
      return Err(NoRows);
    }
    var headers := SelectHeaders(sheet, keys);
    if sheet == InterimSheet && headers == [] {
      return Err(NoTimeSlotHeaders);
    }
    var cols := ParseColumns(sheet, headers);
    var all := MapRows(sheet, cols, rows, year, termOrBreak);
    if all.Err? {
      return Err(all.message);
    }
    var kept := KeepComplete(all.value);
    r := Ok(kept);
  }

  /** A sheet without rows fails the import. */
  lemma StudentsNeedRows(sheet: Sheet, keys: seq<string>, year: string, termOrBreak: string)
    ensures Students(sheet, keys, [], year, termOrBreak) == Err(NoRows)
  {
  }

  /** An interim sheet none of whose columns is a time slot is refused. */
  lemma InterimStudentsNeedTimeSlots(keys: seq<string>, rows: seq<Row>, year: string, termOrBreak: string)
    requires rows != [] && forall i :: 0 <= i < |keys| ==> !Selected(InterimSheet, keys[i])
    ensures Students(InterimSheet, keys, rows, year, termOrBreak) == Err(NoTimeSlotHeaders)
  {
    NoneSelected(InterimSheet, keys);
  }

  /** No column passes the filter when no name does. */
  lemma {:induction false} NoneSelected(sheet: Sheet, keys: seq<string>)
    requires forall i :: 0 <= i < |keys| ==> !Selected(sheet, keys[i])
    ensures SelectHeaders(sheet, keys) == []
  {
    if keys != [] {
      NoneSelected(sheet, keys[1..]);
    }
  }

  /** A successful import keeps complete students only, at most one per row. */
  lemma StudentsComplete(sheet: Sheet, keys: seq<string>, rows: seq<Row>, year: string, termOrBreak: string)
    ensures var r := Students(sheet, keys, rows, year, termOrBreak);
            r.Ok? ==> |r.value| <= |rows| && forall x :: x in r.value ==> Complete(x)
  {
    if rows != [] {
      var headers := SelectHeaders(sheet, keys);
      MappedComplete(sheet, ParseColumns(sheet, headers), rows, year, termOrBreak);
    }
  }

  lemma MappedComplete(sheet: Sheet, cols: seq<Column>, rows: seq<Row>, year: string, termOrBreak: string)
    ensures var a := AllStudents(sheet, cols, rows, year, termOrBreak);
            a.Ok? ==> |Keep(a.value)| <= |rows| && forall x :: x in Keep(a.value) ==> Complete(x)
  {
    var rs := RowResults(sheet, cols, rows, year, termOrBreak);
    assert |rs| == |rows|;
  }
}

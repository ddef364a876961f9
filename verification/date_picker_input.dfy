/**
 * The date field: its value is a `YYYY-MM-DD` string, shown as
 * `DD/MM/YYYY`, converted to a picker date and back.
 */
module DatePickerInput {
  import opened Wrappers
  import opened Text

  /** A calendar date; `month` counts from 1 (the JavaScript `getMonth() + 1`). */
  datatype Date = Date(year: int, month: int, day: int)

  predicate IsLeapYear(y: int) {
    (y % 4 == 0 && y % 100 != 0) || y % 400 == 0
  }

  function DaysInMonth(year: int, month: int): int
    requires 1 <= month <= 12
  {
    if month == 2 then (if IsLeapYear(year) then 29 else 28)
    else if month == 4 || month == 6 || month == 9 || month == 11 then 30
    else 31
  }

  predicate ValidDate(d: Date) {
    1 <= d.month <= 12 && 1 <= d.day <= DaysInMonth(d.year, d.month)
  }

  /** `formatDate(date)`: the year as `String` does it, month and day padded to two digits. */
  function FormatDate(d: Date): (r: string)
    ensures |r| >= |IntToString(d.year)| + 6
  {
    IntToString(d.year) + "-" + PadStart2(IntToString(d.month)) + "-" + PadStart2(IntToString(d.day))
  }

  /** A formatted date with non-negative fields splits on "-" into year, month and day. */
  lemma FormatDateSplits(d: Date)
    requires d.year >= 0 && d.month >= 0 && d.day >= 0
    ensures Split(FormatDate(d), '-') ==
      [NatToString(d.year), PadStart2(NatToString(d.month)), PadStart2(NatToString(d.day))]
  {
    var y, m, dd := NatToString(d.year), PadStart2(NatToString(d.month)), PadStart2(NatToString(d.day));
    assert FormatDate(d) == y + "-" + m + "-" + dd;
    PaddedFree(d.year, '-');
    PaddedFree(d.month, '-');
    PaddedFree(d.day, '-');
    SplitThree(y, m, dd, '-');
  }

  /** The `split("-")` field at `i` through `Number`, NaN (None) when there is no such field. */
  function FieldNumber(parts: seq<string>, i: nat): Option<int> {
    if i < |parts| then NumberOf(parts[i]) else None
  }

  /** `x - 1` on a number that may be NaN. */
  function MinusOne(x: Option<int>): Option<int> {
    match x
    case None => None
    case Some(n) => Some(n - 1)
  }

  /**
   * What `getDateFromString` builds: the current date for an empty value,
   * otherwise `new Date(year, month - 1, day)` with these arguments (None
   * stands for NaN).
   */
  datatype PickerDate = Today | Construct(year: Option<int>, monthIndex: Option<int>, day: Option<int>)

  function GetDateFromString(s: string): (r: PickerDate)
    ensures r.Today? <==> s == ""
    ensures r.Construct? ==>
      r == Construct(FieldNumber(Split(s, '-'), 0), MinusOne(FieldNumber(Split(s, '-'), 1)), FieldNumber(Split(s, '-'), 2))
  {
    if s == "" then Today
    else
      var parts := Split(s, '-');
      Construct(FieldNumber(parts, 0), MinusOne(FieldNumber(parts, 1)), FieldNumber(parts, 2))
  }

  /** The outcome of `new Date(year, monthIndex, day)`. */
  datatype ConstructedDate = InvalidDate | Calendar(date: Date) | RolledOver(year: int, monthIndex: int, day: int)

  /**
   * The JavaScript Date constructor on these arguments: any NaN makes an
   * invalid date; a year from 0 to 99 means 1900 onwards; in-range month
   * and day give that calendar date. Out-of-range month or day are carried
   * over into the next month or year by the runtime; that arithmetic is
   * kept as `RolledOver`.
   */
  function ConstructDate(year: Option<int>, monthIndex: Option<int>, day: Option<int>): (r: ConstructedDate)
    ensures r.Calendar? ==> ValidDate(r.date)
  {
    if year.None? || monthIndex.None? || day.None? then InvalidDate
    else
      var y := if 0 <= year.value <= 99 then 1900 + year.value else year.value;
      var m := monthIndex.value;
      var d := day.value;
      if 0 <= m <= 11 && 1 <= d <= DaysInMonth(y, m + 1) then Calendar(Date(y, m + 1, d))
      else RolledOver(y, m, d)
  }

  /** The date the picker opens on, given what `getDateFromString` built and today's date. */
  function PickerOpensOn(p: PickerDate, today: Date): ConstructedDate {
    match p
    case Today => Calendar(today)
    case Construct(y, m, d) => ConstructDate(y, m, d)
  }

  /** A value that splits into three fields is read as those three numbers, the month shifted down. */
  lemma ReadThreeFields(s: string, a: string, b: string, c: string)
    requires s != "" && Split(s, '-') == [a, b, c]
    ensures GetDateFromString(s) == Construct(NumberOf(a), MinusOne(NumberOf(b)), NumberOf(c))
  {
  }

  /** The same, once each field is known to read as a number. */
  /** Text with a single "-" leaves the day NaN, so the picker gets an invalid date. */
  lemma ReadTwoDateFields(s: string, a: string, b: string)
    requires s != "" && Split(s, '-') == [a, b]
    ensures GetDateFromString(s) == Construct(NumberOf(a), MinusOne(NumberOf(b)), None)
  {
  }

  /** Fields after the third are ignored, as the destructuring ignores them. */
  lemma ExtraDateFieldsIgnored(s: string, a: string, b: string, c: string, extra: seq<string>)
    requires s != "" && Split(s, '-') == [a, b, c] + extra
    ensures GetDateFromString(s) == Construct(NumberOf(a), MinusOne(NumberOf(b)), NumberOf(c))
  {
  }

  lemma ReadThreeNumbers(s: string, a: string, b: string, c: string, year: int, month: int, day: int)
    requires s != "" && Split(s, '-') == [a, b, c]
    requires NumberOf(a) == Some(year) && NumberOf(b) == Some(month) && NumberOf(c) == Some(day)
    ensures GetDateFromString(s) == Construct(Some(year), Some(month - 1), Some(day))
  {
    ReadThreeFields(s, a, b, c);
  }

  /**
   * Reading back a formatted date: the fields come back as written, the
   * month shifted to its 0-based index, whenever no field is negative.
   */
  lemma ReadBackFields(d: Date)
    requires d.year >= 0 && d.month >= 0 && d.day >= 0
    ensures GetDateFromString(FormatDate(d)) == Construct(Some(d.year), Some(d.month - 1), Some(d.day))
  {
    FormatDateSplits(d);
    ReadPaddedFields(FormatDate(d), d);
  }

  /** A value split into a year and two padded fields reads back as those three numbers. */
  lemma ReadPaddedFields(s: string, d: Date)
    requires d.year >= 0 && d.month >= 0 && d.day >= 0
    requires Split(s, '-') == [NatToString(d.year), PadStart2(NatToString(d.month)), PadStart2(NatToString(d.day))]
    ensures GetDateFromString(s) == Construct(Some(d.year), Some(d.month - 1), Some(d.day))
  {
    ReadPaddedNumbers(s, d.year, d.month, d.day);
  }

  lemma ReadPaddedNumbers(s: string, year: nat, month: nat, day: nat)
    requires Split(s, '-') == [NatToString(year), PadStart2(NatToString(month)), PadStart2(NatToString(day))]
    ensures GetDateFromString(s) == Construct(Some(year), Some(month - 1), Some(day))
  {
    NumberOfNat(year);
    NumberOfPadded(month);
    NumberOfPadded(day);
    ReadThreeNumbers(s, NatToString(year), PadStart2(NatToString(month)), PadStart2(NatToString(day)), year, month, day);
  }

  /**
   * Round trip: the picker opens on the date that was formatted, for a
   * valid date whose year is 100 or more (years 0 to 99 are read as 19xx).
   */
  lemma DateRoundTrip(d: Date, today: Date)
    requires ValidDate(d) && d.year >= 100
    ensures PickerOpensOn(GetDateFromString(FormatDate(d)), today) == Calendar(d)
  {
    ReadBackFields(d);
    ConstructValid(d);
  }

  /** The Date constructor gives back a valid date whose year is 100 or more. */
  lemma ConstructValid(d: Date)
    requires ValidDate(d) && d.year >= 100
    ensures ConstructDate(Some(d.year), Some(d.month - 1), Some(d.day)) == Calendar(d)
  {
  }

  /** The `split("-")` field at `i`, or the text JavaScript prints for `undefined`. */
  function FieldText(parts: seq<string>, i: nat): string {
    if i < |parts| then parts[i] else "undefined"
  }

  /** `formatForDisplay(dateStr)`: `Y-M-D` shown as `D/M/Y`; empty shows the placeholder. */
  function FormatForDisplay(s: string): (r: string)
    ensures s == "" ==> r == "Selecione uma data"
  {
    if s == "" then "Selecione uma data"
    else
      var parts := Split(s, '-');
      FieldText(parts, 2) + "/" + FieldText(parts, 1) + "/" + FieldText(parts, 0)
  }

  /** Any three dash-free fields `a-b-c` are displayed as `c/b/a`, padded or not. */
  lemma DisplaySwaps(a: string, b: string, c: string)
    requires '-' !in a && '-' !in b && '-' !in c
    ensures FormatForDisplay(a + "-" + b + "-" + c) == c + "/" + b + "/" + a
  {
    SplitThree(a, b, c, '-');
    assert a + "-" + b + "-" + c == a + ['-'] + b + ['-'] + c;
  }

  /** A formatted date is displayed as day/month/year, day and month on two digits. */
  lemma DisplayOfFormatted(d: Date)
    requires ValidDate(d) && d.year >= 0
    ensures FormatForDisplay(FormatDate(d)) ==
      PadStart2(NatToString(d.day)) + "/" + PadStart2(NatToString(d.month)) + "/" + NatToString(d.year)
  {
    FormatDateSplits(d);
  }

  /** The text inside the field: `value ? formatForDisplay(value) : "Selecione uma data"`. */
  function DisplayText(value: string): (r: string)
    ensures value == "" ==> r == "Selecione uma data"
    ensures value != "" ==> r == FormatForDisplay(value)
  {
    if value != "" then FormatForDisplay(value) else "Selecione uma data"
  }

  /** The picker event: its `type` and the date it carries, if any. */
  datatype PickerEvent = PickerEvent(kind: string, selected: Option<Date>)

  /** What `handleDateChange` does: whether the picker stays shown, and what reaches `onChange`. */
  datatype DateChange = DateChange(show: bool, emitted: Option<string>)

  function HandleDateChange(event: PickerEvent, isIos: bool): (r: DateChange)
    ensures r.show == isIos
    ensures r.emitted.Some? <==> event.kind == "set" && event.selected.Some?
    ensures r.emitted.Some? ==> r.emitted.value == FormatDate(event.selected.value)
  {
    DateChange(isIos, if event.kind == "set" && event.selected.Some? then Some(FormatDate(event.selected.value)) else None)
  }

  /** The value a "set" event stores opens the picker on the selected date again. */
  lemma ChangeThenReopen(event: PickerEvent, isIos: bool, today: Date)
    requires event.kind == "set" && event.selected.Some?
    requires ValidDate(event.selected.value) && event.selected.value.year >= 100
    ensures PickerOpensOn(GetDateFromString(HandleDateChange(event, isIos).emitted.value), today) ==
      Calendar(event.selected.value)
  {
    DateRoundTrip(event.selected.value, today);
  }
}

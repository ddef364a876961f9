/**
 * The time field: its value is an `HH:MM` string, converted to the
 * arguments of `setHours` on today's date and back.
 */
module TimePickerInput {
  import opened Wrappers
  import opened Text

  /** A time of day as the picker reports it (`getHours()`, `getMinutes()`). */
  datatype Time = Time(hours: int, minutes: int)

  predicate ValidTime(t: Time) {
    0 <= t.hours < 24 && 0 <= t.minutes < 60
  }

  /** `formatTime(date)`: hours and minutes, each padded to two digits, joined by ":". */
  function FormatTime(t: Time): (r: string)
    ensures ValidTime(t) ==> |r| == 5 && r[2] == ':'
  {
    var h, m := PadStart2(IntToString(t.hours)), PadStart2(IntToString(t.minutes));
    PaddedNatLength(t);
    assert ValidTime(t) ==> (h + ":" + m)[|h|] == ':';
    h + ":" + m
  }

  /** Hours and minutes of a valid time print as one or two digits each. */
  lemma PaddedNatLength(t: Time)
    ensures ValidTime(t) ==> |PadStart2(IntToString(t.hours))| == 2 && |PadStart2(IntToString(t.minutes))| == 2
  {
    if ValidTime(t) {
      SmallNatLength(t.hours);
      SmallNatLength(t.minutes);
    }
  }

  /** A number below 100 prints with at most two digits. */
  lemma {:induction false} SmallNatLength(n: nat)
    requires n < 100
    ensures |NatToString(n)| <= 2
  {
    if n >= 10 {
      assert NatToString(n) == NatToString(n / 10) + [DigitChar(n % 10)];
    }
  }

  /**
   * What `getDateFromTime` builds: the current time for an empty value,
   * otherwise today's date with `setHours(hours, minutes, 0, 0)`.
   */
  datatype PickerTime = Now | SetHours(hours: int, minutes: int)

  /** `x || 0` on a number that may be NaN (None): NaN and 0 both give 0. */
  function OrZero(x: Option<int>): (r: int)
    ensures x.Some? ==> r == x.value
    ensures x.None? ==> r == 0
  {
    match x
    case None => 0
    case Some(n) => n
  }

  /** The `split(":")` field at `i` through `Number`, NaN (None) when there is no such field. */
  function TimeField(parts: seq<string>, i: nat): Option<int> {
    if i < |parts| then NumberOf(parts[i]) else None
  }

  function GetDateFromTime(s: string): (r: PickerTime)
    ensures r.Now? <==> s == ""
    ensures r.SetHours? ==> r.hours == OrZero(TimeField(Split(s, ':'), 0))
    ensures r.SetHours? ==> r.minutes == OrZero(TimeField(Split(s, ':'), 1))
  {
    if s == "" then Now
    else
      var parts := Split(s, ':');
      SetHours(OrZero(TimeField(parts, 0)), OrZero(TimeField(parts, 1)))
  }

  /** Text with no ":" is read as that hour with minute 0. */
  lemma HoursOnly(s: string)
    requires s != "" && ':' !in s
    ensures GetDateFromTime(s) == SetHours(OrZero(NumberOf(s)), 0)
  {
    SplitWhole(s, ':');
  }

  /** A formatted time with non-negative fields splits on ":" into its two padded parts. */
  lemma FormatTimeSplits(t: Time)
    requires t.hours >= 0 && t.minutes >= 0
    ensures Split(FormatTime(t), ':') == [PadStart2(NatToString(t.hours)), PadStart2(NatToString(t.minutes))]
  {
    var h, m := PadStart2(NatToString(t.hours)), PadStart2(NatToString(t.minutes));
    assert FormatTime(t) == h + ":" + m;
    PaddedFree(t.hours, ':');
    PaddedFree(t.minutes, ':');
    SplitTwo(h, m, ':');
  }

  /** Round trip: reading a formatted time back sets exactly those hours and minutes. */
  lemma TimeRoundTrip(t: Time)
    requires ValidTime(t)
    ensures GetDateFromTime(FormatTime(t)) == SetHours(t.hours, t.minutes)
  {
    var h, m := PadStart2(NatToString(t.hours)), PadStart2(NatToString(t.minutes));
    FormatTimeSplits(t);
    ReadTwoFields(FormatTime(t), h, m);
    NumberOfPadded(t.hours);
    NumberOfPadded(t.minutes);
  }

  /** A value that splits into two fields is read as those two numbers, NaN counting as 0. */
  lemma ReadTwoFields(s: string, a: string, b: string)
    requires s != "" && Split(s, ':') == [a, b]
    ensures GetDateFromTime(s) == SetHours(OrZero(NumberOf(a)), OrZero(NumberOf(b)))
  {
  }

  /** The text inside the field: `value || "Selecione um horário"`. */
  function DisplayTime(value: string): (r: string)
    ensures value == "" ==> r == "Selecione um horário"
    ensures value != "" ==> r == value
  {
    if value != "" then value else "Selecione um horário"
  }

  /** The picker event: its `type` and the time it carries, if any. */
  datatype TimeEvent = TimeEvent(kind: string, selected: Option<Time>)

  /** What `handleTimeChange` does: whether the picker stays shown, and what reaches `onChange`. */
  datatype TimeChange = TimeChange(show: bool, emitted: Option<string>)

  function HandleTimeChange(event: TimeEvent, isIos: bool): (r: TimeChange)
    ensures r.show == isIos
    ensures r.emitted.Some? <==> event.kind == "set" && event.selected.Some?
    ensures r.emitted.Some? ==> r.emitted.value == FormatTime(event.selected.value)
  {
    TimeChange(isIos, if event.kind == "set" && event.selected.Some? then Some(FormatTime(event.selected.value)) else None)
  }

  /** The value a "set" event stores opens the picker on the selected time again. */
  lemma TimeChangeThenReopen(event: TimeEvent, isIos: bool)
    requires event.kind == "set" && event.selected.Some? && ValidTime(event.selected.value)
    ensures GetDateFromTime(HandleTimeChange(event, isIos).emitted.value) ==
      SetHours(event.selected.value.hours, event.selected.value.minutes)
  {
    TimeRoundTrip(event.selected.value);
  }
}

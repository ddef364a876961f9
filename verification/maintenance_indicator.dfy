/**
 * The maintenance-due dot and caption shown for a piece of equipment. The
 * number of whole days since the last maintenance is an input here; the
 * screen computes it from the clock.
 */
module MaintenanceIndicator {
  import opened Wrappers
  import opened Text

  const Green := "#10b981"
  const Yellow := "#f59e0b"
  const Red := "#ef4444"
  const Gray := "#9ca3af"

  /** The `intervalDays` prop: left out by the caller, null, or a number of days. */
  datatype IntervalProp = Omitted | Null | Days(days: int)

  /**
   * The divisor the component ends up using: the parameter default 90 applies
   * only to an omitted prop; null takes part in the division as 0.
   */
  function IntervalOf(p: IntervalProp): (i: int)
    ensures p.Omitted? ==> i == 90
    ensures p.Null? ==> i == 0
    ensures p.Days? ==> i == p.days
  {
    match p
    case Omitted => 90
    case Null => 0
    case Days(n) => n
  }

  /**
   * `(daysSince / interval) * 100 >= percent`, decided exactly: for a
   * non-zero interval the ratio is compared by cross-multiplying (flipping
   * the comparison for a negative divisor); a zero interval gives +Infinity
   * for positive days, NaN for zero days and -Infinity for negative days.
   */
  predicate PercentageAtLeast(daysSince: int, interval: int, percent: nat) {
    if interval > 0 then 100 * daysSince >= percent * interval
    else if interval < 0 then 100 * daysSince <= percent * interval
    else daysSince > 0
  }

  /** The colour and status word chosen by the if / else-if chain. */
  function Status(daysSince: int, interval: int): (r: (string, string))
    ensures r == (Red, "Atrasada") || r == (Yellow, "Próxima") || r == (Green, "Em dia")
    ensures interval > 0 ==> (r.0 == Red <==> daysSince >= interval)
    ensures interval > 0 ==> (r.0 == Yellow <==> 4 * daysSince >= 3 * interval && daysSince < interval)
    ensures interval > 0 ==> (r.0 == Green <==> 4 * daysSince < 3 * interval)
    ensures interval < 0 ==> (r.0 == Red <==> daysSince <= interval)
    ensures interval < 0 ==> (r.0 == Yellow <==> 4 * daysSince <= 3 * interval && daysSince > interval)
    ensures interval == 0 ==> (r.0 == Red <==> daysSince > 0) && (r.0 != Yellow)
  {
    if PercentageAtLeast(daysSince, interval, 100) then (Red, "Atrasada")
    else if PercentageAtLeast(daysSince, interval, 75) then (Yellow, "Próxima")
    else (Green, "Em dia")
  }

  datatype Indicator = Indicator(color: string, text: string)

  /** The rendered indicator for `lastMaintenance`, `daysSince` and the `intervalDays` prop. */
  function Classify(lastMaintenance: Option<string>, daysSince: int, intervalDays: IntervalProp): (r: Indicator)
    ensures !Truthy(lastMaintenance) ==> r == Indicator(Gray, "Sem registro")
    ensures Truthy(lastMaintenance) ==>
      var (color, word) := Status(daysSince, IntervalOf(intervalDays));
      r.color == color && r.text == word + " • há " + IntToString(daysSince) + " dias"
  {
    if !Truthy(lastMaintenance) then Indicator(Gray, "Sem registro")
    else
      var (color, word) := Status(daysSince, IntervalOf(intervalDays));
      Indicator(color, word + " • há " + IntToString(daysSince) + " dias")
  }

  /** Severity of a dot colour: gray < green < yellow < red. */
  function Severity(color: string): nat {
    if color == Red then 3 else if color == Yellow then 2 else if color == Green then 1 else 0
  }

  /** Without a last maintenance the interval plays no part. */
  lemma NoRecordIgnoresInterval(lastMaintenance: Option<string>, d1: int, d2: int, p1: IntervalProp, p2: IntervalProp)
    requires !Truthy(lastMaintenance)
    ensures Classify(lastMaintenance, d1, p1) == Classify(lastMaintenance, d2, p2)
    ensures Classify(lastMaintenance, d1, p1).color == Gray
  {
  }

  /** An omitted interval behaves as an interval of 90 days. */
  lemma DefaultInterval(lastMaintenance: Option<string>, daysSince: int)
    ensures Classify(lastMaintenance, daysSince, Omitted) == Classify(lastMaintenance, daysSince, Days(90))
  {
  }

  /** A negative day count is never late: it is on time for any positive interval. */
  lemma NegativeDaysOnTime(lastMaintenance: Option<string>, daysSince: int, interval: int)
    requires Truthy(lastMaintenance) && daysSince < 0 && interval > 0
    ensures Classify(lastMaintenance, daysSince, Days(interval)).color == Green
  {
  }

  /**
   * For a fixed non-negative interval, more elapsed days never give a less
   * severe status.
   */
  lemma SeverityMonotonic(lastMaintenance: Option<string>, d1: int, d2: int, p: IntervalProp)
    requires Truthy(lastMaintenance) && IntervalOf(p) >= 0 && d1 <= d2
    ensures Severity(Classify(lastMaintenance, d1, p).color) <= Severity(Classify(lastMaintenance, d2, p).color)
  {
  }

  /** The caption ends with the day count, which reads back as `daysSince`. */
  lemma CaptionCarriesDays(lastMaintenance: Option<string>, daysSince: int, p: IntervalProp)
    requires Truthy(lastMaintenance)
    ensures var t := Classify(lastMaintenance, daysSince, p).text;
      EndsWith(t, IntToString(daysSince) + " dias") &&
      ParseInt(t[|t| - |IntToString(daysSince) + " dias"|..]) == Some(daysSince)
  {
    var t := Classify(lastMaintenance, daysSince, p).text;
    var tail := IntToString(daysSince) + " dias";
    assert t[|t| - |tail|..] == tail;
    ParseIntPrefix(daysSince, " dias");
  }

  /**
   * A null interval is not replaced by the default: the division is by 0,
   * so any positive day count is overdue and no day count is "due soon".
   */
  lemma NullIntervalOverdue(lastMaintenance: Option<string>, daysSince: int)
    requires Truthy(lastMaintenance)
    ensures daysSince > 0 ==> Classify(lastMaintenance, daysSince, Null).color == Red
    ensures daysSince <= 0 ==> Classify(lastMaintenance, daysSince, Null).color == Green
  {
  }
}

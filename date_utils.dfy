/** Date helpers of the web client (`frontend/src/utils/dateUtils.js`), with
    instants as integer milliseconds and an unparsable date (`Invalid Date`,
    whose comparisons are all false) as `None`. */
module DateUtils {
  import opened Common

  const MS_PER_MINUTE := 60000
  const PLACEHOLDER := "—"

  /** Division truncating toward zero, as `Math.trunc(a / b)`. */
  function TruncDiv(a: int, b: int): (q: int)
    requires b > 0
    ensures a >= 0 ==> q >= 0 && q * b <= a < q * b + b
    ensures a < 0 ==> q <= 0 && q * b >= a > q * b - b
  {
    if a >= 0 then a / b else -((-a) / b)
  }

  /** `differenceInMinutes(fin, inicio)`: whole minutes, truncated toward zero. */
  function DifferenceInMinutes(fin: Option<int>, inicio: Option<int>): (m: Option<int>)
    ensures m.Some? <==> fin.Some? && inicio.Some?
    ensures m.Some? ==> m.value == TruncDiv(fin.value - inicio.value, MS_PER_MINUTE)
  {
    if fin.Some? && inicio.Some? then Some(TruncDiv(fin.value - inicio.value, MS_PER_MINUTE)) else None
  }

  /** `duration(inicio, fin)` on a minute count: under an hour (negatives
      included) as minutes, otherwise whole hours and the remaining minutes.
      A NaN count fails `< 60` and every later test. */
  function Duration(mins: Option<int>): (r: string)
    ensures mins.Some? && mins.value < 60 ==> r == IntToString(mins.value) + " min"
    ensures mins.None? ==> r == "NaNh NaNmin"
  {
    if mins.None? then "NaNh NaNmin"
    else if mins.value < 60 then IntToString(mins.value) + " min"
    else
      var hours := mins.value / 60;
      var rem := mins.value % 60;
      if rem == 0 then IntToString(hours) + "h"
      else IntToString(hours) + "h " + IntToString(rem) + "min"
  }

  /** `duration(inicio, fin)` on the two instants. Less than a minute either
      way reads "0 min", because the minute count truncates toward zero. */
  function DurationBetween(inicio: Option<int>, fin: Option<int>): (r: string)
    ensures inicio.Some? && fin.Some? && -MS_PER_MINUTE < fin.value - inicio.value < MS_PER_MINUTE
            ==> r == "0 min"
    ensures inicio.None? || fin.None? ==> r == "NaNh NaNmin"
  {
    Duration(DifferenceInMinutes(fin, inicio))
  }

  /** From an hour up, the text is the hours and the remainder, and they add
      back up to the minute count. */
  lemma DurationSplitsHours(m: int)
    requires m >= 60
    ensures var h, rem := m / 60, m % 60;
            && h >= 1 && 0 <= rem < 60 && 60 * h + rem == m
            && Duration(Some(m)) == if rem == 0 then NatToString(h) + "h"
                                    else NatToString(h) + "h " + NatToString(rem) + "min"
  {
  }

  /** The hour count printed reads back as the hours of the duration. */
  lemma DurationHoursReadBack(m: int)
    requires m >= 60
    ensures var text := Duration(Some(m));
            Split(text, 'h')[0] == NatToString(m / 60)
            && DigitsValue(Split(text, 'h')[0]) == m / 60
  {
    var h := m / 60;
    var rem := m % 60;
    DurationSplitsHours(m);
    var digits := NatToString(h);
    NatToStringRoundTrip(h);
    assert 'h' !in digits by {
      assert forall i :: 0 <= i < |digits| ==> IsDigit(digits[i]);
    }
    SplitNoSeparator(digits, 'h');
    var tail := if rem == 0 then "" else " " + NatToString(rem) + "min";
    assert Duration(Some(m)) == digits + ['h'] + tail;
    SplitAround(digits, tail, 'h');
  }

  /** `isWorkActive(trabajo)`: `inicio <= now <= fin`, both ends included. */
  predicate IsWorkActive(now: int, inicio: Option<int>, fin: Option<int>) {
    inicio.Some? && fin.Some? && inicio.value <= now <= fin.value
  }

  /** `isOverdue(trabajo)`: the end lies strictly in the past. */
  predicate IsOverdue(now: int, fin: Option<int>) {
    fin.Some? && fin.value < now
  }

  /** A job is never shown as both in progress and overdue; past its start,
      a job with a valid end is exactly one of the two. */
  lemma ActiveAndOverdueExclusive(now: int, inicio: Option<int>, fin: Option<int>)
    ensures !(IsWorkActive(now, inicio, fin) && IsOverdue(now, fin))
    ensures inicio.Some? && fin.Some? && inicio.value <= now
            ==> IsWorkActive(now, inicio, fin) != IsOverdue(now, fin)
  {
  }

  /** What `formatDate` receives: a string to parse, or a `Date` object
      (always truthy), possibly invalid. */
  datatype DateArg = Text(text: string) | Instant(at: Option<int>)

  /** `formatDate(date, fmt)`; `parse` is `parseISO` and `format` renders a
      valid instant with the pattern. */
  function FormatDate(date: Option<DateArg>, fmt: string, parse: string -> Option<int>,
                      format: (int, string) -> string): (r: string)
    ensures date.None? || date == Some(Text("")) ==> r == PLACEHOLDER
    ensures date.Some? && date.value.Text? && date.value.text != "" && parse(date.value.text).None?
            ==> r == PLACEHOLDER
    ensures date.Some? && date.value.Instant? && date.value.at.None? ==> r == PLACEHOLDER
    ensures forall t :: date == Some(Instant(Some(t))) ==> r == format(t, fmt)
    ensures date.Some? && date.value.Text? && date.value.text != "" && parse(date.value.text).Some?
            ==> r == format(parse(date.value.text).value, fmt)
  {
    if date.None? || date == Some(Text("")) then PLACEHOLDER
    else
      var d := if date.value.Text? then parse(date.value.text) else date.value.at;
      if d.None? then PLACEHOLDER else format(d.value, fmt)
  }
}

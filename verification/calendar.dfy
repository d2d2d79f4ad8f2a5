/** Spanish month names and the Gregorian calendar, as the commission code
  uses them: a month name looked up in a twelve-entry table, and the number
  of days of a month with leap-year February.
 */
module Calendar {
  import opened Wrappers

  /** The month names of the commission code, January first. */
  const SpanishMonths: seq<string> := [
    "Enero", "Febrero", "Marzo", "Abril", "Mayo", "Junio",
    "Julio", "Agosto", "Septiembre", "Octubre", "Noviembre", "Diciembre"
  ]

  /** The name of month `m`, if `m` is a month number (the `{1: "Enero", ...}`
      table and its `.get`). */
  function MonthName(m: int): (r: Option<string>)
    ensures r.Some? <==> 1 <= m <= 12
  {
    if 1 <= m <= 12 then Some(SpanishMonths[m - 1]) else None
  }

  function MonthNumberFrom(name: string, i: nat): (r: Option<int>)
    requires i <= |SpanishMonths|
    ensures r.Some? ==> i < r.value <= 12 && SpanishMonths[r.value - 1] == name
    ensures r.None? ==> forall j :: i <= j < |SpanishMonths| ==> SpanishMonths[j] != name
    decreases |SpanishMonths| - i
  {
    if i == |SpanishMonths| then None
    else if SpanishMonths[i] == name then Some(i + 1)
    else MonthNumberFrom(name, i + 1)
  }

  /** The number of a month name (the `{"Enero": 1, ...}` table and its
      `.get`); names are matched exactly, case included. */
  function MonthNumber(name: string): (r: Option<int>)
    ensures r.Some? ==> 1 <= r.value <= 12
  {
    MonthNumberFrom(name, 0)
  }

  /** The two month tables are inverse to each other. */
  lemma {:induction false} MonthTablesInverse(m: int, name: string)
    ensures MonthName(m) == Some(name) <==> MonthNumber(name) == Some(m)
  {
    assert forall i, j :: 0 <= i < j < |SpanishMonths| ==> SpanishMonths[i] != SpanishMonths[j];
    if 1 <= m <= 12 && SpanishMonths[m - 1] == name {
      var r := MonthNumber(name);
      assert r.Some? by {
        assert SpanishMonths[m - 1] == name;
      }
    }
  }

  /** A name outside the twelve-name vocabulary is no month's name. */
  lemma {:induction false} UnknownMonthName(name: string, m: int)
    requires MonthNumber(name).None?
    ensures MonthName(m) != Some(name)
  {
    MonthTablesInverse(m, name);
  }

  /** `calendar.isleap`. */
  predicate IsLeap(year: int) {
    year % 4 == 0 && (year % 100 != 0 || year % 400 == 0)
  }

  /** The second result of `calendar.monthrange(year, month)`. */
  function DaysInMonth(year: int, month: int): (d: int)
    requires 1 <= month <= 12
    ensures 28 <= d <= 31
    ensures month == 2 ==> (d == 29 <==> IsLeap(year))
    ensures month != 2 ==> (d == 31 <==> month in {1, 3, 5, 7, 8, 10, 12})
  {
    if month == 2 then (if IsLeap(year) then 29 else 28)
    else if month in {4, 6, 9, 11} then 30
    else 31
  }

  /** A `datetime` value. */
  datatype DateTime = DateTime(year: int, month: int, day: int, hour: int, minute: int, second: int)

  /** The fields name an existing instant of the proleptic Gregorian calendar,
      within `datetime`'s year range. */
  predicate Valid(d: DateTime) {
    && 1 <= d.year <= 9999
    && 1 <= d.month <= 12
    && 1 <= d.day <= DaysInMonth(d.year, d.month)
    && 0 <= d.hour < 24 && 0 <= d.minute < 60 && 0 <= d.second < 60
  }

  /** Chronological order, `a <= b` on `datetime`s. */
  predicate NotAfter(a: DateTime, b: DateTime) {
    if a.year != b.year then a.year < b.year
    else if a.month != b.month then a.month < b.month
    else if a.day != b.day then a.day < b.day
    else if a.hour != b.hour then a.hour < b.hour
    else if a.minute != b.minute then a.minute < b.minute
    else a.second <= b.second
  }
}

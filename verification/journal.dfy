/** The journal's data model: one record per entry, with its calendar date,
    the weekday and time-of-day labels stored with it, and its free text. */
module Journal {
  import opened Text

  /** A calendar date; ingestion guarantees it is a real date, and pandas
      timestamps keep the year within 1677..2262. */
  datatype Date = Date(year: nat, month: nat, day: nat)

  /** Chronological order on dates (Python's `date <= date`). */
  predicate DateLe(a: Date, b: Date) {
    || a.year < b.year
    || (a.year == b.year && (a.month < b.month || (a.month == b.month && a.day <= b.day)))
  }

  /** One journal entry. The weekday and time-of-day are the raw labels of
      the stored record ("Friday", "morning", ...), not derived values. */
  datatype Entry = Entry(date: Date, dayOfWeek: string, timeOfDay: string, text: string)

  /** A calendar month, the `to_period("M")` of a date. */
  datatype Month = Month(year: nat, month: nat)

  function MonthOf(d: Date): Month {
    Month(d.year, d.month)
  }

  /** Chronological order on months. */
  predicate MonthLt(a: Month, b: Month) {
    a.year < b.year || (a.year == b.year && a.month < b.month)
  }

  /** The `YYYY-MM` label pandas prints for a monthly period. */
  function MonthLabel(m: Month): string {
    PadDigits(m.year, 4) + "-" + PadDigits(m.month, 2)
  }

  /** `date.isoformat()`: `YYYY-MM-DD`. */
  function IsoDate(d: Date): string {
    PadDigits(d.year, 4) + "-" + PadDigits(d.month, 2) + "-" + PadDigits(d.day, 2)
  }

  /** Canonical weekday order used for the day-of-week pass and tables. */
  const WeekdayOrder: seq<string> := ["Monday", "Tuesday", "Wednesday", "Thursday", "Friday", "Saturday", "Sunday"]

  /** Canonical time-of-day order used for tables. */
  const TimeOfDayOrder: seq<string> := ["morning", "afternoon", "evening"]

  lemma DateLeAntisymmetric(a: Date, b: Date)
    requires DateLe(a, b) && DateLe(b, a)
    ensures a == b
  {
  }

  /** Distinct months get distinct labels while years have four digits. */
  lemma MonthLabelInjective(a: Month, b: Month)
    requires a.year < 10000 && b.year < 10000 && a.month < 100 && b.month < 100
    requires MonthLabel(a) == MonthLabel(b)
    ensures a == b
  {
    var la, lb := MonthLabel(a), MonthLabel(b);
    assert la[..4] == PadDigits(a.year, 4) && lb[..4] == PadDigits(b.year, 4);
    assert la[5..] == PadDigits(a.month, 2) && lb[5..] == PadDigits(b.month, 2);
    PadDigitsValue(a.year, 4);
    PadDigitsValue(b.year, 4);
    PadDigitsValue(a.month, 2);
    PadDigitsValue(b.month, 2);
  }
}

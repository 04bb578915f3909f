/** Calendar dates, and the anniversary that separates short from long holding periods. */
module Calendar {

  datatype Date = Date(year: int, month: int, day: int)

  /** A timestamp of one time zone: its date and the microseconds since midnight. */
  datatype Instant = Instant(date: Date, micros: int)

  datatype HoldingPeriod = Short | Long

  predicate DateLe(a: Date, b: Date) {
    a.year < b.year || (a.year == b.year && (a.month < b.month || (a.month == b.month && a.day <= b.day)))
  }

  predicate DateLt(a: Date, b: Date) {
    !DateLe(b, a)
  }

  predicate InstantLe(a: Instant, b: Instant) {
    DateLt(a.date, b.date) || (a.date == b.date && a.micros <= b.micros)
  }

  predicate IsLeap(year: int) {
    year % 4 == 0 && (year % 100 != 0 || year % 400 == 0)
  }

  function DaysInMonth(year: int, month: int): int {
    if month == 2 then (if IsLeap(year) then 29 else 28)
    else if month in {4, 6, 9, 11} then 30
    else 31
  }

  predicate ValidDate(d: Date) {
    1 <= d.month <= 12 && 1 <= d.day <= DaysInMonth(d.year, d.month)
  }

  /** One year later; 29 February clamps to 28 February, as relativedelta does. */
  function Anniversary(d: Date): Date {
    if d.month == 2 && d.day == 29 && !IsLeap(d.year + 1) then Date(d.year + 1, 2, 28)
    else Date(d.year + 1, d.month, d.day)
  }

  /** Long only strictly after the anniversary: disposing on the anniversary itself is short. */
  function Holding(acquired: Instant, disposed: Instant): HoldingPeriod {
    if DateLt(Anniversary(acquired.date), disposed.date) then Long else Short
  }

  /** The clamp keeps the anniversary a real date and never lets two acquisitions overtake each other. */
  lemma AnniversaryMonotone(a: Date, b: Date)
    requires ValidDate(a) && ValidDate(b) && DateLe(a, b)
    ensures ValidDate(Anniversary(a)) && DateLe(Anniversary(a), Anniversary(b))
  {
  }

  /** Internal Revenue Code section 1222: an older lot is long whenever a younger one is. */
  lemma HoldingMonotone(older: Instant, younger: Instant, disposed: Instant)
    requires ValidDate(older.date) && ValidDate(younger.date) && InstantLe(older, younger)
    ensures Holding(younger, disposed).Long? ==> Holding(older, disposed).Long?
  {
    AnniversaryMonotone(older.date, younger.date);
  }

  /** The day of the boundary, in plain numbers: short on the same day of the next year, long on the day after.
      What was acquired on 29 February is long from 1 March of the next year. */
  lemma HoldingBoundary(acquired: Instant, disposed: Instant)
    requires ValidDate(acquired.date) && ValidDate(disposed.date)
    ensures var a, d := acquired.date, disposed.date;
            Holding(acquired, disposed).Long?
            <==> || d.year > a.year + 1
                 || (d.year == a.year + 1 && d.month > a.month)
                 || (d.year == a.year + 1 && d.month == a.month && d.day > a.day)
  {
  }
}

/** Calendar dates as the dashboard uses them: only the year, month and day of a timestamp. */
module Calendar {

  /** A calendar month, 1 (January) to 12 (December), as pandas' `Timestamp.month` gives it. */
  type Month = m: int | 1 <= m <= 12 witness 1

  /** A day of the month. */
  type Day = d: int | 1 <= d <= 31 witness 1

  datatype Date = Date(year: int, month: Month, day: Day)

  /** Strict chronological order: earlier year, or same year and earlier month, or same month and earlier day. */
  predicate Before(a: Date, b: Date) {
    a.year < b.year ||
    (a.year == b.year && (a.month < b.month || (a.month == b.month && a.day < b.day)))
  }

  /**
   * The latest date of a non-empty list, the way Python's `max` finds it: scan left to
   * right and replace the running maximum only by a strictly later date.
   */
  function Latest(ds: seq<Date>): (r: Date)
    requires |ds| > 0
    ensures r in ds
    ensures forall d :: d in ds ==> !Before(r, d)
  {
    if |ds| == 1 then ds[0]
    else
      var m := Latest(ds[..|ds| - 1]);
      assert forall d :: d in ds ==> d in ds[..|ds| - 1] || d == ds[|ds| - 1];
      if Before(m, ds[|ds| - 1]) then ds[|ds| - 1] else m
  }

  /** Before is a strict total order on dates. */
  lemma BeforeIsStrictTotalOrder(a: Date, b: Date, c: Date)
    ensures !Before(a, a)
    ensures Before(a, b) ==> !Before(b, a)
    ensures Before(a, b) && Before(b, c) ==> Before(a, c)
    ensures a == b || Before(a, b) || Before(b, a)
  {
  }
}

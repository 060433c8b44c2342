/** Values shared by the data layer, the views and the forms. */
module Types {

  datatype Option<+T> = None | Some(value: T)

  /** A value thrown by `throw`: an `Error` instance carries a message; anything else does not. */
  datatype Thrown = ErrorValue(message: string) | NonErrorValue

  /** The settlement of an awaited call: it resolves with a value or rejects with a thrown value. */
  datatype Result<+T> = Ok(value: T) | Throws(thrown: Thrown)

  /** A toast notification, by kind and text. */
  datatype Toast = SuccessToast(text: string) | ErrorToast(text: string)

  /** A month as `Date.getMonth()` numbers it: 0 is January, 11 is December. */
  type Month = m: int | 0 <= m < 12

  datatype YearMonth = YearMonth(year: int, month: Month)

  /** Months counted from year 0, so that consecutive months differ by one. */
  function MonthIndex(ym: YearMonth): int
  {
    ym.year * 12 + ym.month
  }

  /**
   * A timestamp in local time, abstracted to its year, its month and its position
   * inside that month; the three together order timestamps.
   */
  datatype Instant = Instant(year: int, month: Month, offset: int)

  function MonthOf(t: Instant): YearMonth
  {
    YearMonth(t.year, t.month)
  }

  /** `a` is not later than `b`. */
  predicate NotAfter(a: Instant, b: Instant)
  {
    a.year < b.year ||
    (a.year == b.year && (a.month < b.month || (a.month == b.month && a.offset <= b.offset)))
  }

  /** A row of the `links` table. */
  datatype Link = Link(
    id: string,
    userId: string,
    originalUrl: string,
    alias: string,
    visitCount: int,
    createdAt: Instant,
    updatedAt: Instant)

  /** JavaScript truthiness of an optional string: absent and "" are both falsy. */
  predicate Truthy(s: Option<string>)
  {
    s.Some? && s.value != ""
  }
}

/**
 * util/CurrentOrFutureSelectableDates.kt: the date picker accepts today and
 * later days only. The clock readings (`LocalDate.now()` converted to the
 * epoch millisecond at the start of today in the system zone, and the current
 * year) are parameters here.
 */
module CurrentOrFutureSelectableDates {

  /** `isSelectableDate`: the instant is not before the start of today. */
  predicate IsSelectableDate(utcTimeMillis: int, startOfTodayMillis: int) {
    utcTimeMillis >= startOfTodayMillis
  }

  /** `isSelectableYear`: the year is not before the current one. */
  predicate IsSelectableYear(year: int, currentYear: int) {
    year >= currentYear
  }

  /** Selectable instants are closed upwards: anything later than a selectable instant is selectable. */
  lemma SelectableDatesUpwardClosed(t: int, later: int, startOfTodayMillis: int)
    requires IsSelectableDate(t, startOfTodayMillis) && t <= later
    ensures IsSelectableDate(later, startOfTodayMillis)
  {
  }

  /** The start of today is the earliest selectable instant. */
  lemma StartOfTodayIsEarliest(startOfTodayMillis: int, t: int)
    ensures IsSelectableDate(startOfTodayMillis, startOfTodayMillis)
    ensures t < startOfTodayMillis ==> !IsSelectableDate(t, startOfTodayMillis)
  {
  }

  /** The current year is the earliest selectable year, and selectable years are closed upwards. */
  lemma CurrentYearIsEarliest(currentYear: int, year: int, later: int)
    ensures IsSelectableYear(currentYear, currentYear)
    ensures year < currentYear ==> !IsSelectableYear(year, currentYear)
    ensures IsSelectableYear(year, currentYear) && year <= later ==> IsSelectableYear(later, currentYear)
  {
  }
}

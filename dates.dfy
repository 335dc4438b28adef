/** Calendar dates with the ordering java.time.LocalDate gives them. */
module Dates {

  /** A LocalDate: its year, month and day fields. */
  datatype Date = Date(year: int, month: int, day: int)

  /** Reference ordering: lexicographic on (year, month, day). */
  ghost predicate Precedes(a: Date, b: Date) {
    || a.year < b.year
    || (a.year == b.year && a.month < b.month)
    || (a.year == b.year && a.month == b.month && a.day < b.day)
  }

  /** LocalDate.compareTo0: the first non-zero difference of year, month and day.
      LocalDate years lie in [-999999999, 999999999], so no difference overflows
      a Java int and unbounded subtraction is exact. */
  function CompareTo(a: Date, b: Date): (c: int)
    ensures c == 0 <==> a == b
    ensures c < 0 <==> Precedes(a, b)
    ensures c > 0 <==> Precedes(b, a)
  {
    var cmp := a.year - b.year;
    if cmp != 0 then cmp
    else
      var cmpMonth := a.month - b.month;
      if cmpMonth != 0 then cmpMonth
      else a.day - b.day
  }

  /** LocalDate.isBefore. */
  predicate IsBefore(a: Date, b: Date)
    ensures IsBefore(a, b) <==> Precedes(a, b)
  {
    CompareTo(a, b) < 0
  }

  /** LocalDate.isEqual. */
  predicate IsEqual(a: Date, b: Date)
    ensures IsEqual(a, b) <==> a == b
  {
    CompareTo(a, b) == 0
  }

  /** LocalDate.isBefore is a strict total order: irreflexive, transitive and
      connected. */
  lemma IsBeforeIsStrictTotalOrder(a: Date, b: Date, c: Date)
    ensures !IsBefore(a, a)
    ensures IsBefore(a, b) && IsBefore(b, c) ==> IsBefore(a, c)
    ensures a == b || IsBefore(a, b) || IsBefore(b, a)
    ensures !(IsBefore(a, b) && IsBefore(b, a))
  {
  }

  /** "before or equal" is exactly "not after". */
  lemma BeforeOrEqualIsNotAfter(a: Date, b: Date)
    ensures IsBefore(a, b) || IsEqual(a, b) <==> !IsBefore(b, a)
  {
  }
}

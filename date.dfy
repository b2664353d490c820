/**
 * `library::v2a::Date`: a calendar date held as three `unsigned int` fields,
 * ordered by the defaulted `operator<=>`, i.e. by year, then month, then day.
 * The datatype constructor is the C++ constructor, which stores its three
 * arguments unchanged and validates nothing.
 */
module Dates {
  import opened Machine
  import opened ThreeWay

  datatype Date = Date(year: uint32, month: uint32, day: uint32)

  /** The constructor stores year, month and day unchanged, whatever their values. */
  lemma DateStoresFields(year: uint32, month: uint32, day: uint32)
    ensures Date(year, month, day).year == year
    ensures Date(year, month, day).month == month
    ensures Date(year, month, day).day == day
  {
  }

  /** The defaulted `operator<=>`: the fields in declaration order. */
  function CompareDates(a: Date, b: Date): Ordering {
    Then(CompareInts(a.year as int, b.year as int),
      Then(CompareInts(a.month as int, b.month as int),
        CompareInts(a.day as int, b.day as int)))
  }

  /** `a <= b` for the defaulted comparison. */
  predicate AtMost(a: Date, b: Date) {
    CompareDates(a, b) != Greater
  }

  /**
   * An independent reading of the date order: the three fields as the digits
   * of one number in base 2^32, year most significant.
   */
  function DateKey(d: Date): nat {
    (d.year as int * UintModulus + d.month as int) * UintModulus + d.day as int
  }

  /** Comparing dates is comparing their keys. */
  lemma CompareDatesByKey(a: Date, b: Date)
    ensures CompareDates(a, b) == CompareInts(DateKey(a), DateKey(b))
  {
  }

  /**
   * The order is lexicographic: an earlier year decides regardless of month
   * and day, an earlier month decides within one year, and the day decides
   * within one month.
   */
  lemma CompareDatesLexicographic(a: Date, b: Date)
    ensures a.year < b.year ==> CompareDates(a, b) == Less
    ensures a.year == b.year && a.month < b.month ==> CompareDates(a, b) == Less
    ensures a.year == b.year && a.month == b.month && a.day < b.day ==> CompareDates(a, b) == Less
    ensures CompareDates(a, b) == Less <==>
      a.year < b.year || (a.year == b.year && (a.month < b.month || (a.month == b.month && a.day < b.day)))
  {
  }

  /** Two dates compare equal exactly when all three fields are equal. */
  lemma CompareDatesEqualIff(a: Date, b: Date)
    ensures CompareDates(a, b) == Equal <==> a.year == b.year && a.month == b.month && a.day == b.day
    ensures CompareDates(a, b) == Equal <==> a == b
  {
  }

  /** Swapping the operands flips the result. */
  lemma CompareDatesFlip(a: Date, b: Date)
    ensures CompareDates(b, a) == CompareDates(a, b).Flip()
  {
  }

  /** `AtMost` is a total order: reflexive, antisymmetric, transitive and total. */
  lemma DateOrderIsTotal(a: Date, b: Date, c: Date)
    ensures AtMost(a, a)
    ensures AtMost(a, b) && AtMost(b, a) ==> a == b
    ensures AtMost(a, b) && AtMost(b, c) ==> AtMost(a, c)
    ensures AtMost(a, b) || AtMost(b, a)
  {
  }

  /** Strict order is transitive too. */
  lemma CompareDatesTransitive(a: Date, b: Date, c: Date)
    requires CompareDates(a, b) == Less && CompareDates(b, c) == Less
    ensures CompareDates(a, c) == Less
  {
  }

  /** Chaining two comparisons that are each `Less` or `Equal`, at least one `Less`. */
  lemma CompareDatesLessOrEqualThenLess(a: Date, b: Date, c: Date)
    requires CompareDates(a, b) != Greater && CompareDates(b, c) != Greater
    requires CompareDates(a, b) == Less || CompareDates(b, c) == Less
    ensures CompareDates(a, c) == Less
  {
    CompareDatesEqualIff(a, b);
    CompareDatesEqualIff(b, c);
    if CompareDates(a, b) == Less && CompareDates(b, c) == Less {
      CompareDatesTransitive(a, b, c);
    }
  }
}

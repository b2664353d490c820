/** `library::v2a::MakeYearMonthDay` and the integer conversion it performs. */
module Utils {
  import opened Machine
  import opened ThreeWay
  import opened Dates

  /**
   * `static_cast<unsigned int>` of an `int`: reduction modulo 2^32, so a
   * non-negative value is kept and a negative one becomes value + 2^32.
   */
  function StaticCastUnsigned(x: int32): (u: uint32)
    ensures x >= 0 ==> u as int == x as int
    ensures x < 0 ==> u as int == x as int + UintModulus
  {
    Wrap(x as int)
  }

  /**
   * The conversion back (`static_cast<int>` of an `unsigned int`, modulo 2^32
   * into the signed range); used here only to show that the cast loses nothing.
   */
  function StaticCastSigned(u: uint32): int32 {
    if u as int < 0x8000_0000 then u as int as int32 else (u as int - UintModulus) as int32
  }

  /** Casting to unsigned and back gives the original `int`: the cast loses nothing. */
  lemma StaticCastUnsignedRoundTrip(x: int32)
    ensures StaticCastSigned(StaticCastUnsigned(x)) == x
  {
  }

  /** Every `unsigned int` is the cast of exactly one `int`. */
  lemma StaticCastSignedRoundTrip(u: uint32)
    ensures StaticCastUnsigned(StaticCastSigned(u)) == u
  {
  }

  /** Builds a `Date` from a signed year; month and day pass through without any range check. */
  function MakeYearMonthDay(year: int32, month: uint32, day: uint32): (d: Date)
    ensures d.month == month && d.day == day
    ensures year >= 0 ==> d.year as int == year as int
    ensures year < 0 ==> d.year as int == year as int + UintModulus
  {
    Date(StaticCastUnsigned(year), month, day)
  }

  /** Distinct arguments give distinct dates: no two signed years collapse onto one. */
  lemma MakeYearMonthDayInjective(y1: int32, m1: uint32, d1: uint32, y2: int32, m2: uint32, d2: uint32)
    requires MakeYearMonthDay(y1, m1, d1) == MakeYearMonthDay(y2, m2, d2)
    ensures y1 == y2 && m1 == m2 && d1 == d2
  {
    StaticCastUnsignedRoundTrip(y1);
    StaticCastUnsignedRoundTrip(y2);
  }

  /** For years of the same sign, dates compare as the (year, month, day) arguments do. */
  lemma MakeYearMonthDayKeepsOrder(y1: int32, m1: uint32, d1: uint32, y2: int32, m2: uint32, d2: uint32)
    requires (y1 < 0) == (y2 < 0)
    ensures CompareDates(MakeYearMonthDay(y1, m1, d1), MakeYearMonthDay(y2, m2, d2))
         == Then(CompareInts(y1 as int, y2 as int), Then(CompareInts(m1 as int, m2 as int), CompareInts(d1 as int, d2 as int)))
  {
  }

  /**
   * A consequence of the modular cast: a date made from a negative year sorts
   * after every date made from a non-negative year.
   */
  lemma NegativeYearSortsLast(y1: int32, m1: uint32, d1: uint32, y2: int32, m2: uint32, d2: uint32)
    requires y1 < 0 <= y2
    ensures CompareDates(MakeYearMonthDay(y1, m1, d1), MakeYearMonthDay(y2, m2, d2)) == Greater
  {
  }

  /** The asserted example: 2023-10-02. */
  lemma MakeYearMonthDayExample()
    ensures MakeYearMonthDay(2023, 10, 2) == Date(2023, 10, 2)
  {
  }

  /** Out-of-range months and days are accepted as they are. */
  lemma MakeYearMonthDayNoValidation()
    ensures MakeYearMonthDay(2023, 13, 0) == Date(2023, 13, 0)
  {
  }
}

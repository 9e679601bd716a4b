/** The seeded catalog and two worked purchase scenarios over it. */
module Fixtures {
  import opened Wrappers
  import opened Entities
  import opened ControllerValidator
  import opened CourseController

  /** The five seeded courses. Three codes contain Cyrillic letters
      (U+0441, U+0443, U+0430) that look like Latin ones. */
  const SeedCatalog: seq<Course> := [
    Course("00a1", Free, None),
    Course("00\U{0441}3", Rent, Some(20)),
    Course("032v", Buy, Some(30)),
    Course("032\U{0443}", Buy, Some(40)),
    Course("0\U{0430}2\U{0443}", Rent, Some(10))
  ]

  /** The seeded catalog obeys the catalog invariants. */
  lemma SeedCatalogWellFormed()
    ensures UniqueCodes(SeedCatalog)
    ensures forall i :: 0 <= i < |SeedCatalog| ==> PricedWhenPaid(SeedCatalog[i])
  {
  }

  /** A user with 50 may buy the course priced 30; given one active grant
      for it, the same request is refused as already owned. */
  lemma BuyThenRepeat()
    ensures var course := FindByCode(SeedCatalog, "032v");
      && course == Some(Course("032v", Buy, Some(30)))
      && ValidatePayCourse(Some(User(50, ["ROLE_USER"])), course, 0).None?
      && ValidatePayCourse(Some(User(20, ["ROLE_USER"])), course, 1) == Some(AlreadyOwned)
  {
  }

  /** A user with 5 cannot rent the course priced 20; without a user the
      pay endpoint answers 401, while the free course succeeds anonymously. */
  lemma RentTooExpensive(outcome: PaymentOutcome)
    ensures var course := FindByCode(SeedCatalog, "00\U{0441}3");
      ValidatePayCourse(Some(User(5, [])), course, 0) == Some(InsufficientFunds)
    ensures PayForCourses(SeedCatalog, "00\U{0441}3", None, outcome) == Refused(Unauthenticated)
    ensures PayForCourses(SeedCatalog, "00a1", None, outcome) == Paid(Free, None)
    ensures PayForCourses(SeedCatalog, "00c3", None, outcome) == Refused(UnknownCourse)
  {
  }
}

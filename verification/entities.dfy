/** The persistent entities the billing core reads (courses and users) and
    the course repository's lookup by code. */
module Entities {
  import opened Wrappers

  /** Amounts of money in minor units. The source keeps prices and balances
      as floats; the checks modelled here only compare them. */
  type Money = int

  /** Instants, carried through from the payment step and never inspected. */
  type Timestamp = int

  /** The three pricing kinds of a course. */
  datatype CourseType = Free | Rent | Buy {

    /** The SMALLINT stored in the course table's `type` column. */
    function Code(): int
    {
      match this
      case Free => 0
      case Rent => 1
      case Buy => 2
    }

    /** The string form, as used by course DTOs and by `getStringType`. */
    function Name(): string
    {
      match this
      case Free => "free"
      case Rent => "rent"
      case Buy => "buy"
    }
  }

  /** Decodes the stored type column; it is the inverse of `Code`. It records
      the column convention only: the model keeps a decoded `CourseType` in
      each course and never reads the raw column. */
  function TypeFromCode(n: int): (t: Option<CourseType>)
    ensures forall k: CourseType :: t == Some(k) <==> k.Code() == n
    ensures t.Some? <==> 0 <= n <= 2
  {
    if n == 0 then Some(Free)
    else if n == 1 then Some(Rent)
    else if n == 2 then Some(Buy)
    else None
  }

  /** Decodes the string form of a type; it is the inverse of `Name`. */
  function TypeFromName(s: string): (t: Option<CourseType>)
    ensures forall k: CourseType :: t == Some(k) <==> k.Name() == s
  {
    if s == "free" then Some(Free)
    else if s == "rent" then Some(Rent)
    else if s == "buy" then Some(Buy)
    else None
  }

  /** A course row: a code, a type and an optional price. */
  datatype Course = Course(code: string, ctype: CourseType, price: Option<Money>)

  /** The billing user: a balance and the list of security roles. */
  datatype User = User(balance: Money, roles: seq<string>)

  /** No two courses in the catalog share a code. */
  ghost predicate UniqueCodes(catalog: seq<Course>)
  {
    forall i, j :: 0 <= i < j < |catalog| ==> catalog[i].code != catalog[j].code
  }

  /** Some course in the catalog carries the code. */
  ghost predicate HasCode(catalog: seq<Course>, code: string)
  {
    exists i :: 0 <= i < |catalog| && catalog[i].code == code
  }

  /** Position of the first course carrying the code, if any. */
  function IndexOfCode(catalog: seq<Course>, code: string): (r: Option<nat>)
    ensures r.Some? ==> r.value < |catalog| && catalog[r.value].code == code
    ensures r.Some? ==> forall j :: 0 <= j < r.value ==> catalog[j].code != code
    ensures r.None? ==> forall j :: 0 <= j < |catalog| ==> catalog[j].code != code
    decreases |catalog|
  {
    if |catalog| == 0 then None
    else if catalog[0].code == code then Some(0)
    else
      match IndexOfCode(catalog[1..], code)
      case None => None
      case Some(k) => Some(k + 1)
  }

  /** The repository's `findOneBy(['code' => code])` over the catalog, taken
      in repository order. */
  function FindByCode(catalog: seq<Course>, code: string): (r: Option<Course>)
    ensures r.None? <==> !HasCode(catalog, code)
    ensures r.Some? ==> r.value in catalog && r.value.code == code
  {
    match IndexOfCode(catalog, code)
    case None => None
    case Some(i) => Some(catalog[i])
  }

  /** With unique codes the lookup returns exactly the course carrying the
      code, wherever it sits in the catalog. */
  lemma FindByCodeUnique(catalog: seq<Course>, i: int)
    requires UniqueCodes(catalog)
    requires 0 <= i < |catalog|
    ensures FindByCode(catalog, catalog[i].code) == Some(catalog[i])
  {
  }
}

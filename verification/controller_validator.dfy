/** The controller-side checks for paying for a course and for creating or
    editing a course. Each check answers `None` (no objection) or the first
    rejection it meets; checks run in a fixed order and the first failing one
    wins. */
module ControllerValidator {
  import opened Wrappers
  import opened Entities
  import opened CourseDtoRules

  /** The role that grants catalog administration. */
  const SuperAdminRole: string := "ROLE_SUPER_ADMIN"

  /** Every rejection the validator can produce. */
  datatype Rejection =
    | MissingToken          // no authenticated user
    | CourseNotFound        // no course for the requested code
    | CourseIsFree          // a free course cannot be paid for
    | AlreadyOwned          // the user holds an active grant for the course
    | InsufficientFunds     // the balance is below the price
    | InvalidData(violations: seq<Violation>)
    | PriceRequired         // a rent or buy course without a price
    | DuplicateCode         // another course already has the code
    | NotSuperAdmin         // authenticated, but without the admin role
  {
    /** The HTTP status the rejection is answered with. */
    function Status(): int
    {
      match this
      case CourseIsFree | AlreadyOwned | InsufficientFunds => 406
      case _ => 401
    }
  }

  /** PHP's `balance < price` where the price may be null. PHP compares a
      number with null by converting both to booleans, and nothing is less
      than `false`, so a missing price never counts as unaffordable. */
  predicate BelowPrice(balance: Money, price: Option<Money>)
  {
    price.Some? && balance < price.value
  }

  /** The balance covers the course's price: debiting the price leaves no
      negative balance (a missing price debits nothing). */
  predicate Affordable(balance: Money, price: Option<Money>)
  {
    match price
    case None => true
    case Some(p) => balance - p >= 0
  }

  /** Whether `user` may pay for `course`, given the number of active grants
      (non-expired payments) the user already holds for it. */
  function ValidatePayCourse(user: Option<User>, course: Option<Course>, activeGrants: nat)
    : (r: Option<Rejection>)
    ensures r.None? <==>
      && user.Some? && course.Some?
      && course.value.ctype != Free
      && activeGrants == 0
      && Affordable(user.value.balance, course.value.price)
    ensures r.Some? ==> r.value in {MissingToken, CourseNotFound, CourseIsFree, AlreadyOwned, InsufficientFunds}
    ensures r == Some(InsufficientFunds) <==>
      && user.Some? && course.Some?
      && course.value.ctype != Free
      && activeGrants == 0
      && BelowPrice(user.value.balance, course.value.price)
  {
    if user.None? then Some(MissingToken)
    else if course.None? then Some(CourseNotFound)
    else if course.value.ctype.Name() == "free" then Some(CourseIsFree)
    else if activeGrants != 0 then Some(AlreadyOwned)
    else if BelowPrice(user.value.balance, course.value.price) then Some(InsufficientFunds)
    else None
  }

  /** A missing user is answered 401 before anything else is looked at, even
      when the course is missing too. */
  lemma MissingUserFirst(course: Option<Course>, activeGrants: nat)
    ensures ValidatePayCourse(None, course, activeGrants) == Some(MissingToken)
    ensures ValidatePayCourse(None, course, activeGrants).value.Status() == 401
  {
  }

  /** A missing course (401) or a free one (406) is rejected without
      consulting the grants or the balance: changing either changes nothing. */
  lemma CourseChecksPrecedeGrantsAndBalance(
    user: User, balance': Money, course: Option<Course>, grants: nat, grants': nat)
    requires course.None? || course.value.ctype == Free
    ensures ValidatePayCourse(Some(user), course, grants)
         == ValidatePayCourse(Some(user.(balance := balance')), course, grants')
    ensures ValidatePayCourse(Some(user), course, grants)
         == if course.None? then Some(CourseNotFound) else Some(CourseIsFree)
    ensures ValidatePayCourse(Some(user), course, grants).value.Status()
         == if course.None? then 401 else 406
  {
  }

  /** An active grant rejects the purchase as already owned (406), however
      large the balance. */
  lemma OwnershipPrecedesFunds(user: User, course: Course, activeGrants: nat)
    requires course.ctype != Free
    requires activeGrants > 0
    ensures ValidatePayCourse(Some(user), Some(course), activeGrants) == Some(AlreadyOwned)
    ensures AlreadyOwned.Status() == 406
  {
  }

  /** The funds check is strict: a balance equal to the price passes, one
      unit less is rejected. */
  lemma FundsBoundary(roles: seq<string>, course: Course, price: Money)
    requires course.ctype != Free && course.price == Some(price)
    ensures ValidatePayCourse(Some(User(price, roles)), Some(course), 0).None?
    ensures ValidatePayCourse(Some(User(price - 1, roles)), Some(course), 0) == Some(InsufficientFunds)
  {
  }

  /** A course that must be paid for carries a price. Course creation
      enforces this through `ValidateCoursePrice`. */
  predicate PricedWhenPaid(course: Course)
  {
    course.ctype != Free ==> course.price.Some?
  }

  /** Passing the pay check means the course is paid for, nothing is owned
      yet, and debiting the price cannot make the balance negative. */
  lemma PassedCheckAllowsDebit(user: Option<User>, course: Option<Course>, activeGrants: nat)
    requires ValidatePayCourse(user, course, activeGrants).None?
    requires course.Some? ==> PricedWhenPaid(course.value)
    ensures user.Some? && course.Some? && course.value.ctype != Free && activeGrants == 0
    ensures course.value.price.Some?
    ensures user.value.balance - course.value.price.value >= 0
  {
  }

  /** The outcome of validating a submitted form: any error rejects it. */
  function ValidateDto(errors: seq<Violation>): (r: Option<Rejection>)
    ensures r.None? <==> |errors| == 0
    ensures r.Some? ==> r.value == InvalidData(errors) && r.value.Status() == 401
  {
    if |errors| > 0 then Some(InvalidData(errors)) else None
  }

  /** `found` is the course already stored under the requested code, if
      any; its existence is the objection. */
  function ValidateCodeUnique(found: Option<Course>): (r: Option<Rejection>)
    ensures r.Some? <==> found.Some?
    ensures r.Some? ==> r.value == DuplicateCode
  {
    if found.Some? then Some(DuplicateCode) else None
  }

  /** A rent or buy course needs a price; a free course, or any course with
      a price (zero included), passes. */
  function ValidateCoursePrice(ctype: Option<string>, price: Option<Money>): (r: Option<Rejection>)
    ensures r.Some? <==>
      price.None? && ctype.Some? && TypeFromName(ctype.value) in {Some(Rent), Some(Buy)}
    ensures r.Some? ==> r.value == PriceRequired
  {
    if (ctype == Some("rent") || ctype == Some("buy")) && price.None? then Some(PriceRequired)
    else None
  }

  /** Only an authenticated user holding the super-admin role passes. */
  function ValidateAdmin(user: Option<User>): (r: Option<Rejection>)
    ensures r.None? <==> user.Some? && exists i :: 0 <= i < |user.value.roles| && user.value.roles[i] == SuperAdminRole
    ensures r == Some(MissingToken) <==> user.None?
    ensures r.Some? ==> r.value.Status() == 401
  {
    if user.None? then Some(MissingToken)
    else if SuperAdminRole !in user.value.roles then Some(NotSuperAdmin)
    else None
  }

  /** The repository lookup for a possibly absent code: no course has a null
      code. */
  function FindByOptionalCode(catalog: seq<Course>, code: Option<string>): (r: Option<Course>)
    ensures r.Some? <==> code.Some? && HasCode(catalog, code.value)
    ensures r.Some? ==> Some(r.value.code) == code
  {
    if code.Some? then FindByCode(catalog, code.value) else None
  }

  /** The edit keeps the edited course's code. */
  predicate KeepsCode(editing: Option<Course>, dto: CourseDto)
  {
    editing.Some? && dto.code == Some(editing.value.code)
  }

  /** Validation of a course form against the catalog: form errors first,
      then the price rule, then code uniqueness. `editing` is the course
      being edited, absent when a course is created. */
  function ValidateCourse(errors: seq<Violation>, dto: CourseDto, editing: Option<Course>, catalog: seq<Course>)
    : (r: Option<Rejection>)
    ensures r.None? <==>
      && errors == []
      && ValidateCoursePrice(dto.ctype, dto.price).None?
      && (KeepsCode(editing, dto) || dto.code.None? || !HasCode(catalog, dto.code.value))
    ensures r.Some? ==> r.value.Status() == 401
  {
    var dataError := ValidateDto(errors);
    if dataError.Some? then dataError
    else
      var priceError := ValidateCoursePrice(dto.ctype, dto.price);
      if priceError.Some? then priceError
      else if KeepsCode(editing, dto) then None
      else ValidateCodeUnique(FindByOptionalCode(catalog, dto.code))
  }

  /** Form errors are reported before the price rule and the lookup. */
  lemma CourseFormErrorsFirst(errors: seq<Violation>, dto: CourseDto, editing: Option<Course>, catalog: seq<Course>)
    requires errors != []
    ensures ValidateCourse(errors, dto, editing, catalog) == Some(InvalidData(errors))
  {
  }

  /** The price rule comes before uniqueness, whatever the catalog holds. */
  lemma PriceRuleBeforeUniqueness(dto: CourseDto, editing: Option<Course>, catalog: seq<Course>)
    requires ValidateCoursePrice(dto.ctype, dto.price).Some?
    ensures ValidateCourse([], dto, editing, catalog) == Some(PriceRequired)
  {
  }

  /** Editing a course without changing its code passes without looking the
      code up: the catalog's content does not matter. */
  lemma UnchangedCodeSkipsLookup(dto: CourseDto, editing: Course, catalog: seq<Course>, catalog': seq<Course>)
    requires ValidateCoursePrice(dto.ctype, dto.price).None?
    requires dto.code == Some(editing.code)
    ensures ValidateCourse([], dto, Some(editing), catalog).None?
    ensures ValidateCourse([], dto, Some(editing), catalog) == ValidateCourse([], dto, Some(editing), catalog')
  {
  }

  /** Otherwise the form is rejected as a duplicate exactly when some course
      already carries the submitted code. */
  lemma DuplicateIffCodeTaken(dto: CourseDto, editing: Option<Course>, catalog: seq<Course>)
    requires ValidateCoursePrice(dto.ctype, dto.price).None?
    requires !KeepsCode(editing, dto)
    ensures ValidateCourse([], dto, editing, catalog) == Some(DuplicateCode)
        <==> dto.code.Some? && HasCode(catalog, dto.code.value)
  {
  }

  /** A buy or rent course priced at zero passes both the form constraints
      and the price rule; only a missing price is refused. */
  lemma ZeroPricedPaidCourseAccepted(dto: CourseDto)
    requires dto.price == Some(0)
    requires dto.ctype == Some("buy") || dto.ctype == Some("rent")
    ensures FieldValid(dto, PriceField) && FieldValid(dto, TypeField)
    ensures ValidateCoursePrice(dto.ctype, dto.price).None?
    ensures ValidateCoursePrice(dto.ctype, None) == Some(PriceRequired)
  {
  }

  /** A form that passes validation when checked with its own violations
      describes a well-formed course: all fields valid, the type decodes, and
      a paid type carries a non-negative price. */
  lemma AcceptedFormIsWellFormed(dto: CourseDto, editing: Option<Course>, catalog: seq<Course>)
    requires ValidateCourse(Violations(dto), dto, editing, catalog).None?
    ensures Valid(dto)
    ensures dto.code.Some? && dto.ctype.Some? && TypeFromName(dto.ctype.value).Some?
    ensures PricedWhenPaid(Course(dto.code.value, TypeFromName(dto.ctype.value).value, dto.price))
    ensures dto.price.Some? ==> dto.price.value >= 0
  {
  }

  /** Creating a course whose form passed keeps the catalog's codes unique. */
  lemma CreateKeepsCodesUnique(errors: seq<Violation>, dto: CourseDto, catalog: seq<Course>, created: Course)
    requires UniqueCodes(catalog)
    requires ValidateCourse(errors, dto, None, catalog).None?
    requires dto.code == Some(created.code)
    ensures UniqueCodes(catalog + [created])
  {
  }

  /** Editing a course with a form that passed keeps the catalog's codes
      unique, whether or not the code changes. */
  lemma EditKeepsCodesUnique(
    errors: seq<Violation>, dto: CourseDto, catalog: seq<Course>, k: int, edited: Course)
    requires UniqueCodes(catalog)
    requires 0 <= k < |catalog|
    requires ValidateCourse(errors, dto, Some(catalog[k]), catalog).None?
    requires dto.code == Some(edited.code)
    ensures UniqueCodes(catalog[k := edited])
  {
  }
}

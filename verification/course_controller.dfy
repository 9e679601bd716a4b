/** The course endpoints: the catalog listing, the single-course lookup and
    the pay endpoint's decision ladder. The payment step itself is not part
    of this model; its outcome is an input. */
module CourseController {
  import opened Wrappers
  import opened Entities

  /** What the listing and lookup answer for one course. */
  datatype CourseView = CourseView(code: string, ctype: CourseType, price: Option<Money>)

  function View(course: Course): CourseView
  {
    CourseView(course.code, course.ctype, course.price)
  }

  /** The catalog listing: one view per course, in repository order. */
  method Courses(catalog: seq<Course>) returns (items: seq<CourseView>)
    ensures |items| == |catalog|
    ensures forall i :: 0 <= i < |catalog| ==> items[i] == View(catalog[i])
  {
    items := [];
    for k := 0 to |catalog|
      invariant |items| == k
      invariant forall i :: 0 <= i < k ==> items[i] == View(catalog[i])
    {
      items := items + [View(catalog[k])];
    }
  }

  /** The answer to a single-course lookup. */
  datatype CourseResponse = Found(view: CourseView) | NotFound {
    function Status(): int
    {
      if Found? then 200 else 404
    }
  }

  /** Looks a course up by code: 404 exactly when no course has that code,
      otherwise the view of a course with that code. */
  function GetCourse(catalog: seq<Course>, code: string): (r: CourseResponse)
    ensures r.Status() == 404 <==> !HasCode(catalog, code)
    ensures r.Found? ==> exists i :: 0 <= i < |catalog| && catalog[i].code == code && r.view == View(catalog[i])
  {
    match FindByCode(catalog, code)
    case None => NotFound
    case Some(course) => Found(View(course))
  }

  /** With unique codes, the lookup agrees with the listing entry of the
      course carrying the code. */
  lemma GetCourseMatchesListing(catalog: seq<Course>, items: seq<CourseView>, i: int)
    requires UniqueCodes(catalog)
    requires |items| == |catalog|
    requires forall j :: 0 <= j < |catalog| ==> items[j] == View(catalog[j])
    requires 0 <= i < |catalog|
    ensures GetCourse(catalog, catalog[i].code) == Found(items[i])
  {
    FindByCodeUnique(catalog, i);
  }

  /** How the payment step ended: a transaction with an optional expiry
      (rentals expire, purchases do not), or one of the two exception kinds
      the endpoint catches. */
  datatype PaymentOutcome =
    | Completed(expires: Option<Timestamp>)
    | RuntimeError
    | LogicError

  /** Why the pay endpoint refused. */
  datatype PayFailure =
    | UnknownCourse      // 404
    | Unauthenticated    // 401
    | PaymentRejected    // 406, from a runtime error
    | PaymentConflict    // 409, from a logic error
  {
    function Status(): int
    {
      match this
      case UnknownCourse => 404
      case Unauthenticated => 401
      case PaymentRejected => 406
      case PaymentConflict => 409
    }
  }

  /** The pay endpoint's answer: `success = true` with the course type and
      expiry, or `success = false` with a failure. */
  datatype PayResponse = Paid(courseType: CourseType, expiresAt: Option<Timestamp>) | Refused(failure: PayFailure) {
    function Status(): int
    {
      match this
      case Paid(_, _) => 200
      case Refused(f) => f.Status()
    }

    predicate Success()
    {
      Paid?
    }
  }

  /** The endpoint either answers at once or hands the user and the course
      to the payment step. */
  datatype PayStep = Answer(response: PayResponse) | InvokePayment(user: User, course: Course)

  /** The checks the endpoint makes before paying: course lookup, then the
      free shortcut, then authentication. */
  function PayGate(catalog: seq<Course>, code: string, user: Option<User>): (step: PayStep)
    ensures step.InvokePayment? <==>
      HasCode(catalog, code) && FindByCode(catalog, code).value.ctype != Free && user.Some?
    ensures step.InvokePayment? ==> step.user == user.value && step.course.code == code
    ensures step.Answer? ==> step.response.Refused? || step.response == Paid(Free, None)
  {
    match FindByCode(catalog, code)
    case None => Answer(Refused(UnknownCourse))
    case Some(course) =>
      if course.ctype == Free then Answer(Paid(Free, None))
      else if user.None? then Answer(Refused(Unauthenticated))
      else InvokePayment(user.value, course)
  }

  /** Maps the payment step's outcome onto the response for `course`. */
  function Settle(course: Course, outcome: PaymentOutcome): (r: PayResponse)
    ensures r.Success() <==> outcome.Completed?
    ensures r.Success() ==> r.courseType == course.ctype && r.expiresAt == outcome.expires
    ensures outcome.RuntimeError? ==> r.Status() == 406
    ensures outcome.LogicError? ==> r.Status() == 409
  {
    match outcome
    case Completed(expires) => Paid(course.ctype, expires)
    case RuntimeError => Refused(PaymentRejected)
    case LogicError => Refused(PaymentConflict)
  }

  /** The pay endpoint: `outcome` is what the payment step would report if it
      were invoked; it is only consulted when the gate hands over. */
  function PayForCourses(catalog: seq<Course>, code: string, user: Option<User>, outcome: PaymentOutcome)
    : (r: PayResponse)
    ensures r.Success() <==> r.Status() == 200
    ensures r.Status() in {200, 401, 404, 406, 409}
    ensures r.Status() == 404 <==> !HasCode(catalog, code)
    ensures r.Status() == 401 <==>
      HasCode(catalog, code) && FindByCode(catalog, code).value.ctype != Free && user.None?
    ensures r.Success() ==> HasCode(catalog, code) && r.courseType == FindByCode(catalog, code).value.ctype
  {
    match PayGate(catalog, code, user)
    case Answer(response) => response
    case InvokePayment(_, course) => Settle(course, outcome)
  }

  /** An unknown code is answered 404 and never reaches the payment step. */
  lemma UnknownCodeIsNotFound(catalog: seq<Course>, code: string, user: Option<User>, outcome: PaymentOutcome)
    requires !HasCode(catalog, code)
    ensures PayGate(catalog, code, user).Answer?
    ensures PayForCourses(catalog, code, user, outcome) == Refused(UnknownCourse)
    ensures PayForCourses(catalog, code, user, outcome).Status() == 404
  {
  }

  /** A free course succeeds with no expiry before the user is checked, so
      it succeeds without an authenticated user and without payment. */
  lemma FreeCourseNeedsNoUser(catalog: seq<Course>, code: string, user: Option<User>, outcome: PaymentOutcome)
    requires HasCode(catalog, code) && FindByCode(catalog, code).value.ctype == Free
    ensures PayGate(catalog, code, user).Answer?
    ensures PayForCourses(catalog, code, user, outcome) == Paid(Free, None)
  {
  }

  /** A paid course without an authenticated user is answered 401 and the
      payment step is not invoked. */
  lemma PaidCourseNeedsUser(catalog: seq<Course>, code: string, outcome: PaymentOutcome)
    requires HasCode(catalog, code) && FindByCode(catalog, code).value.ctype != Free
    ensures PayGate(catalog, code, None).Answer?
    ensures PayForCourses(catalog, code, None, outcome) == Refused(Unauthenticated)
    ensures PayForCourses(catalog, code, None, outcome).Status() == 401
  {
  }

  /** When the gate answers by itself the payment outcome cannot influence
      the response: the payment step was not invoked. */
  lemma AnswerIgnoresPayment(catalog: seq<Course>, code: string, user: Option<User>, o1: PaymentOutcome, o2: PaymentOutcome)
    requires PayGate(catalog, code, user).Answer?
    ensures PayForCourses(catalog, code, user, o1) == PayForCourses(catalog, code, user, o2)
  {
  }

  /** The pay endpoint succeeds exactly when the course exists and is free,
      or it is paid for by an authenticated user and the payment completes;
      a success reports the course's type and the transaction's expiry. */
  lemma PaySuccessCharacterised(catalog: seq<Course>, code: string, user: Option<User>, outcome: PaymentOutcome)
    ensures var r := PayForCourses(catalog, code, user, outcome);
      r.Success() <==>
        HasCode(catalog, code)
        && (FindByCode(catalog, code).value.ctype == Free || (user.Some? && outcome.Completed?))
    ensures var r := PayForCourses(catalog, code, user, outcome);
      r.Success() ==>
        && r.courseType == FindByCode(catalog, code).value.ctype
        && r.expiresAt == (if r.courseType == Free then None else outcome.expires)
  {
  }

  /** For a paid course and an authenticated user, the response follows the
      payment step's outcome: completion 200, runtime error 406, logic error
      409. */
  lemma PaymentOutcomeMapping(catalog: seq<Course>, code: string, user: User, outcome: PaymentOutcome)
    requires HasCode(catalog, code) && FindByCode(catalog, code).value.ctype != Free
    ensures PayGate(catalog, code, Some(user)) == InvokePayment(user, FindByCode(catalog, code).value)
    ensures PayForCourses(catalog, code, Some(user), outcome).Status()
         == match outcome
            case Completed(_) => 200
            case RuntimeError => 406
            case LogicError => 409
  {
  }
}

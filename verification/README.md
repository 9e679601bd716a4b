# Course billing: purchase eligibility and course validation

This project models the decision logic of a small course-billing service.
Users hold a prepaid balance and buy or rent courses. Each course has a code,
a type (free, rent or buy) and an optional price. The modelled core has three
parts:

- **Pay-course eligibility.** `ControllerValidator.ValidatePayCourse` checks
  whether a user may pay for a course. The checks run in a fixed order and the
  first failing one wins: missing user (401), missing course (401), free course
  (406), an active grant already held (406), then a balance below the price
  (406).
- **The pay endpoint's ladder.** `CourseController.PayForCourses` runs four
  steps in order: course lookup (404), the free shortcut (success, no expiry),
  authentication (401), and then the payment step. The payment step's outcome
  is an input. Completion maps to 200, a runtime error to 406 and a logic
  error to 409. The function is split into `PayGate`, which answers at once or
  hands over to payment, and `Settle`, which maps the outcome. Splitting it
  this way lets "payment is not invoked" be stated as a lemma: when the gate
  answers by itself, the outcome cannot change the response.
- **Course create/edit validation.** `CourseDtoRules.Violations` lists the
  field-constraint violations of a submitted course form.
  `ControllerValidator.ValidateCourse` then checks, in order, the form errors,
  the price rule (rent and buy need a price) and code uniqueness. An edit
  that keeps the course's code skips the uniqueness lookup.

Money is in integer minor units. The source keeps money as floats; the
modelled checks only compare it (`balance < price`). Course types are a
three-constructor datatype. The stored codes are 0, 1 and 2, and the string names are `free`, `rent` and `buy`.
The catalog (course repository) is a sequence of courses, searched in order.

The module layout: `Wrappers` (Option), `Entities` (course types, courses,
users, lookup by code), `CourseDtoRules` (the form and its constraints),
`ControllerValidator`, `CourseController`, and `Fixtures` (the seeded catalog
with two worked scenarios).

## Notable behaviour of the code

- The validator rejects a course the user already owns with 406. The pay
  endpoint maps the payment step's logic error to 409.
- The validator rejects a missing course with 401, while the pay endpoint
  answers an unknown code with 404.
- The form accepts a zero price, and the price rule only rejects a missing
  price. So a zero-priced rent or buy course is accepted.
- The funds check is PHP's `balance < price`. Against a null price, PHP
  compares both sides as booleans, so a null price is never "too expensive".
  `ValidatePayCourse` reproduces this. `PassedCheckAllowsDebit` proves
  "balance minus price is non-negative" for courses that satisfy
  `PricedWhenPaid`, the invariant that course validation enforces.
- The validator answers a missing user with a 401 rejection. It does not
  treat it as a caller error.

## Model

| member | source | states |
|---|---|---|
| Entities.TypeFromCode | src/DataFixtures/AppFixtures.php:73-97 | decoding the stored type column is the exact inverse of the codes 0 free, 1 rent, 2 buy; every other number decodes to nothing; it records the column convention, since courses in the model hold decoded types |
| Entities.TypeFromName | src/DTO/CourseDto.php:16 | decoding a type name is the exact inverse of the names `free`, `rent`, `buy` |
| Entities.IndexOfCode | src/Controller/CourseController.php:104 | finds the first catalog position whose course has the code; none exactly when no course has it |
| Entities.FindByCode | src/Controller/CourseController.php:173 | the lookup finds nothing exactly when no course has the code; a found course is in the catalog and has the code |
| Entities.FindByCodeUnique | src/Controller/CourseController.php:104 | with unique codes, looking up any course's code returns that very course |
| CourseDtoRules.FieldViolations | src/DTO/CourseDto.php:10-26 | a field gets no violation exactly when it is valid: the code is non-blank, the type names a course type, the price (if present) is at least 0, and the title is present with 3 to 255 characters |
| CourseDtoRules.Violations | src/DTO/CourseDto.php:8-27 | the violation list is empty exactly when every field is valid, and every reported violation names an invalid field |
| CourseDtoRules.ChoicesAreTypeNames | src/DTO/CourseDto.php:16 | the allowed type strings are exactly the names of the three course types |
| CourseDtoRules.ZeroPriceAccepted | src/DTO/CourseDto.php:20 | a zero price draws no price violation |
| ControllerValidator.ValidatePayCourse | src/Service/ControllerValidator.php:24-63 | passes exactly when there is a user and a course, the course is not free, there are no active grants, and the balance covers the price; every rejection is one of the five pay kinds; the rejection is insufficient funds exactly when the earlier checks pass and the balance is below a present price |
| ControllerValidator.MissingUserFirst | src/Service/ControllerValidator.php:26-31 | a missing user is rejected with 401 whatever the course and grants, even when the course is missing too |
| ControllerValidator.CourseChecksPrecedeGrantsAndBalance | src/Service/ControllerValidator.php:32-43 | a missing course (401) or a free course (406) is rejected the same way whatever the grant count and balance, so neither is consulted |
| ControllerValidator.OwnershipPrecedesFunds | src/Service/ControllerValidator.php:44-55 | for a paid course, a non-zero count of active grants is rejected as already owned (406), whatever the balance |
| ControllerValidator.FundsBoundary | src/Service/ControllerValidator.php:56-62 | a balance equal to the price passes; one unit less is rejected as insufficient funds |
| ControllerValidator.PassedCheckAllowsDebit | src/Service/ControllerValidator.php:24-63 | if the check passes on a priced paid course, then the user and course exist, the course is not free, there are no grants, and balance minus price is at least 0 |
| ControllerValidator.ValidateDto | src/Service/ControllerValidator.php:65-78 | passes exactly when the error list is empty; otherwise a 401 rejection carrying the errors |
| ControllerValidator.ValidateCodeUnique | src/Service/ControllerValidator.php:80-91 | fails, as a duplicate, exactly when an existing course was found |
| ControllerValidator.ValidateCoursePrice | src/Service/ControllerValidator.php:139-148 | fails exactly when the price is missing and the type is rent or buy |
| ControllerValidator.ValidateAdmin | src/Service/ControllerValidator.php:150-165 | passes exactly when a user is present whose roles contain `ROLE_SUPER_ADMIN`; a missing user gets its own rejection; both rejections are 401 |
| ControllerValidator.FindByOptionalCode | src/Service/ControllerValidator.php:185 | the duplicate lookup finds a course exactly when a code was submitted and some course has it; the found course has that code |
| ControllerValidator.ValidateCourse | src/Service/ControllerValidator.php:167-188 | passes exactly when there are no form errors, the price rule holds, and either an edit keeps its code or no course has the submitted code; every rejection is 401 |
| ControllerValidator.CourseFormErrorsFirst | src/Service/ControllerValidator.php:172-175 | any form error is reported as such, before the price rule and the lookup |
| ControllerValidator.PriceRuleBeforeUniqueness | src/Service/ControllerValidator.php:176-179 | with no form errors, a missing price on a paid type is reported whatever the catalog holds |
| ControllerValidator.UnchangedCodeSkipsLookup | src/Service/ControllerValidator.php:180-184 | an edit that keeps the course's code passes, and the result does not depend on the catalog |
| ControllerValidator.DuplicateIffCodeTaken | src/Service/ControllerValidator.php:185-187 | otherwise the form is a duplicate exactly when some course already has the submitted code |
| ControllerValidator.ZeroPricedPaidCourseAccepted | src/Service/ControllerValidator.php:141 | a buy or rent form priced 0 satisfies the price and type constraints and the price rule; the same form without a price is rejected |
| ControllerValidator.AcceptedFormIsWellFormed | src/Service/ControllerValidator.php:167-188 | a form that passes when checked with its own violations is valid: its type decodes, and a paid type carries a non-negative price |
| ControllerValidator.CreateKeepsCodesUnique | src/Service/ControllerValidator.php:185-187 | adding a course whose creation form passed keeps all catalog codes distinct |
| ControllerValidator.EditKeepsCodesUnique | src/Service/ControllerValidator.php:180-187 | replacing the edited course with one whose form passed keeps all catalog codes distinct |
| CourseController.Courses | src/Controller/CourseController.php:57-65 | the listing has one item per course, and item i is the view of course i (repository order) |
| CourseController.GetCourse | src/Controller/CourseController.php:102-110 | answers 404 exactly when no course has the code; otherwise it answers the view of a course with that code |
| CourseController.GetCourseMatchesListing | src/Controller/CourseController.php:57-110 | with unique codes, the single-course answer equals that course's listing item |
| CourseController.PayGate | src/Controller/CourseController.php:171-187 | hands over to payment exactly when the course exists, is not free and a user is authenticated, passing that user and the course with the code; any other answer is a refusal or the free success |
| CourseController.Settle | src/Controller/CourseController.php:188-200 | success exactly when payment completed, reporting the course's type and the transaction's expiry; a runtime error gives 406 and a logic error 409 |
| CourseController.PayForCourses | src/Controller/CourseController.php:171-201 | exactly one response per call, with status 200, 401, 404, 406 or 409; success exactly when the status is 200; 404 exactly when no course has the code; 401 exactly when the course is paid and no user is authenticated; a success reports the found course's type |
| CourseController.UnknownCodeIsNotFound | src/Controller/CourseController.php:173-176 | an unknown code is answered 404 without success and never reaches payment |
| CourseController.FreeCourseNeedsNoUser | src/Controller/CourseController.php:177-180 | a free course succeeds with no expiry, with or without a user, and payment is not invoked |
| CourseController.PaidCourseNeedsUser | src/Controller/CourseController.php:181-187 | a paid course without a user is answered 401 and payment is not invoked |
| CourseController.AnswerIgnoresPayment | src/Controller/CourseController.php:171-187 | when the gate answers by itself, the payment outcome cannot change the response |
| CourseController.PaySuccessCharacterised | src/Controller/CourseController.php:171-201 | success exactly when the course exists and is either free, or paid with an authenticated user and a completed payment; a success reports the course's type and, for a paid course, the transaction's expiry |
| CourseController.PaymentOutcomeMapping | src/Controller/CourseController.php:188-200 | for a paid course and an authenticated user, payment is invoked on that course; completion gives 200, a runtime error 406, a logic error 409 |
| Fixtures.SeedCatalogWellFormed | src/DataFixtures/AppFixtures.php:73-97 | the seeded courses have distinct codes, and every paid one carries a price |
| Fixtures.BuyThenRepeat | src/Service/ControllerValidator.php:44-62 | with balance 50, the check for the course priced 30 passes; given one active grant, the request is already owned |
| Fixtures.RentTooExpensive | src/Controller/CourseController.php:173-187 | balance 5 cannot rent the course priced 20; an anonymous request for it is 401; the free course succeeds anonymously; a look-alike Latin code is unknown |

## Left out

- The payment step is not part of this model. It covers the debit, the transaction insert, the rental-expiry computation and deposits, including the starting deposit at registration. The pay endpoint takes the step's outcome as an input.
- The active-grant query is not part of this model. `ValidatePayCourse` takes the number of active grants as an input.
- Per-account locking and the atomicity of check-then-debit are left out. They are database and concurrency concerns that do not appear in the modelled code.
- Exceptions from the payment step other than runtime and logic errors escape the endpoint uncaught and are not modelled. PHP's two caught exception classes are disjoint, so the order of the catch clauses does not matter.
- The pay endpoint escapes the route code for HTML before the lookup. The model looks the code up as given. The two differ only for codes containing `&`, `<`, `>` or quotes, and the exact set of escaped characters depends on the PHP version.
- The expiry pass-through `?: null` is modelled as the identity, because a date object is always truthy in PHP.
- Response messages, JSON shapes, violation messages and property paths, and the Twig `index` page are left out. Only status codes and rejection kinds are modelled.
- The course response DTO is not part of this model. A listing or lookup item is modelled as the course's code, type and price.
- The other validator checks are left out: `validateRegistrationUnique`, `validateGetCourse`, `validateGetCurrentUser` and `validateGetTransactions`. They are null checks used by endpoints outside this model.
- User registration, token issuance, password hashing and the e-mail format rule are left out. That rule belongs to the validation library, whose code is not visible.
- Entities.FindByCode: the repository returns some row with the code. The model returns the first in catalog order. This only matters if codes repeat, and the schema does not declare them unique.
- Floating-point money is left out. Prices and balances are integers in minor units.
- The form constraints follow the validator library's usual semantics. `NotBlank` rejects null and the empty string. `Choice`, `Length` and `PositiveOrZero` let null through. `Length` counts characters.

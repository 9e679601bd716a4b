/** The course create/edit form and the constraints declared on its fields.
    Validation yields the list of violations, field by field in declaration
    order; the form is acceptable exactly when that list is empty. */
module CourseDtoRules {
  import opened Wrappers
  import opened Entities

  /** The submitted form. Every field may be absent (null). */
  datatype CourseDto = CourseDto(
    code: Option<string>,
    ctype: Option<string>,
    price: Option<Money>,
    title: Option<string>)

  datatype Field = CodeField | TypeField | PriceField | TitleField

  /** The constraint kinds the form uses. */
  datatype Constraint = NotBlank | Choice | PositiveOrZero | Length

  /** One failed constraint on one field. */
  datatype Violation = Violation(field: Field, constraint: Constraint)

  /** The allowed values of the `type` field. */
  const TypeChoices: seq<string> := ["buy", "rent", "free"]

  const TitleMinLength: nat := 3
  const TitleMaxLength: nat := 255

  /** Blank in the validator's sense: absent or the empty string. A string
      such as "0" or " " is not blank. */
  predicate Blank(v: Option<string>)
  {
    v.None? || v.value == ""
  }

  /** The violation `v` when the constraint does not hold, nothing otherwise. */
  function Check(holds: bool, v: Violation): seq<Violation>
  {
    if holds then [] else [v]
  }

  /** The violations reported for one field: each names that field, and
      there are none exactly when the field is valid. */
  function FieldViolations(dto: CourseDto, f: Field): (errs: seq<Violation>)
    ensures errs == [] <==> FieldValid(dto, f)
    ensures forall v :: v in errs ==> v.field == f
  {
    match f
    case CodeField =>
      Check(!Blank(dto.code), Violation(CodeField, NotBlank))
    case TypeField =>
      var submitted := if dto.ctype.Some? then dto.ctype.value else "";
      ChoicesAreTypeNames(submitted);
      Check(!Blank(dto.ctype), Violation(TypeField, NotBlank))
      + Check(dto.ctype.None? || dto.ctype.value in TypeChoices, Violation(TypeField, Choice))
    case PriceField =>
      Check(dto.price.None? || dto.price.value >= 0, Violation(PriceField, PositiveOrZero))
    case TitleField =>
      Check(!Blank(dto.title), Violation(TitleField, NotBlank))
      + Check(dto.title.None? || TitleMinLength <= |dto.title.value| <= TitleMaxLength,
              Violation(TitleField, Length))
  }

  /** The violations the validator reports for `dto`, in field declaration
      order. `Choice`, `Length` and `PositiveOrZero` let an absent value
      through; `NotBlank` does not. */
  function Violations(dto: CourseDto): (errs: seq<Violation>)
    ensures errs == [] <==> Valid(dto)
    ensures forall v :: v in errs ==> !FieldValid(dto, v.field)
  {
    FieldViolations(dto, CodeField)
    + FieldViolations(dto, TypeField)
    + FieldViolations(dto, PriceField)
    + FieldViolations(dto, TitleField)
  }

  /** What each field must satisfy, stated on its own: a non-empty code, a
      type naming one of the course types, no negative price, and a title of
      3 to 255 characters. */
  predicate FieldValid(dto: CourseDto, f: Field)
  {
    match f
    case CodeField => dto.code.Some? && |dto.code.value| > 0
    case TypeField => dto.ctype.Some? && TypeFromName(dto.ctype.value).Some?
    case PriceField => dto.price.Some? ==> dto.price.value >= 0
    case TitleField => dto.title.Some? && TitleMinLength <= |dto.title.value| <= TitleMaxLength
  }

  /** The whole form is acceptable. */
  predicate Valid(dto: CourseDto)
  {
    && FieldValid(dto, CodeField)
    && FieldValid(dto, TypeField)
    && FieldValid(dto, PriceField)
    && FieldValid(dto, TitleField)
  }

  /** The declared choices are exactly the names of the course types. */
  lemma ChoicesAreTypeNames(s: string)
    ensures s in TypeChoices <==> TypeFromName(s).Some?
  {
  }

  /** A zero price is accepted; only a negative one is reported. */
  lemma ZeroPriceAccepted(dto: CourseDto)
    requires dto.price == Some(0)
    ensures forall v :: v in Violations(dto) ==> v.field != PriceField
  {
  }
}

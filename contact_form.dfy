/**
 * The contact form's schema: which fields are trimmed, the length limits
 * on each, the optional company and the untrimmed subject, and the data
 * a successful validation hands on.
 */
module ContactForm {
  import opened Wrappers
  import opened Text

  /** The fields of the form. */
  datatype Field = Name | Email | Phone | Company | Subject | Message

  /** The values as typed; `company` may be absent. */
  datatype FormInput = FormInput(
    name: string, email: string, phone: string, company: Option<string>, subject: string, message: string)

  /** A length between `lo` and `hi`, both included. */
  predicate LengthWithin(s: string, lo: nat, hi: nat) {
    lo <= |s| <= hi
  }

  /** `name`: 1 to 100 characters once trimmed. */
  predicate NameOk(name: string) {
    LengthWithin(Trim(name), 1, 100)
  }

  /** `email`: once trimmed, an address (`isEmail` is the library's check) of at most 255 characters. */
  predicate EmailOk(email: string, isEmail: string -> bool) {
    isEmail(Trim(email)) && |Trim(email)| <= 255
  }

  /** `phone`: 1 to 20 characters once trimmed. */
  predicate PhoneOk(phone: string) {
    LengthWithin(Trim(phone), 1, 20)
  }

  /** `company`: absent, or at most 200 characters once trimmed (empty allowed). */
  predicate CompanyOk(company: Option<string>) {
    company.None? || |Trim(company.value)| <= 200
  }

  /** `subject`: at least one character, not trimmed. */
  predicate SubjectOk(subject: string) {
    |subject| >= 1
  }

  /** `message`: 1 to 1000 characters once trimmed. */
  predicate MessageOk(message: string) {
    LengthWithin(Trim(message), 1, 1000)
  }

  /** Every field of the form. */
  const AllFields: set<Field> := {Name, Email, Phone, Company, Subject, Message}

  /** The six fields are all the fields there are. */
  lemma AllFieldsComplete()
    ensures forall f: Field :: f in AllFields
  {
    forall f: Field
      ensures f in AllFields
    {
      match f
      case Name =>
      case Email =>
      case Phone =>
      case Company =>
      case Subject =>
      case Message =>
    }
  }

  /** Whether field `f` of `input` passes its check. */
  predicate FieldOk(input: FormInput, f: Field, isEmail: string -> bool) {
    match f
    case Name => NameOk(input.name)
    case Email => EmailOk(input.email, isEmail)
    case Phone => PhoneOk(input.phone)
    case Company => CompanyOk(input.company)
    case Subject => SubjectOk(input.subject)
    case Message => MessageOk(input.message)
  }

  /** The fields whose check fails. */
  function FieldErrors(input: FormInput, isEmail: string -> bool): (errs: set<Field>)
    ensures forall f :: f in errs <==> !FieldOk(input, f, isEmail)
  {
    AllFieldsComplete();
    set f | f in AllFields && !FieldOk(input, f, isEmail)
  }

  /** The data a successful validation hands on: the trimmed values, the subject as typed. */
  function Cleaned(input: FormInput): FormInput {
    FormInput(Trim(input.name), Trim(input.email), Trim(input.phone),
              if input.company.Some? then Some(Trim(input.company.value)) else None,
              input.subject, Trim(input.message))
  }

  /** `contactSchema` parsing: the cleaned data when every field passes, else the failing fields. */
  function Validate(input: FormInput, isEmail: string -> bool): (r: Result<FormInput, set<Field>>)
    ensures r.Ok? <==>
      NameOk(input.name) && EmailOk(input.email, isEmail) && PhoneOk(input.phone) &&
      CompanyOk(input.company) && SubjectOk(input.subject) && MessageOk(input.message)
    ensures r.Ok? ==> r.value == Cleaned(input)
    ensures r.Err? ==> r.error != {} && r.error == FieldErrors(input, isEmail)
  {
    var errs := FieldErrors(input, isEmail);
    if errs == {} then
      assert FieldOk(input, Name, isEmail) && FieldOk(input, Email, isEmail) && FieldOk(input, Phone, isEmail);
      assert FieldOk(input, Company, isEmail) && FieldOk(input, Subject, isEmail) && FieldOk(input, Message, isEmail);
      Ok(Cleaned(input))
    else
      var f :| f in errs;
      assert !FieldOk(input, f, isEmail);
      Err(errs)
  }

  /** Validated data passes again unchanged: cleaning is idempotent and keeps every check. */
  lemma ValidateCleaned(input: FormInput, isEmail: string -> bool)
    requires Validate(input, isEmail).Ok?
    ensures Validate(Cleaned(input), isEmail) == Ok(Cleaned(input))
  {
    TrimIdempotent(input.name);
    TrimIdempotent(input.email);
    TrimIdempotent(input.phone);
    TrimIdempotent(input.message);
    if input.company.Some? {
      TrimIdempotent(input.company.value);
    }
  }

  /** A name, phone or message of white space only is refused, however long. */
  lemma BlankFieldsRefused(s: string)
    requires forall j :: 0 <= j < |s| ==> IsSpace(s[j])
    ensures !NameOk(s) && !PhoneOk(s) && !MessageOk(s)
  {
    TrimEmptyIff(s);
  }

  /**
   * A non-empty subject of white space only is accepted, though it trims
   * to nothing: the subject is not trimmed.
   */
  lemma BlankSubjectAccepted(input: FormInput, isEmail: string -> bool)
    requires |input.subject| >= 1
    requires forall j :: 0 <= j < |input.subject| ==> IsSpace(input.subject[j])
    ensures Trim(input.subject) == []
    ensures Subject !in FieldErrors(input, isEmail)
  {
    TrimEmptyIff(input.subject);
  }

  /** An empty company is accepted, like an absent one. */
  lemma EmptyCompanyAccepted(input: FormInput, isEmail: string -> bool)
    requires input.company == Some("")
    ensures Company !in FieldErrors(input, isEmail)
  {
  }

  /** The form's empty starting values fail on name, phone, subject and message, not on company. */
  lemma DefaultValuesFail(input: FormInput, isEmail: string -> bool)
    requires input.name == input.email == input.phone == input.subject == input.message == ""
    requires input.company == Some("")
    ensures var r := Validate(input, isEmail);
      r.Err? && Name in r.error && Phone in r.error && Subject in r.error && Message in r.error && Company !in r.error
  {
    BlankFieldsRefused(input.name);
    assert |Trim(input.company.value)| <= |input.company.value|;
    var errs := FieldErrors(input, isEmail);
    assert Name in errs && Phone in errs && Message in errs;
    assert Subject in errs;
    assert Company !in errs;
  }
}

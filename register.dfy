/**
 * The registration form (frontend/src/pages/Register.tsx): field edits, the
 * two skill lists, the ordered validation of `handleSubmit`, and the user record
 * it stores when the simulated request completes.
 */
module Register {
  import opened Wrappers
  import Forms

  datatype FormData = FormData(
    name: string,
    email: string,
    password: string,
    confirmPassword: string,
    location: string,
    avatar: string,
    skillsOffered: seq<string>,
    skillsWanted: seq<string>,
    availability: string,
    isPublic: bool)

  /** The form as the page first renders it. */
  const EmptyForm := FormData("", "", "", "", "", "", [], [], "", true)

  datatype Field =
    Name | Email | Password | ConfirmPassword | Location | Avatar
    | SkillsOffered | SkillsWanted | Availability | IsPublic

  function Get(f: FormData, field: Field): Forms.FieldValue
  {
    match field
    case Name => Forms.TextValue(f.name)
    case Email => Forms.TextValue(f.email)
    case Password => Forms.TextValue(f.password)
    case ConfirmPassword => Forms.TextValue(f.confirmPassword)
    case Location => Forms.TextValue(f.location)
    case Avatar => Forms.TextValue(f.avatar)
    case SkillsOffered => Forms.ListValue(f.skillsOffered)
    case SkillsWanted => Forms.ListValue(f.skillsWanted)
    case Availability => Forms.TextValue(f.availability)
    case IsPublic => Forms.FlagValue(f.isPublic)
  }

  /** The kind of value each field holds. */
  predicate Fits(field: Field, value: Forms.FieldValue)
  {
    match field
    case SkillsOffered | SkillsWanted => value.ListValue?
    case IsPublic => value.FlagValue?
    case _ => value.TextValue?
  }

  /** `handleInputChange`: `{ ...prev, [field]: value }`. */
  function Update(f: FormData, field: Field, value: Forms.FieldValue): (r: FormData)
    requires Fits(field, value)
    ensures forall g :: Get(r, g) == if g == field then value else Get(f, g)
  {
    match field
    case Name => f.(name := value.text)
    case Email => f.(email := value.text)
    case Password => f.(password := value.text)
    case ConfirmPassword => f.(confirmPassword := value.text)
    case Location => f.(location := value.text)
    case Avatar => f.(avatar := value.text)
    case SkillsOffered => f.(skillsOffered := value.items)
    case SkillsWanted => f.(skillsWanted := value.items)
    case Availability => f.(availability := value.text)
    case IsPublic => f.(isPublic := value.on)
  }

  function ListField(kind: Forms.SkillKind): Field
  {
    match kind
    case Offered => SkillsOffered
    case Wanted => SkillsWanted
  }

  function Skills(f: FormData, kind: Forms.SkillKind): seq<string>
  {
    match kind
    case Offered => f.skillsOffered
    case Wanted => f.skillsWanted
  }

  // ---------------------------------------------------------------------------
  // handleSubmit

  datatype RegisterError = MissingInformation | PasswordMismatch | SkillsRequired

  /** The checks of `handleSubmit`, in order; the first failing one is reported. */
  function Validate(f: FormData): (err: Option<RegisterError>)
    ensures err == Some(MissingInformation) <==> f.name == "" || f.email == "" || f.password == ""
    ensures err == Some(PasswordMismatch) <==>
      f.name != "" && f.email != "" && f.password != "" && f.password != f.confirmPassword
    ensures err == Some(SkillsRequired) <==>
      f.name != "" && f.email != "" && f.password != "" && f.password == f.confirmPassword
      && f.skillsOffered == []
    ensures err == None <==>
      f.name != "" && f.email != "" && f.password != "" && f.password == f.confirmPassword
      && f.skillsOffered != []
  {
    if f.name == "" || f.email == "" || f.password == "" then Some(MissingInformation)
    else if f.password != f.confirmPassword then Some(PasswordMismatch)
    else if |f.skillsOffered| == 0 then Some(SkillsRequired)
    else None
  }

  /** The stored user record. */
  datatype UserData = UserData(
    id: string,
    name: string,
    email: string,
    avatar: string,
    location: string,
    skillsOffered: seq<string>,
    skillsWanted: seq<string>,
    availability: string,
    isPublic: bool)

  const DefaultAvatar := "https://images.unsplash.com/photo-1472099645785-5658abf4ff4e?w=150"
  const DefaultLocation := "Remote"
  const DefaultAvailability := "Flexible"

  /** `userData`: empty avatar, location and availability take their defaults;
      everything else is copied as entered. */
  function NewUserData(f: FormData, id: string): (u: UserData)
    ensures u.avatar != "" && u.location != "" && u.availability != ""
    ensures f.location != "" ==> u.location == f.location
    ensures f.availability != "" ==> u.availability == f.availability
    ensures f.avatar != "" ==> u.avatar == f.avatar
    ensures f.avatar == "" ==> u.avatar == DefaultAvatar
    ensures f.location == "" ==> u.location == DefaultLocation
    ensures f.availability == "" ==> u.availability == DefaultAvailability
    ensures u.location != f.location ==> u.location == DefaultLocation
    ensures u.availability != f.availability ==> u.availability == DefaultAvailability
    ensures u.id == id && u.name == f.name && u.email == f.email && u.isPublic == f.isPublic
    ensures u.skillsOffered == f.skillsOffered && u.skillsWanted == f.skillsWanted
  {
    UserData(
      id, f.name, f.email,
      if f.avatar != "" then f.avatar else DefaultAvatar,
      if f.location != "" then f.location else DefaultLocation,
      f.skillsOffered, f.skillsWanted,
      if f.availability != "" then f.availability else DefaultAvailability,
      f.isPublic)
  }

  // ---------------------------------------------------------------------------
  // The page component

  class RegisterPage {
    var formData: FormData
    var newSkillOffered: string
    var newSkillWanted: string
    var isLoading: bool
    /** The form the pending completion callback closed over. */
    var submitted: Option<FormData>
    /** What the page has written to the session store. */
    var written: Option<UserData>

    ghost predicate Valid()
      reads this
    {
      isLoading <==> submitted.Some?
    }

    constructor ()
      ensures Valid()
      ensures formData == EmptyForm && newSkillOffered == "" && newSkillWanted == ""
      ensures !isLoading && written == None
    {
      formData := EmptyForm;
      newSkillOffered, newSkillWanted := "", "";
      isLoading := false;
      submitted := None;
      written := None;
    }

    function NewSkillInput(kind: Forms.SkillKind): string
      reads this
    {
      match kind
      case Offered => newSkillOffered
      case Wanted => newSkillWanted
    }

    method InputChange(field: Field, value: Forms.FieldValue)
      requires Fits(field, value)
      modifies this`formData
      ensures formData == Update(old(formData), field, value)
    {
      formData := Update(formData, field, value);
    }

    /** Typing in one of the two "add a skill" boxes. */
    method TypeNewSkill(kind: Forms.SkillKind, text: string)
      modifies this`newSkillOffered, this`newSkillWanted
      ensures NewSkillInput(kind) == text
      ensures kind == Forms.Offered ==> newSkillWanted == old(newSkillWanted)
      ensures kind == Forms.Wanted ==> newSkillOffered == old(newSkillOffered)
    {
      if kind == Forms.Offered { newSkillOffered := text; } else { newSkillWanted := text; }
    }

    /** `addSkill`: edits only the targeted list and its input box. */
    method AddSkill(kind: Forms.SkillKind)
      modifies this`formData, this`newSkillOffered, this`newSkillWanted
      ensures formData == Update(old(formData), ListField(kind),
        Forms.ListValue(Forms.AddSkill(Skills(old(formData), kind), old(NewSkillInput(kind)))))
      ensures NewSkillInput(kind) == Forms.InputAfterAdd(old(NewSkillInput(kind)))
      ensures kind == Forms.Offered ==> newSkillWanted == old(newSkillWanted)
      ensures kind == Forms.Wanted ==> newSkillOffered == old(newSkillOffered)
    {
      var input := NewSkillInput(kind);
      formData := Update(formData, ListField(kind), Forms.ListValue(Forms.AddSkill(Skills(formData, kind), input)));
      if kind == Forms.Offered {
        newSkillOffered := Forms.InputAfterAdd(input);
      } else {
        newSkillWanted := Forms.InputAfterAdd(input);
      }
    }

    /** `removeSkill`: edits only the targeted list. */
    method RemoveSkill(kind: Forms.SkillKind, skill: string)
      modifies this`formData
      ensures formData == Update(old(formData), ListField(kind),
        Forms.ListValue(Forms.RemoveSkill(Skills(old(formData), kind), skill)))
    {
      formData := Update(formData, ListField(kind), Forms.ListValue(Forms.RemoveSkill(Skills(formData, kind), skill)));
    }

    /** `handleSubmit`, from the enabled submit button: a failed check changes
        nothing; otherwise the page starts loading with the form as it stands. */
    method Submit() returns (err: Option<RegisterError>)
      requires Valid() && !isLoading
      modifies this`isLoading, this`submitted
      ensures Valid()
      ensures err == Validate(formData)
      ensures err.Some? ==> !isLoading && submitted == old(submitted)
      ensures err.None? ==> isLoading && submitted == Some(formData)
    {
      err := Validate(formData);
      if err.None? {
        isLoading := true;
        submitted := Some(formData);
      }
    }

    /** The completion callback: stores the user built from the submitted form. */
    method Complete(id: string)
      requires Valid() && isLoading
      modifies this`isLoading, this`submitted, this`written
      ensures Valid()
      ensures written == Some(NewUserData(old(submitted).value, id))
      ensures !isLoading
    {
      written := Some(NewUserData(submitted.value, id));
      isLoading := false;
      submitted := None;
    }
  }

  /** Whatever the page stores passed every check of `handleSubmit`. */
  lemma StoredUserPassedValidation(f: FormData, id: string)
    requires Validate(f) == None
    ensures NewUserData(f, id).skillsOffered != []
    ensures NewUserData(f, id).name != "" && NewUserData(f, id).email != ""
  {
  }
}

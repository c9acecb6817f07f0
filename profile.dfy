/**
 * The profile editor (frontend/src/pages/Profile.tsx): the defaults filled in
 * when the stored user is loaded, the saved and draft copies with their
 * `hasChanges` flag, the field and skill-list edits, save and discard.
 */
module Profile {
  import opened Wrappers
  import Forms
  import Text

  datatype UserProfile = UserProfile(
    id: string,
    name: string,
    email: string,
    location: string,
    avatar: Option<string>,
    skillsOffered: seq<string>,
    skillsWanted: seq<string>,
    availability: string,
    isPublic: bool)

  /** The stored user as read back: any of the defaulted keys may be missing. */
  datatype SavedUser = SavedUser(
    id: string,
    name: string,
    email: string,
    location: Option<string>,
    avatar: Option<string>,
    skillsOffered: Option<seq<string>>,
    skillsWanted: Option<seq<string>>,
    availability: Option<string>,
    isPublic: Option<bool>)

  const DefaultLocation := "San Francisco, CA"
  const DefaultSkillsOffered := ["React", "JavaScript", "Node.js"]
  const DefaultSkillsWanted := ["Python", "Data Science"]
  const DefaultAvailability := "Evenings"

  /** A missing or empty string is falsy, as `||` sees it. */
  predicate Falsy(s: Option<string>)
  {
    s.None? || s.value == ""
  }

  /** `fullUserData`: `||` replaces a falsy location or availability, so an empty
      string is replaced too; the skill lists are replaced only when missing, so an
      empty list is kept; `isPublic` is replaced only when missing, so `false` is kept. */
  function WithDefaults(saved: SavedUser): (p: UserProfile)
    ensures p.location == if Falsy(saved.location) then DefaultLocation else saved.location.value
    ensures p.availability == if Falsy(saved.availability) then DefaultAvailability else saved.availability.value
    ensures p.skillsOffered == if saved.skillsOffered.None? then DefaultSkillsOffered else saved.skillsOffered.value
    ensures p.skillsWanted == if saved.skillsWanted.None? then DefaultSkillsWanted else saved.skillsWanted.value
    ensures p.isPublic == if saved.isPublic.None? then true else saved.isPublic.value
    ensures p.location != "" && p.availability != ""
    ensures p.id == saved.id && p.name == saved.name && p.email == saved.email && p.avatar == saved.avatar
  {
    UserProfile(
      saved.id, saved.name, saved.email,
      if Falsy(saved.location) then DefaultLocation else saved.location.value,
      saved.avatar,
      match saved.skillsOffered case Some(s) => s case None => DefaultSkillsOffered,
      match saved.skillsWanted case Some(s) => s case None => DefaultSkillsWanted,
      if Falsy(saved.availability) then DefaultAvailability else saved.availability.value,
      match saved.isPublic case Some(b) => b case None => true)
  }

  /** What `handleSave` stores: every key present. */
  function Stored(p: UserProfile): SavedUser
  {
    SavedUser(p.id, p.name, p.email, Some(p.location), p.avatar,
      Some(p.skillsOffered), Some(p.skillsWanted), Some(p.availability), Some(p.isPublic))
  }

  /** A saved profile loads back unchanged exactly when its location and
      availability are non-empty; an emptied one comes back with its default. */
  lemma SaveThenLoad(p: UserProfile)
    ensures WithDefaults(Stored(p)) == p <==> p.location != "" && p.availability != ""
  {
  }

  /** The keys `handleInputChange` accepts (`keyof UserProfile`), less `id` and
      `avatar`; the page's own controls pass every one of them but `email`. */
  datatype Field = Name | Email | Location | SkillsOffered | SkillsWanted | Availability | IsPublic

  function Get(p: UserProfile, field: Field): Forms.FieldValue
  {
    match field
    case Name => Forms.TextValue(p.name)
    case Email => Forms.TextValue(p.email)
    case Location => Forms.TextValue(p.location)
    case SkillsOffered => Forms.ListValue(p.skillsOffered)
    case SkillsWanted => Forms.ListValue(p.skillsWanted)
    case Availability => Forms.TextValue(p.availability)
    case IsPublic => Forms.FlagValue(p.isPublic)
  }

  predicate Fits(field: Field, value: Forms.FieldValue)
  {
    match field
    case SkillsOffered | SkillsWanted => value.ListValue?
    case IsPublic => value.FlagValue?
    case _ => value.TextValue?
  }

  /** `{ ...formData, [field]: value }`. */
  function Update(p: UserProfile, field: Field, value: Forms.FieldValue): (r: UserProfile)
    requires Fits(field, value)
    ensures forall g :: Get(r, g) == if g == field then value else Get(p, g)
    ensures r.id == p.id && r.avatar == p.avatar
  {
    match field
    case Name => p.(name := value.text)
    case Email => p.(email := value.text)
    case Location => p.(location := value.text)
    case SkillsOffered => p.(skillsOffered := value.items)
    case SkillsWanted => p.(skillsWanted := value.items)
    case Availability => p.(availability := value.text)
    case IsPublic => p.(isPublic := value.on)
  }

  /** Two profiles with the same id and avatar differ exactly when some editable
      field differs: what the `hasChanges` comparison detects. */
  lemma DiffersIffSomeFieldDiffers(a: UserProfile, b: UserProfile)
    requires a.id == b.id && a.avatar == b.avatar
    ensures a != b <==> exists g :: Get(a, g) != Get(b, g)
  {
    if a != b {
      if a.name != b.name { assert Get(a, Name) != Get(b, Name); }
      else if a.email != b.email { assert Get(a, Email) != Get(b, Email); }
      else if a.location != b.location { assert Get(a, Location) != Get(b, Location); }
      else if a.skillsOffered != b.skillsOffered { assert Get(a, SkillsOffered) != Get(b, SkillsOffered); }
      else if a.skillsWanted != b.skillsWanted { assert Get(a, SkillsWanted) != Get(b, SkillsWanted); }
      else if a.availability != b.availability { assert Get(a, Availability) != Get(b, Availability); }
      else { assert Get(a, IsPublic) != Get(b, IsPublic); }
    }
  }

  function ListField(kind: Forms.SkillKind): Field
  {
    match kind
    case Offered => SkillsOffered
    case Wanted => SkillsWanted
  }

  function Skills(p: UserProfile, kind: Forms.SkillKind): seq<string>
  {
    match kind
    case Offered => p.skillsOffered
    case Wanted => p.skillsWanted
  }

  // ---------------------------------------------------------------------------
  // The page component

  class ProfilePage {
    /** The saved copy. */
    var user: Option<UserProfile>
    /** The draft the form edits. */
    var formData: Option<UserProfile>
    var newSkillOffered: string
    var newSkillWanted: string
    var hasChanges: bool
    /** What the page has written to the session store. */
    var written: Option<SavedUser>

    /** Both copies are loaded together, share the fields no handler edits, and
        `hasChanges` is kept equal to their comparison. */
    ghost predicate Valid()
      reads this
    {
      (user.Some? <==> formData.Some?)
      && (user.Some? ==> user.value.id == formData.value.id && user.value.avatar == formData.value.avatar)
      && (hasChanges <==> user != formData)
    }

    constructor ()
      ensures Valid()
      ensures user == None && formData == None && !hasChanges
      ensures newSkillOffered == "" && newSkillWanted == "" && written == None
    {
      user, formData := None, None;
      newSkillOffered, newSkillWanted := "", "";
      hasChanges := false;
      written := None;
    }

    function NewSkillInput(kind: Forms.SkillKind): string
      reads this
    {
      match kind
      case Offered => newSkillOffered
      case Wanted => newSkillWanted
    }

    /** The mount effect: with no stored user the page leaves (to the login page)
        and loads nothing; otherwise both copies get the defaulted profile. */
    method Load(saved: Option<SavedUser>)
      requires Valid()
      modifies this`user, this`formData, this`hasChanges
      ensures Valid()
      ensures saved.None? ==> user == old(user) && formData == old(formData)
      ensures saved.Some? ==> user == formData == Some(WithDefaults(saved.value)) && !hasChanges
    {
      if saved.Some? {
        var full := WithDefaults(saved.value);
        user, formData := Some(full), Some(full);
        hasChanges := false;
      }
    }

    /** `handleInputChange` followed by the comparison effect. */
    method InputChange(field: Field, value: Forms.FieldValue)
      requires Valid() && Fits(field, value)
      modifies this`formData, this`hasChanges
      ensures Valid()
      ensures old(formData).None? ==> formData == None
      ensures old(formData).Some? ==> formData == Some(Update(old(formData).value, field, value))
      ensures user.Some? ==> (hasChanges <==> exists g :: Get(user.value, g) != Get(formData.value, g))
    {
      if formData.Some? {
        formData := Some(Update(formData.value, field, value));
        hasChanges := user != formData;
        DiffersIffSomeFieldDiffers(user.value, formData.value);
      }
    }

    /** Typing in one of the two "add a skill" boxes. */
    method TypeNewSkill(kind: Forms.SkillKind, text: string)
      modifies this`newSkillOffered, this`newSkillWanted
      ensures NewSkillInput(kind) == text
      ensures kind == Forms.Offered ==> newSkillWanted == old(newSkillWanted)
      ensures kind == Forms.Wanted ==> newSkillOffered == old(newSkillOffered)
    {
      if kind == Forms.Offered { newSkillOffered := text; } else { newSkillWanted := text; }
    }

    /** `addSkill`: returns early, clearing nothing, on blank input or before
        loading; otherwise edits only the targeted list and clears its box. */
    method AddSkill(kind: Forms.SkillKind)
      requires Valid()
      modifies this`formData, this`hasChanges, this`newSkillOffered, this`newSkillWanted
      ensures Valid()
      ensures Text.IsBlank(old(NewSkillInput(kind))) || old(formData).None? ==>
        formData == old(formData) && newSkillOffered == old(newSkillOffered)
        && newSkillWanted == old(newSkillWanted)
      ensures !Text.IsBlank(old(NewSkillInput(kind))) && old(formData).Some? ==>
        formData == Some(Update(old(formData).value, ListField(kind),
          Forms.ListValue(Forms.AddSkill(Skills(old(formData).value, kind), old(NewSkillInput(kind))))))
        && NewSkillInput(kind) == ""
      ensures kind == Forms.Offered ==> newSkillWanted == old(newSkillWanted)
      ensures kind == Forms.Wanted ==> newSkillOffered == old(newSkillOffered)
    {
      var input := NewSkillInput(kind);
      if Text.IsBlank(input) || formData.None? {
        return;
      }
      var draft := formData.value;
      formData := Some(Update(draft, ListField(kind), Forms.ListValue(Forms.AddSkill(Skills(draft, kind), input))));
      hasChanges := user != formData;
      if kind == Forms.Offered {
        newSkillOffered := "";
      } else {
        newSkillWanted := "";
      }
    }

    /** `removeSkill`: edits only the targeted list of the draft. */
    method RemoveSkill(kind: Forms.SkillKind, skill: string)
      requires Valid()
      modifies this`formData, this`hasChanges
      ensures Valid()
      ensures old(formData).None? ==> formData == None
      ensures old(formData).Some? ==>
        formData == Some(Update(old(formData).value, ListField(kind),
          Forms.ListValue(Forms.RemoveSkill(Skills(old(formData).value, kind), skill))))
    {
      if formData.Some? {
        var draft := formData.value;
        formData := Some(Update(draft, ListField(kind), Forms.ListValue(Forms.RemoveSkill(Skills(draft, kind), skill))));
        hasChanges := user != formData;
      }
    }

    /** `handleSave`: stores the draft and makes it the saved copy. */
    method Save()
      requires Valid()
      modifies this`user, this`hasChanges, this`written
      ensures Valid()
      ensures old(formData).None? ==> user == old(user) && written == old(written)
      ensures old(formData).Some? ==> user == formData && written == Some(Stored(formData.value))
      ensures !hasChanges
    {
      if formData.Some? {
        written := Some(Stored(formData.value));
        user := formData;
        hasChanges := false;
      }
    }

    /** `handleDiscard`: puts the saved copy back into the draft. */
    method Discard()
      requires Valid()
      modifies this`formData, this`hasChanges
      ensures Valid()
      ensures formData == user && !hasChanges
    {
      if user.Some? {
        formData := user;
        hasChanges := false;
      }
    }
  }
}

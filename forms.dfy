/**
 * What the registration form (frontend/src/pages/Register.tsx) and the profile
 * editor (frontend/src/pages/Profile.tsx) share: the values a form field holds,
 * and the rules of their `addSkill` and `removeSkill` handlers.
 */
module Forms {
  import Seqs
  import Text

  /** A value passed to `handleInputChange`: text, a skill list or a switch. */
  datatype FieldValue = TextValue(text: string) | ListValue(items: seq<string>) | FlagValue(on: bool)

  /** Which of the two lists an edit targets. */
  datatype SkillKind = Offered | Wanted

  ghost predicate NoDuplicates(skills: seq<string>)
  {
    forall i, j :: 0 <= i < j < |skills| ==> skills[i] != skills[j]
  }

  /** `addSkill` on a list: blank input is ignored, and the untrimmed input is
      appended only when the list does not already hold exactly that string. */
  function AddSkill(skills: seq<string>, input: string): (r: seq<string>)
    ensures skills <= r && |r| <= |skills| + 1
    ensures forall k :: k in r <==> k in skills || (k == input && !Text.IsBlank(input))
    ensures NoDuplicates(skills) ==> NoDuplicates(r)
    ensures Text.IsBlank(input) || input in skills ==> r == skills
    ensures !Text.IsBlank(input) && input !in skills ==> r == skills + [input]
  {
    if Text.IsBlank(input) || input in skills then skills else skills + [input]
  }

  /** What the input box holds after `addSkill`: cleared unless the input was blank. */
  function InputAfterAdd(input: string): (r: string)
    ensures r == input <==> Text.IsBlank(input)
    ensures r != input ==> r == ""
  {
    if Text.IsBlank(input) then input else ""
  }

  /** The handler's own test, `!skill.trim()`, is exactly blankness. */
  lemma AddSkillGuardIsTrim(input: string)
    ensures (Text.Trim(input) == "") == Text.IsBlank(input)
  {
    Text.TrimEmptyIffBlank(input);
  }

  /** Adding the same skill twice is the same as adding it once. */
  lemma AddSkillIdempotent(skills: seq<string>, input: string)
    ensures AddSkill(AddSkill(skills, input), input) == AddSkill(skills, input)
    ensures InputAfterAdd(InputAfterAdd(input)) == InputAfterAdd(input)
  {
    assert Text.IsBlank("");
  }

  /** `removeSkill`: `skills.filter(skill => skill !== s)`. */
  function RemoveSkill(skills: seq<string>, s: string): (r: seq<string>)
    ensures forall k :: k in r <==> k in skills && k != s
  {
    Seqs.Filter(skills, (k: string) => k != s)
  }

  /** Removal drops every occurrence of the skill and keeps every other one,
      in order. */
  lemma RemoveSkillExact(a: seq<string>, b: seq<string>, s: string, k: string)
    ensures multiset(RemoveSkill(a, s))[k] == if k == s then 0 else multiset(a)[k]
    ensures RemoveSkill(a + b, s) == RemoveSkill(a, s) + RemoveSkill(b, s)
  {
    Seqs.FilterMultiplicity(a, (x: string) => x != s, k);
    Seqs.FilterAppend(a, b, (x: string) => x != s);
  }

  /** Adding a skill that was absent and then removing it restores the list. */
  lemma AddThenRemoveRestores(skills: seq<string>, input: string)
    requires input !in skills
    ensures RemoveSkill(AddSkill(skills, input), input) == skills
  {
    var keep := (x: string) => x != input;
    Seqs.FilterKeepsAll(skills, keep);
    if !Text.IsBlank(input) {
      Seqs.FilterAppend(skills, [input], keep);
    }
  }
}

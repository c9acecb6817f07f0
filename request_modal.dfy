/**
 * The swap-request dialog (frontend/src/components/RequestModal.tsx): two skill
 * pickers, a message box, the submit check and the simulated send that clears
 * the form when it completes.
 */
module RequestModal {
  import Text

  /** The submit check `!mySkill || !theirSkill || !message.trim()`, negated. */
  function ReadyToSend(mySkill: string, theirSkill: string, message: string): (ready: bool)
    ensures ready <==> mySkill != "" && theirSkill != "" && !Text.IsBlank(message)
  {
    Text.TrimEmptyIffBlank(message);
    mySkill != "" && theirSkill != "" && Text.Trim(message) != ""
  }

  /** A message is accepted exactly when it holds one character that is not
      whitespace. */
  lemma MessageNeedsVisibleCharacter(mySkill: string, theirSkill: string, message: string)
    requires mySkill != "" && theirSkill != ""
    ensures ReadyToSend(mySkill, theirSkill, message) <==>
      exists i :: 0 <= i < |message| && !Text.IsWhitespace(message[i])
  {
  }

  class RequestForm {
    /** The current user's `skillsOffered`: the choices of the first picker. The
        discovery page reads the current user once, at mount. */
    const offeredOptions: seq<string>
    /** The target user's `skillsWanted`: the choices of the second picker. The
        dialog's target changes with each "Send Request" click. */
    var wantedOptions: seq<string>
    var mySkill: string
    var theirSkill: string
    var message: string
    var isSubmitting: bool

    /** The first picker holds nothing or one of its choices. The second picker
        has no such invariant: its pick survives a change of target. */
    ghost predicate Valid()
      reads this
    {
      mySkill == "" || mySkill in offeredOptions
    }

    constructor (currentUserSkillsOffered: seq<string>, targetSkillsWanted: seq<string>)
      ensures Valid()
      ensures offeredOptions == currentUserSkillsOffered && wantedOptions == targetSkillsWanted
      ensures mySkill == "" && theirSkill == "" && message == "" && !isSubmitting
    {
      offeredOptions := currentUserSkillsOffered;
      wantedOptions := targetSkillsWanted;
      mySkill, theirSkill, message := "", "", "";
      isSubmitting := false;
    }

    /** The page opens the same dialog for another profile: only the second
        picker's choices change; the picks and the message are kept. */
    method Retarget(targetSkillsWanted: seq<string>)
      requires Valid()
      modifies this`wantedOptions
      ensures Valid()
      ensures wantedOptions == targetSkillsWanted
    {
      wantedOptions := targetSkillsWanted;
    }

    method ChooseMySkill(skill: string)
      requires Valid() && skill in offeredOptions
      modifies this`mySkill
      ensures Valid() && mySkill == skill
    {
      mySkill := skill;
    }

    method ChooseTheirSkill(skill: string)
      requires Valid() && skill in wantedOptions
      modifies this`theirSkill
      ensures Valid() && theirSkill == skill && theirSkill in wantedOptions
    {
      theirSkill := skill;
    }

    method EditMessage(text: string)
      requires Valid()
      modifies this`message
      ensures Valid() && message == text
    {
      message := text;
    }

    /** `handleSubmit`, from the enabled send button: a rejected submit changes
        nothing; an accepted one only marks the form as submitting. The check
        does not look at the target, so a pick made for an earlier target is
        sent as it stands. */
    method Submit() returns (accepted: bool)
      requires Valid() && !isSubmitting
      modifies this`isSubmitting
      ensures Valid()
      ensures accepted <==> mySkill != "" && theirSkill != "" && !Text.IsBlank(message)
      ensures isSubmitting == accepted
    {
      accepted := ReadyToSend(mySkill, theirSkill, message);
      if accepted {
        isSubmitting := true;
      }
    }

    /** The completion callback: clears every field and ends the submission. */
    method Complete()
      requires isSubmitting
      modifies this`mySkill, this`theirSkill, this`message, this`isSubmitting
      ensures Valid()
      ensures mySkill == "" && theirSkill == "" && message == "" && !isSubmitting
    {
      mySkill, theirSkill, message := "", "", "";
      isSubmitting := false;
    }
  }

  /** A skill the new target does not want is still sent: pick "Guitar" for a
      profile that wants it, open the dialog for one that wants only "Cooking",
      and submit. */
  method StalePickIsSent() returns (accepted: bool, pickIsOffered: bool)
    ensures accepted && !pickIsOffered
  {
    var form := new RequestForm(["Piano"], ["Guitar"]);
    form.ChooseMySkill("Piano");
    form.ChooseTheirSkill("Guitar");
    form.EditMessage("Swap?");
    form.Retarget(["Cooking"]);
    assert !Text.IsWhitespace(form.message[0]);
    accepted := form.Submit();
    pickIsOffered := form.theirSkill in form.wantedOptions;
  }
}

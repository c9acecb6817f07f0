# Skill-swap front end in Dafny

This project models the client-side logic of a skill-exchange web application.
The application is a React front end in which members list the skills they offer
and want, find each other, send swap requests and chat. The model covers seven
components:

- **Swap requests** (`SwapRequests.tsx`): the status filter, and the accept, reject
  and delete handlers. The only rule that makes a status final is which buttons the
  page renders, so that rule is the handlers' precondition.
- **Discovery** (`Home.tsx`): the search and availability filter, `totalPages`,
  page slicing, the Previous, Next and numbered page buttons, and opening the
  request dialog.
- **Request dialog** (`RequestModal.tsx`): the two skill pickers, the submit check,
  and the simulated send that clears the form.
- **Registration** (`Register.tsx`): field edits, the two skill lists, the ordered
  checks of `handleSubmit`, and the stored user record with its defaults.
- **Profile editor** (`Profile.tsx`): the defaults filled in at load time, and the
  saved and draft copies with `hasChanges`, save and discard.
- **Chat** (`Chat.tsx`): the relative "last message" label, selecting a
  conversation and sending a message.
- **Profile card** (`UserCard.tsx`): the skill previews, the "+N more" badge, the
  avatar initials and the request button.

Pure expressions of the source are functions with lemmas. Components whose
handlers change React state are classes whose fields are that state. Each handler
is a method with a `modifies` clause that states the new state. Each class keeps
a `Valid()` invariant.

The model stands in for JavaScript built-ins as follows:

- `Array.prototype.filter` and `slice`, with slice's clamping, are in `Seqs`.
- `toLowerCase` and `toUpperCase` are an ASCII character map in `Text`.
- `trim` uses JavaScript's whitespace set.
- `split` on a character, `includes`, and decimal number formatting are also in `Text`.
- `Wrappers.Option` stands for `null` and `undefined`.

The modules are:

| file | module |
|---|---|
| `wrappers.dfy` | `Wrappers` |
| `seqs.dfy` | `Seqs` |
| `text.dfy` | `Text` |
| `forms.dfy` | `Forms`, the skill-list rules shared by registration and the profile editor |
| `swap_requests.dfy` | `SwapRequests` |
| `user_card.dfy` | `UserCard` |
| `discovery.dfy` | `Discovery` |
| `request_modal.dfy` | `RequestModal` |
| `register.dfy` | `Register` |
| `profile.dfy` | `Profile` |
| `chat.dfy` | `Chat` |

Some behaviour of the source that the model keeps as it is:

- `totalPages` is `ceil(n / 6)`, so it is 0 when nothing matches. It has no minimum of 1.
- Requests keep their given order. Nothing sorts them most recent first.
- A request stores its direction (sent or received). The direction is not derived from user ids.
- Changing the search term or the availability filter does not reset the current
  page. The page number can therefore lie past the last page, and then the page shows no cards.
- The chat page has no connection rule and no "may message" check. Its conversation
  list and threads are fixed data, which the model takes as inputs.
- The discovery page renders one request dialog and only changes its target user.
  The dialog's picks and message survive that change. Cancel only closes the dialog.
  So a skill picked for one profile is sent to the next one, even when that profile
  does not want it.

## Model

| member | source | states |
|---|---|---|
| SwapRequests.FilterByStatus | frontend/src/pages/SwapRequests.tsx:107-110 | the filter "all" returns the list unchanged; any other value keeps exactly the requests whose status string equals it |
| SwapRequests.FilterByStatusExact | frontend/src/pages/SwapRequests.tsx:107-110 | filtering keeps every occurrence of a matching request and none of the others |
| SwapRequests.FilterByStatusOrder | frontend/src/pages/SwapRequests.tsx:107-110 | the filter distributes over concatenation, so the kept requests stay in their given order |
| SwapRequests.UnknownFilterShowsNothing | frontend/src/pages/SwapRequests.tsx:107-110 | a filter value that is neither "all" nor a status name shows no request |
| SwapRequests.StatusFiltersPartition | frontend/src/pages/SwapRequests.tsx:107-110 | the pending, accepted and rejected views together count every request exactly once |
| SwapRequests.AllowedActions | frontend/src/pages/SwapRequests.tsx:283-331 | accept and reject are offered exactly for a pending received request; delete is offered exactly otherwise |
| SwapRequests.TerminalOffersOnlyDelete | frontend/src/pages/SwapRequests.tsx:319-331 | an accepted or rejected request offers only delete |
| SwapRequests.WithStatus | frontend/src/pages/SwapRequests.tsx:112-127 | the list keeps its length; every entry keeps all its fields except status; the status changes exactly on the entries with the id |
| SwapRequests.WithStatusAbsentId | frontend/src/pages/SwapRequests.tsx:112-115 | accepting or rejecting an id not in the list changes nothing |
| SwapRequests.WithoutId | frontend/src/pages/SwapRequests.tsx:136-137 | a request survives delete exactly when its id differs |
| SwapRequests.WithoutIdExact | frontend/src/pages/SwapRequests.tsx:137 | delete keeps every other request with its multiplicity and drops every request with the id |
| SwapRequests.WithoutIdOrder | frontend/src/pages/SwapRequests.tsx:137 | delete distributes over concatenation, so the survivors keep their order |
| SwapRequests.WithoutIdUnique | frontend/src/pages/SwapRequests.tsx:137 | delete keeps request ids unique |
| SwapRequests.StepRespectsLifecycle | frontend/src/pages/SwapRequests.tsx:283-331 | a handler reached through a rendered button keeps ids unique, only moves a status out of pending, and keeps accepted or rejected requests unless they are deleted |
| SwapRequests.StatusColor | frontend/src/pages/SwapRequests.tsx:144-150 | success classes exactly for "accepted", destructive exactly for "rejected", warning for every other string |
| SwapRequests.StatusLabel | frontend/src/pages/SwapRequests.tsx:245 | the badge lower-cases back to the status name, starts with a capital and keeps the rest of the name |
| SwapRequests.StatusLabelsAreMenuItems | frontend/src/pages/SwapRequests.tsx:245 | the three badges read "Pending", "Accepted" and "Rejected", as in the filter menu (lines 186-188) |
| SwapRequests.RequestBoard.constructor | frontend/src/pages/SwapRequests.tsx:95-96 | the board starts with the given requests and the filter "all" |
| SwapRequests.RequestBoard.Shown | frontend/src/pages/SwapRequests.tsx:107-110 | with the filter "all" every request is shown; otherwise a request is shown exactly when its status string equals the filter |
| SwapRequests.RequestBoard.SetStatusFilter | frontend/src/pages/SwapRequests.tsx:180 | only the filter changes |
| SwapRequests.RequestBoard.HandleAccept | frontend/src/pages/SwapRequests.tsx:112-115 | the new list is the old one with that id's status set to accepted; ids stay unique |
| SwapRequests.RequestBoard.HandleReject | frontend/src/pages/SwapRequests.tsx:124-127 | the new list is the old one with that id's status set to rejected; ids stay unique |
| SwapRequests.RequestBoard.HandleDelete | frontend/src/pages/SwapRequests.tsx:136-137 | the new list is the old one without that id; ids stay unique |
| Discovery.SomeSkillIncludes | frontend/src/pages/Home.tsx:105-106 | true exactly when some skill, lower-cased, contains the lower-cased term |
| Discovery.FilteredUsers | frontend/src/pages/Home.tsx:102-113 | a profile is listed exactly when it is in the input and matches both the search and the availability facet |
| Discovery.SearchIsSubstringMatch | frontend/src/pages/Home.tsx:104-107 | the search matches exactly when the term is empty or the lower-cased term occurs in the lower-cased name or in some lower-cased skill |
| Discovery.SearchIgnoresCase | frontend/src/pages/Home.tsx:105-107 | upper-casing the search term never changes whether a profile matches; the same holds for the availability facet, apart from the value "all" |
| Discovery.NoQueryListsEveryone | frontend/src/pages/Home.tsx:104-109 | an empty term with the facet "all" lists every profile, in order |
| Discovery.FilteredUsersOmitsNothing | frontend/src/pages/Home.tsx:103 | every occurrence of a matching profile is kept and every non-matching one dropped |
| Discovery.FilteredUsersKeepsOrder | frontend/src/pages/Home.tsx:103 | filtering distributes over concatenation, so the original order is kept |
| Discovery.TotalPages | frontend/src/pages/Home.tsx:115 | the fewest pages of six that hold the matches; 0 exactly when nothing matches |
| Discovery.PageWindow | frontend/src/pages/Home.tsx:116 | page p is the window from (p-1)·6 to p·6 clipped to the list, holds at most six, is empty past the last page and non-empty up to it |
| Discovery.FirstPagesArePrefix | frontend/src/pages/Home.tsx:116 | pages 1 to k laid end to end are the first 6k entries, clipped |
| Discovery.PagesReassemble | frontend/src/pages/Home.tsx:115-116 | pages 1 to totalPages laid end to end give back the filtered list |
| Discovery.PagesDisjoint | frontend/src/pages/Home.tsx:116 | two different pages of a list without repeats share no entry |
| Discovery.PreviousPage | frontend/src/pages/Home.tsx:211 | the result is p-1 when p > 1 and 1 otherwise |
| Discovery.NextPage | frontend/src/pages/Home.tsx:230 | the result is p+1 while p < totalPages and totalPages otherwise |
| Discovery.PageButtonsStayInRange | frontend/src/pages/Home.tsx:211-230 | from a page in [1, totalPages], Previous and Next land in [1, totalPages] |
| Discovery.FindUser | frontend/src/pages/Home.tsx:119 | none exactly when no profile has the id; otherwise the first profile with the id |
| Discovery.DiscoveryPage.constructor | frontend/src/pages/Home.tsx:85-90 | the page starts on page 1 with an empty search, the facet "all" and no dialog |
| Discovery.DiscoveryPage.Shown | frontend/src/pages/Home.tsx:116 | the window from (page-1)·6 to page·6 of the filtered list, clipped to its length: at most six matching profiles, at least one up to the last page, none past it |
| Discovery.DiscoveryPage.SetSearchTerm | frontend/src/pages/Home.tsx:102-113 | only the term changes; the page number is kept |
| Discovery.DiscoveryPage.SetAvailabilityFilter | frontend/src/pages/Home.tsx:102-113 | only the facet changes; the page number is kept |
| Discovery.DiscoveryPage.Previous | frontend/src/pages/Home.tsx:207-215 | the page becomes the Previous result and stays at least 1 |
| Discovery.DiscoveryPage.Next | frontend/src/pages/Home.tsx:228-233 | the page becomes the Next result and lies in [1, totalPages] |
| Discovery.DiscoveryPage.GoToPage | frontend/src/pages/Home.tsx:217-226 | the page becomes the chosen one, which shows at least one card |
| Discovery.DiscoveryPage.RequestClick | frontend/src/pages/Home.tsx:118-124 | the dialog opens on the found profile exactly when the id is known and someone is logged in; otherwise nothing changes |
| UserCard.ShownSkills | frontend/src/components/UserCard.tsx:66-98 | the list layout shows the first min(3, n) skills in order; the grid layout (lines 161 and 172) shows them all |
| UserCard.MoreBadge | frontend/src/components/UserCard.tsx:75-95 | the badge appears exactly in the list layout with more than three skills; its N plus the shown count is the total |
| UserCard.CardAccountsForEverySkill | frontend/src/components/UserCard.tsx:70-79 | the shown skills are a prefix of the list, and the badge counts exactly the hidden rest |
| UserCard.FirstChars | frontend/src/components/UserCard.tsx:36 | at most one character per piece, and exactly one per piece when no piece is empty |
| UserCard.FirstCharsOfWords | frontend/src/components/UserCard.tsx:36 | the result is the first character of each non-empty piece, in order |
| UserCard.Initials | frontend/src/components/UserCard.tsx:36 | at most one initial per space-separated segment, with no lower-case letter |
| UserCard.InitialsExact | frontend/src/components/UserCard.tsx:36 | the initials are the upper-cased first character of each non-empty space-separated word, in order |
| UserCard.InitialsOfPieces | frontend/src/components/UserCard.tsx:36 | when `split` gives no empty piece, there is one upper-cased initial per piece |
| UserCard.InitialsOfWords | frontend/src/components/UserCard.tsx:36 | for non-empty words without spaces joined by single spaces, the initials are each word's upper-cased first letter, in order |
| UserCard.OneWordInitial | frontend/src/components/UserCard.tsx:36 | a one-word name gives its first letter upper-cased |
| UserCard.RequestButtonFor | frontend/src/components/UserCard.tsx:102-112 | the caption is "Send Request" exactly when logged in, and the button is disabled exactly otherwise; the grid layout (lines 182-192) is the same |
| Forms.AddSkill | frontend/src/pages/Register.tsx:46-55 | the old list is a prefix of the new one; at most one skill is added; the new list holds the old skills plus the input exactly when the input is not blank; no duplicates are introduced; blank input or a skill already in the list leaves the list unchanged, and otherwise the input is appended |
| Forms.InputAfterAdd | frontend/src/pages/Register.tsx:48-61 | the input box is kept exactly when the input is blank, and cleared otherwise |
| Forms.AddSkillGuardIsTrim | frontend/src/pages/Register.tsx:48 | the test `!skill.trim()` holds exactly for blank input |
| Forms.AddSkillIdempotent | frontend/src/pages/Register.tsx:53-61 | adding the same skill twice equals adding it once, for the list and for the input box |
| Forms.RemoveSkill | frontend/src/pages/Register.tsx:64-67 | a skill is kept exactly when it differs from the removed one |
| Forms.RemoveSkillExact | frontend/src/pages/Register.tsx:66 | removal drops every occurrence, keeps every other skill with its multiplicity, and keeps their order |
| Forms.AddThenRemoveRestores | frontend/src/pages/Profile.tsx:89-105 | adding an absent skill and then removing it restores the list |
| Register.Update | frontend/src/pages/Register.tsx:42-44 | the named field takes the value and every other field is unchanged |
| Register.Validate | frontend/src/pages/Register.tsx:73-98 | missing name, email or password first, then a password mismatch, then no offered skill; none exactly when all checks pass |
| Register.NewUserData | frontend/src/pages/Register.tsx:104-114 | an empty avatar, location or availability takes its default (the fixed image URL, "Remote", "Flexible") and a non-empty one is kept; the id, name, email, both skill lists and isPublic are copied verbatim |
| Register.StoredUserPassedValidation | frontend/src/pages/Register.tsx:73-114 | a stored user has a name, an email and at least one offered skill |
| Register.RegisterPage.constructor | frontend/src/pages/Register.tsx:26-40 | the form starts empty with isPublic true, and not loading |
| Register.RegisterPage.InputChange | frontend/src/pages/Register.tsx:42-44 | the form becomes the update of the named field |
| Register.RegisterPage.TypeNewSkill | frontend/src/pages/Register.tsx:287 | only the targeted input box changes (the wanted box is line 322) |
| Register.RegisterPage.AddSkill | frontend/src/pages/Register.tsx:46-62 | only the targeted list is updated by the add rule; only its input box changes |
| Register.RegisterPage.RemoveSkill | frontend/src/pages/Register.tsx:64-67 | only the targeted list is updated by the remove rule |
| Register.RegisterPage.Submit | frontend/src/pages/Register.tsx:70-100 | the reported error is the validation result; on error nothing changes; otherwise loading starts with the current form |
| Register.RegisterPage.Complete | frontend/src/pages/Register.tsx:103-126 | stores the user built from the submitted form and stops loading |
| Profile.WithDefaults | frontend/src/pages/Profile.tsx:55-63 | a falsy location or availability takes its default; a skill list is defaulted only when missing, and isPublic only when missing; other fields are copied |
| Profile.SaveThenLoad | frontend/src/pages/Profile.tsx:56-63 | a saved profile loads back unchanged exactly when its location and availability are non-empty |
| Profile.Update | frontend/src/pages/Profile.tsx:76-80 | the named field takes the value, every other field is unchanged, and id and avatar are kept |
| Profile.DiffersIffSomeFieldDiffers | frontend/src/pages/Profile.tsx:69-74 | two profiles with the same id and avatar differ exactly when some editable field differs |
| Profile.ProfilePage.constructor | frontend/src/pages/Profile.tsx:40-44 | nothing is loaded and hasChanges is false |
| Profile.ProfilePage.Load | frontend/src/pages/Profile.tsx:48-67 | without a stored user nothing loads; otherwise both copies become the defaulted profile and hasChanges is false |
| Profile.ProfilePage.InputChange | frontend/src/pages/Profile.tsx:69-80 | the draft becomes the update of the named field; hasChanges is true exactly when some field differs from the saved copy |
| Profile.ProfilePage.TypeNewSkill | frontend/src/pages/Profile.tsx:244 | only the targeted input box changes (the wanted box is line 277) |
| Profile.ProfilePage.AddSkill | frontend/src/pages/Profile.tsx:82-98 | blank input or no draft changes nothing; otherwise only the targeted list is updated by the add rule and its box is cleared |
| Profile.ProfilePage.RemoveSkill | frontend/src/pages/Profile.tsx:100-106 | only the targeted list of the draft is updated by the remove rule |
| Profile.ProfilePage.Save | frontend/src/pages/Profile.tsx:108-113 | the saved copy becomes the draft, the draft is stored, and hasChanges is false |
| Profile.ProfilePage.Discard | frontend/src/pages/Profile.tsx:121-124 | the draft becomes the saved copy and hasChanges is false |
| RequestModal.ReadyToSend | frontend/src/components/RequestModal.tsx:32 | true exactly when both skills are chosen and the message is not blank |
| RequestModal.MessageNeedsVisibleCharacter | frontend/src/components/RequestModal.tsx:32 | with both skills chosen, sending is allowed exactly when the message has a non-whitespace character |
| RequestModal.RequestForm.constructor | frontend/src/components/RequestModal.tsx:26-29 | all fields start empty, not submitting |
| RequestModal.RequestForm.ChooseMySkill | frontend/src/components/RequestModal.tsx:76-86 | the offered skill is one of the current user's offered skills |
| RequestModal.RequestForm.Retarget | frontend/src/pages/Home.tsx:240-247 | opening the dialog for another profile changes only the second picker's choices; the picks and the message are kept |
| RequestModal.RequestForm.ChooseTheirSkill | frontend/src/components/RequestModal.tsx:92-102 | the wanted skill is one of the current target's wanted skills, whatever was picked before |
| RequestModal.RequestForm.EditMessage | frontend/src/components/RequestModal.tsx:112 | only the message changes |
| RequestModal.RequestForm.Submit | frontend/src/components/RequestModal.tsx:31-41 | accepted exactly when both skills are chosen and the message is not blank, whether or not the pick is among the current target's choices; a rejected submit changes nothing; an accepted one sets isSubmitting |
| RequestModal.RequestForm.Complete | frontend/src/components/RequestModal.tsx:44-55 | both skills and the message become empty and isSubmitting is cleared |
| RequestModal.StalePickIsSent | frontend/src/components/RequestModal.tsx:26-41 | a skill picked for one target is accepted for a later target that does not want it |
| Chat.NestedFloor | frontend/src/pages/Chat.tsx:164-166 | flooring by a and then by b equals flooring by a·b, for any elapsed time |
| Chat.DivisionUnique | frontend/src/pages/Chat.tsx:164 | a decomposition with an in-range remainder fixes the floor quotient |
| Chat.LastMessageBucket | frontend/src/pages/Chat.tsx:163-171 | "now" exactly below one whole minute, negative times included; otherwise minutes 1..59, hours 1..23 (floor of ms/3600000) or days ≥ 1 (floor of ms/86400000) |
| Chat.BucketMonotone | frontend/src/pages/Chat.tsx:163-171 | more elapsed time never gives an earlier label |
| Chat.DivMonotone | frontend/src/pages/Chat.tsx:164 | the floor quotient grows with the dividend |
| Chat.Render | frontend/src/pages/Chat.tsx:168-171 | "now" exactly for the now bucket; otherwise the count followed by m, h or d |
| Chat.ParseRender | frontend/src/pages/Chat.tsx:168-171 | every label reads back as its bucket, so no two buckets share a label |
| Chat.RenderParse | frontend/src/pages/Chat.tsx:168-171 | every text the label reader accepts is the label of the bucket it reads, so the reader and the labels are inverse |
| Chat.FormatLastMessageTime | frontend/src/pages/Chat.tsx:161-172 | "now" exactly below one whole elapsed minute; the label is the rendering of the bucket of the elapsed time, and reads back as that bucket |
| Chat.CanSend | frontend/src/pages/Chat.tsx:137 | sending is allowed exactly when the input is not blank and a conversation is open |
| Chat.Thread | frontend/src/pages/Chat.tsx:133 | the stored thread for a known id, and the empty list otherwise |
| Chat.ChatPage.constructor | frontend/src/pages/Chat.tsx:107-110 | no conversation is open, there are no messages and the input is empty |
| Chat.ChatPage.UserSelect | frontend/src/pages/Chat.tsx:131-134 | the user is selected and the messages become that user's thread, or the empty list |
| Chat.ChatPage.Mount | frontend/src/pages/Chat.tsx:113-125 | with a stored user the first conversation opens when there is one; otherwise nothing is selected |
| Chat.ChatPage.TypeMessage | frontend/src/pages/Chat.tsx:314 | only the input changes |
| Chat.OwnMessageExtendsThread | frontend/src/pages/Chat.tsx:136-148 | appending a message from "current" keeps the conversation its stored thread followed only by the user's own messages |
| Chat.ChatPage.SendMessage | frontend/src/pages/Chat.tsx:136-148 | keeps `Valid()`, the open conversation being its stored thread followed only by the user's own messages; sent exactly when the input is not blank and a conversation is open; then exactly one message, the untrimmed text from "current", is appended and the input cleared; otherwise nothing changes |
| Text.LowerForgetsCase | frontend/src/pages/Home.tsx:105-109 | lower-casing ignores any earlier upper-casing and is idempotent |
| Text.CapitalizeRoundTrip | frontend/src/pages/SwapRequests.tsx:245 | capitalising a lower-case word and lower-casing it again gives the word back |
| Text.TrimEmptyIffBlank | frontend/src/components/RequestModal.tsx:32 | trimming leaves nothing exactly when the text is all whitespace |
| Text.Split | frontend/src/components/UserCard.tsx:36 | at least one piece, no piece holds the separator, and joining the pieces gives the text back |
| Text.SplitCount | frontend/src/components/UserCard.tsx:36 | the number of pieces is the number of separators plus one |
| Text.JoinInjective | frontend/src/components/UserCard.tsx:36 | joining pieces that hold no separator determines the pieces |
| Text.SplitJoin | frontend/src/components/UserCard.tsx:36 | splitting the join of separator-free pieces gives the pieces back |
| Text.ParseNatToString | frontend/src/pages/Chat.tsx:169-171 | a rendered count reads back as itself |
| Text.NatToStringInjective | frontend/src/pages/Chat.tsx:169-171 | two counts render the same exactly when they are equal, so labels of one unit never collide |
| Text.NatToStringParseNat | frontend/src/pages/Chat.tsx:169-171 | every numeral without a leading zero is the rendering of the number it denotes |
| Seqs.Slice | frontend/src/pages/Home.tsx:116 | for 0 ≤ start ≤ end, the result is the sub-list between the two bounds clipped to the length |
| Seqs.FilterAppend | frontend/src/pages/Home.tsx:103 | filtering distributes over concatenation |
| Seqs.FilterMultiplicity | frontend/src/pages/SwapRequests.tsx:137 | a kept element keeps its multiplicity and a dropped one has none |

## Left out

- Rendering is not modelled. That covers JSX layout, CSS classes other than the status colours, icons, toasts, navigation and the dialog's open and close wiring.
- The backend (the Django models, serializers and views) is not part of this model. It has no custom logic, and its `CANCELLED` status never reaches the front end.
- `Login.tsx`, `Navbar.tsx`, `UserProfileView.tsx` and `ConnectionsModal.tsx` are not part of this model. They hold a non-empty check, one path comparison, a mock lookup and a fixed list.
- `localStorage` and JSON are left out. The stored user is an input record, and `written` fields record what a page would store.
- JSON key order and `null` versus `undefined` are not modelled. Both collapse into `Option`.
- `Profile.ProfilePage`: `hasChanges` is modelled as value inequality of the two copies. The source compares `JSON.stringify` of the two, which agrees as long as both copies keep the same key order, as they do here.
- `Profile.Field` has no entry for `id` or `avatar`. No control of the page edits them, and the upload button has no handler.
- Timers become explicit steps. The `setTimeout` callbacks of registration and the request dialog are `Complete` methods, and the one-second delay is not modelled.
- `Date.now()` ids and timestamps are parameters, and so is the current time in `Chat.FormatLastMessageTime`.
- `toLocaleTimeString` (`formatTime` in `Chat.tsx`) depends on the locale and is left out.
- Letter case is an ASCII map. `Text.ToLower` and `Text.ToUpper` do not model full Unicode case mapping.
- `n[0]` of a string is a UTF-16 code unit. The model uses characters.
- Ratings are floating point and are left out. So are avatars and review display.
- The HTML `required` attribute on the registration inputs is a browser check before `handleSubmit` runs. It is left out; only the handler's own checks are modelled.
- `Chat.ChatPage.Mount`: the signed-in user's record is reduced to whether one is stored, because the page only tests for it.
- Requests sent from the dialog are never added to any list in the source, so the dialog and the request board are not connected.
- The Select components only offer the listed options. That restriction is the precondition of `RequestModal.RequestForm.ChooseMySkill` and `ChooseTheirSkill`. How a Select displays a kept value that is no longer among its options is rendering and is left out.
- `RequestModal.RequestForm`: the current user's offered skills are fixed for the dialog's life, because the discovery page reads the current user once, at mount.

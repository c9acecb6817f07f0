/**
 * The profile card (frontend/src/components/UserCard.tsx): which skills it
 * shows in each layout, the "+N more" badge, the avatar initials and the
 * request button. It also declares the profile record the discovery page lists.
 */
module UserCard {
  import opened Wrappers
  import Seqs
  import Text

  /** A listed profile (avatar and the decimal rating are not modelled). */
  datatype UserProfile = UserProfile(
    id: string,
    name: string,
    location: string,
    skillsOffered: seq<string>,
    skillsWanted: seq<string>,
    availability: string,
    reviewCount: nat)

  datatype Layout = Grid | List

  /** How many skills the list layout previews. */
  const PreviewCount := 3

  /** The skills a card shows: `skills.slice(0, 3)` in the list layout and
      every skill in the grid layout. */
  function ShownSkills(skills: seq<string>, layout: Layout): (shown: seq<string>)
    ensures layout == Grid ==> shown == skills
    ensures layout == List ==> shown == skills[..if |skills| < PreviewCount then |skills| else PreviewCount]
  {
    match layout
    case List => Seqs.Slice(skills, 0, PreviewCount)
    case Grid => skills
  }

  /** The "+N more" badge: present only in the list layout and only when more
      than three skills exist. */
  function MoreBadge(skills: seq<string>, layout: Layout): (more: Option<nat>)
    ensures more.Some? <==> layout == List && |skills| > PreviewCount
    ensures more.Some? ==> more.value >= 1 && |ShownSkills(skills, layout)| + more.value == |skills|
    ensures more.None? ==> ShownSkills(skills, layout) == skills
  {
    if layout == List && |skills| > PreviewCount then Some(|skills| - PreviewCount) else None
  }

  /** The card shows every skill or names how many it leaves out, never loses one
      silently: the shown skills followed by the hidden ones are the whole list. */
  lemma CardAccountsForEverySkill(skills: seq<string>, layout: Layout)
    ensures var shown := ShownSkills(skills, layout);
      shown <= skills &&
      |skills| - |shown| == (match MoreBadge(skills, layout) case Some(n) => n case None => 0)
  {
  }

  // ---------------------------------------------------------------------------
  // Avatar initials: name.split(' ').map(n => n[0]).join('').toUpperCase()

  /** A piece `n[0]` contributes to: `split` yields an empty piece for each
      doubled, leading or trailing space. */
  predicate IsWord(p: string)
  {
    p != ""
  }

  /** The first character of every piece; an empty piece gives `undefined`, which
      `join` renders as nothing. */
  function FirstChars(parts: seq<string>): (r: string)
    ensures |r| <= |parts|
    ensures (forall p :: p in parts ==> p != "") ==> |r| == |parts|
  {
    if parts == [] then ""
    else
      var rest := FirstChars(parts[1..]);
      var head := if parts[0] == "" then "" else [parts[0][0]];
      assert parts[0] in parts;
      assert forall p :: p in parts[1..] ==> p in parts;
      head + rest
  }

  /** So the result holds the first character of each non-empty piece, in
      order. */
  lemma {:induction false} FirstCharsOfWords(parts: seq<string>)
    ensures var words := Seqs.Filter(parts, IsWord);
      |FirstChars(parts)| == |words|
      && forall i :: 0 <= i < |words| ==> words[i] != "" && FirstChars(parts)[i] == words[i][0]
  {
    if parts != [] {
      FirstCharsOfWords(parts[1..]);
      assert Seqs.Filter(parts, IsWord)
          == (if IsWord(parts[0]) then [parts[0]] else []) + Seqs.Filter(parts[1..], IsWord);
    }
  }

  /** The avatar initials, `name.split(' ').map(n => n[0]).join('').toUpperCase()`. */
  function Initials(name: string): (r: string)
    ensures |r| <= Text.Occurrences(name, ' ') + 1
    ensures forall i :: 0 <= i < |r| ==> !('a' <= r[i] <= 'z')
  {
    Text.SplitCount(name, ' ');
    Text.ToUpper(FirstChars(Text.Split(name, ' ')))
  }

  /** The initials are the first character of each space-separated word of the
      name, in order and upper-cased; empty pieces contribute nothing. */
  lemma InitialsExact(name: string)
    ensures var words := Seqs.Filter(Text.Split(name, ' '), IsWord);
      |Initials(name)| == |words|
      && forall i :: 0 <= i < |words| ==> words[i] != "" && Initials(name)[i] == Text.Upper(words[i][0])
  {
    FirstCharsOfWords(Text.Split(name, ' '));
  }

  /** When `split` yields no empty piece, every piece gives its initial. */
  lemma InitialsOfPieces(name: string, parts: seq<string>)
    requires parts == Text.Split(name, ' ')
    requires forall i :: 0 <= i < |parts| ==> parts[i] != ""
    ensures Initials(name) == seq(|parts|, i requires 0 <= i < |parts| => Text.Upper(parts[i][0]))
  {
    assert forall i :: 0 <= i < |parts| ==> IsWord(parts[i]);
    Seqs.FilterKeepsAll(parts, IsWord);
    InitialsExact(name);
    var r := Initials(name);
    assert |r| == |parts|;
    assert forall i :: 0 <= i < |parts| ==> r[i] == Text.Upper(parts[i][0]);
  }

  /** A name made of words joined by single spaces gets one initial per word:
      each word's first letter, upper-cased, in order. */
  lemma InitialsOfWords(words: seq<string>)
    requires |words| >= 1
    requires forall i :: 0 <= i < |words| ==> words[i] != "" && ' ' !in words[i]
    ensures Initials(Text.Join(words, ' ')) == seq(|words|, i requires 0 <= i < |words| => Text.Upper(words[i][0]))
  {
    Text.SplitJoin(words, ' ');
    InitialsOfPieces(Text.Join(words, ' '), words);
  }

  /** A name that is one word gives one initial: its first letter, upper-cased. */
  lemma OneWordInitial(name: string)
    requires name != "" && ' ' !in name
    ensures Initials(name) == [Text.Upper(name[0])]
  {
    var parts := Text.Split(name, ' ');
    Text.SplitCount(name, ' ');
    NoSpaceNoSeparator(name);
    assert |parts| == 1;
    assert Text.Join(parts, ' ') == parts[0] == name;
  }

  lemma {:induction false} NoSpaceNoSeparator(s: string)
    requires ' ' !in s
    ensures Text.Occurrences(s, ' ') == 0
  {
    if s != [] {
      assert s[1..] <= s[1..];
      assert forall c :: c in s[1..] ==> c in s;
      NoSpaceNoSeparator(s[1..]);
    }
  }

  // ---------------------------------------------------------------------------
  // The request button

  datatype RequestButton = RequestButton(caption: string, disabled: bool)

  function RequestButtonFor(isLoggedIn: bool): (b: RequestButton)
    ensures b.caption == "Send Request" <==> isLoggedIn
    ensures b.disabled <==> b.caption != "Send Request"
  {
    if isLoggedIn then RequestButton("Send Request", false)
    else RequestButton("Login to Request", true)
  }
}

/**
 * The discovery page (frontend/src/pages/Home.tsx): a case-insensitive search
 * over names and skills combined with an availability facet, pages of six
 * profiles, Previous / Next / numbered page buttons, and the guard that opens
 * the request dialog.
 */
module Discovery {
  import opened Wrappers
  import Seqs
  import Text
  import UserCard

  type UserProfile = UserCard.UserProfile

  const ItemsPerPage := 6

  /** The facet value that accepts every availability. */
  const AnyAvailability := "all"

  // ---------------------------------------------------------------------------
  // filteredUsers

  /** `skills.some(skill => skill.toLowerCase().includes(term.toLowerCase()))`. */
  function SomeSkillIncludes(skills: seq<string>, term: string): (found: bool)
    ensures found <==> exists k :: k in skills && Text.Includes(Text.ToLower(k), Text.ToLower(term))
  {
    if skills == [] then false
    else
      assert forall k :: k in skills <==> k == skills[0] || k in skills[1..];
      Text.Includes(Text.ToLower(skills[0]), Text.ToLower(term)) || SomeSkillIncludes(skills[1..], term)
  }

  predicate MatchesSearch(u: UserProfile, term: string)
  {
    term == ""
    || SomeSkillIncludes(u.skillsOffered, term)
    || SomeSkillIncludes(u.skillsWanted, term)
    || Text.Includes(Text.ToLower(u.name), Text.ToLower(term))
  }

  predicate MatchesAvailability(u: UserProfile, facet: string)
  {
    facet == AnyAvailability || Text.ToLower(u.availability) == Text.ToLower(facet)
  }

  predicate Matches(u: UserProfile, term: string, facet: string)
  {
    MatchesSearch(u, term) && MatchesAvailability(u, facet)
  }

  /** `filteredUsers`: the profiles passing both predicates, in store order. */
  function FilteredUsers(users: seq<UserProfile>, term: string, facet: string): (r: seq<UserProfile>)
    ensures |r| <= |users|
    ensures forall u :: u in r <==> u in users && MatchesSearch(u, term) && MatchesAvailability(u, facet)
  {
    Seqs.Filter(users, (u: UserProfile) => Matches(u, term, facet))
  }

  /** Search is a substring test on the lower-cased name and skills; the empty
      term needs no special case, since every string includes it. */
  lemma SearchIsSubstringMatch(u: UserProfile, term: string)
    ensures MatchesSearch(u, term) <==>
      (exists k :: k in u.skillsOffered && Text.Includes(Text.ToLower(k), Text.ToLower(term)))
      || (exists k :: k in u.skillsWanted && Text.Includes(Text.ToLower(k), Text.ToLower(term)))
      || Text.Includes(Text.ToLower(u.name), Text.ToLower(term))
  {
    if term == "" {
      Text.IncludesEmpty(Text.ToLower(u.name));
    }
  }

  /** The search does not care how the term is cased. */
  lemma SearchIgnoresCase(u: UserProfile, term: string)
    ensures MatchesSearch(u, Text.ToUpper(term)) == MatchesSearch(u, term)
    ensures MatchesAvailability(u, Text.ToUpper(term)) == MatchesAvailability(u, term) || term == AnyAvailability
  {
    Text.LowerForgetsCase(term);
    assert |Text.ToUpper(term)| == |term|;
  }

  /** With an empty term and the "all" facet every profile is listed, in order. */
  lemma NoQueryListsEveryone(users: seq<UserProfile>)
    ensures FilteredUsers(users, "", AnyAvailability) == users
  {
    Seqs.FilterKeepsAll(users, (u: UserProfile) => Matches(u, "", AnyAvailability));
  }

  /** Every matching profile is listed as often as it occurs in the store. */
  lemma FilteredUsersOmitsNothing(users: seq<UserProfile>, term: string, facet: string, u: UserProfile)
    ensures multiset(FilteredUsers(users, term, facet))[u]
         == if Matches(u, term, facet) then multiset(users)[u] else 0
  {
    Seqs.FilterMultiplicity(users, (x: UserProfile) => Matches(x, term, facet), u);
  }

  /** Filtering keeps store order: it distributes over any split of the store. */
  lemma FilteredUsersKeepsOrder(a: seq<UserProfile>, b: seq<UserProfile>, term: string, facet: string)
    ensures FilteredUsers(a + b, term, facet) == FilteredUsers(a, term, facet) + FilteredUsers(b, term, facet)
  {
    Seqs.FilterAppend(a, b, (u: UserProfile) => Matches(u, term, facet));
  }

  // ---------------------------------------------------------------------------
  // totalPages and paginatedUsers

  /** `Math.ceil(n / 6)`: the fewest pages of six that hold `n` items; 0 for none. */
  function TotalPages(n: nat): (pages: nat)
    ensures n <= pages * ItemsPerPage
    ensures pages == 0 || (pages - 1) * ItemsPerPage < n
    ensures pages == 0 <==> n == 0
  {
    (n + ItemsPerPage - 1) / ItemsPerPage
  }

  /** `filteredUsers.slice((page - 1) * 6, page * 6)`. */
  function Page<T>(list: seq<T>, page: int): seq<T>
  {
    Seqs.Slice(list, (page - 1) * ItemsPerPage, page * ItemsPerPage)
  }

  function Min(a: int, b: int): int { if a < b then a else b }

  /** Page `p` is the window from (p-1)*6 to p*6, clipped to the list: at most six
      items, and empty past the last page. */
  lemma PageWindow<T>(list: seq<T>, page: int)
    requires page >= 1
    ensures Page(list, page) == list[Min((page - 1) * ItemsPerPage, |list|)..Min(page * ItemsPerPage, |list|)]
    ensures |Page(list, page)| <= ItemsPerPage
    ensures page > TotalPages(|list|) ==> Page(list, page) == []
    ensures page <= TotalPages(|list|) ==> Page(list, page) != []
  {
  }

  /** Pages 1..k laid end to end. */
  function FirstPages<T>(list: seq<T>, k: nat): seq<T>
  {
    if k == 0 then [] else FirstPages(list, k - 1) + Page(list, k)
  }

  /** The first `k` pages are exactly the first `6k` items (clipped). */
  lemma {:induction false} FirstPagesArePrefix<T>(list: seq<T>, k: nat)
    ensures FirstPages(list, k) == list[..Min(k * ItemsPerPage, |list|)]
  {
    if k > 0 {
      FirstPagesArePrefix(list, k - 1);
      PageWindow(list, k);
      var a, b := Min((k - 1) * ItemsPerPage, |list|), Min(k * ItemsPerPage, |list|);
      assert list[..a] + list[a..b] == list[..b];
    }
  }

  /** Concatenating pages 1 to `totalPages` gives back the whole filtered list. */
  lemma PagesReassemble<T>(list: seq<T>)
    ensures FirstPages(list, TotalPages(|list|)) == list
  {
    FirstPagesArePrefix(list, TotalPages(|list|));
    assert list[..|list|] == list;
  }

  /** Different pages never share an entry of a list without repeats. */
  lemma PagesDisjoint<T>(list: seq<T>, p: int, q: int, x: T)
    requires forall i, j :: 0 <= i < j < |list| ==> list[i] != list[j]
    requires 1 <= p < q
    ensures !(x in Page(list, p) && x in Page(list, q))
  {
    PageWindow(list, p);
    PageWindow(list, q);
  }

  // ---------------------------------------------------------------------------
  // Previous / Next

  /** Previous: `Math.max(1, p - 1)`. */
  function PreviousPage(p: int): (r: int)
    ensures r >= 1
    ensures p > 1 ==> r == p - 1
    ensures p <= 1 ==> r == 1
  {
    if p - 1 < 1 then 1 else p - 1
  }

  /** Next: `Math.min(totalPages, p + 1)`. */
  function NextPage(p: int, totalPages: nat): (r: int)
    ensures r <= totalPages
    ensures p < totalPages ==> r == p + 1
    ensures p >= totalPages ==> r == totalPages
  {
    if totalPages < p + 1 then totalPages else p + 1
  }

  /** From a page inside [1, totalPages], both buttons land inside it again. */
  lemma PageButtonsStayInRange(p: int, totalPages: nat)
    requires 1 <= p <= totalPages
    ensures 1 <= PreviousPage(p) <= totalPages
    ensures 1 <= NextPage(p, totalPages) <= totalPages
  {
  }

  /** `mockUsers.find(u => u.id === userId)`: the first profile with the id. */
  function FindUser(users: seq<UserProfile>, id: string): (r: Option<UserProfile>)
    ensures r.None? <==> forall i :: 0 <= i < |users| ==> users[i].id != id
    ensures r.Some? ==>
      exists i :: 0 <= i < |users| && users[i] == r.value && r.value.id == id
        && (forall j :: 0 <= j < i ==> users[j].id != id)
  {
    if users == [] then None
    else if users[0].id == id then
      Some(users[0])
    else
      var r := FindUser(users[1..], id);
      if r.Some? then
        var i :| 0 <= i < |users[1..]| && users[1..][i] == r.value && r.value.id == id
          && (forall j :: 0 <= j < i ==> users[1..][j].id != id);
        assert users[i + 1] == r.value;
        assert forall j :: 0 < j < i + 1 ==> users[j].id == users[1..][j - 1].id;
        r
      else
        assert forall j :: 0 < j < |users| ==> users[j] == users[1..][j - 1];
        r
  }


  /** The user the session stores, as far as this page and the dialog read it. */
  datatype SessionUser = SessionUser(id: string, name: string, skillsOffered: seq<string>)

  // ---------------------------------------------------------------------------
  // The page component

  class DiscoveryPage {
    const profiles: seq<UserProfile>
    const currentUser: Option<SessionUser>
    var searchTerm: string
    var availabilityFilter: string
    var currentPage: int
    var requestModalOpen: bool
    var selectedUser: Option<UserProfile>

    /** No handler ever moves the page below 1. */
    ghost predicate Valid()
      reads this
    {
      currentPage >= 1
    }

    constructor (profiles: seq<UserProfile>, currentUser: Option<SessionUser>)
      ensures Valid()
      ensures this.profiles == profiles && this.currentUser == currentUser
      ensures searchTerm == "" && availabilityFilter == AnyAvailability && currentPage == 1
      ensures !requestModalOpen && selectedUser == None
    {
      this.profiles := profiles;
      this.currentUser := currentUser;
      searchTerm := "";
      availabilityFilter := AnyAvailability;
      currentPage := 1;
      requestModalOpen := false;
      selectedUser := None;
    }

    function Filtered(): (r: seq<UserProfile>)
      reads this
    {
      FilteredUsers(profiles, searchTerm, availabilityFilter)
    }

    function PageCount(): nat
      reads this
    {
      TotalPages(|Filtered()|)
    }

    /** The cards on screen: the current page's window of the filtered list,
        clipped to its length; never empty up to the last page. */
    function Shown(): (r: seq<UserProfile>)
      reads this
      requires Valid()
      ensures r == Filtered()[Min((currentPage - 1) * ItemsPerPage, |Filtered()|)..Min(currentPage * ItemsPerPage, |Filtered()|)]
      ensures currentPage <= PageCount() ==> r != []
      ensures |r| <= ItemsPerPage
      ensures forall u :: u in r ==> u in profiles && Matches(u, searchTerm, availabilityFilter)
      ensures currentPage > PageCount() ==> r == []
    {
      PageWindow(Filtered(), currentPage);
      Page(Filtered(), currentPage)
    }

    /** Typing in the search box; the page number is kept as it was. */
    method SetSearchTerm(term: string)
      requires Valid()
      modifies this
      ensures Valid()
      ensures searchTerm == term && currentPage == old(currentPage)
      ensures availabilityFilter == old(availabilityFilter)
      ensures requestModalOpen == old(requestModalOpen) && selectedUser == old(selectedUser)
    {
      searchTerm := term;
    }

    /** Choosing an availability; the page number is kept as it was. */
    method SetAvailabilityFilter(facet: string)
      requires Valid()
      modifies this
      ensures Valid()
      ensures availabilityFilter == facet && currentPage == old(currentPage)
      ensures searchTerm == old(searchTerm)
      ensures requestModalOpen == old(requestModalOpen) && selectedUser == old(selectedUser)
    {
      availabilityFilter := facet;
    }

    /** The Previous button, rendered only when there is more than one page. */
    method Previous()
      requires Valid() && PageCount() > 1
      modifies this`currentPage
      ensures Valid()
      ensures currentPage == PreviousPage(old(currentPage))
    {
      currentPage := PreviousPage(currentPage);
    }

    /** The Next button, rendered only when there is more than one page. */
    method Next()
      requires Valid() && PageCount() > 1
      modifies this`currentPage
      ensures Valid()
      ensures currentPage == NextPage(old(currentPage), PageCount())
      ensures 1 <= currentPage <= PageCount()
    {
      currentPage := NextPage(currentPage, PageCount());
    }

    /** A numbered page button; they run from 1 to `totalPages`. */
    method GoToPage(page: int)
      requires Valid() && PageCount() > 1
      requires 1 <= page <= PageCount()
      modifies this`currentPage
      ensures Valid()
      ensures currentPage == page
      ensures Shown() != []
    {
      currentPage := page;
      PageWindow(Filtered(), currentPage);
    }

    /** `handleRequestClick`: opens the dialog for a known profile, and only when
        someone is logged in. */
    method RequestClick(userId: string)
      modifies this`selectedUser, this`requestModalOpen
      ensures var found := FindUser(profiles, userId);
        if found.Some? && currentUser.Some? then
          selectedUser == found && requestModalOpen
        else
          selectedUser == old(selectedUser) && requestModalOpen == old(requestModalOpen)
    {
      var found := FindUser(profiles, userId);
      if found.Some? && currentUser.Some? {
        selectedUser := found;
        requestModalOpen := true;
      }
    }
  }
}

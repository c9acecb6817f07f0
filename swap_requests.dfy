/**
 * The swap-request page (frontend/src/pages/SwapRequests.tsx): a list of
 * requests the viewer has sent or received, a status filter over it, and the
 * accept / reject / delete handlers. The handlers have no guards of their own;
 * what makes a request's status final is which buttons the page renders for it,
 * so that rule is `AllowedActions` and it is the precondition of each handler.
 */
module SwapRequests {
  import Seqs
  import Text

  datatype Status = Pending | Accepted | Rejected

  /** Stored on each request: whether the viewer sent or received it. */
  datatype Direction = Sent | Received

  /** The other party as the page shows it (avatar and rating are not modelled). */
  datatype OtherUser = OtherUser(id: string, name: string)

  datatype SwapRequest = SwapRequest(
    id: string,
    direction: Direction,
    otherUser: OtherUser,
    mySkill: string,
    theirSkill: string,
    message: string,
    status: Status,
    createdAt: string)

  /** The string literal the source stores for each status. */
  function StatusName(s: Status): string
  {
    match s
    case Pending => "pending"
    case Accepted => "accepted"
    case Rejected => "rejected"
  }

  /** The filter value that shows every request. */
  const AllFilter := "all"

  /** Request ids are the React keys of the list and identify one entry each. */
  ghost predicate UniqueIds(requests: seq<SwapRequest>)
  {
    forall i, j :: 0 <= i < j < |requests| ==> requests[i].id != requests[j].id
  }

  // ---------------------------------------------------------------------------
  // filteredRequests

  predicate PassesFilter(q: SwapRequest, statusFilter: string)
  {
    statusFilter == AllFilter || StatusName(q.status) == statusFilter
  }

  /** `filteredRequests`: everything for "all", otherwise the requests whose status
      is the filter value, in list order. */
  function FilterByStatus(requests: seq<SwapRequest>, statusFilter: string): (r: seq<SwapRequest>)
    ensures |r| <= |requests|
    ensures statusFilter == AllFilter ==> r == requests
    ensures statusFilter != AllFilter ==>
      forall q :: q in r <==> q in requests && StatusName(q.status) == statusFilter
  {
    var keep := (q: SwapRequest) => PassesFilter(q, statusFilter);
    if statusFilter == AllFilter then
      Seqs.FilterKeepsAll(requests, keep);
      Seqs.Filter(requests, keep)
    else
      Seqs.Filter(requests, keep)
  }

  /** The filter shows every occurrence of a matching request and no other. */
  lemma FilterByStatusExact(requests: seq<SwapRequest>, statusFilter: string, q: SwapRequest)
    ensures multiset(FilterByStatus(requests, statusFilter))[q]
         == if PassesFilter(q, statusFilter) then multiset(requests)[q] else 0
  {
    Seqs.FilterMultiplicity(requests, (x: SwapRequest) => PassesFilter(x, statusFilter), q);
  }

  /** The filter keeps the requests in their given order: it distributes over
      concatenation. */
  lemma FilterByStatusOrder(a: seq<SwapRequest>, b: seq<SwapRequest>, statusFilter: string)
    ensures FilterByStatus(a + b, statusFilter) == FilterByStatus(a, statusFilter) + FilterByStatus(b, statusFilter)
  {
    Seqs.FilterAppend(a, b, (q: SwapRequest) => PassesFilter(q, statusFilter));
  }

  /** A filter value that is neither "all" nor a status shows nothing. */
  lemma UnknownFilterShowsNothing(requests: seq<SwapRequest>, statusFilter: string)
    requires statusFilter != AllFilter
    requires forall s: Status :: StatusName(s) != statusFilter
    ensures FilterByStatus(requests, statusFilter) == []
  {
    Seqs.FilterDropsAll(requests, (q: SwapRequest) => PassesFilter(q, statusFilter));
  }

  /** The three status filters split the list: their counts add up to the total. */
  lemma {:induction false} StatusFiltersPartition(requests: seq<SwapRequest>)
    ensures |FilterByStatus(requests, "pending")| + |FilterByStatus(requests, "accepted")|
          + |FilterByStatus(requests, "rejected")| == |requests|
  {
    if requests != [] {
      var q, rest := requests[0], requests[1..];
      assert requests == [q] + rest;
      StatusFiltersPartition(rest);
      forall f | f in ["pending", "accepted", "rejected"]
        ensures FilterByStatus(requests, f)
             == (if PassesFilter(q, f) then [q] else []) + FilterByStatus(rest, f)
      {
        var keep := (x: SwapRequest) => PassesFilter(x, f);
        Seqs.FilterAppend([q], rest, keep);
      }
    }
  }

  // ---------------------------------------------------------------------------
  // Which buttons a request offers (lines 283-331)

  datatype Action = Accept | Reject | Delete

  /** Pending and received: reject and accept. Pending and sent: delete.
      Anything not pending: delete. */
  function AllowedActions(q: SwapRequest): (acts: set<Action>)
    ensures Accept in acts <==> q.status == Pending && q.direction == Received
    ensures Reject in acts <==> Accept in acts
    ensures Delete in acts <==> Accept !in acts
  {
    if q.status == Pending then
      if q.direction == Received then {Reject, Accept} else {Delete}
    else {Delete}
  }

  /** Accepted and rejected requests are terminal: the only action left is delete. */
  lemma TerminalOffersOnlyDelete(q: SwapRequest)
    requires q.status != Pending
    ensures AllowedActions(q) == {Delete}
  {
  }

  /** Some entry with this id shows the button for this action. */
  predicate Enabled(requests: seq<SwapRequest>, action: Action, id: string)
  {
    exists i :: 0 <= i < |requests| && requests[i].id == id && action in AllowedActions(requests[i])
  }

  // ---------------------------------------------------------------------------
  // handleAccept / handleReject: prev.map(req => req.id === id ? {...req, status} : req)

  function WithStatus(requests: seq<SwapRequest>, id: string, status: Status): (r: seq<SwapRequest>)
    ensures |r| == |requests|
    ensures forall i :: 0 <= i < |r| ==> r[i].(status := requests[i].status) == requests[i]
    ensures forall i :: 0 <= i < |r| ==>
      r[i].status == if requests[i].id == id then status else requests[i].status
  {
    if requests == [] then []
    else
      var q := requests[0];
      var tail := WithStatus(requests[1..], id, status);
      var r := [if q.id == id then q.(status := status) else q] + tail;
      assert forall i :: 1 <= i < |r| ==> r[i] == tail[i - 1] && requests[i] == requests[1..][i - 1];
      r
  }

  /** Accepting or rejecting an id that is not in the list changes nothing. */
  lemma WithStatusAbsentId(requests: seq<SwapRequest>, id: string, status: Status)
    requires forall i :: 0 <= i < |requests| ==> requests[i].id != id
    ensures WithStatus(requests, id, status) == requests
  {
    var r := WithStatus(requests, id, status);
    forall i | 0 <= i < |r| ensures r[i] == requests[i] {
      assert r[i].(status := requests[i].status) == requests[i];
    }
  }

  // ---------------------------------------------------------------------------
  // handleDelete: prev.filter(req => req.id !== id)

  function WithoutId(requests: seq<SwapRequest>, id: string): (r: seq<SwapRequest>)
    ensures forall q :: q in r <==> q in requests && q.id != id
  {
    Seqs.Filter(requests, (q: SwapRequest) => q.id != id)
  }

  /** Delete keeps every other entry, with its multiplicity, and drops all entries
      with the id. */
  lemma WithoutIdExact(requests: seq<SwapRequest>, id: string, q: SwapRequest)
    ensures multiset(WithoutId(requests, id))[q] == if q.id != id then multiset(requests)[q] else 0
  {
    Seqs.FilterMultiplicity(requests, (x: SwapRequest) => x.id != id, q);
  }

  /** Delete keeps the survivors in their original order. */
  lemma WithoutIdOrder(a: seq<SwapRequest>, b: seq<SwapRequest>, id: string)
    ensures WithoutId(a + b, id) == WithoutId(a, id) + WithoutId(b, id)
  {
    Seqs.FilterAppend(a, b, (q: SwapRequest) => q.id != id);
  }

  // ---------------------------------------------------------------------------
  // The state machine

  function Step(requests: seq<SwapRequest>, action: Action, id: string): seq<SwapRequest>
  {
    match action
    case Accept => WithStatus(requests, id, Accepted)
    case Reject => WithStatus(requests, id, Rejected)
    case Delete => WithoutId(requests, id)
  }

  /** A status may only move out of pending. */
  predicate StatusMayFollow(before: Status, after: Status)
  {
    before == after || before == Pending
  }

  /** With unique ids, a handler reached through a rendered button keeps ids unique,
      moves only a pending status, and leaves accepted and rejected requests as they
      are unless they are deleted. */
  lemma StepRespectsLifecycle(requests: seq<SwapRequest>, action: Action, id: string)
    requires UniqueIds(requests)
    requires Enabled(requests, action, id)
    ensures UniqueIds(Step(requests, action, id))
    ensures action != Delete ==>
      |Step(requests, action, id)| == |requests| &&
      forall i :: 0 <= i < |requests| ==> StatusMayFollow(requests[i].status, Step(requests, action, id)[i].status)
    ensures forall q :: q in requests && q.status != Pending ==>
      q in Step(requests, action, id) || (action == Delete && q.id == id)
  {
    var k :| 0 <= k < |requests| && requests[k].id == id && action in AllowedActions(requests[k]);
    if action == Delete {
      WithoutIdUnique(requests, id);
    } else {
      WithStatusMovesOnlyPending(requests, id, if action == Accept then Accepted else Rejected, k);
    }
  }

  /** Setting the status of the pending entry `k` changes no other entry when
      ids are unique. */
  lemma WithStatusMovesOnlyPending(requests: seq<SwapRequest>, id: string, status: Status, k: int)
    requires UniqueIds(requests)
    requires 0 <= k < |requests| && requests[k].id == id && requests[k].status == Pending
    ensures var r := WithStatus(requests, id, status);
      UniqueIds(r)
      && (forall i :: 0 <= i < |requests| ==> StatusMayFollow(requests[i].status, r[i].status))
      && (forall q :: q in requests && q.status != Pending ==> q in r)
  {
    var r := WithStatus(requests, id, status);
    forall i | 0 <= i < |requests| ensures r[i].id == requests[i].id {
      assert r[i].(status := requests[i].status) == requests[i];
    }
    forall i | 0 <= i < |requests| && i != k ensures r[i] == requests[i] {
      assert r[i].(status := requests[i].status) == requests[i];
    }
    forall q | q in requests && q.status != Pending ensures q in r {
      var i :| 0 <= i < |requests| && requests[i] == q;
      assert r[i] == q;
    }
  }

  lemma {:induction false} WithoutIdUnique(requests: seq<SwapRequest>, id: string)
    requires UniqueIds(requests)
    ensures UniqueIds(WithoutId(requests, id))
  {
    if requests != [] {
      var q, rest := requests[0], requests[1..];
      UniqueTail(requests);
      WithoutIdUnique(rest, id);
      assert requests == [q] + rest;
      WithoutIdOrder([q], rest, id);
      if q.id != id {
        assert [q][1..] == [];
        UniqueCons(q, WithoutId(rest, id));
      }
    }
  }

  lemma UniqueTail(requests: seq<SwapRequest>)
    requires requests != [] && UniqueIds(requests)
    ensures UniqueIds(requests[1..])
    ensures forall x :: x in requests[1..] ==> x.id != requests[0].id
  {
    var rest := requests[1..];
    forall i, j | 0 <= i < j < |rest| ensures rest[i].id != rest[j].id {
      assert rest[i] == requests[i + 1] && rest[j] == requests[j + 1];
    }
    forall x | x in rest ensures x.id != requests[0].id {
      var m :| 0 <= m < |rest| && rest[m] == x;
      assert requests[m + 1] == x;
    }
  }

  lemma UniqueCons(q: SwapRequest, tail: seq<SwapRequest>)
    requires UniqueIds(tail)
    requires forall x :: x in tail ==> x.id != q.id
    ensures UniqueIds([q] + tail)
  {
    var r := [q] + tail;
    forall i, j | 0 <= i < j < |r| ensures r[i].id != r[j].id {
      assert r[j] == tail[j - 1];
      if i > 0 {
        assert r[i] == tail[i - 1];
      }
    }
  }

  // ---------------------------------------------------------------------------
  // getStatusColor and the status badge label

  const SuccessClasses := "bg-success/10 text-success border-success/20"
  const DestructiveClasses := "bg-destructive/10 text-destructive border-destructive/20"
  const WarningClasses := "bg-warning/10 text-warning-foreground border-warning/20"

  /** `getStatusColor`: its own classes for "accepted" and "rejected", the warning
      classes for anything else. */
  function StatusColor(status: string): (classes: string)
    ensures classes == SuccessClasses <==> status == "accepted"
    ensures classes == DestructiveClasses <==> status == "rejected"
    ensures classes == WarningClasses <==> status != "accepted" && status != "rejected"
  {
    if status == "accepted" then SuccessClasses
    else if status == "rejected" then DestructiveClasses
    else WarningClasses
  }

  /** The badge text: the status with its first letter upper-cased. */
  function StatusLabel(s: Status): (badge: string)
    ensures Text.ToLower(badge) == StatusName(s)
    ensures 'A' <= badge[0] <= 'Z'
    ensures badge[1..] == StatusName(s)[1..]
  {
    Text.CapitalizeRoundTrip(StatusName(s));
    Text.Capitalize(StatusName(s))
  }

  /** The badge shows the same words as the filter menu ("Pending", "Accepted",
      "Rejected"), and no two statuses share a label. */
  lemma StatusLabelsAreMenuItems()
    ensures StatusLabel(Pending) == "Pending"
    ensures StatusLabel(Accepted) == "Accepted"
    ensures StatusLabel(Rejected) == "Rejected"
  {
    assert Text.Upper('p') == 'P' && Text.Upper('a') == 'A' && Text.Upper('r') == 'R';
  }

  // ---------------------------------------------------------------------------
  // The page component

  class RequestBoard {
    var requests: seq<SwapRequest>
    var statusFilter: string

    ghost predicate Valid()
      reads this
    {
      UniqueIds(requests)
    }

    /** The page starts from its initial list and shows every request. */
    constructor (initial: seq<SwapRequest>)
      requires UniqueIds(initial)
      ensures Valid()
      ensures requests == initial && statusFilter == AllFilter
    {
      requests := initial;
      statusFilter := AllFilter;
    }

    /** The requests on screen. */
    function Shown(): (r: seq<SwapRequest>)
      reads this
      ensures statusFilter == AllFilter ==> r == requests
      ensures statusFilter != AllFilter ==>
        forall q :: q in r <==> q in requests && StatusName(q.status) == statusFilter
    {
      FilterByStatus(requests, statusFilter)
    }

    method SetStatusFilter(f: string)
      modifies this
      ensures statusFilter == f && requests == old(requests)
    {
      statusFilter := f;
    }

    /** `handleAccept`, reached through the Accept button of a pending received request. */
    method HandleAccept(id: string)
      requires Valid()
      requires Enabled(requests, Accept, id)
      modifies this
      ensures Valid()
      ensures requests == WithStatus(old(requests), id, Accepted)
      ensures statusFilter == old(statusFilter)
    {
      StepRespectsLifecycle(requests, Accept, id);
      requests := WithStatus(requests, id, Accepted);
    }

    /** `handleReject`, reached through the Reject button of a pending received request. */
    method HandleReject(id: string)
      requires Valid()
      requires Enabled(requests, Reject, id)
      modifies this
      ensures Valid()
      ensures requests == WithStatus(old(requests), id, Rejected)
      ensures statusFilter == old(statusFilter)
    {
      StepRespectsLifecycle(requests, Reject, id);
      requests := WithStatus(requests, id, Rejected);
    }

    /** `handleDelete`, reached through a Delete button. */
    method HandleDelete(id: string)
      requires Valid()
      requires Enabled(requests, Delete, id)
      modifies this
      ensures Valid()
      ensures requests == WithoutId(old(requests), id)
      ensures statusFilter == old(statusFilter)
    {
      StepRespectsLifecycle(requests, Delete, id);
      requests := WithoutId(requests, id);
    }
  }
}

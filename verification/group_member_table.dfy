/**
 The `googledirectory_group_member` table. Its list dispatcher first lists
 the groups (with the group table's query rules), narrows them to the
 `group_id` qualifier when that group is among them, lists every chosen
 group's members, and then either returns the first recorded error or
 streams the members until the host needs no more rows.

 The per-group listings run concurrently in the source; here they are a
 sequential fold over the per-group results, taken in request order.
 */
module GroupMemberTable {
  import opened Common
  import opened Paging
  import opened GroupTable

  /** A membership as the listing streams it; the rest of its fields pass
      through unexamined. */
  datatype Member = Member(id: string, email: string, role: string)

  /** The group listing the member table issues first: the group table's
      customer and query rules, and always pages of 200. */
  function MemberGroupsRequest(eq: EqualsQuals): (r: ListRequest)
    ensures "customer_id" !in eq ==> r.customer == MyCustomer
    ensures "customer_id" in eq ==> r.customer == StringOf(eq["customer_id"])
    ensures r.query == Some(GroupQuery(eq))
    ensures r.maxResults == Some(200)
  {
    ListRequest(CustomerId(OptionalString(eq, "customer_id")), Some(GroupQuery(eq)), Some(200))
  }

  function GroupIds(groups: seq<Group>): (ids: seq<string>)
    ensures |ids| == |groups|
    ensures forall i :: 0 <= i < |ids| ==> ids[i] == groups[i].id
  {
    seq(|groups|, i requires 0 <= i < |groups| => groups[i].id)
  }

  /** `listDirectoryGroupForMembers`: the ids of every listed group, in
      order, or the first failure of the group listing. */
  function GroupIdsForMembers(replies: seq<PageReply<Group>>): (r: Result<seq<string>, Error>)
    ensures r.Ok? <==> AllPages(replies)
    ensures r.Ok? ==> r.value == GroupIds(PageItems(replies))
    ensures r.Err? ==> exists f :: FailedAt(replies, f, r.error)
  {
    var s := StreamEvery(replies);
    if s.err.Some? then
      assert replies[s.fetched - 1].PageFailed?;
      Err(s.err.value)
    else Ok(GroupIds(s.rows))
  }

  /** The parameters of one `Members.List` call. */
  datatype MemberRequest = MemberRequest(groupKey: string, roles: string, maxResults: int)

  /** The member listings issued for the listed group ids `groups`: just
      the `group_id` qualifier's group when it is among them, otherwise
      every listed group; each with the `role` qualifier and a page size of
      at most 200. */
  function MemberRequests(groups: seq<string>, eq: EqualsQuals, limit: Option<int>): (r: seq<MemberRequest>)
    ensures QualString(eq, "group_id") in groups ==> |r| == 1 && r[0].groupKey == QualString(eq, "group_id")
    ensures QualString(eq, "group_id") !in groups ==>
              |r| == |groups| && forall i :: 0 <= i < |r| ==> r[i].groupKey == groups[i]
    ensures forall i :: 0 <= i < |r| ==> r[i].roles == QualString(eq, "role")
    ensures forall i :: 0 <= i < |r| ==> r[i].maxResults <= 200 && (limit.Some? ==> r[i].maxResults <= limit.value)
    ensures forall i :: 0 <= i < |r| ==> r[i].maxResults == PageSize(200, limit)
  {
    var groupId := QualString(eq, "group_id");
    var targets := if groupId in groups then [groupId] else groups;
    var size := PageSize(200, limit);
    seq(|targets|, i requires 0 <= i < |targets| => MemberRequest(targets[i], QualString(eq, "role"), size))
  }

  /** The per-group listing type-asserts its error to a Google API error;
      anything else would panic. */
  predicate ApiErrorOnly<T>(r: Streamed<T>)
  {
    r.err.Some? ==> r.err.value.ApiError?
  }

  /** A per-group error that is recorded: anything but a 404. */
  predicate IsRecorded<T>(r: Streamed<T>)
    requires ApiErrorOnly(r)
  {
    r.err.Some? && r.err.value.code != 404
  }

  /** The index of the first group whose error was recorded, or
      `|results|`. */
  function FirstRecorded(results: seq<Streamed<Member>>): (k: nat)
    requires forall i :: 0 <= i < |results| ==> ApiErrorOnly(results[i])
    ensures k <= |results|
    ensures forall j :: 0 <= j < k ==> !IsRecorded(results[j])
    ensures k < |results| ==> IsRecorded(results[k])
  {
    if results == [] || IsRecorded(results[0]) then 0 else 1 + FirstRecorded(results[1..])
  }

  /** Every member a per-group listing delivered, group after group. */
  function AllRows(results: seq<Streamed<Member>>): seq<Member>
  {
    if results == [] then [] else results[0].rows + AllRows(results[1..])
  }

  /** What the member listing hands to the host before the table's
      classifier is applied. */
  datatype MemberListing = MemberListing(rows: seq<Member>, err: Option<Error>)

  /** The tail of `listDirectoryGroupMembers`: the first recorded error,
      with no rows; otherwise every delivered member is streamed, stopping
      right after the row at which the host reports no rows remaining.
      `remaining(n)` is what the host reports once `n` rows are streamed. */
  function CollectMembers(results: seq<Streamed<Member>>, remaining: nat -> int): (r: MemberListing)
    requires forall i :: 0 <= i < |results| ==> ApiErrorOnly(results[i])
    ensures r.err.Some? ==> r.rows == []
    ensures r.err.Some? ==> exists i :: 0 <= i < |results| && IsRecorded(results[i]) && r.err == results[i].err
                                        && forall j :: 0 <= j < i ==> !IsRecorded(results[j])
    ensures r.err.None? ==> forall i :: 0 <= i < |results| ==> !IsRecorded(results[i])
    ensures r.err.None? ==> |r.rows| <= |AllRows(results)| && r.rows == AllRows(results)[..|r.rows|]
    ensures r.err.None? ==> forall m :: 0 < m < |r.rows| ==> remaining(m) != 0
    ensures r.err.None? && |r.rows| < |AllRows(results)| ==> |r.rows| > 0 && remaining(|r.rows|) == 0
  {
    var k := FirstRecorded(results);
    if k < |results| then MemberListing([], results[k].err)
    else MemberListing(DrainRows(AllRows(results), remaining), None)
  }

  /** The loop over `serviceCh`: the received members in order, stopping
      right after the row at which the host reports no rows remaining. */
  function DrainRows(all: seq<Member>, remaining: nat -> int): (r: seq<Member>)
    ensures |r| <= |all| && r == all[..|r|]
    ensures forall m :: 0 < m < |r| ==> remaining(m) != 0
    ensures |r| < |all| ==> |r| > 0 && remaining(|r|) == 0
  {
    var stop := (m: nat) => remaining(m) == 0;
    var n := FirstCancel(all, stop, 0);
    assert forall m: nat :: stop(m) == (remaining(m) == 0);
    assert forall m :: 0 < m <= n ==> remaining(m) != 0;
    if n < |all| then all[..n + 1] else all
  }

  /** However the pages of the groups interleave on the channel, the
      members received are a reordering of one another: the number of rows
      streamed is then the same, and when the host never runs out of rows
      so is the multiset of streamed members. Which members make up a
      limited prefix does depend on the interleaving. */
  lemma InterleavedDrain(x: seq<Member>, y: seq<Member>, remaining: nat -> int)
    requires multiset(x) == multiset(y)
    ensures |DrainRows(x, remaining)| == |DrainRows(y, remaining)|
    ensures (forall n :: remaining(n) != 0) ==> multiset(DrainRows(x, remaining)) == multiset(DrainRows(y, remaining))
  {
  }

  /** The result of every issued member listing, in request order. */
  function GroupResults(fetch: MemberRequest -> seq<PageReply<Member>>, requests: seq<MemberRequest>): (r: seq<Streamed<Member>>)
    ensures |r| == |requests|
    ensures forall i :: 0 <= i < |r| ==> r[i] == StreamEvery(fetch(requests[i]))
  {
    seq(|requests|, i requires 0 <= i < |requests| => StreamEvery(fetch(requests[i])))
  }

  /** The member listings issued for the group replies `groupReplies`:
      none when the group listing fails. */
  function PlannedRequests(eq: EqualsQuals, limit: Option<int>, groupReplies: seq<PageReply<Group>>): seq<MemberRequest>
  {
    match GroupIdsForMembers(groupReplies)
    case Ok(ids) => MemberRequests(ids, eq, limit)
    case Err(_) => []
  }

  /** The allow-list of the table's `ShouldIgnoreError`. */
  const MemberIgnoredCodes: seq<string> := ["404"]

  /** One run of `listDirectoryGroupMembers`. */
  datatype MemberRun = MemberRun(groupsRequest: ListRequest, requests: seq<MemberRequest>, rows: seq<Member>, err: Option<Error>)

  /** `listDirectoryGroupMembers` against the group listing's replies
      `groupReplies`, the replies `fetch(q)` of each member listing `q`
      and the host's remaining-rows signal. */
  function ListGroupMembers(eq: EqualsQuals, limit: Option<int>, groupReplies: seq<PageReply<Group>>,
                            fetch: MemberRequest -> seq<PageReply<Member>>, remaining: nat -> int): (r: MemberRun)
    requires var planned := PlannedRequests(eq, limit, groupReplies);
             forall i :: 0 <= i < |planned| ==> ApiErrorOnly(StreamEvery(fetch(planned[i])))
    ensures r.groupsRequest == MemberGroupsRequest(eq)
    ensures !AllPages(groupReplies) ==> r.requests == [] && r.rows == [] && r.err.None?
    ensures AllPages(groupReplies) ==> r.requests == MemberRequests(GroupIds(PageItems(groupReplies)), eq, limit)
    ensures AllPages(groupReplies) ==> r.rows == CollectMembers(GroupResults(fetch, r.requests), remaining).rows
    ensures AllPages(groupReplies) ==>
              r.err == SettleError(MemberIgnoredCodes, CollectMembers(GroupResults(fetch, r.requests), remaining).err)
  {
    match GroupIdsForMembers(groupReplies)
    case Err(_) => MemberRun(MemberGroupsRequest(eq), [], [], None)
    case Ok(ids) =>
      var requests := MemberRequests(ids, eq, limit);
      var listing := CollectMembers(GroupResults(fetch, requests), remaining);
      MemberRun(MemberGroupsRequest(eq), requests, listing.rows, SettleError(MemberIgnoredCodes, listing.err))
  }

  lemma {:induction false} AllRowsAppend(a: seq<Streamed<Member>>, b: seq<Streamed<Member>>)
    ensures AllRows(a + b) == AllRows(a) + AllRows(b)
  {
    if a != [] {
      assert (a + b)[0] == a[0];
      assert (a + b)[1..] == a[1..] + b;
      AllRowsAppend(a[1..], b);
      assert a[0].rows + (AllRows(a[1..]) + AllRows(b)) == (a[0].rows + AllRows(a[1..])) + AllRows(b);
    } else {
      assert a + b == b;
    }
  }

  /** Taking one group's result out of the fold takes exactly its members
      out of the delivered rows. */
  lemma AllRowsRemove(b: seq<Streamed<Member>>, j: nat)
    requires j < |b|
    ensures multiset(AllRows(b)) == multiset(AllRows(b[..j] + b[j + 1..])) + multiset(b[j].rows)
  {
    var p, x, q := b[..j], b[j], b[j + 1..];
    assert b == p + ([x] + q);
    assert b[..j] + b[j + 1..] == p + q;
    AllRowsAppend(p, [x] + q);
    AllRowsCons(x, q);
    AllRowsAppend(p, q);
    MultisetMiddle(AllRows(p), x.rows, AllRows(q));
  }

  lemma AllRowsCons(x: Streamed<Member>, q: seq<Streamed<Member>>)
    ensures AllRows([x] + q) == x.rows + AllRows(q)
  {
    assert ([x] + q)[0] == x;
    assert ([x] + q)[1..] == q;
  }

  /** Taking out one element of equal multisets keeps them equal. */
  lemma RemoveMatching(a: seq<Streamed<Member>>, b: seq<Streamed<Member>>, j: nat)
    requires multiset(a) == multiset(b) && a != [] && j < |b| && b[j] == a[0]
    ensures multiset(a[1..]) == multiset(b[..j] + b[j + 1..])
  {
    var p, q := b[..j], b[j + 1..];
    assert b == p + [b[j]] + q;
    assert multiset(b) == multiset(p) + multiset{b[j]} + multiset(q);
    assert multiset(p + q) == multiset(p) + multiset(q);
    assert a == [a[0]] + a[1..];
    assert multiset(a) == multiset{a[0]} + multiset(a[1..]);
    forall y ensures multiset(a[1..])[y] == multiset(p + q)[y] {
      assert multiset(a)[y] == multiset(b)[y];
    }
  }

  /** The members delivered do not depend on the order in which the groups'
      results arrive. */
  lemma {:induction false} AllRowsPermutation(a: seq<Streamed<Member>>, b: seq<Streamed<Member>>)
    requires multiset(a) == multiset(b)
    ensures multiset(AllRows(a)) == multiset(AllRows(b))
    decreases |a|
  {
    if a == [] {
      assert |b| == |multiset(b)| == 0;
    } else {
      assert a[0] in multiset(b);
      var j :| 0 <= j < |b| && b[j] == a[0];
      RemoveMatching(a, b, j);
      AllRowsPermutation(a[1..], b[..j] + b[j + 1..]);
      AllRowsRemove(b, j);
    }
  }

  /** Whether the listing fails, and — when the host never runs out of
      rows — which members it streams, do not depend on the order in
      which the groups' results arrive. */
  lemma ArrivalOrderIrrelevant(a: seq<Streamed<Member>>, b: seq<Streamed<Member>>, remaining: nat -> int)
    requires multiset(a) == multiset(b)
    requires forall i :: 0 <= i < |a| ==> ApiErrorOnly(a[i])
    requires forall i :: 0 <= i < |b| ==> ApiErrorOnly(b[i])
    ensures CollectMembers(a, remaining).err.Some? <==> CollectMembers(b, remaining).err.Some?
    ensures (forall n :: remaining(n) != 0) ==>
              multiset(CollectMembers(a, remaining).rows) == multiset(CollectMembers(b, remaining).rows)
  {
    forall i | 0 <= i < |a| && IsRecorded(a[i])
      ensures CollectMembers(b, remaining).err.Some?
    {
      assert a[i] in multiset(b);
    }
    forall i | 0 <= i < |b| && IsRecorded(b[i])
      ensures CollectMembers(a, remaining).err.Some?
    {
      assert b[i] in multiset(a);
    }
    AllRowsPermutation(a, b);
  }

  /** `getDirectoryGroupMember`: the member id is the hydrated item's when
      there is one, else the `id` qualifier; no lookup unless both the
      group id and the member id are non-blank. */
  function GetGroupMember(item: Option<Member>, eq: EqualsQuals, fetch: (string, string) -> Reply<Member>):
    (r: GetRun<(string, string), Member>)
    ensures var memberId := if item.Some? then item.value.id else QualString(eq, "id");
            && (r.calls == [] <==> QualString(eq, "group_id") == "" || memberId == "")
            && (r.calls != [] ==> r.calls == [(QualString(eq, "group_id"), memberId)])
    ensures r.calls == [] ==> r.outcome == NoItem
    ensures |r.calls| == 1 && fetch(r.calls[0].0, r.calls[0].1).Err? ==> r.outcome == GetFailed(fetch(r.calls[0].0, r.calls[0].1).error)
    ensures |r.calls| == 1 && fetch(r.calls[0].0, r.calls[0].1).Ok? ==> r.outcome == Item(fetch(r.calls[0].0, r.calls[0].1).value)
  {
    var groupId := QualString(eq, "group_id");
    var memberId := if item.Some? then item.value.id else QualString(eq, "id");
    var key := if groupId == "" || memberId == "" then None else Some((groupId, memberId));
    Lookup(key, (k: (string, string)) => fetch(k.0, k.1))
  }
}

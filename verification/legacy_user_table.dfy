/**
 The older `google_directory_user` table, the one the plugin registers: an
 unfiltered listing of the caller's own account that never checks for
 cancellation, and a `Users.Get` by id or primary email. It has no error
 classifier, so every upstream error reaches the host unchanged.
 */
module LegacyUserTable {
  import opened Common
  import opened Paging
  import opened UserTable

  /** The request of the legacy listing: `my_customer`, no query, the
      API's default page size. */
  const LegacyUserRequest: ListRequest := ListRequest(MyCustomer, None, None)

  /** The legacy `listDirectoryUsers` against upstream replies `replies`:
      every user of every page, in page order, until a request fails. */
  function LegacyListUsers(replies: seq<PageReply<User>>): (r: ListRun<User>)
    ensures r.request.customer == MyCustomer && r.request.query.None? && r.request.maxResults.None?
    ensures !r.result.cancelled
    ensures r.result.err.None? ==> AllPages(replies) && r.result.rows == PageItems(replies)
    ensures r.result.err.Some? ==> FailedAt(replies, r.result.fetched, r.result.err.value)
                                   && r.result.rows == PageItems(replies[..r.result.fetched - 1])
  {
    ListRun(LegacyUserRequest, StreamEvery(replies))
  }

  /** When the host never cancels, the filtered table with no qualifiers
      streams exactly the users the legacy table streams, and fails with
      the same error unless its classifier ignores it. */
  lemma LegacyMatchesUnfilteredListing(order: seq<UserColumn>, limit: Option<int>,
                                       replies: seq<PageReply<User>>, cancelled: nat -> bool)
    requires IsColumnOrder(order)
    requires forall n :: !cancelled(n)
    ensures ListUsers(map[], map[], order, limit, replies, cancelled).result.rows == LegacyListUsers(replies).result.rows
    ensures ListUsers(map[], map[], order, limit, replies, cancelled).result.err
            == SettleError(UserIgnoredCodes, LegacyListUsers(replies).result.err)
  {
    NeverCancelledStreamsEverything(replies, cancelled, 0);
  }

  /** The legacy `getDirectoryUser`: no lookup when id and primary_email
      are both blank; otherwise one `Users.Get` by id, or by primary_email
      when id is blank; its error is returned unchanged. */
  function LegacyGetUser(eq: EqualsQuals, fetch: string -> Reply<User>): (r: GetRun<string, User>)
    ensures QualString(eq, "id") == "" && QualString(eq, "primary_email") == "" ==> r == GetRun([], NoItem)
    ensures QualString(eq, "id") != "" ==> r.calls == [QualString(eq, "id")]
    ensures QualString(eq, "id") == "" && QualString(eq, "primary_email") != "" ==> r.calls == [QualString(eq, "primary_email")]
    ensures |r.calls| == 1 && fetch(r.calls[0]).Err? ==> r.outcome == GetFailed(fetch(r.calls[0]).error)
    ensures |r.calls| == 1 && fetch(r.calls[0]).Ok? ==> r.outcome == Item(fetch(r.calls[0]).value)
  {
    Lookup(PreferredKey(QualString(eq, "id"), QualString(eq, "primary_email")), fetch)
  }
}

/**
 The `googledirectory_group` table: the search query and request its list
 dispatcher sends, its cancellable paging, its 404 ignore rule and the key
 its get dispatcher looks up. The member table builds its group listing
 with the same query rules.
 */
module GroupTable {
  import opened Common
  import opened Paging

  /** A group as the listing streams it; the rest of its fields pass
      through unexamined. */
  datatype Group = Group(id: string, email: string, name: string)

  /** The query that asks for every group: the Directory API rejects an
      empty one. */
  const AllGroups: string := "name:**"

  /** `name='<v>'`, the value unescaped. */
  function NameClause(v: string): (r: string)
    ensures |r| == |v| + 7
    ensures r[..6] == "name='" && r[|r| - 1] == '\''
    ensures r[6..|r| - 1] == v
  {
    "name='" + v + "'"
  }

  /** The group search query: a non-blank `query` qualifier as is;
      otherwise a name clause when a `name` qualifier is present (even a
      blank one); otherwise every group. */
  function GroupQuery(eq: EqualsQuals): (r: string)
    ensures r != ""
    ensures QualString(eq, "query") != "" ==> r == QualString(eq, "query")
    ensures QualString(eq, "query") == "" && "name" in eq ==> r == NameClause(StringOf(eq["name"]))
    ensures QualString(eq, "query") == "" && "name" !in eq ==> r == AllGroups
  {
    var filter := if "name" in eq then [NameClause(StringOf(eq["name"]))] else [];
    var queryFilter := QualString(eq, "query");
    var query := if queryFilter != "" then queryFilter
                 else if |filter| > 0 then Join(filter, " ")
                 else "";
    if query == "" then AllGroups else query
  }

  /** The catch-all query is sent exactly when it is the `query`
      qualifier itself, or when neither a non-blank query nor a name
      qualifier narrows the listing. */
  lemma AllGroupsIff(eq: EqualsQuals)
    ensures GroupQuery(eq) == AllGroups <==>
              QualString(eq, "query") == AllGroups || (QualString(eq, "query") == "" && "name" !in eq)
  {
    if QualString(eq, "query") == "" && "name" in eq {
      var r := GroupQuery(eq);
      assert r[4] == '=' != AllGroups[4];
    }
  }

  /** The request `listDirectoryGroups` sends. */
  function GroupListRequest(eq: EqualsQuals, limit: Option<int>): (r: ListRequest)
    ensures "customer_id" !in eq ==> r.customer == MyCustomer
    ensures "customer_id" in eq ==> r.customer == StringOf(eq["customer_id"])
    ensures r.query == Some(GroupQuery(eq))
    ensures r.maxResults.Some? && r.maxResults.value <= 200
    ensures limit.Some? ==> r.maxResults.value <= limit.value
    ensures r.maxResults.value == 200 || (limit.Some? && r.maxResults.value == limit.value)
  {
    ListRequest(CustomerId(OptionalString(eq, "customer_id")), Some(GroupQuery(eq)), Some(PageSize(200, limit)))
  }

  /** The allow-list of the table's `ShouldIgnoreError`. */
  const GroupIgnoredCodes: seq<string> := ["404"]

  /** `listDirectoryGroups` against upstream replies `replies` and the
      host's cancellation signal. */
  function ListGroups(eq: EqualsQuals, limit: Option<int>, replies: seq<PageReply<Group>>,
                      cancelled: nat -> bool): (r: ListRun<Group>)
    ensures r.request == GroupListRequest(eq, limit)
    ensures r.result.rows == StreamPages(replies, cancelled).rows
    ensures r.result.fetched == StreamPages(replies, cancelled).fetched
    ensures r.result.cancelled == StreamPages(replies, cancelled).cancelled
    ensures r.result.err == SettleError(GroupIgnoredCodes, StreamPages(replies, cancelled).err)
  {
    ListRun(GroupListRequest(eq, limit), Settle(GroupIgnoredCodes, StreamPages(replies, cancelled)))
  }

  /** `getDirectoryGroup`: no lookup when id and email are both blank;
      otherwise one `Groups.Get` by id, or by email when id is blank; its
      error is returned unchanged. */
  function GetGroup(eq: EqualsQuals, fetch: string -> Reply<Group>): (r: GetRun<string, Group>)
    ensures QualString(eq, "id") == "" && QualString(eq, "email") == "" ==> r == GetRun([], NoItem)
    ensures QualString(eq, "id") != "" ==> r.calls == [QualString(eq, "id")]
    ensures QualString(eq, "id") == "" && QualString(eq, "email") != "" ==> r.calls == [QualString(eq, "email")]
    ensures |r.calls| == 1 && fetch(r.calls[0]).Err? ==> r.outcome == GetFailed(fetch(r.calls[0]).error)
    ensures |r.calls| == 1 && fetch(r.calls[0]).Ok? ==> r.outcome == Item(fetch(r.calls[0]).value)
  {
    Lookup(PreferredKey(QualString(eq, "id"), QualString(eq, "email")), fetch)
  }
}

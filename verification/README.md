# Google Directory connector: request shaping and error classification

This project models the pure logic of the Steampipe Google Directory
connector in Dafny and proves properties of it. The modelled logic turns a
query's qualifiers into the upstream Directory API request, drives the
paged listings, and decides which upstream errors the host treats as
"no rows".

- `Common` (common.dfy) holds the shared vocabulary:
  - qualifier values read the way nil-safe protobuf getters read them;
  - the `my_customer` default and the `min(cap, LIMIT)` page size;
  - the "id before email/path, nothing when both blank" get-key rule and the single get call.
- `Decimal` (decimal.dfy) is `types.ToString` on a status code. Its texts are injective, and only 403 prints as "403" and only 404 as "404".
- `NotFound` (not_found.dfy) is `isNotFoundError`:
  - the 403 "API has not been used in project N before or it is disabled." pattern, as a declarative predicate plus a deterministic matcher proved equivalent to it;
  - the code allow-list;
  - the corrected classifier (see Findings).
- `Paging` (paging.dfy) is the paging loop of a list dispatcher:
  - upstream replies are an oracle sequence of pages or failures;
  - host cancellation is an oracle over the number of rows streamed;
  - the host's `ShouldIgnoreError` handling is applied to the returned error.
- `UserTable` (user_table.dfy) is `googledirectory_user`:
  - equality clauses, built over an arbitrary Go map iteration order;
  - `<>` clauses on the boolean columns;
  - the `query` override, the request, the cancellable listing and the get by id or primary email.
- `LegacyUserTable` (legacy_user_table.dfy) is the older `google_directory_user` table. It lists the whole account unfiltered and never checks cancellation.
- `GroupTable` (group_table.dfy) is `googledirectory_group`: the `name='…'` / `query` / `name:**` query, the request, the listing and the get.
- `GroupMemberTable` (group_member_table.dfy) is `googledirectory_group_member`:
  - the group listing, then narrowing to `group_id`;
  - one member listing per group, each with the same role and page size;
  - "first recorded error wins, else stream until no rows remain", as a sequential fold over per-group results;
  - the composite get key.
- `OrgUnitTable` (org_unit_table.dfy) is `googledirectory_org_unit`: one unpaged list for `my_customer`, and the get by id or path.

The upstream API, the host's cancellation and remaining-rows signals, and
Go's map iteration order are parameters of the model.

googledirectory/plugin.go:30-31 registers only the legacy
`google_directory_user` table. The other tables are modelled as their
source files define them.

Three behaviours of the code are easy to misread; the model follows the code:
- The `name` and `customer_id` qualifiers count when present, even when blank. A blank `name` still yields `name=''`, and a blank `customer_id` is sent as is.
- `buildUserBoolNEFilter` stops at the first `<>` qualifier of each column, because the `break` leaves the qualifier loop.
- The tables use the classifier as written, whose disabled-API pattern rejects the Directory API's own message (see Findings). The corrected classifier is modelled alongside it, and the two are proved to agree on everything but the 403 texts the correction adds.

## Model

| member | source | states |
|---|---|---|
| Common.CustomerId | googledirectory/table_googledirectory_group.go:141-145 | the customer is `my_customer` when no `customer_id` qualifier is present, otherwise the qualifier's value, even a blank one |
| Common.PageSize | googledirectory/table_googledirectory_user.go:350-358 | the page size never exceeds the API maximum or the host's LIMIT, and is one of the two |
| Common.PreferredKey | googledirectory/table_googledirectory_group.go:187-200 | no key iff both key qualifiers are blank; a chosen key is non-blank, is one of the two, and is the preferred one whenever that is non-blank |
| Common.Lookup | googledirectory/table_googledirectory_group.go:191-207 | no upstream call and no item without a key; otherwise exactly one call with that key, whose error is returned unchanged or whose item is returned |
| Decimal.Text403 | googledirectory/not_found.go:16 | the status text equals "403" exactly for code 403 |
| Decimal.Text404 | googledirectory/not_found.go:21 | the status text equals "404" exactly for code 404 |
| NotFound.DisabledApiText | googledirectory/not_found.go:18-19 | the hand-written matcher accepts a message iff it contains, somewhere, `googleapi: Error 403: `, a non-empty run without whitespace, ` API has not been used in project `, a non-empty run of digits and ` before or it is disabled.` |
| NotFound.IsNotFoundError | googledirectory/not_found.go:13-25 | errors that are not Google API errors are never ignored; a 403 is ignored iff its message matches the disabled-API pattern; any other code iff its decimal text is in the allow-list |
| NotFound.Listing403HasNoEffect | googledirectory/not_found.go:16-21 | adding "403" to the allow-list never changes the verdict |
| NotFound.AdminSdkDisabledPropagates | googledirectory/not_found.go:18-19 | the Directory API's own disabled message ("Admin SDK API has not been used …") is not ignored by the pattern as written, whatever the allow-list |
| NotFound.IsNotFoundErrorIntended | googledirectory/not_found.go:13-25 | as the source's classifier, but a 403 is ignored iff its message mentions a disabled API under any service name without a newline |
| NotFound.IntendedExtendsSource | googledirectory/not_found.go:16-21 | everything the source ignores the corrected classifier ignores, and the two agree on every code other than 403 |
| NotFound.AdminSdkDisabledIgnoredAsIntended | googledirectory/not_found.go:18-19 | the corrected classifier ignores the Directory API's own disabled message |
| NotFound.Only404Ignored | googledirectory/table_googledirectory_group.go:37 | with the allow-list ["404"], an API error is ignored iff it is a 404, or a 403 whose message matches the pattern as written (a service name without whitespace) |
| NotFound.Only404IgnoredIntended | googledirectory/not_found.go:13-25 | with the corrected classifier and the allow-list ["404"], an API error is ignored iff it is a 404 or a 403 mentioning a disabled API under any service name |
| Paging.FirstCancel | googledirectory/table_googledirectory_user.go:362-369 | within one page, streaming stops right after the first row after which cancellation is observed, and no earlier row saw cancellation |
| Paging.StreamFrom | googledirectory/table_googledirectory_user.go:360-374 | a listing either fails at the first failed page request, with the rows of the earlier pages streamed, or streams every row of every page, or stops inside the page where cancellation was first observed, requesting no further page |
| Paging.StreamEvery | googledirectory/table_google_directory_user.go:206-214 | without a cancellation check, every row of every page is streamed until the first failed request, whose error is returned |
| Paging.NeverCancelledStreamsEverything | googledirectory/table_googledirectory_user.go:361-370 | when the host never cancels, the cancellable loop behaves exactly as the loop without a check |
| Paging.SettleError | googledirectory/table_googledirectory_group.go:37 | a returned error reaches the host iff the classifier as written does not ignore it, and then unchanged |
| Paging.SettleErrorIntended | googledirectory/not_found.go:13-25 | a returned error reaches the host iff the corrected classifier does not ignore it, and then unchanged |
| Paging.IntendedSettlesMore | googledirectory/not_found.go:16-21 | whatever reaches the host under the corrected classifier reaches it under the one as written, and the two settle alike unless the error is a 403 |
| Paging.Settle | googledirectory/table_googledirectory_user.go:60 | the host's error handling leaves the streamed rows, the requests made and the cancellation untouched |
| Paging.NotFoundFirstPageIsEmpty | googledirectory/table_googledirectory_group.go:37 | a listing whose first request fails with 404 ends with no rows and no error for a table ignoring 404 |
| UserTable.ClauseColumnOfClause | googledirectory/table_googledirectory_user.go:416-431 | every equality clause reads back to the column it was built for, so the column-to-field mapping is injective |
| UserTable.QualifiedColumns | googledirectory/table_googledirectory_user.go:425-426 | a column is visited with a clause iff it is in the iteration order and has an equality qualifier, and none is visited twice |
| UserTable.EqualsFilter | googledirectory/table_googledirectory_user.go:413-435 | one clause per qualified column, in iteration order, each that column's `<field>=<bool>` or `<field>='<value>'` clause; no clause is repeated |
| UserTable.EqualsClauseInjective | googledirectory/table_googledirectory_user.go:416-431 | clauses of distinct columns differ whatever their values |
| UserTable.EqualsFilterMembers | googledirectory/table_googledirectory_user.go:425-433 | a clause is in the equality filter iff it is the clause of a visited column that has an equality qualifier |
| UserTable.EqualsFilterOrderIndependent | googledirectory/table_googledirectory_user.go:425 | any two iteration orders of the column map give the same clauses up to order |
| UserTable.EqualsFilterExactlyQualified | googledirectory/table_googledirectory_user.go:425-433 | exactly one clause for each column with an equality qualifier, and none for a column without one |
| UserTable.EqualsFilterWith | googledirectory/table_googledirectory_user.go:425-433 | setting the equality qualifier of one column adds exactly that column's clause to the filter without it |
| UserTable.EqualsFilterEmptyIff | googledirectory/table_googledirectory_user.go:425-434 | no equality clause iff no mapped column has an equality qualifier |
| UserTable.FirstNotEqual | googledirectory/table_googledirectory_user.go:448-460 | the value of the first `<>` qualifier of a column, and none iff it has no `<>` qualifier |
| UserTable.NotEqualClause | googledirectory/table_googledirectory_user.go:446-462 | no negated clause iff the column has no `<>` qualifier; otherwise exactly `<field>=` the negation of the first `<>` value |
| UserTable.NegatedColumns | googledirectory/table_googledirectory_user.go:439-447 | the columns contributing a negated clause are exactly the boolean columns with a `<>` qualifier, in the fixed order is_admin, is_delegated_admin, suspended |
| UserTable.NotEqualFilter | googledirectory/table_googledirectory_user.go:437-465 | clause i is the negated clause of the i-th contributing column, so the clauses follow the order is_admin, is_delegated_admin, suspended; a clause is present iff it is the negated clause of a boolean column with a `<>` qualifier; none is repeated |
| UserTable.NotEqualFilterUnrolled | googledirectory/table_googledirectory_user.go:445-463 | the negated clauses are is_admin's, then is_delegated_admin's, then suspended's, each column's own at most one |
| UserTable.NotEqualFilterIgnoresOthers | googledirectory/table_googledirectory_user.go:449-450 | qualifiers with any operator other than `<>` contribute nothing to the negated clauses |
| UserTable.NotEqualFilterEmptyIff | googledirectory/table_googledirectory_user.go:446-463 | no negated clause iff no boolean column has a `<>` qualifier |
| UserTable.NotEqualFilterWith | googledirectory/table_googledirectory_user.go:446-462 | a single `<> !b` on a boolean column, instead of a single `= b`, adds exactly `<field>=b` to the negated clauses |
| UserTable.UserFilterNonBlank | googledirectory/table_googledirectory_user.go:413-465 | no derived clause is blank |
| UserTable.NotEqualMatchesEquals | googledirectory/table_googledirectory_user.go:427-457 | `col = b` and `col <> !b` on a boolean column yield the same derived clauses, up to order |
| UserTable.UserQuery | googledirectory/table_googledirectory_user.go:330-342 | a non-blank `query` qualifier is sent as is; otherwise the derived clauses joined by single spaces |
| UserTable.UserQueryEmptyIff | googledirectory/table_googledirectory_user.go:330-342 | the query sent is blank iff the `query` qualifier is blank, no mapped column has an equality qualifier and no boolean column has a `<>` qualifier |
| UserTable.UserListRequest | googledirectory/table_googledirectory_user.go:344-360 | the customer default, the chosen query, and a page size of at most 500 and at most LIMIT |
| UserTable.ListUsers | googledirectory/table_googledirectory_user.go:360-374 | the listing sends that request and streams as the cancellable loop does, reporting cancellation as that loop does; its error reaches the host unless the ["404"] classifier as written ignores it |
| UserTable.DisabledDirectoryFailsListing | googledirectory/table_googledirectory_user.go:60 | a user listing whose first request fails with the Directory API's disabled message streams nothing and hands that 403 to the host, where the corrected classifier would have ignored it |
| UserTable.GetUser | googledirectory/table_googledirectory_user.go:390-410 | no lookup when id and primary_email are blank; otherwise one lookup by id, or by primary_email when id is blank; its error is returned unchanged |
| LegacyUserTable.LegacyListUsers | googledirectory/table_google_directory_user.go:206-216 | customer `my_customer`, no query, no page size; every user of every page in order until a failed request, whose error is returned; never cancelled |
| LegacyUserTable.LegacyMatchesUnfilteredListing | googledirectory/table_google_directory_user.go:206-214 | with no qualifiers and no cancellation, the filtered table streams the same users as the legacy one, and fails with the same error unless it ignores it |
| LegacyUserTable.LegacyGetUser | googledirectory/table_google_directory_user.go:230-250 | no lookup when id and primary_email are blank; otherwise one lookup by id, or by primary_email; its error is returned unchanged |
| GroupTable.NameClause | googledirectory/table_googledirectory_group.go:123 | the clause is `name='…'` around the unescaped value, which reads back from it |
| GroupTable.GroupQuery | googledirectory/table_googledirectory_group.go:119-139 | the query is never empty: a non-blank `query` qualifier wins, else the name clause when `name` is present, else `name:**` |
| GroupTable.AllGroupsIff | googledirectory/table_googledirectory_group.go:126-139 | `name:**` is sent iff it is the `query` qualifier itself or neither a non-blank query nor a name qualifier is given |
| GroupTable.GroupListRequest | googledirectory/table_googledirectory_group.go:141-157 | the customer default, the group query, and a page size of at most 200 and at most LIMIT |
| GroupTable.ListGroups | googledirectory/table_googledirectory_group.go:157-173 | the listing sends that request and streams as the cancellable loop does; its error reaches the host unless the ["404"] classifier as written ignores it |
| GroupTable.GetGroup | googledirectory/table_googledirectory_group.go:187-207 | no lookup when id and email are blank; otherwise one lookup by id, or by email when id is blank; its error is returned unchanged |
| GroupMemberTable.MemberGroupsRequest | googledirectory/table_googledirectory_group_member.go:220-252 | the group listing uses the group table's customer and query rules and always pages of 200 |
| GroupMemberTable.GroupIdsForMembers | googledirectory/table_googledirectory_group_member.go:252-261 | the ids of every listed group in order when every page request succeeds, otherwise a failure from a failed request |
| GroupMemberTable.MemberRequests | googledirectory/table_googledirectory_group_member.go:140-169 | only the `group_id` group when it is among the listed groups, otherwise every listed group; every request carries the `role` qualifier and a page size of at most 200 and at most LIMIT |
| GroupMemberTable.FirstRecorded | googledirectory/table_googledirectory_group_member.go:201-209 | the first group whose listing failed with anything but 404 |
| GroupMemberTable.CollectMembers | googledirectory/table_googledirectory_group_member.go:179-193 | a recorded error is returned with no rows; otherwise the delivered members are streamed in order, stopping right after the first row after which no rows remain |
| GroupMemberTable.ListGroupMembers | googledirectory/table_googledirectory_group_member.go:126-195 | a failed group listing gives no member requests, no rows and no error; otherwise the planned requests are issued and their results collected, with the ["404"] classifier as written applied to the error |
| GroupMemberTable.AllRowsPermutation | googledirectory/table_googledirectory_group_member.go:184-193 | the members delivered are the same, up to order, whatever order the groups' results arrive in |
| GroupMemberTable.ArrivalOrderIrrelevant | googledirectory/table_googledirectory_group_member.go:162-193 | whether the listing fails, and which members it streams when rows never run out, does not depend on the order in which whole per-group results are folded |
| GroupMemberTable.DrainRows | googledirectory/table_googledirectory_group_member.go:184-193 | the members streamed are a prefix of those received, ending right after the first row after which no rows remain, or all of them |
| GroupMemberTable.GetGroupMember | googledirectory/table_googledirectory_group_member.go:276-293 | the member id comes from the hydrated item when there is one, else from `id`; one lookup of (group id, member id) iff both are non-blank; its error is returned unchanged |
| OrgUnitTable.ListOrgUnits | googledirectory/table_googledirectory_org_unit.go:82-91 | always `my_customer`; on success every unit in order and no error, on failure no rows and the error unchanged |
| OrgUnitTable.ListOrgUnitsIsOnePage | googledirectory/table_googledirectory_org_unit.go:82-89 | the unpaged list behaves as the paging loop on a one-page listing |
| OrgUnitTable.GetOrgUnit | googledirectory/table_googledirectory_org_unit.go:105-125 | no lookup when org_unit_id and org_unit_path are blank; otherwise one lookup for `my_customer` by id, or by path when id is blank; its error is returned unchanged |

## Left out

- Service construction (googledirectory/service.go): credential files, JWT configuration, token sources and the connection cache are file I/O and foreign OAuth calls. The `AdminService` failure path of every dispatcher is left out with it.
- Configuration schema, table registration and serving (googledirectory/connection_config.go, googledirectory/plugin.go, main.go): these are host plumbing.
- The single-call tables (domain, domain alias, role, role assignment, privilege, mobile device): each is one upstream call, a `my_customer` default and a blank-key check. The privilege table's allow-list is ["403","404"]; `NotFound.Listing403HasNoEffect` shows that its "403" entry changes nothing.
- Column declarations and transforms (`FromField`, `FromQual`, `UnixMsToTimestamp`): these are declarative metadata that the host interprets.
- The HTTP transport and page tokens: the upstream is a sequence of replies, one per page request.
- `plugin.IsCancelled` and `RowsRemaining`: these are oracles over the number of rows already streamed.
- The goroutines, wait group and channels of the member fan-out: the per-group results are folded whole, in request order.
  - Each goroutine sends every page to the channel as it arrives, so pages of different groups interleave. The model does not cover page-level interleaving.
  - `GroupMemberTable.ArrivalOrderIrrelevant` covers only reorderings of whole per-group results. `GroupMemberTable.InterleavedDrain` adds that any reordering of the received members, every page interleaving among them, streams the same number of rows, and the same members when rows never run out.
  - Under a row limit, which members make up the streamed prefix depends on the interleaving. The model streams the prefix of the request-order fold, which is one possible outcome.
  - With several recorded errors, which one is returned first also depends on timing. The model returns the first in request order.
  - Both channels hold at most 2000 entries and are only drained after every goroutine finishes. More than 2000 member pages, or more than 2000 recorded errors, would block forever. This is not modelled.
- The Go regular-expression engine: the one pattern is hand-coded as a string predicate over RE2's `\s` class (tab, newline, form feed, carriage return, space).
- GroupMemberTable.ListGroupMembers requires every issued member listing's error to be a Google API error. The source type-asserts it and would panic otherwise.

## Findings

| source | as written | input that shows it | evidently intended | confidence | as-written member | corrected member |
|---|---|---|---|---|---|---|
| googledirectory/not_found.go:18-19 | the service name in the disabled-API pattern is `[^\s]+`, so it cannot contain a space | the Directory API's own message `googleapi: Error 403: Admin SDK API has not been used in project 1 before or it is disabled.` is not ignored: its service name "Admin SDK" contains a space | a disabled Directory API (and any other disabled service, whatever its name) yields an empty table, so the name should be `.+` | not executed | NotFound.AdminSdkDisabledPropagates | NotFound.AdminSdkDisabledIgnoredAsIntended |

The tables use the classifier as written. `UserTable.DisabledDirectoryFailsListing` shows the effect on a user listing whose first request meets the disabled message. `Paging.SettleErrorIntended` is the host's error handling under the corrected classifier.

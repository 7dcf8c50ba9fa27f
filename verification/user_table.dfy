/**
 The `googledirectory_user` table: how its list dispatcher turns the host's
 qualifiers into a Directory search query, customer id and page size, how
 it pages through users, and how its get dispatcher picks the lookup key.
 */
module UserTable {
  import opened Common
  import opened Paging
  import opened NotFound

  /** The six columns whose qualifiers become search clauses. */
  datatype UserColumn = FullName | FamilyName | GivenName | IsAdmin | IsDelegatedAdmin | Suspended

  /** The host's name for the column. */
  function ColumnName(c: UserColumn): string
  {
    match c
    case FullName => "full_name"
    case FamilyName => "family_name"
    case GivenName => "given_name"
    case IsAdmin => "is_admin"
    case IsDelegatedAdmin => "is_delegated_admin"
    case Suspended => "suspended"
  }

  /** The Directory search field the column maps to. */
  function SearchField(c: UserColumn): string
  {
    match c
    case FullName => "name"
    case FamilyName => "familyName"
    case GivenName => "givenName"
    case IsAdmin => "isAdmin"
    case IsDelegatedAdmin => "isDelegatedAdmin"
    case Suspended => "isSuspended"
  }

  predicate IsBoolColumn(c: UserColumn)
  {
    c.IsAdmin? || c.IsDelegatedAdmin? || c.Suspended?
  }

  /** The search field of a clause: its text up to the first '='. */
  function FieldColumn(field: string): Option<UserColumn>
  {
    if field == "name" then Some(FullName)
    else if field == "familyName" then Some(FamilyName)
    else if field == "givenName" then Some(GivenName)
    else if field == "isAdmin" then Some(IsAdmin)
    else if field == "isDelegatedAdmin" then Some(IsDelegatedAdmin)
    else if field == "isSuspended" then Some(Suspended)
    else None
  }

  /** `%t` formatting. */
  function BoolText(b: bool): string
  {
    if b then "true" else "false"
  }

  /** `<field>=true|false`. */
  function BoolClause(c: UserColumn, b: bool): string
  {
    SearchField(c) + "=" + BoolText(b)
  }

  /** What follows the '=' of an equality clause: `true|false` for a
      boolean column, `'<value>'` (unescaped) for a string column. */
  function ClauseValue(c: UserColumn, v: QualValue): string
  {
    if IsBoolColumn(c) then BoolText(BoolOf(v)) else "'" + StringOf(v) + "'"
  }

  /** The clause an equality qualifier with value `v` on column `c` gives:
      `<field>=true|false` for a boolean column, `<field>='<value>'` for a
      string column. */
  function EqualsClause(c: UserColumn, v: QualValue): string
  {
    SearchField(c) + "=" + ClauseValue(c, v)
  }

  /** The index of the first '=' in `s`, or `|s|`. */
  function FirstEquals(s: string): (r: nat)
    ensures r <= |s|
    ensures forall i :: 0 <= i < r ==> s[i] != '='
    ensures r < |s| ==> s[r] == '='
  {
    if s == [] || s[0] == '=' then 0 else 1 + FirstEquals(s[1..])
  }

  /** The column a search clause is about, read back from its field. */
  function ClauseColumn(clause: string): Option<UserColumn>
  {
    FieldColumn(clause[..FirstEquals(clause)])
  }

  /** Every clause names its own column, so reading the field back is the
      inverse of clause construction. */
  lemma ClauseColumnOfField(c: UserColumn, rest: string)
    ensures ClauseColumn(SearchField(c) + "=" + rest) == Some(c)
  {
    var f := SearchField(c);
    var x := f + "=" + rest;
    assert forall i :: 0 <= i < |f| ==> x[i] == f[i] != '=';
    assert x[|f|] == '=';
    assert FirstEquals(x) == |f|;
    assert x[..|f|] == f;
  }

  lemma ClauseColumnOfClause(c: UserColumn, v: QualValue)
    ensures ClauseColumn(EqualsClause(c, v)) == Some(c)
  {
    ClauseColumnOfField(c, ClauseValue(c, v));
  }

  /** Clauses of distinct columns differ, whatever their values. */
  lemma EqualsClauseInjective(c1: UserColumn, v1: QualValue, c2: UserColumn, v2: QualValue)
    ensures EqualsClause(c1, v1) == EqualsClause(c2, v2) ==> c1 == c2
  {
    ClauseColumnOfClause(c1, v1);
    ClauseColumnOfClause(c2, v2);
  }

  lemma BoolClauseInjective(c1: UserColumn, b1: bool, c2: UserColumn, b2: bool)
    ensures BoolClause(c1, b1) == BoolClause(c2, b2) ==> c1 == c2
  {
    ClauseColumnOfField(c1, BoolText(b1));
    ClauseColumnOfField(c2, BoolText(b2));
  }

  /** `order` lists each of the six columns exactly once: an order in which
      Go may iterate the column-to-field map. */
  ghost predicate IsColumnOrder(order: seq<UserColumn>)
  {
    NoDuplicates(order) && forall c: UserColumn :: c in order
  }

  /** Distinct columns have distinct host names. */
  lemma ColumnNameInjective(a: UserColumn, b: UserColumn)
    ensures ColumnName(a) == ColumnName(b) ==> a == b
  {
    if a != b && |ColumnName(a)| == |ColumnName(b)| {
      assert {a, b} == {FullName, Suspended};
      assert ColumnName(a)[0] != ColumnName(b)[0];
    }
  }

  /** The columns of `order` that have an equality qualifier, in order. */
  function QualifiedColumns(eq: EqualsQuals, order: seq<UserColumn>): (cols: seq<UserColumn>)
    requires NoDuplicates(order)
    ensures forall c :: c in cols <==> c in order && ColumnName(c) in eq
    ensures NoDuplicates(cols)
  {
    if order == [] then []
    else
      var rest := QualifiedColumns(eq, order[1..]);
      assert order[0] !in order[1..];
      if ColumnName(order[0]) in eq then [order[0]] + rest else rest
  }

  /** The clause of a column that has an equality qualifier. */
  function ColumnClause(eq: EqualsQuals, c: UserColumn): string
    requires ColumnName(c) in eq
  {
    EqualsClause(c, eq[ColumnName(c)])
  }

  /** The clauses of distinct columns are distinct. */
  lemma DistinctColumnsDistinctClauses(eq: EqualsQuals, cols: seq<UserColumn>, r: seq<string>)
    requires NoDuplicates(cols) && forall c :: c in cols ==> ColumnName(c) in eq
    requires |r| == |cols| && forall i :: 0 <= i < |r| ==> r[i] == ColumnClause(eq, cols[i])
    ensures NoDuplicates(r)
  {
    forall i, j | 0 <= i < j < |r|
      ensures r[i] != r[j]
    {
      EqualsClauseInjective(cols[i], eq[ColumnName(cols[i])], cols[j], eq[ColumnName(cols[j])]);
    }
  }

  /** The clauses of `cols`, in order. */
  function ColumnClauses(eq: EqualsQuals, cols: seq<UserColumn>): (r: seq<string>)
    requires forall c :: c in cols ==> ColumnName(c) in eq
    ensures |r| == |cols|
    ensures forall i :: 0 <= i < |r| ==> r[i] == ColumnClause(eq, cols[i])
  {
    if cols == [] then [] else [ColumnClause(eq, cols[0])] + ColumnClauses(eq, cols[1..])
  }

  /** `buildUserQueryFilter`, visiting the columns in `order` (a Go map's
      iteration order, which the source leaves unspecified): the clause of
      each column of `order` that has an equality qualifier, in that order,
      and no clause twice. */
  function EqualsFilter(eq: EqualsQuals, order: seq<UserColumn>): (r: seq<string>)
    requires IsColumnOrder(order)
    ensures |r| == |QualifiedColumns(eq, order)|
    ensures forall i :: 0 <= i < |r| ==> r[i] == ColumnClause(eq, QualifiedColumns(eq, order)[i])
    ensures NoDuplicates(r)
  {
    var cols := QualifiedColumns(eq, order);
    var r := ColumnClauses(eq, cols);
    DistinctColumnsDistinctClauses(eq, cols, r);
    r
  }

  /** `q` is a `<>` qualifier. */
  predicate IsNotEqual(q: Qual)
  {
    q.op == "<>"
  }

  /** The value of the first `<>` qualifier among `qs`, if there is one. */
  function FirstNotEqual(qs: seq<Qual>): (r: Option<bool>)
    ensures r.None? <==> forall i :: 0 <= i < |qs| ==> !IsNotEqual(qs[i])
    ensures r.Some? ==> exists i :: 0 <= i < |qs| && IsNotEqual(qs[i]) && BoolOf(qs[i].value) == r.value
                                   && forall j :: 0 <= j < i ==> !IsNotEqual(qs[j])
  {
    if qs == [] then None
    else if IsNotEqual(qs[0]) then Some(BoolOf(qs[0].value))
    else
      var r := FirstNotEqual(qs[1..]);
      if r.Some? then
        var i :| 0 <= i < |qs[1..]| && IsNotEqual(qs[1..][i]) && BoolOf(qs[1..][i].value) == r.value
                 && forall j :: 0 <= j < i ==> !IsNotEqual(qs[1..][j]);
        assert IsNotEqual(qs[i + 1]) && forall j :: 0 <= j < i + 1 ==> !IsNotEqual(qs[j]);
        r
      else r
  }

  /** The clause a boolean column's `<>` qualifiers give: the negation of
      the first one's value; none without a `<>` qualifier. */
  function NotEqualClause(quals: QualMap, c: UserColumn): (r: seq<string>)
    ensures r == [] <==> ColumnName(c) !in quals || FirstNotEqual(quals[ColumnName(c)]).None?
    ensures r != [] ==> r == [BoolClause(c, !FirstNotEqual(quals[ColumnName(c)]).value)]
  {
    if ColumnName(c) !in quals then []
    else match FirstNotEqual(quals[ColumnName(c)])
      case Some(v) => [BoolClause(c, !v)]
      case None => []
  }

  /** `c` is a boolean column with a `<>` qualifier. */
  predicate IsNegated(quals: QualMap, c: UserColumn)
  {
    IsBoolColumn(c) && ColumnName(c) in quals && FirstNotEqual(quals[ColumnName(c)]).Some?
  }

  /** The clause of a column with a `<>` qualifier, as a single string:
      the one element of `NotEqualClause` (see `NotEqualClauseIsNegated`).
      Every use is guarded by `IsNegated`, so the `""` given for any other
      column is never read; it only keeps the function total. */
  function NegatedClause(quals: QualMap, c: UserColumn): string
  {
    if IsNegated(quals, c) then BoolClause(c, !FirstNotEqual(quals[ColumnName(c)]).value) else ""
  }

  /** The position of a boolean column in the fixed list `buildUserBoolNEFilter`
      walks: is_admin, is_delegated_admin, suspended. */
  function NotEqualRank(c: UserColumn): nat
  {
    match c
    case IsAdmin => 0
    case IsDelegatedAdmin => 1
    case Suspended => 2
    case _ => 3
  }

  /** The columns that give a `<>` clause, in the order they are walked. */
  function NegatedColumns(quals: QualMap): (cols: seq<UserColumn>)
    ensures |cols| <= 3
    ensures forall c :: c in cols <==> IsNegated(quals, c)
    ensures forall i, j :: 0 <= i < j < |cols| ==> NotEqualRank(cols[i]) < NotEqualRank(cols[j])
  {
    (if IsNegated(quals, IsAdmin) then [IsAdmin] else [])
    + (if IsNegated(quals, IsDelegatedAdmin) then [IsDelegatedAdmin] else [])
    + (if IsNegated(quals, Suspended) then [Suspended] else [])
  }

  /** The clauses of `cols`, in order. */
  function NegatedClauses(quals: QualMap, cols: seq<UserColumn>): (r: seq<string>)
    ensures |r| == |cols|
    ensures forall i :: 0 <= i < |r| ==> r[i] == NegatedClause(quals, cols[i])
  {
    if cols == [] then []
    else
      var rest := NegatedClauses(quals, cols[1..]);
      assert forall i :: 1 <= i < |cols| ==> cols[1..][i - 1] == cols[i];
      [NegatedClause(quals, cols[0])] + rest
  }

  /** Columns in strictly increasing walk order give distinct clauses. */
  lemma RankedColumnsDistinctClauses(quals: QualMap, cols: seq<UserColumn>, r: seq<string>)
    requires forall c :: c in cols ==> IsNegated(quals, c)
    requires forall i, j :: 0 <= i < j < |cols| ==> NotEqualRank(cols[i]) < NotEqualRank(cols[j])
    requires |r| == |cols| && forall i :: 0 <= i < |r| ==> r[i] == NegatedClause(quals, cols[i])
    ensures NoDuplicates(r)
  {
    forall i, j | 0 <= i < j < |r|
      ensures r[i] != r[j]
    {
      assert cols[i] in cols && cols[j] in cols;
      BoolClauseInjective(cols[i], !FirstNotEqual(quals[ColumnName(cols[i])]).value,
                          cols[j], !FirstNotEqual(quals[ColumnName(cols[j])]).value);
    }
  }

  /** `buildUserBoolNEFilter`: clause i is the negated clause of the i-th
      column with a `<>` qualifier, the columns walked in the order
      is_admin, is_delegated_admin, suspended; so a clause is in the
      filter exactly when it is such a column's, and none appears twice. */
  function NotEqualFilter(quals: QualMap): (r: seq<string>)
    ensures |r| <= 3
    ensures |r| == |NegatedColumns(quals)|
    ensures forall i :: 0 <= i < |r| ==> r[i] == NegatedClause(quals, NegatedColumns(quals)[i])
    ensures forall c :: IsNegated(quals, c) ==> NegatedClause(quals, c) in r
    ensures forall x :: x in r ==> exists c :: IsNegated(quals, c) && x == NegatedClause(quals, c)
    ensures NoDuplicates(r)
  {
    var cols := NegatedColumns(quals);
    var r := NegatedClauses(quals, cols);
    RankedColumnsDistinctClauses(quals, cols, r);
    forall c | IsNegated(quals, c)
      ensures NegatedClause(quals, c) in r
    {
      var k :| 0 <= k < |cols| && cols[k] == c;
      assert r[k] == NegatedClause(quals, c);
    }
    forall x | x in r
      ensures exists c :: IsNegated(quals, c) && x == NegatedClause(quals, c)
    {
      var k :| 0 <= k < |r| && r[k] == x;
      assert cols[k] in cols;
    }
    r
  }

  /** The negated clause of one column, none without a `<>` qualifier. */
  lemma NotEqualClauseIsNegated(quals: QualMap, c: UserColumn)
    requires IsBoolColumn(c)
    ensures NotEqualClause(quals, c) == if IsNegated(quals, c) then [NegatedClause(quals, c)] else []
  {
  }

  /** The filter is the three columns' clauses, in the fixed order
      is_admin, is_delegated_admin, suspended. */
  lemma NotEqualFilterUnrolled(quals: QualMap)
    ensures NotEqualFilter(quals)
            == NotEqualClause(quals, IsAdmin) + NotEqualClause(quals, IsDelegatedAdmin) + NotEqualClause(quals, Suspended)
  {
    var a := if IsNegated(quals, IsAdmin) then [IsAdmin] else [];
    var d := if IsNegated(quals, IsDelegatedAdmin) then [IsDelegatedAdmin] else [];
    var s := if IsNegated(quals, Suspended) then [Suspended] else [];
    assert NegatedColumns(quals) == a + d + s;
    NegatedClausesAppend(quals, a, d);
    NegatedClausesAppend(quals, a + d, s);
    NegatedPiece(quals, IsAdmin);
    NegatedPiece(quals, IsDelegatedAdmin);
    NegatedPiece(quals, Suspended);
  }

  /** One column's share of the walk gives that column's clause. */
  lemma NegatedPiece(quals: QualMap, c: UserColumn)
    requires IsBoolColumn(c)
    ensures NegatedClauses(quals, if IsNegated(quals, c) then [c] else []) == NotEqualClause(quals, c)
  {
    NotEqualClauseIsNegated(quals, c);
    if IsNegated(quals, c) {
      assert NegatedClauses(quals, [c])[0] == NegatedClause(quals, c);
    }
  }

  lemma NegatedClausesAppend(quals: QualMap, a: seq<UserColumn>, b: seq<UserColumn>)
    requires forall c :: c in a + b ==> IsNegated(quals, c)
    ensures NegatedClauses(quals, a + b) == NegatedClauses(quals, a) + NegatedClauses(quals, b)
  {
    var l, r := NegatedClauses(quals, a + b), NegatedClauses(quals, a) + NegatedClauses(quals, b);
    assert |l| == |r|;
    forall i | 0 <= i < |l|
      ensures l[i] == r[i]
    {
      if i < |a| {
        assert (a + b)[i] == a[i];
      } else {
        assert (a + b)[i] == b[i - |a|];
      }
    }
  }

  /** The derived filter: equality clauses, then `<>` clauses. */
  function UserFilter(eq: EqualsQuals, quals: QualMap, order: seq<UserColumn>): seq<string>
    requires IsColumnOrder(order)
  {
    EqualsFilter(eq, order) + NotEqualFilter(quals)
  }

  /** The search query sent upstream: a non-blank `query` qualifier as is;
      otherwise the derived clauses joined by single spaces ("" if none). */
  function UserQuery(eq: EqualsQuals, quals: QualMap, order: seq<UserColumn>): (r: string)
    requires IsColumnOrder(order)
    ensures QualString(eq, "query") != "" ==> r == QualString(eq, "query")
    ensures QualString(eq, "query") == "" ==> r == Join(UserFilter(eq, quals, order), " ")
  {
    var queryFilter := QualString(eq, "query");
    var filter := UserFilter(eq, quals, order);
    if queryFilter != "" then queryFilter
    else if |filter| > 0 then Join(filter, " ")
    else ""
  }

  /** The request `listDirectoryUsers` sends: customer (default
      `my_customer`), query and a page size of at most 500. */
  function UserListRequest(eq: EqualsQuals, quals: QualMap, order: seq<UserColumn>, limit: Option<int>): (r: ListRequest)
    requires IsColumnOrder(order)
    ensures "customer_id" !in eq ==> r.customer == MyCustomer
    ensures "customer_id" in eq ==> r.customer == StringOf(eq["customer_id"])
    ensures r.query == Some(UserQuery(eq, quals, order))
    ensures r.maxResults.Some? && r.maxResults.value <= 500
    ensures limit.Some? ==> r.maxResults.value <= limit.value
    ensures r.maxResults.value == 500 || (limit.Some? && r.maxResults.value == limit.value)
  {
    ListRequest(CustomerId(OptionalString(eq, "customer_id")), Some(UserQuery(eq, quals, order)), Some(PageSize(500, limit)))
  }

  /** The allow-list of the table's `ShouldIgnoreError`. */
  const UserIgnoredCodes: seq<string> := ["404"]

  /** A user as the listing streams it; the rest of its fields pass through
      unexamined. */
  datatype User = User(id: string, primaryEmail: string)

  /** `listDirectoryUsers` against upstream replies `replies` and the
      host's cancellation signal. */
  function ListUsers(eq: EqualsQuals, quals: QualMap, order: seq<UserColumn>, limit: Option<int>,
                     replies: seq<PageReply<User>>, cancelled: nat -> bool): (r: ListRun<User>)
    requires IsColumnOrder(order)
    ensures r.request == UserListRequest(eq, quals, order, limit)
    ensures r.result.rows == StreamPages(replies, cancelled).rows
    ensures r.result.fetched == StreamPages(replies, cancelled).fetched
    ensures r.result.cancelled == StreamPages(replies, cancelled).cancelled
    ensures r.result.err == SettleError(UserIgnoredCodes, StreamPages(replies, cancelled).err)
  {
    ListRun(UserListRequest(eq, quals, order, limit), Settle(UserIgnoredCodes, StreamPages(replies, cancelled)))
  }

  /** As written, a listing whose first request fails because the
      Directory API is disabled hands that 403 to the host; the corrected
      classifier would end it with no rows and no error. */
  lemma DisabledDirectoryFailsListing(eq: EqualsQuals, quals: QualMap, order: seq<UserColumn>, limit: Option<int>,
                                      replies: seq<PageReply<User>>, cancelled: nat -> bool)
    requires IsColumnOrder(order)
    requires |replies| > 0 && replies[0] == PageFailed(ApiError(403, AdminSdkDisabled))
    ensures ListUsers(eq, quals, order, limit, replies, cancelled).result
            == Streamed([], Some(ApiError(403, AdminSdkDisabled)), 1, false)
    ensures SettleErrorIntended(UserIgnoredCodes, StreamPages(replies, cancelled).err) == None
  {
    AdminSdkDisabledPropagates(UserIgnoredCodes);
    AdminSdkDisabledIgnoredAsIntended(UserIgnoredCodes);
  }

  /** `getDirectoryUser`: no lookup when id and primary_email are both
      blank; otherwise one `Users.Get` by id, or by primary_email when id
      is blank; its error is returned unchanged. */
  function GetUser(eq: EqualsQuals, fetch: string -> Reply<User>): (r: GetRun<string, User>)
    ensures QualString(eq, "id") == "" && QualString(eq, "primary_email") == "" ==> r == GetRun([], NoItem)
    ensures QualString(eq, "id") != "" ==> r.calls == [QualString(eq, "id")]
    ensures QualString(eq, "id") == "" && QualString(eq, "primary_email") != "" ==> r.calls == [QualString(eq, "primary_email")]
    ensures |r.calls| == 1 && fetch(r.calls[0]).Err? ==> r.outcome == GetFailed(fetch(r.calls[0]).error)
    ensures |r.calls| == 1 && fetch(r.calls[0]).Ok? ==> r.outcome == Item(fetch(r.calls[0]).value)
  {
    Lookup(PreferredKey(QualString(eq, "id"), QualString(eq, "primary_email")), fetch)
  }

  /** A clause is in the equality filter exactly when it is the clause of
      a visited column that has an equality qualifier. */
  lemma EqualsFilterMembers(eq: EqualsQuals, order: seq<UserColumn>, x: string)
    requires IsColumnOrder(order)
    ensures x in EqualsFilter(eq, order) <==> exists c :: c in order && ColumnName(c) in eq && x == ColumnClause(eq, c)
  {
    if x in EqualsFilter(eq, order) {
      ClauseOfFilter(eq, order, x);
    }
    if exists c :: c in order && ColumnName(c) in eq && x == ColumnClause(eq, c) {
      var c :| c in order && ColumnName(c) in eq && x == ColumnClause(eq, c);
      FilterHasClause(eq, order, c);
    }
  }

  /** Every clause of the filter comes from a qualified visited column. */
  lemma ClauseOfFilter(eq: EqualsQuals, order: seq<UserColumn>, x: string)
    requires IsColumnOrder(order) && x in EqualsFilter(eq, order)
    ensures exists c :: c in order && ColumnName(c) in eq && x == ColumnClause(eq, c)
  {
    var r, cols := EqualsFilter(eq, order), QualifiedColumns(eq, order);
    var i :| 0 <= i < |r| && r[i] == x;
    var c := cols[i];
    assert c in cols;
    assert c in order && ColumnName(c) in eq && x == ColumnClause(eq, c);
  }

  /** Every qualified visited column has its clause in the filter. */
  lemma FilterHasClause(eq: EqualsQuals, order: seq<UserColumn>, c: UserColumn)
    requires IsColumnOrder(order) && ColumnName(c) in eq
    ensures ColumnClause(eq, c) in EqualsFilter(eq, order)
  {
    var r, cols := EqualsFilter(eq, order), QualifiedColumns(eq, order);
    assert c in cols;
    var i :| 0 <= i < |cols| && cols[i] == c;
    assert r[i] == ColumnClause(eq, c);
  }

  /** However Go iterates the column map, the equality clauses are the
      same up to order. */
  lemma EqualsFilterOrderIndependent(eq: EqualsQuals, order1: seq<UserColumn>, order2: seq<UserColumn>)
    requires IsColumnOrder(order1) && IsColumnOrder(order2)
    ensures multiset(EqualsFilter(eq, order1)) == multiset(EqualsFilter(eq, order2))
  {
    var r1, r2 := EqualsFilter(eq, order1), EqualsFilter(eq, order2);
    forall x
      ensures x in r1 <==> x in r2
    {
      EqualsFilterMembers(eq, order1, x);
      EqualsFilterMembers(eq, order2, x);
    }
    SameElementsSameMultiset(r1, r2);
  }

  /** Exactly one clause for each qualified column, and none for a column
      without an equality qualifier. */
  lemma EqualsFilterExactlyQualified(eq: EqualsQuals, order: seq<UserColumn>, c: UserColumn)
    requires IsColumnOrder(order)
    ensures ColumnName(c) in eq ==> multiset(EqualsFilter(eq, order))[EqualsClause(c, eq[ColumnName(c)])] == 1
    ensures ColumnName(c) !in eq ==> forall v :: EqualsClause(c, v) !in EqualsFilter(eq, order)
  {
    var r := EqualsFilter(eq, order);
    if ColumnName(c) in eq {
      EqualsFilterMembers(eq, order, ColumnClause(eq, c));
      DistinctMultiplicity(r, ColumnClause(eq, c));
    } else {
      forall v
        ensures EqualsClause(c, v) !in r
      {
        EqualsFilterMembers(eq, order, EqualsClause(c, v));
        forall g | g in order && ColumnName(g) in eq
          ensures EqualsClause(c, v) != ColumnClause(eq, g)
        {
          EqualsClauseInjective(c, v, g, eq[ColumnName(g)]);
        }
      }
    }
  }

  /** A column other than `c` keeps its clause when `c`'s qualifier is set,
      and that clause is not `c`'s. */
  lemma OtherColumnClause(eq: EqualsQuals, c: UserColumn, v: QualValue, g: UserColumn)
    requires ColumnName(g) in eq - {ColumnName(c)}
    ensures ColumnName(g) in eq[ColumnName(c) := v]
    ensures ColumnClause(eq[ColumnName(c) := v], g) == ColumnClause(eq - {ColumnName(c)}, g)
    ensures ColumnClause(eq - {ColumnName(c)}, g) != EqualsClause(c, v)
  {
    EqualsClauseInjective(g, eq[ColumnName(g)], c, v);
  }

  /** Membership in the filter with `c`'s qualifier set: the clauses
      without it, plus `c`'s clause, which is not among them. */
  lemma EqualsFilterWithMember(eq: EqualsQuals, order: seq<UserColumn>, c: UserColumn, v: QualValue, x: string)
    requires IsColumnOrder(order)
    ensures x in EqualsFilter(eq[ColumnName(c) := v], order) <==>
              x in EqualsFilter(eq - {ColumnName(c)}, order) || x == EqualsClause(c, v)
    ensures x == EqualsClause(c, v) ==> x !in EqualsFilter(eq - {ColumnName(c)}, order)
  {
    var with, without := eq[ColumnName(c) := v], eq - {ColumnName(c)};
    if x in EqualsFilter(with, order) {
      WithMemberForward(eq, order, c, v, x);
    }
    if x in EqualsFilter(without, order) {
      WithMemberBackward(eq, order, c, v, x);
    }
    FilterHasClause(with, order, c);
    assert ColumnClause(with, c) == EqualsClause(c, v);
  }

  /** A clause with `c`'s qualifier set is `c`'s or one without it. */
  lemma WithMemberForward(eq: EqualsQuals, order: seq<UserColumn>, c: UserColumn, v: QualValue, x: string)
    requires IsColumnOrder(order) && x in EqualsFilter(eq[ColumnName(c) := v], order)
    ensures x in EqualsFilter(eq - {ColumnName(c)}, order) || x == EqualsClause(c, v)
  {
    var with, without := eq[ColumnName(c) := v], eq - {ColumnName(c)};
    ClauseOfFilter(with, order, x);
    var g :| g in order && ColumnName(g) in with && x == ColumnClause(with, g);
    if g != c {
      ColumnNameInjective(g, c);
      OtherColumnClause(eq, c, v, g);
      FilterHasClause(without, order, g);
    }
  }

  /** A clause without `c`'s qualifier survives setting it, and is not `c`'s. */
  lemma WithMemberBackward(eq: EqualsQuals, order: seq<UserColumn>, c: UserColumn, v: QualValue, x: string)
    requires IsColumnOrder(order) && x in EqualsFilter(eq - {ColumnName(c)}, order)
    ensures x in EqualsFilter(eq[ColumnName(c) := v], order) && x != EqualsClause(c, v)
  {
    var with, without := eq[ColumnName(c) := v], eq - {ColumnName(c)};
    ClauseOfFilter(without, order, x);
    var g :| g in order && ColumnName(g) in without && x == ColumnClause(without, g);
    OtherColumnClause(eq, c, v, g);
    FilterHasClause(with, order, g);
  }

  /** Adding an equality qualifier on one column adds exactly its clause. */
  lemma EqualsFilterWith(eq: EqualsQuals, order: seq<UserColumn>, c: UserColumn, v: QualValue)
    requires IsColumnOrder(order)
    ensures multiset(EqualsFilter(eq[ColumnName(c) := v], order))
            == multiset(EqualsFilter(eq - {ColumnName(c)}, order)) + multiset{EqualsClause(c, v)}
  {
    var rw, ro := EqualsFilter(eq[ColumnName(c) := v], order), EqualsFilter(eq - {ColumnName(c)}, order);
    forall x
      ensures x in rw <==> x in ro || x == EqualsClause(c, v)
      ensures x == EqualsClause(c, v) ==> x !in ro
    {
      EqualsFilterWithMember(eq, order, c, v, x);
    }
    AddOneDistinct(rw, ro, EqualsClause(c, v));
  }

  /** Qualifiers whose operator is not `<>` do not change the first `<>`
      value. */
  lemma {:induction false} FirstNotEqualIgnoresOthers(qs: seq<Qual>)
    ensures FirstNotEqual(qs) == FirstNotEqual(OnlyNotEqual(qs))
  {
    if qs != [] {
      FirstNotEqualIgnoresOthers(qs[1..]);
    }
  }

  /** The `<>` qualifiers among `qs`, in order. */
  function OnlyNotEqual(qs: seq<Qual>): (r: seq<Qual>)
    ensures forall i :: 0 <= i < |r| ==> IsNotEqual(r[i])
  {
    if qs == [] then []
    else if IsNotEqual(qs[0]) then [qs[0]] + OnlyNotEqual(qs[1..])
    else OnlyNotEqual(qs[1..])
  }

  /** Keep only the `<>` qualifiers of every column. */
  function NotEqualQuals(quals: QualMap): QualMap
  {
    map k | k in quals :: OnlyNotEqual(quals[k])
  }

  lemma NotEqualClauseIgnoresOthers(quals: QualMap, c: UserColumn)
    ensures NotEqualClause(quals, c) == NotEqualClause(NotEqualQuals(quals), c)
  {
    if ColumnName(c) in quals {
      FirstNotEqualIgnoresOthers(quals[ColumnName(c)]);
    }
  }

  /** `=` qualifiers contribute nothing to the `<>` filter. */
  lemma NotEqualFilterIgnoresOthers(quals: QualMap)
    ensures NotEqualFilter(quals) == NotEqualFilter(NotEqualQuals(quals))
  {
    NotEqualFilterUnrolled(quals);
    NotEqualFilterUnrolled(NotEqualQuals(quals));
    NotEqualClauseIgnoresOthers(quals, IsAdmin);
    NotEqualClauseIgnoresOthers(quals, IsDelegatedAdmin);
    NotEqualClauseIgnoresOthers(quals, Suspended);
  }

  /** A column's negated clause depends only on that column's qualifiers. */
  lemma NotEqualClauseUpdateOther(quals: QualMap, c: UserColumn, h: UserColumn, qs: seq<Qual>)
    requires h != c
    ensures NotEqualClause(quals[ColumnName(c) := qs], h) == NotEqualClause(quals, h)
  {
    assert ColumnName(h) != ColumnName(c);
  }

  /** The negated clause of a column holding a single qualifier. */
  lemma SingleQualClause(quals: QualMap, c: UserColumn, q: Qual)
    ensures !IsNotEqual(q) ==> NotEqualClause(quals[ColumnName(c) := [q]], c) == []
    ensures IsNotEqual(q) ==> NotEqualClause(quals[ColumnName(c) := [q]], c) == [BoolClause(c, !BoolOf(q.value))]
  {
    assert FirstNotEqual([q]) == if IsNotEqual(q) then Some(BoolOf(q.value)) else None;
  }

  /** Replacing a boolean column's qualifiers by a single `<> !b` adds
      exactly the clause `<field>=b` to the negated filter, compared with
      qualifiers that hold no `<>` on that column. */
  lemma NotEqualFilterWith(quals: QualMap, c: UserColumn, b: bool)
    requires IsBoolColumn(c)
    ensures multiset(NotEqualFilter(quals[ColumnName(c) := [Qual("<>", BoolValue(!b))]]))
         == multiset(NotEqualFilter(quals[ColumnName(c) := [Qual("=", BoolValue(b))]])) + multiset{BoolClause(c, b)}
  {
    var quals1 := quals[ColumnName(c) := [Qual("=", BoolValue(b))]];
    var quals2 := quals[ColumnName(c) := [Qual("<>", BoolValue(!b))]];
    SingleQualClause(quals, c, Qual("=", BoolValue(b)));
    SingleQualClause(quals, c, Qual("<>", BoolValue(!b)));
    forall h | h != c
      ensures NotEqualClause(quals1, h) == NotEqualClause(quals2, h)
    {
      NotEqualClauseUpdateOther(quals, c, h, [Qual("=", BoolValue(b))]);
      NotEqualClauseUpdateOther(quals, c, h, [Qual("<>", BoolValue(!b))]);
    }
    var a1, d1, s1 := NotEqualClause(quals1, IsAdmin), NotEqualClause(quals1, IsDelegatedAdmin), NotEqualClause(quals1, Suspended);
    var a2, d2, s2 := NotEqualClause(quals2, IsAdmin), NotEqualClause(quals2, IsDelegatedAdmin), NotEqualClause(quals2, Suspended);
    var k := BoolClause(c, b);
    assert NotEqualClause(quals1, c) == [] && NotEqualClause(quals2, c) == [k];
    if c == IsAdmin {
      assert d1 == d2 && s1 == s2;
    } else if c == IsDelegatedAdmin {
      assert a1 == a2 && s1 == s2;
    } else {
      assert a1 == a2 && d1 == d2;
    }
    MultisetPieces(a1, d1, s1, a2, d2, s2, k);
    NotEqualFilterUnrolled(quals1);
    NotEqualFilterUnrolled(quals2);
  }

  /** `<col> <> true` and `<col> = false` on a boolean column give the same
      derived filter, up to order: `<field>=false`. Likewise with the
      values swapped. */
  lemma NotEqualMatchesEquals(eq: EqualsQuals, quals: QualMap, order: seq<UserColumn>, c: UserColumn, b: bool)
    requires IsColumnOrder(order) && IsBoolColumn(c)
    ensures multiset(UserFilter(eq[ColumnName(c) := BoolValue(b)], quals[ColumnName(c) := [Qual("=", BoolValue(b))]], order))
         == multiset(UserFilter(eq - {ColumnName(c)}, quals[ColumnName(c) := [Qual("<>", BoolValue(!b))]], order))
  {
    var with, without := eq[ColumnName(c) := BoolValue(b)], eq - {ColumnName(c)};
    var quals1 := quals[ColumnName(c) := [Qual("=", BoolValue(b))]];
    var quals2 := quals[ColumnName(c) := [Qual("<>", BoolValue(!b))]];
    var e1, e0 := EqualsFilter(with, order), EqualsFilter(without, order);
    var n1, n2 := NotEqualFilter(quals1), NotEqualFilter(quals2);
    EqualsFilterWith(eq, order, c, BoolValue(b));
    NotEqualFilterWith(quals, c, b);
    BoolEqualsClause(c, b);
    MultisetExchange(e1, e0, n1, n2, BoolClause(c, b));
    assert UserFilter(with, quals1, order) == e1 + n1;
    assert UserFilter(without, quals2, order) == e0 + n2;
  }

  /** On a boolean column, the equality clause for `b` is `<field>=b`. */
  lemma BoolEqualsClause(c: UserColumn, b: bool)
    requires IsBoolColumn(c)
    ensures EqualsClause(c, BoolValue(b)) == BoolClause(c, b)
  {
  }

  /** No equality clause exactly when no column has an equality
      qualifier. */
  lemma EqualsFilterEmptyIff(eq: EqualsQuals, order: seq<UserColumn>)
    requires IsColumnOrder(order)
    ensures EqualsFilter(eq, order) == [] <==> forall c :: ColumnName(c) !in eq
  {
    var cols := QualifiedColumns(eq, order);
    if cols != [] {
      assert cols[0] in cols;
    }
  }

  /** No negated clause exactly when no boolean column has a `<>`
      qualifier. */
  lemma NotEqualFilterEmptyIff(quals: QualMap)
    ensures NotEqualFilter(quals) == [] <==>
              forall c :: IsBoolColumn(c) && ColumnName(c) in quals ==> FirstNotEqual(quals[ColumnName(c)]).None?
  {
    NotEqualFilterUnrolled(quals);
  }

  lemma EqualsFilterNonBlank(eq: EqualsQuals, order: seq<UserColumn>)
    requires IsColumnOrder(order)
    ensures forall x :: x in EqualsFilter(eq, order) ==> x != ""
  {
    var e, cols := EqualsFilter(eq, order), QualifiedColumns(eq, order);
    forall i | 0 <= i < |e|
      ensures e[i] != ""
    {
      assert |e[i]| > |SearchField(cols[i])|;
    }
  }

  lemma NotEqualFilterNonBlank(quals: QualMap)
    ensures forall x :: x in NotEqualFilter(quals) ==> x != ""
  {
    NotEqualFilterUnrolled(quals);
    NotEqualClauseNonBlank(quals, IsAdmin);
    NotEqualClauseNonBlank(quals, IsDelegatedAdmin);
    NotEqualClauseNonBlank(quals, Suspended);
  }

  lemma NotEqualClauseNonBlank(quals: QualMap, c: UserColumn)
    ensures forall x :: x in NotEqualClause(quals, c) ==> x != ""
  {
    var r := NotEqualClause(quals, c);
    if r != [] {
      assert |r[0]| > |SearchField(c)|;
    }
  }

  /** No derived clause is blank. */
  lemma UserFilterNonBlank(eq: EqualsQuals, quals: QualMap, order: seq<UserColumn>)
    requires IsColumnOrder(order)
    ensures forall i :: 0 <= i < |UserFilter(eq, quals, order)| ==> UserFilter(eq, quals, order)[i] != ""
  {
    var e, n := EqualsFilter(eq, order), NotEqualFilter(quals);
    EqualsFilterNonBlank(eq, order);
    NotEqualFilterNonBlank(quals);
    var f := UserFilter(eq, quals, order);
    assert f == e + n;
    forall i | 0 <= i < |f|
      ensures f[i] != ""
    {
      if i < |e| {
        assert f[i] == e[i] && e[i] in e;
      } else {
        assert f[i] == n[i - |e|] && n[i - |e|] in n;
      }
    }
  }

  /** The query sent upstream is blank exactly when the `query` qualifier
      is blank, no column has an equality qualifier and no boolean column
      has a `<>` qualifier. */
  lemma UserQueryEmptyIff(eq: EqualsQuals, quals: QualMap, order: seq<UserColumn>)
    requires IsColumnOrder(order)
    ensures UserQuery(eq, quals, order) == "" <==>
              && QualString(eq, "query") == ""
              && (forall c :: ColumnName(c) !in eq)
              && (forall c :: IsBoolColumn(c) && ColumnName(c) in quals ==> FirstNotEqual(quals[ColumnName(c)]).None?)
  {
    var filter := UserFilter(eq, quals, order);
    UserFilterNonBlank(eq, quals, order);
    EqualsFilterEmptyIff(eq, order);
    NotEqualFilterEmptyIff(quals);
    assert filter == [] <==> EqualsFilter(eq, order) == [] && NotEqualFilter(quals) == [];
  }
}

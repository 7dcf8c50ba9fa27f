/**
 Shared vocabulary of the Google Directory connector: optional qualifier
 values, the upstream error shape, the request defaults every list
 dispatcher applies (customer id, page size) and the key preference every
 get dispatcher applies.
 */
module Common {

  datatype Option<+T> = None | Some(value: T)

  datatype Result<+T, +E> = Ok(value: T) | Err(error: E)

  /** An error returned by the Google client library. `ApiError` is a
      `*googleapi.Error`: its HTTP status code and the text `err.Error()`
      renders. Anything else (transport failures, wrapped errors) is
      `OtherError`. */
  datatype Error =
    | ApiError(code: int, text: string)
    | OtherError(text: string)

  /** The answer of one upstream call. */
  type Reply<T> = Result<T, Error>

  /** The value of a host qualifier. */
  datatype QualValue = StringValue(s: string) | BoolValue(b: bool)

  /** `GetStringValue`: the string held, or "" for any other value. */
  function StringOf(v: QualValue): string
  {
    match v
    case StringValue(s) => s
    case BoolValue(_) => ""
  }

  /** `GetBoolValue`: the boolean held, or false for any other value. */
  function BoolOf(v: QualValue): bool
  {
    match v
    case BoolValue(b) => b
    case StringValue(_) => false
  }

  /** The equality qualifiers of a query, by column name. */
  type EqualsQuals = map<string, QualValue>

  /** One qualifier on a column: its operator ("=", "<>", ...) and value. */
  datatype Qual = Qual(op: string, value: QualValue)

  /** All qualifiers of a query, by column name. */
  type QualMap = map<string, seq<Qual>>

  /** `EqualsQuals[column].GetStringValue()`, which is "" when the
      qualifier is absent. */
  function QualString(eq: EqualsQuals, column: string): string
  {
    if column in eq then StringOf(eq[column]) else ""
  }

  /** The string value of an equality qualifier, when it is present. */
  function OptionalString(eq: EqualsQuals, column: string): Option<string>
  {
    if column in eq then Some(StringOf(eq[column])) else None
  }

  /** The sentinel customer id that stands for the caller's own account. */
  const MyCustomer: string := "my_customer"

  /** The customer id sent upstream: the `customer_id` qualifier when the
      host supplied one (even a blank one), otherwise `my_customer`. */
  function CustomerId(qual: Option<string>): (r: string)
    ensures qual.None? ==> r == MyCustomer
    ensures qual.Some? ==> r == qual.value
  {
    match qual
    case Some(v) => v
    case None => MyCustomer
  }

  /** The `MaxResults` page size: the API's per-page maximum `cap`, lowered
      to the host's row limit when that limit is smaller. */
  function PageSize(cap: int, limit: Option<int>): (r: int)
    ensures r <= cap
    ensures limit.Some? ==> r <= limit.value
    ensures r == cap || (limit.Some? && r == limit.value)
  {
    if limit.Some? && limit.value < cap then limit.value else cap
  }

  /** The key a get dispatcher looks up, given its preferred key column and
      its fallback key column (qualifier values, blank when absent). `None`
      means both are blank and no upstream call is made. */
  function PreferredKey(preferred: string, fallback: string): (r: Option<string>)
    ensures r.None? <==> preferred == "" && fallback == ""
    ensures r.Some? ==> r.value != ""
    ensures r.Some? ==> r.value == preferred || r.value == fallback
    ensures preferred != "" ==> r == Some(preferred)
  {
    if preferred == "" && fallback == "" then None
    else if preferred == "" then Some(fallback)
    else Some(preferred)
  }

  /** What a get dispatcher produced: nothing (no lookup or not asked), the
      item, or the upstream error unchanged. */
  datatype GetOutcome<+T> = NoItem | Item(value: T) | GetFailed(err: Error)

  /** One run of a get dispatcher: the keys it sent upstream, in order, and
      what it returned. */
  datatype GetRun<+K, +T> = GetRun(calls: seq<K>, outcome: GetOutcome<T>)

  /** Issue the single upstream get call for `key`, if there is one. */
  function Lookup<K, T>(key: Option<K>, fetch: K -> Reply<T>): (r: GetRun<K, T>)
    ensures key.None? ==> r.calls == [] && r.outcome == NoItem
    ensures key.Some? ==> r.calls == [key.value]
    ensures key.Some? && fetch(key.value).Ok? ==> r.outcome == Item(fetch(key.value).value)
    ensures key.Some? && fetch(key.value).Err? ==> r.outcome == GetFailed(fetch(key.value).error)
  {
    match key
    case None => GetRun([], NoItem)
    case Some(k) =>
      match fetch(k)
      case Ok(item) => GetRun([k], Item(item))
      case Err(e) => GetRun([k], GetFailed(e))
  }

  /** The parameters of one upstream list call: customer, search query and
      page size (`None` where the dispatcher does not set one). */
  datatype ListRequest = ListRequest(customer: string, query: Option<string>, maxResults: Option<int>)

  /** Sum of the lengths of `xs`. */
  function TotalLength(xs: seq<string>): nat
  {
    if xs == [] then 0 else |xs[0]| + TotalLength(xs[1..])
  }

  /** `strings.Join`: the elements of `xs` with `sep` between neighbours. */
  function Join(xs: seq<string>, sep: string): (r: string)
    ensures xs == [] ==> r == ""
    ensures xs != [] ==> |r| == TotalLength(xs) + (|xs| - 1) * |sep|
    ensures xs != [] ==> |xs[0]| <= |r| && r[..|xs[0]|] == xs[0]
    ensures xs != [] ==> |xs[|xs| - 1]| <= |r| && r[|r| - |xs[|xs| - 1]|..] == xs[|xs| - 1]
  {
    if xs == [] then ""
    else if |xs| == 1 then xs[0]
    else xs[0] + sep + Join(xs[1..], sep)
  }

  ghost predicate NoDuplicates<T>(s: seq<T>)
  {
    forall i, j :: 0 <= i < j < |s| ==> s[i] != s[j]
  }

  lemma {:induction false} DistinctMultiplicity<T>(s: seq<T>, x: T)
    requires NoDuplicates(s)
    ensures multiset(s)[x] == if x in s then 1 else 0
  {
    if s != [] {
      assert s == [s[0]] + s[1..];
      DistinctMultiplicity(s[1..], x);
      assert x == s[0] ==> x !in s[1..];
    }
  }

  /** Two duplicate-free sequences with the same elements are permutations
      of each other. */
  lemma SameElementsSameMultiset<T>(a: seq<T>, b: seq<T>)
    requires NoDuplicates(a) && NoDuplicates(b)
    requires forall x :: x in a <==> x in b
    ensures multiset(a) == multiset(b)
  {
    forall x
      ensures multiset(a)[x] == multiset(b)[x]
    {
      DistinctMultiplicity(a, x);
      DistinctMultiplicity(b, x);
    }
  }

  /** Three sequences of at most one element each, pairwise disjoint, have
      no duplicates between them. */
  lemma SinglesNoDuplicates<T>(a: seq<T>, d: seq<T>, s: seq<T>)
    requires |a| <= 1 && |d| <= 1 && |s| <= 1
    requires forall x, y :: x in a && y in d ==> x != y
    requires forall x, y :: x in a && y in s ==> x != y
    requires forall x, y :: x in d && y in s ==> x != y
    ensures NoDuplicates(a + d + s)
  {
    var r := a + d + s;
    forall i, j | 0 <= i < j < |r|
      ensures r[i] != r[j]
    {
      assert i < |a| ==> r[i] in a;
      assert |a| <= i < |a| + |d| ==> r[i] in d;
      assert |a| <= j < |a| + |d| ==> r[j] in d;
      assert |a| + |d| <= j ==> r[j] in s;
    }
  }

  /** A duplicate-free sequence that holds exactly the elements of another
      one plus a new element `k`. */
  lemma AddOneDistinct<T>(with: seq<T>, without: seq<T>, k: T)
    requires NoDuplicates(with) && NoDuplicates(without)
    requires forall x :: x in with <==> x in without || x == k
    requires k !in without
    ensures multiset(with) == multiset(without) + multiset{k}
  {
    forall x
      ensures multiset(with)[x] == (multiset(without) + multiset{k})[x]
    {
      DistinctMultiplicity(with, x);
      DistinctMultiplicity(without, x);
    }
  }

  /** Moving one element `k` from the second half of a concatenation to the
      first keeps its elements. */
  lemma MultisetExchange<T>(e1: seq<T>, e0: seq<T>, n1: seq<T>, n2: seq<T>, k: T)
    requires multiset(e1) == multiset(e0) + multiset{k}
    requires multiset(n2) == multiset(n1) + multiset{k}
    ensures multiset(e1 + n1) == multiset(e0 + n2)
  {
  }

  lemma MultisetMiddle<T>(a: seq<T>, m: seq<T>, c: seq<T>)
    ensures multiset(a + (m + c)) == multiset(a + c) + multiset(m)
  {
  }

  /** Growing exactly one of three pieces by `k` adds `k`. */
  lemma MultisetPieces<T>(a1: seq<T>, d1: seq<T>, s1: seq<T>, a2: seq<T>, d2: seq<T>, s2: seq<T>, k: T)
    requires || (a2 == a1 + [k] && d1 == d2 && s1 == s2)
             || (a1 == a2 && d2 == d1 + [k] && s1 == s2)
             || (a1 == a2 && d1 == d2 && s2 == s1 + [k])
    ensures multiset(a2 + d2 + s2) == multiset(a1 + d1 + s1) + multiset{k}
  {
  }
}

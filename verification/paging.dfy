/**
 Paginated upstream listing as the list dispatchers drive it. The upstream
 API is an oracle: the sequence of replies it gives to successive page
 requests, each a page of items or a failure. The host's cancellation
 signal (`plugin.IsCancelled`, which also turns true once the row limit is
 reached) is an oracle over the number of rows streamed so far.
 */
module Paging {
  import opened Common
  import opened NotFound

  datatype PageReply<+T> = Page(items: seq<T>) | PageFailed(err: Error)

  /** What a listing did: the rows it streamed to the host, in order, the
      error it returned, how many page requests it issued, and whether it
      stopped because cancellation was observed. */
  datatype Streamed<+T> = Streamed(rows: seq<T>, err: Option<Error>, fetched: nat, cancelled: bool)

  function ItemsOf<T>(reply: PageReply<T>): seq<T>
  {
    match reply
    case Page(items) => items
    case PageFailed(_) => []
  }

  /** All items of the pages among `replies`, in page order. */
  function PageItems<T>(replies: seq<PageReply<T>>): seq<T>
  {
    if replies == [] then [] else ItemsOf(replies[0]) + PageItems(replies[1..])
  }

  ghost predicate AllPages<T>(replies: seq<PageReply<T>>)
  {
    forall i :: 0 <= i < |replies| ==> replies[i].Page?
  }

  /** The `f`-th request was the first to fail, with `e`. */
  ghost predicate FailedAt<T>(replies: seq<PageReply<T>>, f: nat, e: Error)
  {
    0 < f <= |replies| && AllPages(replies[..f - 1]) && replies[f - 1] == PageFailed(e)
  }

  /** How a prefix of `replies` splits into its first reply and a prefix
      of the rest. */
  lemma PrefixSplit<T>(replies: seq<PageReply<T>>, f: nat)
    ensures 0 < f <= |replies| ==> replies[..f][1..] == replies[1..][..f - 1]
    ensures 0 < f <= |replies| ==> PageItems(replies[..f]) == ItemsOf(replies[0]) + PageItems(replies[1..][..f - 1])
    ensures 0 < f <= |replies| ==> (AllPages(replies[..f]) <==> replies[0].Page? && AllPages(replies[1..][..f - 1]))
  {
    if 0 < f <= |replies| {
      assert replies[..f][1..] == replies[1..][..f - 1];
    }
  }

  /** The number of items streamed from a page before the host's
      cancellation is observed, counting from `count` rows already
      streamed; `|items|` if it is not observed on this page. */
  function FirstCancel<T>(items: seq<T>, cancelled: nat -> bool, count: nat): (k: nat)
    ensures k <= |items|
    ensures forall m :: count < m <= count + k ==> !cancelled(m)
    ensures k < |items| ==> cancelled(count + k + 1)
    decreases |items|
  {
    if items == [] || cancelled(count + 1) then 0
    else 1 + FirstCancel(items[1..], cancelled, count + 1)
  }

  /** What the cancellable paging loop promises about its outcome `r`,
      `count` rows having been streamed before:
      - a failure is the first failed request, no cancellation was seen,
        and the rows are those of the pages before it;
      - without failure or cancellation every reply was a page and all
        their rows were streamed;
      - after cancellation the rows end inside the last page requested,
        right at the first row after which cancellation was observed. */
  ghost predicate Streams<T>(replies: seq<PageReply<T>>, cancelled: nat -> bool, count: nat, r: Streamed<T>)
  {
    && r.fetched <= |replies|
    && (r.err.Some? ==> !r.cancelled && FailedAt(replies, r.fetched, r.err.value)
                        && r.rows == PageItems(replies[..r.fetched - 1]))
    && (r.err.None? && !r.cancelled ==> r.fetched == |replies| && AllPages(replies)
                                        && r.rows == PageItems(replies))
    && (r.cancelled ==> && r.err.None? && 0 < r.fetched && AllPages(replies[..r.fetched])
                        && |PageItems(replies[..r.fetched - 1])| < |r.rows| <= |PageItems(replies[..r.fetched])|
                        && r.rows == PageItems(replies[..r.fetched])[..|r.rows|]
                        && cancelled(count + |r.rows|))
    && (forall m :: count < m < count + |r.rows| ==> !cancelled(m))
    && (!r.cancelled ==> forall m :: count < m <= count + |r.rows| ==> !cancelled(m))
  }

  /** A first page streamed in full, followed by the outcome of the rest
      of the listing, is an outcome of the whole listing. */
  lemma StreamsExtend<T>(replies: seq<PageReply<T>>, cancelled: nat -> bool, count: nat, rest: Streamed<T>)
    requires replies != [] && replies[0].Page?
    requires forall m :: count < m <= count + |replies[0].items| ==> !cancelled(m)
    requires Streams(replies[1..], cancelled, count + |replies[0].items|, rest)
    ensures Streams(replies, cancelled, count, Streamed(replies[0].items + rest.rows, rest.err, rest.fetched + 1, rest.cancelled))
  {
    var items := replies[0].items;
    var r := Streamed(items + rest.rows, rest.err, rest.fetched + 1, rest.cancelled);
    PrefixSplit(replies, r.fetched);
    if rest.err.Some? {
      PrefixSplit(replies, r.fetched - 1);
    } else if !rest.cancelled {
      assert replies[1..] == replies[1..][..|replies| - 1];
      assert replies == replies[..|replies|];
    } else {
      PrefixSplit(replies, r.fetched - 1);
    }
  }

  /** Cancellation observed after row `k + 1` of the first page ends the
      listing there. */
  lemma StreamsCancelledInFirstPage<T>(replies: seq<PageReply<T>>, cancelled: nat -> bool, count: nat, k: nat)
    requires replies != [] && replies[0].Page? && k < |replies[0].items|
    requires forall m :: count < m <= count + k ==> !cancelled(m)
    requires cancelled(count + k + 1)
    ensures Streams(replies, cancelled, count, Streamed(replies[0].items[..k + 1], None, 1, true))
  {
    assert replies[..0] == [];
    PrefixSplit(replies, 1);
  }

  /** The paging loop of a cancellable list dispatcher: each item is
      streamed, then cancellation is checked; once it is observed the next
      page token is cleared, so no further page is requested. A failed
      request ends the listing with that error; rows already streamed stay
      streamed. `count` rows were streamed before this point. */
  function StreamFrom<T>(replies: seq<PageReply<T>>, cancelled: nat -> bool, count: nat): (r: Streamed<T>)
    ensures Streams(replies, cancelled, count, r)
    decreases |replies|
  {
    if replies == [] then Streamed([], None, 0, false)
    else match replies[0]
      case PageFailed(e) =>
        assert replies[..0] == [];
        Streamed([], Some(e), 1, false)
      case Page(items) =>
        var k := FirstCancel(items, cancelled, count);
        if k < |items| then
          StreamsCancelledInFirstPage(replies, cancelled, count, k);
          Streamed(items[..k + 1], None, 1, true)
        else
          var rest := StreamFrom(replies[1..], cancelled, count + |items|);
          StreamsExtend(replies, cancelled, count, rest);
          Streamed(items + rest.rows, rest.err, rest.fetched + 1, rest.cancelled)
  }

  /** The cancellable paging loop from the first page. */
  function StreamPages<T>(replies: seq<PageReply<T>>, cancelled: nat -> bool): Streamed<T>
  {
    StreamFrom(replies, cancelled, 0)
  }

  /** The paging loop of a dispatcher that never checks for cancellation:
      every item of every page is streamed until a request fails. */
  function StreamEvery<T>(replies: seq<PageReply<T>>): (r: Streamed<T>)
    ensures !r.cancelled && r.fetched <= |replies|
    ensures r.err.Some? ==> FailedAt(replies, r.fetched, r.err.value) && r.rows == PageItems(replies[..r.fetched - 1])
    ensures r.err.None? ==> r.fetched == |replies| && AllPages(replies) && r.rows == PageItems(replies)
    decreases |replies|
  {
    if replies == [] then Streamed([], None, 0, false)
    else match replies[0]
      case PageFailed(e) =>
        assert replies[..0] == [];
        Streamed([], Some(e), 1, false)
      case Page(items) =>
        var rest := StreamEvery(replies[1..]);
        var r := Streamed(items + rest.rows, rest.err, rest.fetched + 1, false);
        PrefixSplit(replies, r.fetched);
        PrefixSplit(replies, r.fetched - 1);
        assert replies[1..] == replies[1..][..|replies| - 1];
        r
  }

  /** A host that never cancels sees the cancellable loop do exactly what
      the loop without a cancellation check does. */
  lemma {:induction false} NeverCancelledStreamsEverything<T>(replies: seq<PageReply<T>>, cancelled: nat -> bool, count: nat)
    requires forall n :: !cancelled(n)
    ensures StreamFrom(replies, cancelled, count) == StreamEvery(replies)
    decreases |replies|
  {
    if replies != [] && replies[0].Page? {
      NeverCancelledStreamsEverything(replies[1..], cancelled, count + |replies[0].items|);
    }
  }

  /** The host's handling of an error a list dispatcher returns: one the
      table's classifier ignores (with allow-list `allow`) becomes no
      error at all. */
  function SettleError(allow: seq<string>, err: Option<Error>): (r: Option<Error>)
    ensures r.Some? <==> err.Some? && !IsNotFoundError(allow, err.value)
    ensures r.Some? ==> r == err
  {
    if err.Some? && IsNotFoundError(allow, err.value) then None else err
  }

  /** `SettleError` under the corrected classifier. */
  function SettleErrorIntended(allow: seq<string>, err: Option<Error>): (r: Option<Error>)
    ensures r.Some? <==> err.Some? && !IsNotFoundErrorIntended(allow, err.value)
    ensures r.Some? ==> r == err
  {
    if err.Some? && IsNotFoundErrorIntended(allow, err.value) then None else err
  }

  /** The correction only drops more errors, and only 403s: any error it
      passes on, the source passes on too, and on every other error the
      two agree. */
  lemma IntendedSettlesMore(allow: seq<string>, err: Option<Error>)
    ensures SettleErrorIntended(allow, err).Some? ==> SettleError(allow, err) == err
    ensures err.Some? && !(err.value.ApiError? && err.value.code == 403) ==>
              SettleErrorIntended(allow, err) == SettleError(allow, err)
  {
    if err.Some? {
      IntendedExtendsSource(allow, err.value);
    }
  }

  /** A listing as the host sees it once the table's classifier has been
      applied: rows already streamed stay. */
  function Settle<T>(allow: seq<string>, r: Streamed<T>): (s: Streamed<T>)
    ensures s.rows == r.rows && s.fetched == r.fetched && s.cancelled == r.cancelled
    ensures s.err == SettleError(allow, r.err)
  {
    r.(err := SettleError(allow, r.err))
  }

  /** One run of a paged list dispatcher: the request it sent and what the
      host received. */
  datatype ListRun<+T> = ListRun(request: ListRequest, result: Streamed<T>)

  /** A listing whose first request fails with 404 ends, for a table
      that ignores 404, with no rows and no error. */
  lemma NotFoundFirstPageIsEmpty<T>(replies: seq<PageReply<T>>, cancelled: nat -> bool, text: string)
    requires |replies| > 0 && replies[0] == PageFailed(ApiError(404, text))
    ensures Settle(["404"], StreamPages(replies, cancelled)) == Streamed([], None, 1, false)
  {
    Only404Ignored(404, text);
  }
}

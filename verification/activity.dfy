/// The activity feed of a server: an append-only log read backwards, page by page.
///
/// Identifiers are only ever compared, so whole numbers stand for them; a row
/// appended later has a larger one.
module Activity {
  import opened Prelude
  import Arith

  const SENTINEL_LIMIT: nat := 101

  datatype Row = Row(id: nat, server: string, event: string)

  datatype Page = Page(items: seq<Row>, nextCursor: Option<nat>)

  ghost predicate Ascending(log: seq<Row>) {
    forall i, j | 0 <= i < j < |log| :: log[i].id < log[j].id
  }

  class AuditLog {
    var rows: seq<Row>

    constructor ()
      ensures rows == []
    {
      rows := [];
    }

    method Record(row: Row)
      requires Ascending(rows) && (rows != [] ==> Last(rows).id < row.id)
      modifies this
      ensures rows == old(rows) + [row] && Ascending(rows)
    {
      rows := rows + [row];
    }
  }

  predicate Selected(row: Row, server: string, before: Option<nat>) {
    row.server == server && (before.Some? ==> row.id < before.value)
  }

  /** The rows of a server below the cursor, newest first. */
  function Select(log: seq<Row>, server: string, before: Option<nat>): (rows: seq<Row>)
    ensures |rows| <= |log|
  {
    if log == [] then []
    else (if Selected(Last(log), server, before) then [Last(log)] else []) + Select(Init(log), server, before)
  }

  function Take<T>(s: seq<T>, n: nat): seq<T> {
    if |s| <= n then s else s[..n]
  }

  /** The query, with its limit clamped. */
  function ActivityForServer(log: seq<Row>, server: string, limit: int, before: Option<nat>): seq<Row> {
    Take(Select(log, server, before), if limit < 1 then 1 else if limit > SENTINEL_LIMIT then SENTINEL_LIMIT else limit)
  }

  /** One page: a row more than asked for tells whether another page follows. */
  function PageOf(log: seq<Row>, server: string, limit: nat, before: Option<nat>): Page
    requires 1 <= limit <= 100
  {
    var rows := ActivityForServer(log, server, limit + 1, before);
    var items := Take(rows, limit);
    Page(items, if |rows| > limit then Some(Last(items).id) else None)
  }

  /** The query returns the newest rows below the cursor: as many as asked for, within 1 and 101, or all there are. */
  lemma {:induction false} ActivityIsFront(log: seq<Row>, server: string, limit: int, before: Option<nat>)
    ensures var rows, found := ActivityForServer(log, server, limit, before), Select(log, server, before);
            && rows <= found
            && (1 <= limit <= SENTINEL_LIMIT ==> |rows| == limit || (|found| < limit && rows == found))
            && (limit < 1 ==> |rows| == 1 || found == [])
            && (SENTINEL_LIMIT < limit ==> |rows| == SENTINEL_LIMIT || (|found| < SENTINEL_LIMIT && rows == found))
  {
  }

  // ----- reading on below a row -----

  lemma {:induction false} SelectEverything(log: seq<Row>, server: string, bound: nat)
    requires forall k | 0 <= k < |log| :: log[k].id < bound
    ensures Select(log, server, Some(bound)) == Select(log, server, None)
  {
    if log != [] {
      SelectEverything(Init(log), server, bound);
    }
  }

  lemma {:induction false} SelectIsBelow(log: seq<Row>, server: string, before: Option<nat>, k: nat)
    requires k < |Select(log, server, before)|
    ensures Selected(Select(log, server, before)[k], server, before) && Select(log, server, before)[k] in log
  {
    var here := if Selected(Last(log), server, before) then 1 else 0;
    if k >= here {
      SelectIsBelow(Init(log), server, before, k - here);
      assert Select(log, server, before)[k] == Select(Init(log), server, before)[k - here];
      assert Select(Init(log), server, before)[k - here] in Init(log);
    }
  }

  lemma {:induction false} BelowLast(log: seq<Row>, server: string, before: Option<nat>)
    requires log != [] && Ascending(log) && Selected(Last(log), server, before)
    ensures Select(log, server, Some(Last(log).id)) == Select(Init(log), server, before)
  {
    SelectEverything(Init(log), server, Last(log).id);
    if before.Some? {
      SelectEverything(Init(log), server, before.value);
    }
  }

  lemma {:induction false} BelowOlder(log: seq<Row>, server: string, before: Option<nat>, k: nat)
    requires log != [] && Ascending(log) && k < |Select(Init(log), server, before)|
    ensures var c := Select(Init(log), server, before)[k].id;
            Select(log, server, Some(c)) == Select(Init(log), server, Some(c))
  {
    SelectIsBelow(Init(log), server, before, k);
    var i :| 0 <= i < |log| - 1 && log[i] == Select(Init(log), server, before)[k];
    assert log[i].id < Last(log).id;
  }

  lemma AfterFront<T>(front: seq<T>, rest: seq<T>, k: nat)
    requires |front| <= k < |front| + |rest|
    ensures (front + rest)[k] == rest[k - |front|] && (front + rest)[k + 1..] == rest[k - |front| + 1..]
  {
  }

  /** Asking below a row that was returned gives what followed it. */
  lemma {:induction false} SelectBelow(log: seq<Row>, server: string, before: Option<nat>, k: nat)
    requires Ascending(log) && k < |Select(log, server, before)|
    ensures Select(log, server, Some(Select(log, server, before)[k].id)) == Select(log, server, before)[k + 1..]
  {
    var front := if Selected(Last(log), server, before) then [Last(log)] else [];
    var rest := Select(Init(log), server, before);
    if k < |front| {
      BelowLast(log, server, before);
      assert (front + rest)[1..] == rest;
    } else {
      AfterFront(front, rest, k);
      BelowOlder(log, server, before, k - |front|);
      SelectBelow(Init(log), server, before, k - |front|);
    }
  }

  /** Rows appended at or above the cursor are not seen. */
  lemma {:induction false} SelectIgnoresNewer(log: seq<Row>, more: seq<Row>, server: string, cursor: nat)
    requires forall k | 0 <= k < |more| :: cursor <= more[k].id
    ensures Select(log + more, server, Some(cursor)) == Select(log, server, Some(cursor))
    decreases |more|
  {
    if more == [] {
      assert log + more == log;
    } else {
      InitOfConcat(log, more);
      SelectIgnoresNewer(log, Init(more), server, cursor);
    }
  }

  lemma TakeOneMore<T>(s: seq<T>, n: nat)
    requires n > 0
    ensures Take(Take(s, n + 1), n) == Take(s, n) && (|Take(s, n + 1)| > n <==> |s| > n)
    ensures |s| > n ==> Last(Take(s, n)) == s[n - 1]
  {
  }

  lemma {:induction false} PageIs(log: seq<Row>, server: string, limit: nat, before: Option<nat>)
    requires 1 <= limit <= 100 && Ascending(log)
    ensures var rows, page := Select(log, server, before), PageOf(log, server, limit, before);
            && page.items == Take(rows, limit)
            && (page.nextCursor.Some? <==> |rows| > limit)
            && (page.nextCursor.Some? ==> Select(log, server, page.nextCursor) == rows[limit..])
  {
    var rows := Select(log, server, before);
    TakeOneMore(rows, limit);
    if |rows| > limit {
      SelectBelow(log, server, before, limit - 1);
    }
  }

  // ----- following the cursor -----

  /**
   * `pages` are the answers to a client that follows the cursor from `before`,
   * while `appended[k]` is written to the log after page `k`.
   */
  ghost predicate Follows(log: seq<Row>, server: string, limit: nat, before: Option<nat>, pages: seq<Page>,
        appended: seq<seq<Row>>)
    requires 1 <= limit <= 100
    decreases |pages|
  {
    && pages != [] && |appended| == |pages|
    && pages[0] == PageOf(log, server, limit, before)
    && Ascending(log + appended[0])
    && (|pages| > 1 ==>
          pages[0].nextCursor.Some?
          && Follows(log + appended[0], server, limit, pages[0].nextCursor, pages[1..], appended[1..]))
  }

  function AllItems(pages: seq<Page>): seq<Row> {
    if pages == [] then [] else pages[0].items + AllItems(pages[1..])
  }

  lemma {:induction false} NewerThanCursor(log: seq<Row>, more: seq<Row>, server: string, before: Option<nat>, k: nat)
    requires Ascending(log + more) && k < |Select(log, server, before)|
    ensures forall j | 0 <= j < |more| :: Select(log, server, before)[k].id <= more[j].id
  {
    SelectIsBelow(log, server, before, k);
    var i :| 0 <= i < |log| && log[i] == Select(log, server, before)[k];
    forall j | 0 <= j < |more| ensures log[i].id <= more[j].id {
      assert (log + more)[i] == log[i] && (log + more)[|log| + j] == more[j];
    }
  }

  lemma LogIsAscending(log: seq<Row>, more: seq<Row>)
    requires Ascending(log + more)
    ensures Ascending(log)
  {
    forall i, j | 0 <= i < j < |log| ensures log[i].id < log[j].id {
      assert (log + more)[i] == log[i] && (log + more)[j] == log[j];
    }
  }

  /** A page takes its rows off the front; the next page starts with the rest, whatever was appended. */
  lemma {:induction false} NextPageContinues(
      log: seq<Row>, more: seq<Row>, server: string, limit: nat, before: Option<nat>)
    requires 1 <= limit <= 100 && Ascending(log + more)
    ensures var rows, page := Select(log, server, before), PageOf(log, server, limit, before);
            if page.nextCursor.None? then |rows| <= limit && page.items == rows
            else
              |rows| > limit && |page.items| == limit
              && page.items + Select(log + more, server, page.nextCursor) == rows
  {
    var rows, cursor := Select(log, server, before), PageOf(log, server, limit, before).nextCursor;
    LogIsAscending(log, more);
    PageIs(log, server, limit, before);
    if cursor.Some? {
      NewerThanCursor(log, more, server, before, limit - 1);
      SelectIgnoresNewer(log, more, server, cursor.value);
      assert rows == rows[..limit] + rows[limit..];
    }
  }

  /**
   * Following the cursor to its end returns exactly the server's rows that were
   * present at the first page, newest first and each once, whatever is appended
   * between the pages.
   */
  lemma {:induction false} FeedIsComplete(log: seq<Row>, server: string, limit: nat, before: Option<nat>,
        pages: seq<Page>, appended: seq<seq<Row>>)
    requires 1 <= limit <= 100 && Follows(log, server, limit, before, pages, appended) && Last(pages).nextCursor.None?
    ensures AllItems(pages) == Select(log, server, before)
    decreases |pages|
  {
    NextPageContinues(log, appended[0], server, limit, before);
    if |pages| > 1 {
      assert Last(pages[1..]) == Last(pages);
      FeedIsComplete(log + appended[0], server, limit, pages[0].nextCursor, pages[1..], appended[1..]);
    } else {
      assert pages[1..] == [];
    }
  }

  lemma OnePageMore(n: nat, limit: nat, rest: nat)
    ensures (n - 2) * limit <= rest ==> (n - 1) * limit <= rest + limit
    ensures (n - 1) * limit < rest ==> n * limit < rest + limit
  {
    Arith.Distribute(n - 2, 1, limit);
    Arith.Distribute(n - 1, 1, limit);
  }

  /** Every page but the last is full, so the end is reached after at most as many pages as there are rows. */
  lemma {:induction false} FeedEnds(log: seq<Row>, server: string, limit: nat, before: Option<nat>,
        pages: seq<Page>, appended: seq<seq<Row>>)
    requires 1 <= limit <= 100 && Follows(log, server, limit, before, pages, appended)
    ensures (|pages| - 1) * limit <= |Select(log, server, before)|
    ensures Last(pages).nextCursor.Some? ==> |pages| * limit < |Select(log, server, before)|
    decreases |pages|
  {
    NextPageContinues(log, appended[0], server, limit, before);
    if |pages| > 1 {
      var n := |pages|;
      assert Last(pages[1..]) == Last(pages);
      FeedEnds(log + appended[0], server, limit, pages[0].nextCursor, pages[1..], appended[1..]);
      OnePageMore(n, limit, |Select(log + appended[0], server, pages[0].nextCursor)|);
    }
  }

  /** The rows come newest first, each once. */
  lemma {:induction false} SelectDescends(log: seq<Row>, server: string, before: Option<nat>, i: nat, j: nat)
    requires Ascending(log) && i < j < |Select(log, server, before)|
    ensures Select(log, server, before)[i].id > Select(log, server, before)[j].id
  {
    SelectBelow(log, server, before, i);
    var c := Select(log, server, before)[i].id;
    SelectIsBelow(log, server, Some(c), j - i - 1);
    assert Select(log, server, Some(c))[j - i - 1] == Select(log, server, before)[j];
  }

  /** Nothing of the server below the cursor is missing. */
  lemma {:induction false} SelectHasAll(log: seq<Row>, server: string, before: Option<nat>, k: nat)
    requires k < |log| && Selected(log[k], server, before)
    ensures log[k] in Select(log, server, before)
  {
    if k < |log| - 1 {
      SelectHasAll(Init(log), server, before, k);
    }
  }
}

/** The security log and the paged licence list of backend/internal/repository/memory_store.go
    and backend/internal/handler/dashboard_handler.go. */
module Listings {
  import opened Basics

  datatype SecurityLog = SecurityLog(id: int, appID: string, eventType: string, actor: string,
                                     ipAddress: string, details: string, createdAt: int)

  ghost predicate Numbered(logs: seq<SecurityLog>) {
    forall i :: 0 <= i < |logs| ==> logs[i].id == |logs| - i
  }

  function Filter<T>(keep: T -> bool, xs: seq<T>): seq<T> {
    if xs == [] then []
    else Filter(keep, xs[..|xs| - 1]) + if keep(xs[|xs| - 1]) then [xs[|xs| - 1]] else []
  }

  function OfApp(appID: string): SecurityLog -> bool {
    (l: SecurityLog) => l.appID == appID
  }

  lemma {:induction false} FilterGrows<T>(keep: T -> bool, xs: seq<T>, n: nat)
    requires n <= |xs|
    ensures Filter(keep, xs[..n]) <= Filter(keep, xs)
    decreases |xs| - n
  {
    if n == |xs| {
      assert xs[..n] == xs;
    } else {
      FilterGrows(keep, xs, n + 1);
      assert xs[..n + 1][..n] == xs[..n];
    }
  }

  // at lists, in order, exactly the places of xs that are kept.
  ghost predicate KeptAt<T>(keep: T -> bool, xs: seq<T>, at: seq<nat>) {
    && (forall i, j :: 0 <= i < j < |at| ==> at[i] < at[j])
    && (forall i :: 0 <= i < |at| ==> at[i] < |xs| && keep(xs[at[i]]))
    && (forall k: nat :: k < |xs| && keep(xs[k]) ==> k in at)
  }

  lemma KeptOneMore<T>(keep: T -> bool, xs: seq<T>, x: T, at: seq<nat>)
    requires KeptAt(keep, xs, at)
    ensures KeptAt(keep, xs + [x], if keep(x) then at + [|xs|] else at)
  {
    var all, at' := xs + [x], if keep(x) then at + [|xs|] else at;
    forall k: nat | k < |all| && keep(all[k]) ensures k in at' {
      if k < |xs| {
        assert all[k] == xs[k] && k in at;
      } else {
        assert at'[|at|] == k;
      }
    }
  }

  ghost predicate Picks<T>(part: seq<T>, xs: seq<T>, at: seq<nat>) {
    |part| == |at| && forall i :: 0 <= i < |at| ==> at[i] < |xs| && part[i] == xs[at[i]]
  }

  lemma PicksOneMore<T>(part: seq<T>, xs: seq<T>, x: T, at: seq<nat>, kept: bool)
    requires Picks(part, xs, at)
    ensures Picks(part + if kept then [x] else [], xs + [x], if kept then at + [|xs|] else at)
  {
  }

  lemma FilterNext<T>(keep: T -> bool, xs: seq<T>, x: T)
    ensures Filter(keep, xs + [x]) == Filter(keep, xs) + if keep(x) then [x] else []
  {
    assert (xs + [x])[..|xs|] == xs;
  }

  // at shows the list part to be exactly what is kept of xs.
  ghost predicate Shows<T>(keep: T -> bool, part: seq<T>, xs: seq<T>, at: seq<nat>) {
    KeptAt(keep, xs, at) && Picks(part, xs, at)
  }

  lemma ShowsOneMore<T>(keep: T -> bool, xs: seq<T>, x: T, at: seq<nat>)
    requires Shows(keep, Filter(keep, xs), xs, at)
    ensures Shows(keep, Filter(keep, xs + [x]), xs + [x], if keep(x) then at + [|xs|] else at)
  {
    FilterNext(keep, xs, x);
    KeptOneMore(keep, xs, x, at);
    PicksOneMore(Filter(keep, xs), xs, x, at, keep(x));
  }

  /** A filtered list is exactly what is kept, each item once and in its order. */
  lemma {:induction false} FilterExactly<T>(keep: T -> bool, xs: seq<T>)
    ensures exists at :: Shows(keep, Filter(keep, xs), xs, at)
  {
    if xs == [] {
      assert Shows(keep, Filter(keep, xs), xs, []);
    } else {
      var front, last := xs[..|xs| - 1], xs[|xs| - 1];
      FilterExactly(keep, front);
      var at :| Shows(keep, Filter(keep, front), front, at);
      assert front + [last] == xs;
      ShowsOneMore(keep, front, last, at);
    }
  }

  /** A listing of an application's log holds entries of that application, and all of them unless it
      has reached its limit. */
  lemma ListedExactly(logs: seq<SecurityLog>, appID: string, l: SecurityLog)
    ensures l in Filter(OfApp(appID), logs) <==> l in logs && l.appID == appID
  {
    FilterExactly(OfApp(appID), logs);
    var at :| Shows(OfApp(appID), Filter(OfApp(appID), logs), logs, at);
    if l in logs && l.appID == appID {
      var k: nat :| k < |logs| && logs[k] == l;
      assert OfApp(appID)(logs[k]);
      var i :| 0 <= i < |at| && at[i] == k;
      assert Filter(OfApp(appID), logs)[i] == l;
    }
    if l in Filter(OfApp(appID), logs) {
      var i :| 0 <= i < |at| && Filter(OfApp(appID), logs)[i] == l;
      assert OfApp(appID)(logs[at[i]]);
    }
  }

  class MemoryLogRepo {
    var logs: seq<SecurityLog>

    constructor ()
      ensures logs == [] && Numbered(logs)
    {
      logs := [];
    }

    method Create(log: SecurityLog, now: int)
      requires Numbered(logs)
      modifies this
      ensures Numbered(logs)
      ensures |logs| == |old(logs)| + 1 && logs[1..] == old(logs)
      ensures logs[0] == log.(id := |logs|, createdAt := now)
    {
      logs := [log.(id := |logs| + 1, createdAt := now)] + logs;
    }

    /** The newest limit logs of the application; a limit below 1 acts like 1. */
    method ListByApp(appID: string, limit: int) returns (matched: seq<SecurityLog>)
      ensures var all := Filter(OfApp(appID), logs);
              matched == all[..Min(|all|, if limit < 1 then 1 else limit)]
    {
      matched := [];
      for i := 0 to |logs|
        invariant matched == Filter(OfApp(appID), logs[..i])
        invariant |matched| < limit || |matched| == 0
      {
        assert logs[..i + 1][..i] == logs[..i];
        if logs[i].appID == appID {
          matched := matched + [logs[i]];
          if |matched| >= limit {
            FilterGrows(OfApp(appID), logs, i + 1);
            return;
          }
        }
      }
      assert logs[..|logs|] == logs;
    }
  }

  ghost predicate Descending(logs: seq<SecurityLog>, floor: int) {
    && (forall i, j :: 0 <= i < j < |logs| ==> logs[i].id > logs[j].id)
    && (forall i :: 0 <= i < |logs| ==> logs[i].id > floor)
  }

  /** Every reachable log is numbered, so that a listing runs from the newest down: each of its
      logs is newer than the next, and newer than every log of the application left out. */
  lemma {:induction false} NewestFirst(logs: seq<SecurityLog>, appID: string, n: nat)
    requires Numbered(logs) && n <= |logs|
    ensures Descending(Filter(OfApp(appID), logs[..n]), |logs| - n)
  {
    var keep := OfApp(appID);
    if n == 0 {
      assert Filter(keep, logs[..n]) == [];
    } else {
      assert logs[..n][..n - 1] == logs[..n - 1];
      NewestFirst(logs, appID, n - 1);
      var front, last := Filter(keep, logs[..n - 1]), logs[n - 1];
      assert Descending(front, |logs| - n + 1);
      assert Filter(keep, logs[..n]) == front + if keep(last) then [last] else [];
      assert last.id == |logs| - n + 1;
    }
  }

  // ------------------------------------------------------------------
  // Pages
  // ------------------------------------------------------------------

  /** matched[offset:end] of Go, which panics unless 0 <= offset <= end. */
  datatype Slice<T> = Page(items: seq<T>) | Panic

  function PageOf<T>(matched: seq<T>, limit: int, page: int): Slice<T> {
    var offset := ((if page < 1 then 1 else page) - 1) * limit;
    if offset > |matched| then Page([])
    else
      var end := Min(offset + limit, |matched|);
      if 0 <= offset <= end then Page(matched[offset..end]) else Panic
  }

  /** Pages below the first are the first, and a page holds the items from its offset on, as many as
      there are up to the limit. */
  lemma PageExactly<T>(matched: seq<T>, limit: int, page: int)
    ensures page < 1 ==> PageOf(matched, limit, page) == PageOf(matched, limit, 1)
    ensures page >= 1 && limit >= 1 ==>
              var offset := (page - 1) * limit;
              && 0 <= offset && PageOf(matched, limit, page).Page?
              && |PageOf(matched, limit, page).items| <= limit
              && forall i :: 0 <= i < limit ==>
                   if offset + i < |matched|
                   then i < |PageOf(matched, limit, page).items|
                        && PageOf(matched, limit, page).items[i] == matched[offset + i]
                   else i >= |PageOf(matched, limit, page).items|
  {
    if page >= 1 && limit >= 1 {
      MulMono(0, page - 1, limit);
    }
  }

  method ListPage<T>(order: seq<T>, keep: T -> bool, limit: int, page: int) returns (r: Slice<T>, total: nat)
    ensures total == |Filter(keep, order)|
    ensures r == PageOf(Filter(keep, order), limit, page)
  {
    var p := page;
    if p < 1 {
      p := 1;
    }
    var offset := (p - 1) * limit;
    var matched: seq<T> := [];
    for i := 0 to |order|
      invariant matched == Filter(keep, order[..i])
    {
      assert order[..i + 1][..i] == order[..i];
      if keep(order[i]) {
        matched := matched + [order[i]];
      }
    }
    assert order[..|order|] == order;
    total := |matched|;
    if offset > total {
      return Page([]), total;
    }
    var end := offset + limit;
    if end > total {
      end := total;
    }
    if 0 <= offset <= end {
      return Page(matched[offset..end]), total;
    }
    return Panic, total;
  }

  function FirstPages<T>(matched: seq<T>, limit: int, pages: nat): Slice<T> {
    if pages == 0 then Page([])
    else
      var front, last := FirstPages(matched, limit, pages - 1), PageOf(matched, limit, pages);
      if front.Panic? || last.Panic? then Panic else Page(front.items + last.items)
  }

  /** Pages of at least one item tile the filtered list: nothing is dropped or repeated. */
  lemma {:induction false} PagesTile<T>(matched: seq<T>, limit: int, pages: nat)
    requires limit >= 1
    ensures 0 <= pages * limit
    ensures FirstPages(matched, limit, pages) == Page(matched[..Min(pages * limit, |matched|)])
  {
    MulMono(0, pages, limit);
    if pages > 0 {
      PagesTile(matched, limit, pages - 1);
      assert pages * limit == (pages - 1) * limit + limit;
      var offset := (pages - 1) * limit;
      if offset <= |matched| {
        var end := Min(offset + limit, |matched|);
        assert matched[..end] == matched[..offset] + matched[offset..end];
      }
    }
  }

  /** Some number of pages lists everything exactly when pages hold at least one item, or there
      is nothing to list and pages are empty. */
  lemma PagesCompleteIff<T>(matched: seq<T>, limit: int)
    ensures (exists n: nat :: n >= 1 && FirstPages(matched, limit, n) == Page(matched))
            <==> limit >= 1 || (limit == 0 && matched == [])
  {
    if limit >= 1 {
      var n := |matched| + 1;
      PagesTile(matched, limit, n);
      assert n * limit >= n by {
        MulMono(1, limit, n);
      }
      assert matched[..|matched|] == matched;
      assert FirstPages(matched, limit, n) == Page(matched);
    } else {
      forall n: nat | n >= 1 ensures FirstPages(matched, limit, n) == if limit == 0 then Page([]) else Panic {
        EmptyPages(matched, limit, n);
      }
      assert limit == 0 && matched == [] ==> FirstPages(matched, limit, 1) == Page(matched);
    }
  }

  lemma {:induction false} EmptyPages<T>(matched: seq<T>, limit: int, n: nat)
    requires limit <= 0 && n >= 1
    ensures FirstPages(matched, limit, n) == if limit == 0 then Page([]) else Panic
  {
    if n > 1 {
      EmptyPages(matched, limit, n - 1);
    }
  }
}

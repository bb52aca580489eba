/** The admission decision of backend/internal/middleware/rate_limiter.go over the fixed
    window counter of backend/internal/cache/cache.go, and the counter that Redis keeps. */
module RateLimiter {
  import opened Basics
  import opened Cache

  method Limit(cache: MemoryCache, now: int, key: string, maxRequests: int, window: int) returns (admitted: bool)
    modifies cache
    ensures cache.items == Step(old(cache.items), Event(now, Increment(key, window))).0
    ensures admitted == Admits(Step(old(cache.items), Event(now, Increment(key, window))).1, maxRequests)
  {
    var count := cache.IncrementRateLimit(now, key, window);
    if count > maxRequests {
      return false;
    }
    return true;
  }

  predicate Admits(r: Reply, maxRequests: int) {
    r.Counted? && r.count <= maxRequests
  }

  // ------------------------------------------------------------------
  // The counter of one key, as a function of the times of its requests
  // ------------------------------------------------------------------

  datatype Window = Window(count: nat, deadline: int)

  function Hit(w: Option<Window>, now: int, ttl: nat): Window {
    if w.Some? && w.value.deadline > now then Window(w.value.count + 1, w.value.deadline)
    else Window(1, now + ttl)
  }

  function WindowAfter(times: seq<int>, ttl: nat): Option<Window> {
    if times == [] then None
    else Some(Hit(WindowAfter(times[..|times| - 1], ttl), times[|times| - 1], ttl))
  }

  /** The count answered to the last request. */
  function Count(times: seq<int>, ttl: nat): nat
    requires times != []
  {
    WindowAfter(times, ttl).value.count
  }

  predicate NonDecreasing(times: seq<int>) {
    forall i, j :: 0 <= i <= j < |times| ==> times[i] <= times[j]
  }

  // ------------------------------------------------------------------
  // Every cache run projects to that counter
  // ------------------------------------------------------------------

  /** The rate limiter is the only user of the key, always with the same window. */
  ghost predicate OnlyLimited(es: seq<Event>, key: string, ttl: nat) {
    && Ordered(es)
    && forall i :: 0 <= i < |es| && !es[i].op.Sweep? && KeyOf(es[i].op) == key ==> es[i].op == Increment(key, ttl)
  }

  function Requests(es: seq<Event>, key: string): seq<int> {
    if es == [] then []
    else
      var front, last := es[..|es| - 1], es[|es| - 1];
      Requests(front, key) + if last.op.Increment? && last.op.key == key then [last.now] else []
  }

  // The slot is the window, unless a sweep has dropped a window that is over.
  predicate Shows(slot: Option<Item>, w: Option<Window>, now: int) {
    || (slot.None? && (w.None? || w.value.deadline < now))
    || (w.Some? && slot == Some(Item(Counter(w.value.count), Some(w.value.deadline))))
  }

  lemma HitShows(slot: Option<Item>, w: Option<Window>, now: int, key: string, ttl: nat)
    requires Shows(slot, w, now)
    ensures var (slot', reply) := Act(slot, Event(now, Increment(key, ttl)));
            Shows(slot', Some(Hit(w, now, ttl)), now) && reply == Counted(Hit(w, now, ttl).count)
  {
  }

  lemma MissShows(items: Items, w: Option<Window>, e: Event, key: string)
    requires Shows(Lookup(items, key), w, e.now) && (!e.op.Sweep? ==> KeyOf(e.op) != key)
    ensures Shows(Lookup(Step(items, e).0, key), w, e.now)
  {
  }

  lemma {:induction false} CacheShowsWindow(items: Items, es: seq<Event>, key: string, ttl: nat, now: int)
    requires key !in items && OnlyLimited(es, key, ttl) && (es != [] ==> es[|es| - 1].now <= now)
    ensures Shows(Lookup(After(items, es), key), WindowAfter(Requests(es, key), ttl), now)
  {
    if es != [] {
      var front, last := es[..|es| - 1], es[|es| - 1];
      var times := Requests(front, key);
      CacheShowsWindow(items, front, key, ttl, last.now);
      if last.op.Increment? && last.op.key == key {
        HitShows(Lookup(After(items, front), key), WindowAfter(times, ttl), last.now, key, ttl);
        StepAt(After(items, front), last, key);
        assert (times + [last.now])[..|times|] == times;
      } else {
        MissShows(After(items, front), WindowAfter(times, ttl), last, key);
        assert times + [] == times;
      }
    }
  }

  lemma RequestsNext(es: seq<Event>, key: string, n: nat)
    requires n < |es| && es[n].op.Increment? && es[n].op.key == key
    ensures Requests(es[..n + 1], key) == Requests(es[..n], key) + [es[n].now]
  {
    assert es[..n + 1][..n] == es[..n];
  }

  lemma WindowNext(times: seq<int>, now: int, ttl: nat)
    ensures WindowAfter(times + [now], ttl) == Some(Hit(WindowAfter(times, ttl), now, ttl))
  {
    assert (times + [now])[..|times|] == times;
  }

  /** Whatever else the cache does, the request is told the count of its own key's times. */
  lemma ReplyIsCount(items: Items, es: seq<Event>, key: string, ttl: nat, n: nat)
    requires key !in items && OnlyLimited(es, key, ttl) && n < |es| && es[n].op == Increment(key, ttl)
    ensures Requests(es[..n + 1], key) == Requests(es[..n], key) + [es[n].now]
    ensures Step(After(items, es[..n]), es[n]).1 == Counted(Count(Requests(es[..n + 1], key), ttl))
  {
    CacheShowsWindow(items, es[..n], key, ttl, es[n].now);
    HitShows(Lookup(After(items, es[..n]), key), WindowAfter(Requests(es[..n], key), ttl), es[n].now, key, ttl);
    RequestsNext(es, key, n);
    WindowNext(Requests(es[..n], key), es[n].now, ttl);
  }

  // ------------------------------------------------------------------
  // Never stricter than a sliding log
  // ------------------------------------------------------------------

  /** How many of the times are later than since. */
  function Later(times: seq<int>, since: int): (n: nat)
    ensures n <= |times|
  {
    if times == [] then 0
    else Later(times[..|times| - 1], since) + if times[|times| - 1] > since then 1 else 0
  }

  lemma {:induction false} LaterMonotone(times: seq<int>, since: int, earlier: int)
    requires earlier <= since
    ensures Later(times, since) <= Later(times, earlier)
  {
    if times != [] {
      LaterMonotone(times[..|times| - 1], since, earlier);
    }
  }

  lemma {:induction false} CountAtMostLater(times: seq<int>, ttl: nat)
    requires times != [] && NonDecreasing(times) && ttl > 0
    ensures var w := WindowAfter(times, ttl).value;
            times[|times| - 1] < w.deadline <= times[|times| - 1] + ttl && w.count <= Later(times, w.deadline - ttl - 1)
  {
    var front, last := times[..|times| - 1], times[|times| - 1];
    if front != [] {
      CountAtMostLater(front, ttl);
    }
  }

  /** A request that is among the last maxRequests of the past window is admitted: the fixed
      window never rejects what a log of all requests of the past window would admit. */
  lemma NeverStricterThanSlidingLog(times: seq<int>, ttl: nat, maxRequests: nat)
    requires times != [] && NonDecreasing(times) && ttl > 0
    requires Later(times, times[|times| - 1] - ttl) <= maxRequests
    ensures Count(times, ttl) <= maxRequests
  {
    CountAtMostLater(times, ttl);
    var w := WindowAfter(times, ttl).value;
    LaterMonotone(times, w.deadline - ttl - 1, times[|times| - 1] - ttl);
  }

  // ------------------------------------------------------------------
  // The most that an interval admits
  // ------------------------------------------------------------------

  /** How many requests in [lo, hi) are admitted. */
  function AdmittedIn(times: seq<int>, ttl: nat, max: nat, lo: int, hi: int): nat {
    if times == [] then 0
    else
      AdmittedIn(times[..|times| - 1], ttl, max, lo, hi)
      + if lo <= times[|times| - 1] < hi && Count(times, ttl) <= max then 1 else 0
  }

  lemma AdmittedNext(times: seq<int>, now: int, ttl: nat, max: nat, lo: int, hi: int)
    ensures AdmittedIn(times + [now], ttl, max, lo, hi)
         == AdmittedIn(times, ttl, max, lo, hi)
            + if lo <= now < hi && Count(times + [now], ttl) <= max then 1 else 0
  {
    assert (times + [now])[..|times|] == times;
  }

  /** begun windows end after lo; the first of them began before lo if early. */
  predicate Budget(w: Window, admitted: nat, begun: nat, early: bool, ttl: nat, max: nat, lo: int) {
    if begun == 0 then w.deadline <= lo && admitted == 0
    else if early then
      && w.deadline > lo + (begun - 1) * ttl
      && admitted < (begun - 1) * max + Min(w.count, max)
    else
      && w.deadline >= lo + begun * ttl
      && admitted <= (begun - 1) * max + Min(w.count, max)
  }

  /** One more request, before the end of the interval. */
  lemma BudgetNext(w: Option<Window>, admitted: nat, begun: nat, early: bool, ttl: nat, max: nat, lo: int, now: int)
    returns (begun': nat, early': bool)
    requires ttl > 0 && max > 0
    requires if w.Some? then Budget(w.value, admitted, begun, early, ttl, max, lo) else admitted == begun == 0
    ensures var w' := Hit(w, now, ttl);
            Budget(w', admitted + if lo <= now && w'.count <= max then 1 else 0, begun', early', ttl, max, lo)
  {
    begun', early' := begun, early;
    if w.None? || w.value.deadline <= now {
      if begun > 0 {
        MulDistributes(begun - 1, 1, ttl);
        MulDistributes(begun - 1, 1, max);
        MulDistributes(begun, 1, ttl);
        begun' := begun + 1;
      } else if now + ttl > lo {
        begun', early' := 1, now < lo;
      }
    }
  }

  lemma {:induction false} WithinBudget(times: seq<int>, ttl: nat, max: nat, lo: int, hi: int)
    returns (begun: nat, early: bool)
    requires times != [] && NonDecreasing(times) && ttl > 0 && max > 0 && times[|times| - 1] < hi
    ensures Budget(WindowAfter(times, ttl).value, AdmittedIn(times, ttl, max, lo, hi), begun, early, ttl, max, lo)
    ensures WindowAfter(times, ttl).value.deadline <= times[|times| - 1] + ttl
  {
    var front, last := times[..|times| - 1], times[|times| - 1];
    begun, early := 0, false;
    if front != [] {
      begun, early := WithinBudget(front, ttl, max, lo, hi);
    }
    begun, early := BudgetNext(WindowAfter(front, ttl), AdmittedIn(front, ttl, max, lo, hi),
                               begun, early, ttl, max, lo, last);
  }

  /** An interval of k windows, wherever it begins, admits at most (k + 1) * max - 1. */
  lemma {:induction false} IntervalLimit(times: seq<int>, ttl: nat, max: nat, lo: int, k: nat)
    requires NonDecreasing(times) && ttl > 0 && max > 0
    ensures AdmittedIn(times, ttl, max, lo, lo + k * ttl) <= (k + 1) * max - 1
  {
    if times != [] {
      var hi, last := lo + k * ttl, times[|times| - 1];
      if last >= hi {
        IntervalLimit(times[..|times| - 1], ttl, max, lo, k);
      } else {
        var begun, early := WithinBudget(times, ttl, max, lo, hi);
        if begun > 0 {
          assert (k + 1) * ttl == k * ttl + ttl;
          MulLess(begun - 1, k + 1, ttl) by {
            assert begun * ttl == (begun - 1) * ttl + ttl;
          }
          assert (k + 1) * max == k * max + max;
          if early {
            MulMono(begun - 1, k, max);
          } else {
            MulLess(begun, k + 1, ttl);
            MulMono(begun - 1, k - 1, max);
            assert k * max == (k - 1) * max + max;
          }
        } else {
          MulMono(0, k, max);
        }
      }
    } else {
      MulMono(0, k, max);
      assert (k + 1) * max == k * max + max;
    }
  }

  function Repeat(t: int, n: nat): seq<int> {
    seq(n, _ => t)
  }

  // The k-th window opens a nanosecond before k * ttl.
  function Opening(k: nat, ttl: nat): (t: int)
    ensures t == k * ttl - 1
  {
    if k == 0 then -1
    else
      assert k * ttl == (k - 1) * ttl + ttl;
      Opening(k - 1, ttl) + ttl
  }

  // The rest of a window's requests: those of the first window wait until 0.
  function Rest(k: nat, ttl: nat): int {
    if k == 0 then 0 else Opening(k, ttl)
  }

  /** max requests in each window from the 0-th to the k-th. */
  function Worst(k: nat, ttl: nat, max: nat): seq<int>
    requires max > 0
  {
    (if k == 0 then [] else Worst(k - 1, ttl, max)) + [Opening(k, ttl)] + Repeat(Rest(k, ttl), max - 1)
  }

  lemma {:induction false} Continue(times: seq<int>, ttl: nat, max: nat, hi: int, t: int, n: nat)
    requires times != [] && WindowAfter(times, ttl).value.deadline > t
    requires WindowAfter(times, ttl).value.count + n <= max && 0 <= t < hi
    ensures var w := WindowAfter(times, ttl).value;
            WindowAfter(times + Repeat(t, n), ttl) == Some(Window(w.count + n, w.deadline))
    ensures AdmittedIn(times + Repeat(t, n), ttl, max, 0, hi) == AdmittedIn(times, ttl, max, 0, hi) + n
  {
    var all := times + Repeat(t, n);
    if n == 0 {
      assert all == times;
    } else {
      Continue(times, ttl, max, hi, t, n - 1);
      assert all[..|all| - 1] == times + Repeat(t, n - 1);
    }
  }

  /** A window that opens at first and takes max - 1 more requests at t. */
  lemma FillWindow(times: seq<int>, ttl: nat, max: nat, hi: int, first: int, t: int)
    requires times != [] ==> WindowAfter(times, ttl).value.deadline <= first
    requires max > 0 && first <= t < first + ttl && 0 <= t < hi
    ensures var all := times + [first] + Repeat(t, max - 1);
            && WindowAfter(all, ttl) == Some(Window(max, first + ttl))
            && AdmittedIn(all, ttl, max, 0, hi)
            == AdmittedIn(times, ttl, max, 0, hi) + max - 1 + (if first >= 0 then 1 else 0)
  {
    var hit := times + [first];
    assert hit[..|hit| - 1] == times;
    Continue(hit, ttl, max, hi, t, max - 1);
  }

  predicate OrderedUpTo(times: seq<int>, last: int) {
    NonDecreasing(times) && forall i :: 0 <= i < |times| ==> times[i] <= last
  }

  lemma AppendOrdered(times: seq<int>, first: int, t: int, n: nat)
    requires OrderedUpTo(times, first) && first <= t
    ensures OrderedUpTo(times + [first] + Repeat(t, n), t)
  {
  }

  lemma {:induction false} WorstOrdered(k: nat, ttl: nat, max: nat)
    requires ttl >= 2 && max > 0
    ensures OrderedUpTo(Worst(k, ttl, max), Rest(k, ttl))
  {
    if k == 0 {
      AppendOrdered([], Opening(k, ttl), 0, max - 1);
    } else {
      WorstOrdered(k - 1, ttl, max);
      assert Rest(k - 1, ttl) <= Opening(k, ttl);
      AppendOrdered(Worst(k - 1, ttl, max), Opening(k, ttl), Opening(k, ttl), max - 1);
    }
  }

  lemma {:induction false} WorstFillsEveryWindow(k: nat, ttl: nat, max: nat, hi: int)
    requires ttl >= 2 && max > 0 && hi > 0 && Opening(k, ttl) < hi
    ensures WindowAfter(Worst(k, ttl, max), ttl) == Some(Window(max, Opening(k, ttl) + ttl))
    ensures AdmittedIn(Worst(k, ttl, max), ttl, max, 0, hi) == (k + 1) * max - 1
  {
    if k == 0 {
      FillWindow([], ttl, max, hi, -1, 0);
    } else {
      var first := Opening(k, ttl);
      OpeningPositive(k, ttl);
      MulDistributes(k, 1, max);
      assert first == Opening(k - 1, ttl) + ttl;
      WorstFillsEveryWindow(k - 1, ttl, max, hi);
      assert Worst(k, ttl, max) == Worst(k - 1, ttl, max) + [first] + Repeat(first, max - 1);
      FillWindow(Worst(k - 1, ttl, max), ttl, max, hi, first, first);
    }
  }

  lemma OpeningPositive(k: nat, ttl: nat)
    requires k >= 1 && ttl >= 2
    ensures Opening(k, ttl) >= 1
  {
  }

  ghost predicate IntervalsAdmitAtMost(n: int, width: nat, ttl: nat, max: nat) {
    forall times, lo, hi :: NonDecreasing(times) && hi == lo + width ==> AdmittedIn(times, ttl, max, lo, hi) <= n
  }

  /** The limit is exact: n bounds the admissions of every interval of k windows in every
      series of requests exactly when n >= (k + 1) * max - 1. */
  lemma IntervalLimitExact(ttl: nat, max: nat, k: nat, n: int)
    requires ttl >= 2 && max > 0 && k > 0
    ensures IntervalsAdmitAtMost(n, k * ttl, ttl, max) <==> n >= (k + 1) * max - 1
  {
    if n >= (k + 1) * max - 1 {
      forall times, lo, hi | NonDecreasing(times) && hi == lo + k * ttl
        ensures AdmittedIn(times, ttl, max, lo, hi) <= n
      {
        IntervalLimit(times, ttl, max, lo, k);
      }
    } else {
      WorstOrdered(k, ttl, max);
      OpeningPositive(k, ttl);
      WorstFillsEveryWindow(k, ttl, max, k * ttl);
      assert AdmittedIn(Worst(k, ttl, max), ttl, max, 0, k * ttl) > n;
    }
  }

  /** How many requests of a cache run on one key are admitted at a time in [lo, hi). */
  function AdmittedEvents(items: Items, es: seq<Event>, key: string, max: nat, lo: int, hi: int): nat {
    if es == [] then 0
    else
      var front, last := es[..|es| - 1], es[|es| - 1];
      AdmittedEvents(items, front, key, max, lo, hi)
      + if last.op.Increment? && last.op.key == key && lo <= last.now < hi
           && Admits(Step(After(items, front), last).1, max) then 1 else 0
  }

  lemma {:induction false} RequestsOrdered(es: seq<Event>, key: string)
    requires Ordered(es)
    ensures NonDecreasing(Requests(es, key))
    ensures forall i :: 0 <= i < |Requests(es, key)| ==> Requests(es, key)[i] <= es[|es| - 1].now
  {
    if es != [] {
      RequestsOrdered(es[..|es| - 1], key);
    }
  }

  lemma {:induction false} AdmittedEventsAreCounted(items: Items, es: seq<Event>, key: string, ttl: nat, max: nat,
                                                  lo: int, hi: int)
    requires key !in items && OnlyLimited(es, key, ttl)
    ensures AdmittedEvents(items, es, key, max, lo, hi) == AdmittedIn(Requests(es, key), ttl, max, lo, hi)
  {
    if es != [] {
      var front, last := es[..|es| - 1], es[|es| - 1];
      AdmittedEventsAreCounted(items, front, key, ttl, max, lo, hi);
      if last.op.Increment? && last.op.key == key {
        assert es[..|es|] == es;
        ReplyIsCount(items, es, key, ttl, |es| - 1);
        AdmittedNext(Requests(front, key), last.now, ttl, max, lo, hi);
      } else {
        assert Requests(es, key) == Requests(front, key);
      }
    }
  }

  /** With sweeps, nonces, sessions and other keys interleaved at will. */
  lemma RunIntervalLimit(items: Items, es: seq<Event>, key: string, ttl: nat, max: nat, lo: int, k: nat)
    requires key !in items && OnlyLimited(es, key, ttl) && ttl > 0 && max > 0
    ensures AdmittedEvents(items, es, key, max, lo, lo + k * ttl) <= (k + 1) * max - 1
  {
    AdmittedEventsAreCounted(items, es, key, ttl, max, lo, lo + k * ttl);
    RequestsOrdered(es, key);
    IntervalLimit(Requests(es, key), ttl, max, lo, k);
  }

  lemma RunNeverStricterThanSlidingLog(items: Items, es: seq<Event>, key: string, ttl: nat, max: nat, n: nat)
    requires key !in items && OnlyLimited(es, key, ttl) && ttl > 0
    requires n < |es| && es[n].op == Increment(key, ttl)
    requires Later(Requests(es[..n + 1], key), es[n].now - ttl) <= max
    ensures Admits(Step(After(items, es[..n]), es[n]).1, max)
  {
    ReplyIsCount(items, es, key, ttl, n);
    RequestsOrdered(es[..n + 1], key);
    NeverStricterThanSlidingLog(Requests(es[..n + 1], key), ttl, max);
  }

  // ------------------------------------------------------------------
  // Redis: INCR, then EXPIRE on every request
  // ------------------------------------------------------------------

  // Whether a key is still there at its very deadline is left open.
  function RedisAfter(times: seq<int>, ttl: nat, inclusive: bool): Option<Window> {
    if times == [] then None
    else
      var w, now := RedisAfter(times[..|times| - 1], ttl, inclusive), times[|times| - 1];
      var live := w.Some? && (now < w.value.deadline || (inclusive && now == w.value.deadline));
      Some(Window(if live then w.value.count + 1 else 1, now + ttl))
  }

  /** At every step the Redis counter is at least the in-memory one, so Redis never admits a
      request that the memory cache rejects. */
  lemma {:induction false} RedisAtLeastMemory(times: seq<int>, ttl: nat, inclusive: bool)
    requires times != [] && NonDecreasing(times)
    ensures RedisAfter(times, ttl, inclusive).value.count >= Count(times, ttl)
    ensures RedisAfter(times, ttl, inclusive).value.deadline >= WindowAfter(times, ttl).value.deadline
  {
    var front := times[..|times| - 1];
    if front != [] {
      RedisAtLeastMemory(front, ttl, inclusive);
    } else {
      assert RedisAfter(front, ttl, inclusive) == None && WindowAfter(front, ttl) == None;
    }
  }

  /** A caller that never pauses for a window is counted from its first request on. */
  lemma {:induction false} RedisNeverForgetsWithoutPause(times: seq<int>, ttl: nat, inclusive: bool)
    requires times != [] && forall i :: 0 < i < |times| ==> times[i] < times[i - 1] + ttl
    ensures RedisAfter(times, ttl, inclusive) == Some(Window(|times|, times[|times| - 1] + ttl))
  {
    if times[..|times| - 1] != [] {
      RedisNeverForgetsWithoutPause(times[..|times| - 1], ttl, inclusive);
    }
  }

  // The key was still there at the i-th request.
  predicate StillThere(times: seq<int>, ttl: nat, inclusive: bool, i: nat)
    requires 0 < i < |times|
  {
    times[i] < times[i - 1] + ttl || (inclusive && times[i] == times[i - 1] + ttl)
  }

  /** Redis counts exactly the requests since the last pause of a window. */
  lemma {:induction false} RedisCountsExactly(times: seq<int>, ttl: nat, inclusive: bool)
    requires times != []
    ensures var w := RedisAfter(times, ttl, inclusive).value;
            var first := |times| - w.count;
            && w.deadline == times[|times| - 1] + ttl && 0 <= first < |times|
            && (forall i :: first < i < |times| ==> StillThere(times, ttl, inclusive, i))
            && (first > 0 ==> !StillThere(times, ttl, inclusive, first))
  {
    var front := times[..|times| - 1];
    if front != [] {
      RedisCountsExactly(front, ttl, inclusive);
      forall i | 0 < i < |front|
        ensures StillThere(front, ttl, inclusive, i) == StillThere(times, ttl, inclusive, i) {}
    }
  }
}

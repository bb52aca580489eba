/** The anti-replay check of backend/internal/service/client_auth_service.go: a clock-skew
    test in milliseconds, then a nonce stored in the cache. */
module ReplayGuard {
  import opened Basics
  import opened Cache

  // ------------------------------------------------------------------
  // The skew test as computed: wrapping subtraction, float64 rounding
  // ------------------------------------------------------------------

  function NearestEven(m: nat, ulp: nat): nat
    requires ulp >= 1
  {
    var q, r := m / ulp, m % ulp;
    if 2 * r < ulp || (2 * r == ulp && q % 2 == 0) then q * ulp else (q + 1) * ulp
  }

  /** m to 53 significant bits, when it does not fit in 53 + log2(ulp) - 1 of them. */
  function RoundMagnitude(m: nat, ulp: nat): nat
    requires ulp >= 1
    decreases m - ulp
  {
    if m < TWO_53 * ulp then NearestEven(m, ulp) else RoundMagnitude(m, 2 * ulp)
  }

  function ToFloat64(x: int): int {
    var r: int := RoundMagnitude(Abs(x), 1);
    if x < 0 then -r else r
  }

  predicate SkewOk(nowMillis: int, timestamp: int, tolerance: nat) {
    Abs(ToFloat64(Wrap64(nowMillis - timestamp))) <= tolerance
  }

  lemma NearestEvenBounds(m: nat, ulp: nat, b: nat)
    requires ulp >= 1 && b * ulp <= m
    ensures NearestEven(m, ulp) >= b * ulp
  {
    var q := m / ulp;
    assert m == q * ulp + m % ulp;
    assert (q + 1) * ulp == q * ulp + ulp;
    MulLess(b, q + 1, ulp);
    MulMono(b, q, ulp);
    MulMono(b, q + 1, ulp);
  }

  lemma {:induction false} RoundLarge(m: nat, ulp: nat)
    requires ulp >= 1 && m >= TWO_53 && (ulp >= 2 ==> 2 * m >= TWO_53 * ulp)
    ensures RoundMagnitude(m, ulp) >= TWO_53
    decreases m - ulp
  {
    if m < TWO_53 * ulp {
      NearestEvenBounds(m, ulp, TWO_53 / 2);
    } else {
      RoundLarge(m, 2 * ulp);
    }
  }

  lemma RoundingKeepsTolerance(x: int, tolerance: nat)
    requires tolerance < TWO_53
    ensures Abs(ToFloat64(x)) <= tolerance <==> Abs(x) <= tolerance
  {
    if Abs(x) >= TWO_53 {
      RoundLarge(Abs(x), 1);
    } else {
      assert NearestEven(Abs(x), 1) == Abs(x);
    }
  }

  /** The clocks on which neither the wrap-around nor the rounding can matter. */
  predicate ClockInRange(nowMillis: int, tolerance: nat) {
    -TWO_63 + tolerance <= nowMillis < TWO_63 - tolerance
  }

  lemma SkewOkIsExact(nowMillis: int, timestamp: int, tolerance: nat)
    requires IsInt64(timestamp) && tolerance < TWO_53 && ClockInRange(nowMillis, tolerance)
    ensures SkewOk(nowMillis, timestamp, tolerance) <==> Abs(nowMillis - timestamp) <= tolerance
  {
    RoundingKeepsTolerance(Wrap64(nowMillis - timestamp), tolerance);
    var k: int :| Wrap64(nowMillis - timestamp) == nowMillis - timestamp + k * TWO_64;
    assert -1 <= k <= 1;
  }

  /** The computed test is the mathematical one for every timestamp exactly on the clocks
      in range: outside, a timestamp at the far end of int64 is let through. */
  lemma SkewTestCorrectIff(nowMillis: int, tolerance: nat)
    requires IsInt64(nowMillis) && tolerance < TWO_53
    ensures (forall ts: int | IsInt64(ts) ::
               SkewOk(nowMillis, ts, tolerance) <==> Abs(nowMillis - ts) <= tolerance)
            <==> ClockInRange(nowMillis, tolerance)
  {
    if ClockInRange(nowMillis, tolerance) {
      forall ts: int | IsInt64(ts)
        ensures SkewOk(nowMillis, ts, tolerance) <==> Abs(nowMillis - ts) <= tolerance
      {
        SkewOkIsExact(nowMillis, ts, tolerance);
      }
    } else {
      var ts := if nowMillis < 0 then TWO_63 - 1 else -TWO_63;
      assert IsInt64(ts);
      RoundingKeepsTolerance(Wrap64(nowMillis - ts), tolerance);
      var k: int :| Wrap64(nowMillis - ts) == nowMillis - ts + k * TWO_64;
      assert k == if nowMillis < 0 then 1 else -1;
      assert SkewOk(nowMillis, ts, tolerance) && !(Abs(nowMillis - ts) <= tolerance);
    }
  }

  // ------------------------------------------------------------------
  // Runs of the guard
  // ------------------------------------------------------------------

  const MILLI: int := 1_000_000

  /** One call of validateNonceAndTimestamp. The service reads the clock for the skew test,
      the cache reads it again under its lock; other steps may come between the two. */
  datatype Request = Request(nonce: string, timestamp: int, skewAt: int, storeAt: int)

  // Skew in milliseconds; TTL and largest delay between the two readings in nanoseconds.
  datatype Params = Params(skew: nat, ttl: nat, delay: nat)

  const CODE: Params := Params(30_000, 60_000 * MILLI, 0)

  datatype GuardStep = Validate(req: Request) | Other(event: Event)

  function Now(s: GuardStep): int {
    if s.Validate? then s.req.storeAt else s.event.now
  }

  function Guard(items: Items, r: Request, p: Params): (Items, bool) {
    if !SkewOk(r.skewAt / MILLI, r.timestamp, p.skew) then (items, false)
    else
      var (items', reply) := Step(items, Event(r.storeAt, Op.SetNonce(r.nonce, p.ttl)));
      (items', reply == Fresh(true))
  }

  method ValidateNonceAndTimestamp(cache: MemoryCache, r: Request) returns (ok: bool)
    modifies cache
    ensures (cache.items, ok) == Guard(old(cache.items), r, CODE)
  {
    var nowMillis := r.skewAt / MILLI;
    var diff := Abs(ToFloat64(Wrap64(nowMillis - r.timestamp)));
    if diff > 30_000 {
      return false;
    }
    ok := cache.SetNonce(r.storeAt, r.nonce, 60_000 * MILLI);
  }

  function Next(items: Items, s: GuardStep, p: Params): Items {
    if s.Validate? then Guard(items, s.req, p).0 else Step(items, s.event).0
  }

  function AfterGuard(items: Items, ss: seq<GuardStep>, p: Params): Items {
    if ss == [] then items else Next(AfterGuard(items, ss[..|ss| - 1], p), ss[|ss| - 1], p)
  }

  ghost predicate Accepted(items: Items, ss: seq<GuardStep>, p: Params, i: nat) {
    i < |ss| && ss[i].Validate? && Guard(AfterGuard(items, ss[..i], p), ss[i].req, p).1
  }

  ghost predicate Timely(r: Request, p: Params) {
    && r.skewAt <= r.storeAt <= r.skewAt + p.delay
    && IsInt64(r.timestamp)
    && ClockInRange(r.skewAt / MILLI, p.skew)
  }

  predicate Foreign(op: Op) {
    op.Sweep? || !("nonce:" <= KeyOf(op))
  }

  /** Requests, sweeps, rate-limit counts, sessions and every other use of the cache, in any
      order, as long as the clock does not go back. Only the guard addresses a nonce key:
      no code of the repository calls Set or Delete on one. */
  ghost predicate Legal(ss: seq<GuardStep>, p: Params) {
    && Undisturbed(ss)
    && (forall i :: 0 <= i < |ss| && ss[i].Validate? ==> Timely(ss[i].req, p))
  }

  ghost predicate Undisturbed(ss: seq<GuardStep>) {
    && (forall i, j :: 0 <= i <= j < |ss| ==> Now(ss[i]) <= Now(ss[j]))
    && (forall i :: 0 <= i < |ss| && ss[i].Other? ==> Foreign(ss[i].event.op))
  }

  /** at lists acceptances, in order, of one and the same nonce and timestamp. */
  ghost predicate Acceptances(items: Items, ss: seq<GuardStep>, p: Params, at: seq<nat>) {
    && (forall x, y :: 0 <= x < y < |at| ==> at[x] < at[y])
    && (forall x :: 0 <= x < |at| ==> Accepted(items, ss, p, at[x]))
    && (forall x, y :: 0 <= x < |at| && 0 <= y < |at| ==>
          && ss[at[x]].req.nonce == ss[at[y]].req.nonce
          && ss[at[x]].req.timestamp == ss[at[y]].req.timestamp)
  }

  /** How far apart two acceptances of one timestamp can be stored: the window of the skew
      test, the truncation to milliseconds, and the delay. */
  function Width(p: Params): nat {
    2 * p.skew * MILLI + MILLI - 1 + p.delay
  }

  // The slot keeps the nonce until the deadline, or the deadline has passed.
  predicate Holds(slot: Option<Item>, deadline: int, now: int) {
    || (slot.Some? && slot.value.expiresAt.Some? && slot.value.expiresAt.value >= deadline)
    || now > deadline
  }

  lemma NextHolds(items: Items, s: GuardStep, p: Params, nonce: string, deadline: int, now: int)
    requires Holds(Lookup(items, NonceKey(nonce)), deadline, now) && now <= Now(s)
    requires s.Other? ==> Foreign(s.event.op)
    ensures Holds(Lookup(Next(items, s, p), NonceKey(nonce)), deadline, Now(s))
    ensures s.Validate? && s.req.nonce == nonce && Guard(items, s.req, p).1 ==> Now(s) >= deadline
  {
  }

  lemma AfterOneMore(items: Items, ss: seq<GuardStep>, p: Params, k: nat)
    requires k < |ss|
    ensures AfterGuard(items, ss[..k + 1], p) == Next(AfterGuard(items, ss[..k], p), ss[k], p)
  {
    assert ss[..k + 1][..k] == ss[..k];
  }

  // After the first k steps, the nonce of the i-th is still held.
  ghost predicate Held(items: Items, ss: seq<GuardStep>, p: Params, i: nat, k: nat) {
    && i < k <= |ss| && ss[i].Validate?
    && Holds(Lookup(AfterGuard(items, ss[..k], p), NonceKey(ss[i].req.nonce)),
             ss[i].req.storeAt + p.ttl, Now(ss[k - 1]))
  }

  lemma HeldAtFirst(items: Items, ss: seq<GuardStep>, p: Params, i: nat)
    requires Accepted(items, ss, p, i)
    ensures Held(items, ss, p, i, i + 1)
  {
    AfterOneMore(items, ss, p, i);
  }

  lemma HeldOneMore(items: Items, ss: seq<GuardStep>, p: Params, i: nat, k: nat)
    requires Held(items, ss, p, i, k) && k < |ss| && Now(ss[k - 1]) <= Now(ss[k])
    requires ss[k].Other? ==> Foreign(ss[k].event.op)
    ensures Held(items, ss, p, i, k + 1)
  {
    AfterOneMore(items, ss, p, k);
    NextHolds(AfterGuard(items, ss[..k], p), ss[k], p, ss[i].req.nonce, ss[i].req.storeAt + p.ttl, Now(ss[k - 1]));
  }

  lemma {:induction false} NonceHeld(items: Items, ss: seq<GuardStep>, p: Params, i: nat, k: nat)
    requires Undisturbed(ss) && Held(items, ss, p, i, i + 1) && i < k <= |ss|
    ensures Held(items, ss, p, i, k)
  {
    if k > i + 1 {
      NonceHeld(items, ss, p, i, k - 1);
      HeldOneMore(items, ss, p, i, k - 1);
    }
  }

  /** Two acceptances of one nonce, whatever their timestamps, are a TTL apart. */
  lemma AcceptedApart(items: Items, ss: seq<GuardStep>, p: Params, i: nat, j: nat)
    requires Legal(ss, p) && i < j && Accepted(items, ss, p, i) && Accepted(items, ss, p, j)
    requires ss[i].req.nonce == ss[j].req.nonce
    ensures ss[j].req.storeAt >= ss[i].req.storeAt + p.ttl
  {
    HeldAtFirst(items, ss, p, i);
    NonceHeld(items, ss, p, i, j);
    NextHolds(AfterGuard(items, ss[..j], p), ss[j], p, ss[i].req.nonce,
              ss[i].req.storeAt + p.ttl, Now(ss[j - 1]));
  }

  // The i-th request was accepted and put the nonce where it is after the first k steps.
  ghost predicate Origin(items: Items, ss: seq<GuardStep>, p: Params, nonce: string, k: nat, i: nat) {
    && i < k <= |ss| && Accepted(items, ss, p, i) && ss[i].req.nonce == nonce
    && PutAt(AfterGuard(items, ss[..k], p), nonce, ss[i].req.storeAt + p.ttl)
  }

  predicate PutAt(items: Items, nonce: string, deadline: int) {
    NonceKey(nonce) in items && items[NonceKey(nonce)].expiresAt == Some(deadline)
  }

  lemma AcceptedPuts(items: Items, s: GuardStep, p: Params)
    requires s.Validate? && Guard(items, s.req, p).1
    ensures PutAt(Next(items, s, p), s.req.nonce, s.req.storeAt + p.ttl)
  {
  }

  lemma OriginNew(items: Items, ss: seq<GuardStep>, p: Params, k: nat)
    requires Accepted(items, ss, p, k)
    ensures Origin(items, ss, p, ss[k].req.nonce, k + 1, k)
  {
    AfterOneMore(items, ss, p, k);
    AcceptedPuts(AfterGuard(items, ss[..k], p), ss[k], p);
  }

  lemma OriginKept(items: Items, ss: seq<GuardStep>, p: Params, nonce: string, k: nat)
    requires k < |ss| && (ss[k].Other? ==> Foreign(ss[k].event.op))
    requires !(Accepted(items, ss, p, k) && ss[k].req.nonce == nonce)
    requires NonceKey(nonce) in AfterGuard(items, ss[..k + 1], p)
    ensures NonceKey(nonce) in AfterGuard(items, ss[..k], p)
    ensures forall i: nat :: Origin(items, ss, p, nonce, k, i) ==> Origin(items, ss, p, nonce, k + 1, i)
  {
    AfterOneMore(items, ss, p, k);
    SlotUnlessAccepted(AfterGuard(items, ss[..k], p), ss[k], p, nonce);
  }

  lemma {:induction false} SlotOrigin(items: Items, ss: seq<GuardStep>, p: Params, nonce: string, k: nat)
    returns (i: nat)
    requires Undisturbed(ss) && NonceKey(nonce) !in items && k <= |ss|
    requires NonceKey(nonce) in AfterGuard(items, ss[..k], p)
    ensures Origin(items, ss, p, nonce, k, i)
  {
    if k == 0 {
      assert false;
    } else {
      i := k - 1;
      if Accepted(items, ss, p, i) && ss[i].req.nonce == nonce {
        OriginNew(items, ss, p, i);
      } else {
        OriginKept(items, ss, p, nonce, i);
        i := SlotOrigin(items, ss, p, nonce, i);
      }
    }
  }

  lemma SlotUnlessAccepted(items: Items, s: GuardStep, p: Params, nonce: string)
    requires s.Other? ==> Foreign(s.event.op)
    requires !(s.Validate? && s.req.nonce == nonce && Guard(items, s.req, p).1)
    requires NonceKey(nonce) in Next(items, s, p)
    ensures Lookup(items, NonceKey(nonce)) == Lookup(Next(items, s, p), NonceKey(nonce))
  {
    if s.Other? {
      StepAt(items, s.event, NonceKey(nonce));
    } else if s.req.nonce != nonce {
      assert NonceKey(s.req.nonce)[6..] == s.req.nonce && NonceKey(nonce)[6..] == nonce;
    }
  }

  lemma GuardExactly(items: Items, r: Request, p: Params)
    requires Timely(r, p) && p.skew < TWO_53
    ensures Guard(items, r, p).1 <==>
            && Abs(r.skewAt / MILLI - r.timestamp) <= p.skew
            && !(NonceKey(r.nonce) in items && Blocks(items[NonceKey(r.nonce)], r.storeAt))
  {
    SkewOkIsExact(r.skewAt / MILLI, r.timestamp, p.skew);
  }

  // Some request with the nonce was accepted less than a TTL before the j-th.
  ghost predicate SeenLately(items: Items, ss: seq<GuardStep>, p: Params, j: nat)
    requires j < |ss| && ss[j].Validate?
  {
    exists i :: 0 <= i < j && Accepted(items, ss, p, i) && ss[i].req.nonce == ss[j].req.nonce
                && ss[j].req.storeAt < ss[i].req.storeAt + p.ttl
  }

  /** Over every legal run: a request is accepted exactly when its timestamp is within the skew and
      its nonce was not accepted within the last TTL. */
  lemma AcceptedExactly(items: Items, ss: seq<GuardStep>, p: Params, j: nat)
    requires Legal(ss, p) && p.skew < TWO_53 && j < |ss| && ss[j].Validate? && NonceKey(ss[j].req.nonce) !in items
    ensures Accepted(items, ss, p, j) <==>
            && Abs(ss[j].req.skewAt / MILLI - ss[j].req.timestamp) <= p.skew
            && !SeenLately(items, ss, p, j)
  {
    GuardExactly(AfterGuard(items, ss[..j], p), ss[j].req, p);
    if Accepted(items, ss, p, j) {
      forall i | 0 <= i < j && Accepted(items, ss, p, i) && ss[i].req.nonce == ss[j].req.nonce
        ensures ss[j].req.storeAt >= ss[i].req.storeAt + p.ttl
      {
        AcceptedApart(items, ss, p, i, j);
      }
    } else if NonceKey(ss[j].req.nonce) in AfterGuard(items, ss[..j], p) {
      var i := SlotOrigin(items, ss, p, ss[j].req.nonce, j);
    }
  }

  lemma {:induction false} AcceptancesApart(items: Items, ss: seq<GuardStep>, p: Params, at: seq<nat>, m: nat)
    requires Legal(ss, p) && Acceptances(items, ss, p, at) && m < |at|
    ensures ss[at[m]].req.storeAt >= ss[at[0]].req.storeAt + m * p.ttl
  {
    if m > 0 {
      AcceptancesApart(items, ss, p, at, m - 1);
      AcceptedApart(items, ss, p, at[m - 1], at[m]);
      MulDistributes(m - 1, 1, p.ttl);
    }
  }

  /** The readings on which one timestamp passes the skew test. */
  lemma AcceptedInWindow(items: Items, ss: seq<GuardStep>, p: Params, i: nat)
    requires Legal(ss, p) && Accepted(items, ss, p, i) && p.skew < TWO_53
    ensures var r := ss[i].req;
            (r.timestamp - p.skew) * MILLI <= r.skewAt < (r.timestamp + p.skew + 1) * MILLI
  {
    SkewOkIsExact(ss[i].req.skewAt / MILLI, ss[i].req.timestamp, p.skew);
  }

  lemma AcceptancesBound(items: Items, ss: seq<GuardStep>, p: Params, at: seq<nat>)
    requires Legal(ss, p) && Acceptances(items, ss, p, at) && at != [] && p.skew < TWO_53
    ensures (|at| - 1) * p.ttl <= Width(p)
  {
    AcceptancesApart(items, ss, p, at, |at| - 1);
    AcceptedInWindow(items, ss, p, at[0]);
    AcceptedInWindow(items, ss, p, at[|at| - 1]);
    assert Timely(ss[at[0]].req, p) && Timely(ss[at[|at| - 1]].req, p);
    assert ss[at[0]].req.timestamp == ss[at[|at| - 1]].req.timestamp;
  }

  // The k-th of a series of requests that return the moment the nonce expires.
  function Resent(p: Params, k: nat): GuardStep {
    Validate(Request("n", p.skew, Min(k * p.ttl, 2 * p.skew * MILLI + MILLI - 1), k * p.ttl))
  }

  function Resends(p: Params, n: nat): (ss: seq<GuardStep>)
    ensures |ss| == n && forall k :: 0 <= k < n ==> ss[k] == Resent(p, k)
  {
    seq(n, k requires 0 <= k => Resent(p, k))
  }

  lemma ResendsLegal(p: Params, n: nat)
    requires p.skew < TWO_53 && n * p.ttl <= Width(p)
    ensures Legal(Resends(p, n + 1), p)
  {
    var ss := Resends(p, n + 1);
    forall i, j | 0 <= i <= j < |ss| ensures Now(ss[i]) <= Now(ss[j]) {
      MulMono(i, j, p.ttl);
    }
    forall i | 0 <= i < |ss| ensures Timely(ss[i].req, p) {
      MulMono(0, i, p.ttl);
      MulMono(i, n, p.ttl);
      assert 0 <= ss[i].req.skewAt <= 2 * p.skew * MILLI + MILLI - 1;
    }
  }

  predicate SlotUntil(items: Items, deadline: int) {
    Lookup(items, NonceKey("n")) == Some(Item(Text("1"), Some(deadline)))
  }

  lemma ResentAccepted(items: Items, p: Params, k: nat)
    requires p.skew < TWO_53 && Timely(Resent(p, k).req, p)
    requires NonceKey("n") !in items || SlotUntil(items, k * p.ttl)
    ensures var (items', ok) := Guard(items, Resent(p, k).req, p);
            ok && SlotUntil(items', k * p.ttl + p.ttl)
  {
  }

  lemma {:induction false} ResendsAccepted(p: Params, n: nat, k: nat)
    requires p.skew < TWO_53 && n * p.ttl <= Width(p) && k <= n
    ensures Accepted(map[], Resends(p, n + 1), p, k)
    ensures SlotUntil(AfterGuard(map[], Resends(p, n + 1)[..k + 1], p), (k + 1) * p.ttl)
  {
    var ss := Resends(p, n + 1);
    ResendsLegal(p, n);
    if k > 0 {
      ResendsAccepted(p, n, k - 1);
    }
    assert Timely(ss[k].req, p);
    ResentAccepted(AfterGuard(map[], ss[..k], p), p, k);
    AfterOneMore(map[], ss, p, k);
    MulDistributes(k, 1, p.ttl);
  }

  ghost predicate NeverMoreThan(n: nat, p: Params) {
    forall items, ss, at :: Legal(ss, p) && Acceptances(items, ss, p, at) ==> |at| <= n
  }

  /** Over every legal run, from every cache, no nonce and timestamp are accepted more than n
      times, exactly when n TTLs outlast the width. With n = 1, at most once exactly when
      the TTL is longer than twice the skew, a millisecond's truncation and the delay. */
  lemma ReplayLimit(n: nat, p: Params)
    requires n >= 1 && p.skew < TWO_53
    ensures NeverMoreThan(n, p) <==> n * p.ttl > Width(p)
  {
    if n * p.ttl > Width(p) {
      forall items, ss, at | Legal(ss, p) && Acceptances(items, ss, p, at)
        ensures |at| <= n
      {
        if |at| > n {
          AcceptancesBound(items, ss, p, at);
          MulMono(n, |at| - 1, p.ttl);
        }
      }
    } else {
      var ss := Resends(p, n + 1);
      ResendsLegal(p, n);
      var at := seq(n + 1, x requires 0 <= x => x as nat);
      forall x | 0 <= x < |at| ensures Accepted(map[], ss, p, at[x]) {
        ResendsAccepted(p, n, x);
      }
      assert Acceptances(map[], ss, p, at) && |at| == n + 1;
    }
  }

  /** With the code's 30 s, 60 s and one reading per request, a pair can be accepted twice,
      never three times, and twice only at the two ends of its window. */
  lemma CodeAcceptsTwiceAtMost()
    ensures !NeverMoreThan(1, CODE) && NeverMoreThan(2, CODE)
  {
    ReplayLimit(1, CODE);
    ReplayLimit(2, CODE);
  }

  lemma CodeAcceptsTwiceOnlyAtTheEnds(items: Items, ss: seq<GuardStep>, i: nat, j: nat)
    requires Legal(ss, CODE) && i < j && Accepted(items, ss, CODE, i) && Accepted(items, ss, CODE, j)
    requires ss[i].req.nonce == ss[j].req.nonce && ss[i].req.timestamp == ss[j].req.timestamp
    ensures ss[i].req.skewAt / MILLI == ss[i].req.timestamp - 30_000
    ensures ss[j].req.skewAt / MILLI == ss[j].req.timestamp + 30_000
  {
    AcceptedApart(items, ss, CODE, i, j);
    AcceptedInWindow(items, ss, CODE, i);
    AcceptedInWindow(items, ss, CODE, j);
    assert Timely(ss[i].req, CODE) && Timely(ss[j].req, CODE);
  }
}

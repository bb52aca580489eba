/** Reseller credits: the store of backend/internal/repository/memory_store.go and the
    GenerateLicenses handler of backend/internal/handler/dashboard_handler.go, whose three
    store effects may interleave with those of other requests. */
module CreditLedger {
  import opened Basics
  import opened Licenses
  import KeyGenerator

  datatype Reseller = Reseller(appID: string, username: string, credits: Int64, canResetHWID: bool, isActive: bool)

  type Resellers = map<string, Reseller>

  function WithCredits(rs: Resellers, id: string, credits: int): Resellers
    requires id in rs
  {
    rs[id := rs[id].(credits := Wrap64(credits))]
  }

  class MemoryResellerRepo {
    var resellers: Resellers

    constructor ()
      ensures resellers == map[]
    {
      resellers := map[];
    }

    method Create(id: string, res: Reseller)
      modifies this
      ensures resellers == old(resellers)[id := res]
    {
      resellers := resellers[id := res];
    }

    /** Err means that there is no such reseller, Ok(false) that the credits do not suffice. */
    method DeductCredits(id: string, amount: Int64) returns (r: Result<bool, ()>)
      modifies this
      ensures r == if id !in old(resellers) then Err(()) else Ok(old(resellers)[id].credits >= amount)
      ensures var paid := if r == Ok(true) then Some(old(resellers)[id]) else None;
              resellers == if paid.None? then old(resellers)
                           else old(resellers)[id := paid.value.(credits := Wrap64(paid.value.credits - amount))]
    {
      if id !in resellers {
        return Err(());
      }
      var res := resellers[id];
      if res.credits >= amount {
        res := res.(credits := Wrap64(res.credits - amount));
        resellers := resellers[id := res];
        return Ok(true);
      }
      return Ok(false);
    }

    method AddCredits(id: string, amount: Int64) returns (ok: bool)
      modifies this
      ensures ok == (id in old(resellers))
      ensures var res := if ok then Some(old(resellers)[id]) else None;
              resellers == if res.None? then old(resellers)
                           else old(resellers)[id := res.value.(credits := Wrap64(res.value.credits + amount))]
    {
      if id !in resellers {
        return false;
      }
      var res := resellers[id];
      res := res.(credits := Wrap64(res.credits + amount));
      resellers := resellers[id := res];
      return true;
    }
  }

  // ------------------------------------------------------------------
  // Prices
  // ------------------------------------------------------------------

  datatype Request = Request(appID: string, user: string, isReseller: bool, count: int, mask: string,
                             durationDays: Int64, isLifetime: bool, maxHWIDs: int)

  predicate WellFormed(q: Request) {
    1 <= q.count <= 10_000
  }

  function Price(q: Request): (p: int)
    ensures IsInt64(p)
  {
    if q.isLifetime then Wrap64(q.count * 365) else Wrap64(q.count * q.durationDays)
  }

  function Issue(q: Request, key: string): License {
    License(q.appID, key, if q.isLifetime then 0 else Wrap64(q.durationDays * 86_400), q.isLifetime,
            None, [], if q.maxHWIDs <= 0 then 1 else q.maxHWIDs, UNACTIVATED, None, None, None, None, q.user, 0)
  }

  /** What a licence is worth: 365 for life, otherwise the days of its duration. */
  function Worth(l: License): int {
    if l.isLifetime then 365 else l.durationSeconds / 86_400
  }

  /** What the licences of a request are worth together. */
  function Value(q: Request): int {
    q.count * Worth(Issue(q, ""))
  }

  /** The durations whose seconds fit an int64. */
  predicate DaysInRange(q: Request) {
    -106_751_991_167_300 <= q.durationDays <= 106_751_991_167_300
  }

  lemma PriceIsWorth(q: Request)
    requires WellFormed(q) && (q.isLifetime || DaysInRange(q))
    ensures Price(q) == Value(q)
  {
    if !q.isLifetime {
      assert IsInt64(q.durationDays * 86_400);
      assert IsInt64(q.count * q.durationDays) by {
        MulMono(q.durationDays, 106_751_991_167_300, q.count);
        MulMono(-106_751_991_167_300, q.durationDays, q.count);
      }
    }
  }

  /** A request is priced at what its licences are worth, for every number of them, exactly when
      it is for life or its seconds fit an int64. */
  lemma PriceIsWorthExactly(q: Request)
    ensures (forall n :: 1 <= n <= 10_000 ==> Price(q.(count := n)) == Value(q.(count := n)))
            <==> q.isLifetime || DaysInRange(q)
  {
    if q.isLifetime || DaysInRange(q) {
      forall n | 1 <= n <= 10_000 ensures Price(q.(count := n)) == Value(q.(count := n)) {
        PriceIsWorth(q.(count := n));
      }
    } else {
      assert Price(q.(count := 1)) == q.durationDays;
      assert Value(q.(count := 1)) == Wrap64(q.durationDays * 86_400) / 86_400;
    }
  }

  /** The requests that a lower and an upper limit on the days let through; a request for life
      is not limited. */
  function WithDays(lo: int, hi: int): Request -> bool {
    (q: Request) => q.isLifetime || lo <= q.durationDays <= hi
  }

  // Keys that never expire cost what lifetime keys cost.
  ghost predicate NeverExpiringPaid(lo: int, hi: int) {
    forall q: Request, key, now ::
      WellFormed(q) && WithDays(lo, hi)(q) && CalculateExpiration(Issue(q, key), now) == None
      ==> Price(q) == 365 * q.count
  }

  // The seconds of all these days wrap around alike, to positive numbers.
  predicate InWindow(lo: int, hi: int, k: int) {
    k * TWO_64 < lo * 86_400 && hi * 86_400 < k * TWO_64 + TWO_63
  }

  lemma WrapIs(x: int, k: int)
    requires IsInt64(x - k * TWO_64)
    ensures Wrap64(x) == x - k * TWO_64
  {
  }

  // Days that never expire without being paid for.
  lemma NeverExpires(lo: int, hi: int, d: Int64)
    requires lo <= d <= hi && Wrap64(d * 86_400) <= 0
    ensures !NeverExpiringPaid(lo, hi)
  {
    var q := Request("", "", true, 1, "", d, false, 1);
    assert CalculateExpiration(Issue(q, ""), 0) == None && Price(q) == d;
    assert Price(q) != 365 * q.count;
  }

  lemma WindowPaid(lo: int, hi: int, k: int)
    requires InWindow(lo, hi, k)
    ensures NeverExpiringPaid(lo, hi)
  {
    forall q: Request, key, now |
        WellFormed(q) && WithDays(lo, hi)(q) && CalculateExpiration(Issue(q, key), now) == None
      ensures Price(q) == 365 * q.count
    {
      if !q.isLifetime {
        WrapIs(q.durationDays * 86_400, k);
      }
    }
  }

  // The first day whose seconds are beyond the window of lo.
  lemma DayBeyond(lo: Int64, hi: Int64) returns (d: Int64)
    requires lo <= hi && Wrap64(lo * 86_400) > 0 && forall k :: !InWindow(lo, hi, k)
    ensures lo <= d <= hi && Wrap64(d * 86_400) <= 0
  {
    var j: int :| Wrap64(lo * 86_400) == lo * 86_400 + j * TWO_64;
    assert !InWindow(lo, hi, -j);
    var x := (-j * TWO_64 + TWO_63 + 86_399) / 86_400;
    assert IsInt64(lo) && IsInt64(hi) && lo <= x <= hi;
    d := x;
    WrapIs(d * 86_400, -j + 1);
  }

  /** Under limits on the days, keys that never expire are paid for as such exactly when no wrap
      of the seconds falls between the limits and both leave a positive duration. */
  lemma NeverExpiringPaidIff(lo: Int64, hi: Int64)
    requires lo <= hi
    ensures NeverExpiringPaid(lo, hi) <==> exists k :: InWindow(lo, hi, k)
  {
    if k :| InWindow(lo, hi, k) {
      WindowPaid(lo, hi, k);
    } else if Wrap64(lo * 86_400) <= 0 {
      NeverExpires(lo, hi, lo);
    } else {
      var d := DayBeyond(lo, hi);
      NeverExpires(lo, hi, d);
    }
  }

  /** A minimum of one day and a maximum: exactly up to 106,751,991,167,300 days. */
  lemma MaximumDaysPaid(hi: Int64)
    requires hi >= 1
    ensures NeverExpiringPaid(1, hi) <==> hi <= 106_751_991_167_300
  {
    NeverExpiringPaidIff(1, hi);
    if hi <= 106_751_991_167_300 {
      assert InWindow(1, hi, 0);
    }
  }

  /** 128 keys for 2^57 days each are free and never expire. */
  lemma FreeForever(key: string, now: int)
    ensures var q := Request("app", "r", true, 128, "", 144_115_188_075_855_872, false, 1);
            WellFormed(q) && Price(q) == 0 && CalculateExpiration(Issue(q, key), now) == None
  {
  }

  // ------------------------------------------------------------------
  // Interleaved requests
  // ------------------------------------------------------------------

  // A request that has paid, before and after its keys are drawn.
  datatype Ticket = Ticket(req: Request, keys: Option<seq<string>>)

  // The licences issued, and the history: the requests they were stored for, the requests lost
  // to failed batches, and the credits handed out.
  datatype Ledger = Ledger(resellers: Resellers, inFlight: seq<Ticket>, issued: seq<License>,
                           stored: seq<Request>, lost: seq<Request>, granted: seq<(string, int)>)

  datatype Step =
    | Enrol(id: string, res: Reseller)
    | Grant(id: string, amount: Int64)
    | Deduct(req: Request)
    | Generate(ticket: nat, keys: Option<seq<string>>)
    | Store(ticket: nat)

  function Without<T>(s: seq<T>, i: nat): seq<T>
    requires i < |s|
  {
    s[..i] + s[i + 1..]
  }

  function Batch(q: Request, keys: seq<string>): (r: seq<License>)
    ensures |r| == |keys| && forall i :: 0 <= i < |r| ==> r[i] == Issue(q, keys[i])
  {
    seq(|keys|, i requires 0 <= i < |keys| => Issue(q, keys[i]))
  }

  predicate CannotPay(rs: Resellers, q: Request) {
    q.isReseller && (q.user !in rs || rs[q.user].credits < Price(q))
  }

  function Charged(rs: Resellers, q: Request): Resellers {
    if !q.isReseller || CannotPay(rs, q) then rs else WithCredits(rs, q.user, rs[q.user].credits - Price(q))
  }

  function Next(s: Ledger, step: Step): Ledger {
    match step
    case Enrol(id, res) =>
      if id in s.resellers then s
      else s.(resellers := s.resellers[id := res], granted := s.granted + [(id, res.credits)])
    case Grant(id, n) =>
      if id !in s.resellers then s
      else s.(resellers := WithCredits(s.resellers, id, s.resellers[id].credits + n), granted := s.granted + [(id, n)])
    case Deduct(q) =>
      if CannotPay(s.resellers, q) then s
      else s.(resellers := Charged(s.resellers, q), inFlight := s.inFlight + [Ticket(q, None)])
    case Generate(i, keys) =>
      if i >= |s.inFlight| || s.inFlight[i].keys.Some? then s
      else if keys.None? then s.(inFlight := Without(s.inFlight, i), lost := s.lost + [s.inFlight[i].req])
      else s.(inFlight := s.inFlight[i := Ticket(s.inFlight[i].req, keys)])
    case Store(i) =>
      if i >= |s.inFlight| || s.inFlight[i].keys.None? then s
      else s.(inFlight := Without(s.inFlight, i),
              issued := s.issued + Batch(s.inFlight[i].req, s.inFlight[i].keys.value),
              stored := s.stored + [s.inFlight[i].req])
  }

  /** A request is well formed, and a batch holds the keys asked for (GenerateBatch). */
  predicate Sound(s: Ledger, step: Step) {
    match step
    case Deduct(q) => WellFormed(q)
    case Generate(i, keys) => i < |s.inFlight| && keys.Some? ==> |keys.value| == s.inFlight[i].req.count
    case _ => true
  }

  function Run(s: Ledger, steps: seq<Step>): Ledger {
    if steps == [] then s else Next(Run(s, steps[..|steps| - 1]), steps[|steps| - 1])
  }

  const EMPTY: Ledger := Ledger(map[], [], [], [], [], [])

  // The ledger after a run.
  function End(steps: seq<Step>): Ledger {
    Run(EMPTY, steps)
  }

  ghost predicate SoundRun(steps: seq<Step>) {
    forall i :: 0 <= i < |steps| ==> Sound(End(steps[..i]), steps[i])
  }

  /** A request of r, if the step is one, carries the role of a reseller. */
  predicate InRole(step: Step, r: string) {
    step.Deduct? && step.req.user == r ==> step.req.isReseller
  }

  ghost predicate AlwaysInRole(steps: seq<Step>, r: string) {
    forall i :: 0 <= i < |steps| ==> InRole(steps[i], r)
  }

  /** r's grants and initial credits are not negative. */
  predicate Generous(step: Step, r: string) {
    && (step.Grant? && step.id == r ==> step.amount >= 0)
    && (step.Enrol? && step.id == r ==> step.res.credits >= 0)
  }

  ghost predicate AlwaysGenerous(steps: seq<Step>, r: string) {
    forall i :: 0 <= i < |steps| ==> Generous(steps[i], r)
  }

  // ------------------------------------------------------------------
  // Sums
  // ------------------------------------------------------------------

  function Sum<T>(f: T -> int, xs: seq<T>): int {
    if xs == [] then 0 else Sum(f, xs[..|xs| - 1]) + f(xs[|xs| - 1])
  }

  lemma {:induction false} SumConcat<T>(f: T -> int, xs: seq<T>, ys: seq<T>)
    ensures Sum(f, xs + ys) == Sum(f, xs) + Sum(f, ys)
  {
    if ys == [] {
      assert xs + ys == xs;
    } else {
      SumConcat(f, xs, ys[..|ys| - 1]);
      assert (xs + ys)[..|xs + ys| - 1] == xs + ys[..|ys| - 1];
    }
  }

  lemma SumOne<T>(f: T -> int, xs: seq<T>, x: T)
    ensures Sum(f, xs + [x]) == Sum(f, xs) + f(x)
  {
  }

  lemma SplitAt<T>(xs: seq<T>, i: nat)
    requires i < |xs|
    ensures xs[..i] + [xs[i]] + xs[i + 1..] == xs
  {
  }

  lemma SumWithout<T>(f: T -> int, xs: seq<T>, i: nat)
    requires i < |xs|
    ensures Sum(f, Without(xs, i)) == Sum(f, xs) - f(xs[i])
  {
    var front, back := xs[..i], xs[i + 1..];
    SplitAt(xs, i);
    SumConcat(f, front + [xs[i]], back);
    SumOne(f, front, xs[i]);
    SumConcat(f, front, back);
  }

  lemma {:induction false} SumConstant<T>(f: T -> int, xs: seq<T>, c: int)
    requires forall i :: 0 <= i < |xs| ==> f(xs[i]) == c
    ensures Sum(f, xs) == |xs| * c
  {
    if xs != [] {
      SumConstant(f, xs[..|xs| - 1], c);
    }
  }

  lemma {:induction false} SumAtMost<T>(f: T -> int, g: T -> int, xs: seq<T>)
    requires forall i :: 0 <= i < |xs| ==> f(xs[i]) <= g(xs[i])
    ensures Sum(f, xs) <= Sum(g, xs)
  {
    if xs != [] {
      SumAtMost(f, g, xs[..|xs| - 1]);
    }
  }

  lemma SumNonNegative<T>(f: T -> int, xs: seq<T>)
    requires forall i :: 0 <= i < |xs| ==> f(xs[i]) >= 0
    ensures Sum(f, xs) >= 0
  {
    SumConstant((_: T) => 0, xs, 0);
    SumAtMost((_: T) => 0, f, xs);
  }

  // ------------------------------------------------------------------
  // The account of one reseller
  // ------------------------------------------------------------------

  function To(f: Request -> int, r: string): Request -> int {
    (q: Request) => if q.user == r then f(q) else 0
  }

  function OfTicket(f: Request -> int, r: string): Ticket -> int {
    (t: Ticket) => if t.req.user == r then f(t.req) else 0
  }

  function WorthTo(r: string): License -> int {
    (l: License) => if l.createdBy == r then Worth(l) else 0
  }

  function GrantedTo(r: string): ((string, int)) -> int {
    (g: (string, int)) => if g.0 == r then g.1 else 0
  }

  function Balance(s: Ledger, r: string): int {
    if r in s.resellers then s.resellers[r].credits else 0
  }

  /** All that r was ever given. */
  function Granted(s: Ledger, r: string): int {
    Sum(GrantedTo(r), s.granted)
  }

  /** What r's licences in the store are worth. */
  function Issued(s: Ledger, r: string): int {
    Sum(WorthTo(r), s.issued)
  }

  /** f over all of r's requests that were let through, in flight, lost and stored. */
  function Asked(s: Ledger, f: Request -> int, r: string): int {
    Sum(OfTicket(f, r), s.inFlight) + Sum(To(f, r), s.lost) + Sum(To(f, r), s.stored)
  }

  function Accounted(s: Ledger, r: string): int {
    Balance(s, r) + Asked(s, Price, r)
  }

  lemma GenerateKeeps(s: Ledger, i: nat, keys: Option<seq<string>>, f: Request -> int, r: string)
    requires i < |s.inFlight| && s.inFlight[i].keys.None?
    ensures Asked(Next(s, Generate(i, keys)), f, r) == Asked(s, f, r)
  {
    SumWithout(OfTicket(f, r), s.inFlight, i);
    if keys.None? {
      SumOne(To(f, r), s.lost, s.inFlight[i].req);
    } else {
      var after := s.inFlight[i := Ticket(s.inFlight[i].req, keys)];
      SumWithout(OfTicket(f, r), after, i);
      assert Without(after, i) == Without(s.inFlight, i);
    }
  }

  lemma StoreKeeps(s: Ledger, i: nat, f: Request -> int, r: string)
    requires i < |s.inFlight| && s.inFlight[i].keys.Some?
    ensures Asked(Next(s, Store(i)), f, r) == Asked(s, f, r)
  {
    SumWithout(OfTicket(f, r), s.inFlight, i);
    SumOne(To(f, r), s.stored, s.inFlight[i].req);
  }

  // Whether the step lets a request of r through.
  predicate Admits(s: Ledger, step: Step, r: string) {
    step.Deduct? && step.req.user == r && !CannotPay(s.resellers, step.req)
  }

  /** Money moves from flight to lost or to stored, and grows by the requests let through only. */
  lemma NextAsked(s: Ledger, step: Step, f: Request -> int, r: string)
    ensures Asked(Next(s, step), f, r) == Asked(s, f, r) + if Admits(s, step, r) then f(step.req) else 0
  {
    match step
    case Enrol(_, _) =>
    case Grant(_, _) =>
    case Deduct(q) => SumOne(OfTicket(f, r), s.inFlight, Ticket(q, None));
    case Generate(i, keys) =>
      if i < |s.inFlight| && s.inFlight[i].keys.None? {
        GenerateKeeps(s, i, keys, f, r);
      }
    case Store(i) =>
      if i < |s.inFlight| && s.inFlight[i].keys.Some? {
        StoreKeeps(s, i, f, r);
      }
  }

  /** What a step gives r. */
  function Given(s: Ledger, step: Step, r: string): int {
    match step
    case Enrol(id, res) => if id == r && id !in s.resellers then res.credits else 0
    case Grant(id, n) => if id == r && id in s.resellers then n else 0
    case _ => 0
  }

  lemma NextGranted(s: Ledger, step: Step, r: string)
    ensures Granted(Next(s, step), r) == Granted(s, r) + Given(s, step, r)
  {
    match step
    case Enrol(id, res) => SumOne(GrantedTo(r), s.granted, (id, res.credits));
    case Grant(id, n) => SumOne(GrantedTo(r), s.granted, (id, n));
    case _ =>
  }

  /** r's balance after a step, computed without wrapping around. */
  function Exact(s: Ledger, step: Step, r: string): int {
    Balance(s, r) + Given(s, step, r) - if Admits(s, step, r) then Price(step.req) else 0
  }

  lemma NextBalance(s: Ledger, step: Step, r: string)
    requires InRole(step, r)
    ensures Balance(Next(s, step), r) == Wrap64(Exact(s, step, r))
  {
  }

  /** A step of any request, grant or enrolment upsets the account by the wrap-around only. */
  lemma NextAccounts(s: Ledger, step: Step, r: string)
    ensures Accounted(Next(s, step), r) - Granted(Next(s, step), r)
         == Accounted(s, r) - Granted(s, r) + Balance(Next(s, step), r) - Exact(s, step, r)
  {
    NextAsked(s, step, Price, r);
    NextGranted(s, step, r);
  }

  // ------------------------------------------------------------------
  // One request, undisturbed
  // ------------------------------------------------------------------

  /** The three steps of one request, with nothing in between; keys are what its batch gives. */
  function Undisturbed(s: Ledger, q: Request, keys: Option<seq<string>>): Ledger {
    var n := |s.inFlight|;
    Next(Next(Next(s, Deduct(q)), Generate(n, keys)), Store(n))
  }

  /** What they leave is what the handler at the end of this file leaves. */
  lemma UndisturbedLeaves(s: Ledger, q: Request, keys: Option<seq<string>>)
    ensures var s', paid := Undisturbed(s, q, keys), !CannotPay(s.resellers, q);
            && s'.inFlight == s.inFlight && s'.granted == s.granted
            && s'.resellers == Charged(s.resellers, q)
            && s'.lost == s.lost + (if paid && keys.None? then [q] else [])
            && s'.stored == s.stored + (if paid && keys.Some? then [q] else [])
            && s'.issued == s.issued + (if paid && keys.Some? then Batch(q, keys.value) else [])
  {
  }

  // ------------------------------------------------------------------
  // Conservation
  // ------------------------------------------------------------------

  lemma SoundFront(steps: seq<Step>)
    requires SoundRun(steps) && steps != []
    ensures SoundRun(steps[..|steps| - 1])
    ensures Sound(End(steps[..|steps| - 1]), steps[|steps| - 1])
  {
    var front := steps[..|steps| - 1];
    forall i | 0 <= i < |front| ensures Sound(End(front[..i]), front[i]) {
      assert front[..i] == steps[..i];
    }
  }

  /** Over every interleaving of any requests, grants and enrolments, whatever their numbers:
      balance, money in flight, lost and stored add up to what was given, modulo 2^64. */
  lemma {:induction false} CreditsConservedModulo(steps: seq<Step>, r: string)
    requires AlwaysInRole(steps, r)
    ensures Congruent64(Accounted(End(steps), r), Granted(End(steps), r))
  {
    if steps == [] {
      assert Accounted(EMPTY, r) == Granted(EMPTY, r) + 0 * TWO_64;
    } else {
      var front, last := steps[..|steps| - 1], steps[|steps| - 1];
      var s := End(front);
      CreditsConservedModulo(front, r);
      NextAccounts(s, last, r);
      NextBalance(s, last, r);
      var j: int :| Accounted(s, r) == Granted(s, r) + j * TWO_64;
      var k: int :| Wrap64(Exact(s, last, r)) == Exact(s, last, r) + k * TWO_64;
      assert Accounted(End(steps), r) == Granted(End(steps), r) + (j + k) * TWO_64;
    }
  }

  ghost predicate AlwaysInAccount(steps: seq<Step>, r: string) {
    forall i :: 0 <= i <= |steps| ==> Accounted(End(steps[..i]), r) == Granted(End(steps[..i]), r)
  }

  ghost predicate NoOverflow(steps: seq<Step>, r: string) {
    forall i :: 0 <= i < |steps| ==> IsInt64(Exact(End(steps[..i]), steps[i], r))
  }

  lemma EndOneMore(steps: seq<Step>, i: nat)
    requires i < |steps|
    ensures End(steps[..i + 1]) == Next(End(steps[..i]), steps[i])
  {
    assert steps[..i + 1][..i] == steps[..i];
  }

  lemma InAccountStep(s: Ledger, step: Step, r: string)
    requires InRole(step, r) && Accounted(s, r) == Granted(s, r)
    ensures Accounted(Next(s, step), r) == Granted(Next(s, step), r) <==> IsInt64(Exact(s, step, r))
  {
    NextAccounts(s, step, r);
    NextBalance(s, step, r);
  }

  lemma {:induction false} InAccountUpTo(steps: seq<Step>, r: string, n: nat)
    requires AlwaysInRole(steps, r) && NoOverflow(steps, r) && n <= |steps|
    ensures Accounted(End(steps[..n]), r) == Granted(End(steps[..n]), r)
  {
    if n == 0 {
      assert steps[..n] == [];
    } else {
      InAccountUpTo(steps, r, n - 1);
      EndOneMore(steps, n - 1);
      InAccountStep(End(steps[..n - 1]), steps[n - 1], r);
    }
  }

  /** They add up exactly, all along a run, exactly when no addition or subtraction of the run
      overflows r's balance. */
  lemma CreditsConservedExactly(steps: seq<Step>, r: string)
    requires AlwaysInRole(steps, r)
    ensures AlwaysInAccount(steps, r) <==> NoOverflow(steps, r)
  {
    if NoOverflow(steps, r) {
      forall i | 0 <= i <= |steps| ensures Accounted(End(steps[..i]), r) == Granted(End(steps[..i]), r) {
        InAccountUpTo(steps, r, i);
      }
    }
    if AlwaysInAccount(steps, r) {
      forall i | 0 <= i < |steps| ensures IsInt64(Exact(End(steps[..i]), steps[i], r)) {
        EndOneMore(steps, i);
        assert Accounted(End(steps[..i + 1]), r) == Granted(End(steps[..i + 1]), r);
        InAccountStep(End(steps[..i]), steps[i], r);
      }
    }
  }

  predicate SoundTicket(t: Ticket) {
    WellFormed(t.req) && (t.keys.Some? ==> |t.keys.value| == t.req.count)
  }

  ghost predicate SoundTickets(s: Ledger) {
    forall i :: 0 <= i < |s.inFlight| ==> SoundTicket(s.inFlight[i])
  }

  lemma TicketsStaySound(s: Ledger, step: Step)
    requires SoundTickets(s) && Sound(s, step)
    ensures SoundTickets(Next(s, step))
  {
  }

  lemma BatchWorth(q: Request, keys: seq<string>, r: string)
    requires |keys| == q.count
    ensures Sum(WorthTo(r), Batch(q, keys)) == To(Value, r)(q)
  {
    var c := if q.user == r then Worth(Issue(q, "")) else 0;
    forall i | 0 <= i < |keys| ensures WorthTo(r)(Batch(q, keys)[i]) == c {}
    SumConstant(WorthTo(r), Batch(q, keys), c);
    assert To(Value, r)(q) == q.count * c;
  }

  lemma NextIssued(s: Ledger, step: Step, r: string)
    requires SoundTickets(s) && Issued(s, r) == Sum(To(Value, r), s.stored)
    ensures Issued(Next(s, step), r) == Sum(To(Value, r), Next(s, step).stored)
  {
    if step.Store? && step.ticket < |s.inFlight| && s.inFlight[step.ticket].keys.Some? {
      var t := s.inFlight[step.ticket];
      assert SoundTicket(t);
      SumConcat(WorthTo(r), s.issued, Batch(t.req, t.keys.value));
      BatchWorth(t.req, t.keys.value, r);
      SumOne(To(Value, r), s.stored, t.req);
    }
  }

  /** The licences in the store are those of the stored requests. */
  lemma {:induction false} IssuedIsValue(steps: seq<Step>, r: string)
    requires SoundRun(steps)
    ensures SoundTickets(End(steps)) && Issued(End(steps), r) == Sum(To(Value, r), End(steps).stored)
  {
    if steps != [] {
      var front, last := steps[..|steps| - 1], steps[|steps| - 1];
      SoundFront(steps);
      IssuedIsValue(front, r);
      TicketsStaySound(End(front), last);
      NextIssued(End(front), last, r);
    }
  }

  ghost predicate AsksOnly(steps: seq<Step>, allowed: Request -> bool, r: string) {
    forall i :: 0 <= i < |steps| && steps[i].Deduct? && steps[i].req.user == r ==> allowed(steps[i].req)
  }

  ghost predicate StoredOnly(s: Ledger, allowed: Request -> bool, r: string) {
    && (forall i :: 0 <= i < |s.inFlight| && s.inFlight[i].req.user == r ==> allowed(s.inFlight[i].req))
    && (forall i :: 0 <= i < |s.stored| && s.stored[i].user == r ==> allowed(s.stored[i]))
  }

  lemma NextStoredOnly(s: Ledger, step: Step, allowed: Request -> bool, r: string)
    requires StoredOnly(s, allowed, r) && (step.Deduct? && step.req.user == r ==> allowed(step.req))
    ensures StoredOnly(Next(s, step), allowed, r)
  {
  }

  lemma {:induction false} StoresOnly(steps: seq<Step>, allowed: Request -> bool, r: string)
    requires AsksOnly(steps, allowed, r)
    ensures StoredOnly(End(steps), allowed, r)
  {
    if steps != [] {
      StoresOnly(steps[..|steps| - 1], allowed, r);
      NextStoredOnly(End(steps[..|steps| - 1]), steps[|steps| - 1], allowed, r);
    }
  }

  lemma {:induction false} SumEqual(f: Request -> int, g: Request -> int, r: string, qs: seq<Request>)
    requires forall i :: 0 <= i < |qs| && qs[i].user == r ==> f(qs[i]) == g(qs[i])
    ensures Sum(To(f, r), qs) == Sum(To(g, r), qs)
  {
    SumAtMost(To(f, r), To(g, r), qs);
    SumAtMost(To(g, r), To(f, r), qs);
  }

  function PricedAtWorth(): Request -> bool {
    (q: Request) => WellFormed(q) && (q.isLifetime || DaysInRange(q))
  }

  /** Without overflow and with days whose seconds fit, over every interleaving: balance, money in
      flight, money lost to failed batches, and the days and lifetimes of all licences ever issued
      add up to what was given. */
  lemma CreditsConserved(steps: seq<Step>, r: string)
    requires SoundRun(steps) && AlwaysInRole(steps, r) && NoOverflow(steps, r)
    requires AsksOnly(steps, PricedAtWorth(), r)
    ensures var s := End(steps);
            Balance(s, r) + Sum(OfTicket(Price, r), s.inFlight) + Sum(To(Price, r), s.lost) + Issued(s, r)
            == Granted(s, r)
  {
    var s := End(steps);
    assert steps[..|steps|] == steps;
    InAccountUpTo(steps, r, |steps|);
    IssuedIsValue(steps, r);
    StoresOnly(steps, PricedAtWorth(), r);
    forall i | 0 <= i < |s.stored| && s.stored[i].user == r ensures Price(s.stored[i]) == Value(s.stored[i]) {
      PriceIsWorth(s.stored[i]);
    }
    SumEqual(Price, Value, r, s.stored);
  }

  // ------------------------------------------------------------------
  // Overdrawing
  // ------------------------------------------------------------------

  lemma OverdrawnStep(s: Ledger, step: Step, r: string)
    requires InRole(step, r) && Generous(step, r) && Balance(s, r) >= 0
    ensures Balance(Next(s, step), r) >= 0 <==> IsInt64(Exact(s, step, r))
  {
    NextBalance(s, step, r);
  }

  lemma {:induction false} NotOverdrawnUpTo(steps: seq<Step>, r: string, n: nat)
    requires AlwaysInRole(steps, r) && AlwaysGenerous(steps, r) && NoOverflow(steps, r) && n <= |steps|
    ensures Balance(End(steps[..n]), r) >= 0
  {
    if n == 0 {
      assert steps[..n] == [];
    } else {
      NotOverdrawnUpTo(steps, r, n - 1);
      EndOneMore(steps, n - 1);
      OverdrawnStep(End(steps[..n - 1]), steps[n - 1], r);
    }
  }

  ghost predicate NeverNegative(steps: seq<Step>, r: string) {
    forall i :: 0 <= i <= |steps| ==> Balance(End(steps[..i]), r) >= 0
  }

  /** A balance that is only ever given to stays above zero, whatever is interleaved and asked
      for, exactly as long as nothing overflows. */
  lemma OverdrawnExactly(steps: seq<Step>, r: string)
    requires AlwaysInRole(steps, r) && AlwaysGenerous(steps, r)
    ensures NeverNegative(steps, r) <==> NoOverflow(steps, r)
  {
    if NoOverflow(steps, r) {
      forall i | 0 <= i <= |steps| ensures Balance(End(steps[..i]), r) >= 0 {
        NotOverdrawnUpTo(steps, r, i);
      }
    }
    if NeverNegative(steps, r) {
      forall i | 0 <= i < |steps| ensures IsInt64(Exact(End(steps[..i]), steps[i], r)) {
        EndOneMore(steps, i);
        assert Balance(End(steps[..i]), r) >= 0 && Balance(End(steps[..i + 1]), r) >= 0;
        OverdrawnStep(End(steps[..i]), steps[i], r);
      }
    }
  }

  predicate Offered(allowed: Request -> bool, r: string, q: Request) {
    allowed(q) && q.user == r && q.isReseller && WellFormed(q)
  }

  // r acts as a reseller and asks for an allowed request, and is given no negative amount.
  predicate Fair(step: Step, allowed: Request -> bool, r: string) {
    InRole(step, r) && Generous(step, r) && (step.Deduct? && step.req.user == r ==> allowed(step.req))
  }

  ghost predicate AllFair(steps: seq<Step>, allowed: Request -> bool, r: string) {
    forall i :: 0 <= i < |steps| ==> Fair(steps[i], allowed, r)
  }

  ghost predicate FairRun(steps: seq<Step>, allowed: Request -> bool, r: string) {
    SoundRun(steps) && AllFair(steps, allowed, r)
  }

  lemma FairFront(steps: seq<Step>, allowed: Request -> bool, r: string)
    requires FairRun(steps, allowed, r) && steps != []
    ensures FairRun(steps[..|steps| - 1], allowed, r)
    ensures var last := steps[|steps| - 1];
            && Fair(last, allowed, r)
            && (last.Deduct? && last.req.user == r ==> Offered(allowed, r, last.req))
  {
    SoundFront(steps);
  }

  /** Grants that fit an int64 altogether, and allowed requests only, never leave r overdrawn. */
  ghost predicate NeverOverdraws(allowed: Request -> bool, r: string) {
    forall steps :: FairRun(steps, allowed, r) && Granted(End(steps), r) < TWO_63 ==> Balance(End(steps), r) >= 0
  }

  lemma {:induction false} NeverOverdrawn(steps: seq<Step>, allowed: Request -> bool, r: string)
    requires FairRun(steps, allowed, r) && Granted(End(steps), r) < TWO_63
    requires forall q :: Offered(allowed, r, q) ==> Price(q) >= 0
    ensures Balance(End(steps), r) >= 0 && Asked(End(steps), Price, r) >= 0
    ensures Accounted(End(steps), r) == Granted(End(steps), r)
  {
    if steps != [] {
      var front, last := steps[..|steps| - 1], steps[|steps| - 1];
      FairFront(steps, allowed, r);
      NextGranted(End(front), last, r);
      NeverOverdrawn(front, allowed, r);
      NextAsked(End(front), last, Price, r);
      NextBalance(End(front), last, r);
    }
  }

  lemma Overdrawn(allowed: Request -> bool, r: string, q: Request)
    requires Offered(allowed, r, q) && Price(q) < 0
    ensures !NeverOverdraws(allowed, r)
  {
    var enrol := Enrol(r, Enrolled(r, TWO_63 - 1));
    Started(r, TWO_63 - 1);
    PaidOut(r, TWO_63 - 1, q);
    WrapIs(TWO_63 - 1 - Price(q), 1);
    FairOne(enrol, allowed, r);
    FairOne(Deduct(q), allowed, r);
    FairAppend([enrol], [Deduct(q)], allowed, r);
    assert Balance(End([enrol] + [Deduct(q)]), r) < 0;
  }

  /** For any class of requests: exactly when none of them has a negative price. */
  lemma OverdrawsExactly(allowed: Request -> bool, r: string)
    ensures NeverOverdraws(allowed, r) <==> forall q :: Offered(allowed, r, q) ==> Price(q) >= 0
  {
    if q :| Offered(allowed, r, q) && Price(q) < 0 {
      Overdrawn(allowed, r, q);
    } else {
      forall steps | FairRun(steps, allowed, r) && Granted(End(steps), r) < TWO_63
        ensures Balance(End(steps), r) >= 0
      {
        NeverOverdrawn(steps, allowed, r);
      }
    }
  }

  // ------------------------------------------------------------------
  // Overspending
  // ------------------------------------------------------------------

  /** What r has issued is worth no more than what r was given. */
  predicate WithinGrants(s: Ledger, r: string) {
    Issued(s, r) <= Granted(s, r)
  }

  ghost predicate NeverOverspends(allowed: Request -> bool, r: string) {
    forall steps :: FairRun(steps, allowed, r) ==> WithinGrants(End(steps), r)
  }

  function Charge(q: Request): (c: int)
    ensures c >= 0
  {
    if Price(q) < 0 then 0 else Price(q)
  }

  function Gain(q: Request): (g: int)
    ensures g >= 0 && g >= Value(q)
  {
    if Value(q) < 0 then 0 else Value(q)
  }

  /** A request that takes no less than it gives, and does not pay the reseller. A price of
      exactly -2^63 only turns the balance negative, or back. */
  predicate Safe(q: Request) {
    (Price(q) >= 0 || Price(q) == -TWO_63) && Value(q) <= Charge(q)
  }

  // What r has not spent, at the charges, covers the balance, and is that balance up to half turns.
  predicate Backed(s: Ledger, r: string) {
    var unspent := Granted(s, r) - Asked(s, Charge, r);
    unspent >= 0 && unspent >= Balance(s, r) && (unspent - Balance(s, r)) % TWO_63 == 0
  }

  lemma BackedGrows(u: int, b: Int64, n: int)
    requires u >= 0 && u >= b && (u - b) % TWO_63 == 0 && 0 <= n < TWO_63
    ensures var b' := Wrap64(b + n); u + n >= b' && (u + n - b') % TWO_63 == 0
  {
  }

  lemma BackedTurns(u: int, b: Int64)
    requires u >= 0 && u >= b && (u - b) % TWO_63 == 0
    ensures var b' := Wrap64(b + TWO_63); u >= b' && (u - b') % TWO_63 == 0
  {
  }

  lemma NextBacked(s: Ledger, step: Step, r: string)
    requires Backed(s, r) && InRole(step, r) && Generous(step, r)
    requires step.Deduct? && step.req.user == r ==> Price(step.req) >= 0 || Price(step.req) == -TWO_63
    ensures Backed(Next(s, step), r)
  {
    var u, b := Granted(s, r) - Asked(s, Charge, r), Balance(s, r);
    NextAsked(s, step, Charge, r);
    NextGranted(s, step, r);
    NextBalance(s, step, r);
    if Admits(s, step, r) {
      assert Charge(step.req) == if Price(step.req) >= 0 then Price(step.req) else 0;
      if Price(step.req) < 0 {
        BackedTurns(u, b);
      }
    } else {
      BackedGrows(u, b, Given(s, step, r));
    }
  }

  lemma {:induction false} SafeRun(steps: seq<Step>, allowed: Request -> bool, r: string)
    requires FairRun(steps, allowed, r) && forall q :: Offered(allowed, r, q) ==> Safe(q)
    ensures Backed(End(steps), r) && Asked(End(steps), Gain, r) <= Asked(End(steps), Charge, r)
  {
    if steps != [] {
      var front, last := steps[..|steps| - 1], steps[|steps| - 1];
      FairFront(steps, allowed, r);
      SafeRun(front, allowed, r);
      NextBacked(End(front), last, r);
      NextAsked(End(front), last, Charge, r);
      NextAsked(End(front), last, Gain, r);
      assert Admits(End(front), last, r) ==> Safe(last.req) && Gain(last.req) <= Charge(last.req);
    }
  }

  lemma StoredAtMostGain(s: Ledger, r: string)
    ensures Sum(To(Value, r), s.stored) <= Asked(s, Gain, r)
  {
    SumAtMost(To(Value, r), To(Gain, r), s.stored);
    forall i | 0 <= i < |s.inFlight| ensures OfTicket(Gain, r)(s.inFlight[i]) >= 0 {
      assert Gain(s.inFlight[i].req) >= 0;
    }
    SumNonNegative(OfTicket(Gain, r), s.inFlight);
    SumNonNegative(To(Gain, r), s.lost);
  }

  /** Whatever is interleaved, and even if grants overflow the balance, a reseller who asks for
      safe requests only never issues more than was granted. */
  lemma NeverOverspent(steps: seq<Step>, allowed: Request -> bool, r: string)
    requires FairRun(steps, allowed, r) && forall q :: Offered(allowed, r, q) ==> Safe(q)
    ensures WithinGrants(End(steps), r)
  {
    var s := End(steps);
    SafeRun(steps, allowed, r);
    IssuedIsValue(steps, r);
    StoredAtMostGain(s, r);
  }

  // ------------------------------------------------------------------
  // Runs that overspend
  // ------------------------------------------------------------------

  lemma OneMoreStep(steps: seq<Step>, step: Step)
    requires SoundRun(steps) && Sound(End(steps), step)
    ensures SoundRun(steps + [step])
    ensures End(steps + [step]) == Next(End(steps), step)
  {
    var all := steps + [step];
    assert all[..|steps|] == steps;
    forall i | 0 <= i < |all| ensures Sound(End(all[..i]), all[i]) {
      if i < |steps| {
        assert all[..i] == steps[..i];
      }
    }
  }

  function Enrolled(r: string, credits: Int64): Reseller {
    Reseller("app", r, credits, false, true)
  }

  function StartLedger(r: string, credits: Int64): Ledger {
    Ledger(map[r := Enrolled(r, credits)], [], [], [], [], [(r, credits)])
  }

  lemma Started(r: string, credits: Int64)
    ensures SoundRun([Enrol(r, Enrolled(r, credits))])
    ensures End([Enrol(r, Enrolled(r, credits))]) == StartLedger(r, credits)
    ensures Granted(StartLedger(r, credits), r) == credits
  {
    var enrol := Enrol(r, Enrolled(r, credits));
    OneMoreStep([], enrol);
    assert [] + [enrol] == [enrol];
    var grant: (string, int) := (r, credits);
    SumOne(GrantedTo(r), [], grant);
    assert [] + [grant] == [grant];
  }

  function SomeKeys(n: nat): (keys: seq<string>)
    ensures |keys| == n
  {
    seq(n, _ => "K")
  }

  // The three steps of a request after n others in flight.
  function Buying(q: Request, n: nat): seq<Step>
    requires WellFormed(q)
  {
    [Deduct(q)] + [Generate(n, Some(SomeKeys(q.count)))] + [Store(n)]
  }

  lemma AppendThree<T>(xs: seq<T>, x: T, y: T, z: T)
    ensures xs + ([x] + [y] + [z]) == xs + [x] + [y] + [z]
  {
  }

  lemma BuyingFair(q: Request, n: nat, allowed: Request -> bool, r: string)
    requires Offered(allowed, r, q)
    ensures AllFair(Buying(q, n), allowed, r)
  {
    var steps := Buying(q, n);
    assert steps[0] == Deduct(q) && steps[1].Generate? && steps[2].Store?;
  }

  lemma FairAppend(xs: seq<Step>, ys: seq<Step>, allowed: Request -> bool, r: string)
    requires AllFair(xs, allowed, r) && AllFair(ys, allowed, r)
    ensures AllFair(xs + ys, allowed, r)
  {
  }

  lemma FairOne(step: Step, allowed: Request -> bool, r: string)
    requires Fair(step, allowed, r)
    ensures AllFair([step], allowed, r)
  {
  }

  lemma Bought(steps: seq<Step>, s: Ledger, q: Request)
    requires SoundRun(steps) && End(steps) == s && WellFormed(q) && !CannotPay(s.resellers, q)
    ensures SoundRun(steps + Buying(q, |s.inFlight|))
    ensures End(steps + Buying(q, |s.inFlight|)) == Undisturbed(s, q, Some(SomeKeys(q.count)))
  {
    var n, keys := |s.inFlight|, SomeKeys(q.count);
    OneMoreStep(steps, Deduct(q));
    OneMoreStep(steps + [Deduct(q)], Generate(n, Some(keys)));
    OneMoreStep(steps + [Deduct(q)] + [Generate(n, Some(keys))], Store(n));
    AppendThree(steps, Deduct(q), Generate(n, Some(keys)), Store(n));
  }

  lemma BoughtIssues(s: Ledger, q: Request, r: string)
    requires WellFormed(q) && !CannotPay(s.resellers, q)
    ensures var s' := Undisturbed(s, q, Some(SomeKeys(q.count)));
            Issued(s', r) == Issued(s, r) + To(Value, r)(q) && Granted(s', r) == Granted(s, r)
  {
    var keys := SomeKeys(q.count);
    UndisturbedLeaves(s, q, Some(keys));
    SumConcat(WorthTo(r), s.issued, Batch(q, keys));
    BatchWorth(q, keys, r);
  }

  lemma BoughtAtOnce(r: string, credits: Int64, q: Request)
    requires q.user == r && WellFormed(q) && credits >= Price(q)
    ensures var steps := [Enrol(r, Enrolled(r, credits))] + Buying(q, 0);
            SoundRun(steps) && Issued(End(steps), r) == Value(q) && Granted(End(steps), r) == credits
  {
    var start := [Enrol(r, Enrolled(r, credits))];
    Started(r, credits);
    Bought(start, StartLedger(r, credits), q);
    BoughtIssues(StartLedger(r, credits), q, r);
  }

  lemma BoughtAtOnceFair(r: string, credits: Int64, q: Request, allowed: Request -> bool)
    requires Offered(allowed, r, q) && credits >= 0
    requires SoundRun([Enrol(r, Enrolled(r, credits))] + Buying(q, 0))
    ensures FairRun([Enrol(r, Enrolled(r, credits))] + Buying(q, 0), allowed, r)
  {
    FairOne(Enrol(r, Enrolled(r, credits)), allowed, r);
    BuyingFair(q, 0, allowed, r);
    FairAppend([Enrol(r, Enrolled(r, credits))], Buying(q, 0), allowed, r);
  }

  /** A request that gives more than it takes overspends by itself. */
  lemma Underpriced(allowed: Request -> bool, r: string, q: Request)
    requires Offered(allowed, r, q) && Value(q) > Charge(q)
    ensures !NeverOverspends(allowed, r)
  {
    BoughtAtOnce(r, Charge(q), q);
    BoughtAtOnceFair(r, Charge(q), q, allowed);
    assert !WithinGrants(End([Enrol(r, Enrolled(r, Charge(q)))] + Buying(q, 0)), r);
  }

  // A request that pays the reseller, and the request that this money buys.
  function Minting(r: string, credits: Int64, payer: Request, buyer: Request): seq<Step>
    requires WellFormed(buyer)
  {
    [Enrol(r, Enrolled(r, credits))] + [Deduct(payer)] + Buying(buyer, 1)
  }

  function PaidLedger(r: string, credits: Int64, payer: Request): Ledger {
    StartLedger(r, credits).(resellers := map[r := Enrolled(r, Wrap64(credits - Price(payer)))],
                             inFlight := [Ticket(payer, None)])
  }

  lemma PaidOut(r: string, credits: Int64, payer: Request)
    requires payer.user == r && payer.isReseller && WellFormed(payer) && credits >= Price(payer)
    ensures var steps := [Enrol(r, Enrolled(r, credits))] + [Deduct(payer)];
            SoundRun(steps) && End(steps) == PaidLedger(r, credits, payer)
  {
    Started(r, credits);
    OneMoreStep([Enrol(r, Enrolled(r, credits))], Deduct(payer));
  }

  /** The money of one request that pays the reseller buys what was never granted. */
  lemma MintingOverspends(r: string, credits: Int64, payer: Request, buyer: Request)
    requires payer.user == r && payer.isReseller && WellFormed(payer)
    requires buyer.user == r && buyer.isReseller && WellFormed(buyer)
    requires Price(payer) <= credits && Price(buyer) <= Wrap64(credits - Price(payer))
    ensures var s := End(Minting(r, credits, payer, buyer));
            && SoundRun(Minting(r, credits, payer, buyer))
            && Issued(s, r) == Value(buyer) && Granted(s, r) == credits
  {
    var paid := [Enrol(r, Enrolled(r, credits))] + [Deduct(payer)];
    PaidOut(r, credits, payer);
    Bought(paid, PaidLedger(r, credits, payer), buyer);
    BoughtIssues(PaidLedger(r, credits, payer), buyer, r);
    Started(r, credits);
  }

  lemma MintingFair(r: string, credits: Int64, payer: Request, buyer: Request, allowed: Request -> bool)
    requires Offered(allowed, r, payer) && Offered(allowed, r, buyer) && credits >= 0
    requires SoundRun(Minting(r, credits, payer, buyer))
    ensures FairRun(Minting(r, credits, payer, buyer), allowed, r)
  {
    var enrol, pay := [Enrol(r, Enrolled(r, credits))], [Deduct(payer)];
    FairOne(Enrol(r, Enrolled(r, credits)), allowed, r);
    FairOne(Deduct(payer), allowed, r);
    FairAppend(enrol, pay, allowed, r);
    BuyingFair(buyer, 1, allowed, r);
    FairAppend(enrol + pay, Buying(buyer, 1), allowed, r);
  }

  lemma PaysAndBuys(allowed: Request -> bool, r: string, payer: Request, buyer: Request)
    requires Offered(allowed, r, payer) && -TWO_63 < Price(payer) < 0
    requires Offered(allowed, r, buyer) && buyer.isLifetime
    ensures !NeverOverspends(allowed, r)
  {
    var credits := if -Price(payer) >= Price(buyer) then 0 else Price(buyer) - 1;
    MintingOverspends(r, credits, payer, buyer);
    MintingFair(r, credits, payer, buyer, allowed);
    PriceIsWorth(buyer);
    assert !WithinGrants(End(Minting(r, credits, payer, buyer)), r);
  }

  /** For any class of requests that holds one for life: exactly when all of them are safe. */
  lemma OverspendsExactly(allowed: Request -> bool, r: string, life: Request)
    requires Offered(allowed, r, life) && life.isLifetime
    ensures NeverOverspends(allowed, r) <==> forall q :: Offered(allowed, r, q) ==> Safe(q)
  {
    if q :| Offered(allowed, r, q) && !Safe(q) {
      if Value(q) > Charge(q) {
        Underpriced(allowed, r, q);
      } else {
        PaysAndBuys(allowed, r, q, life);
      }
    } else {
      forall steps | FairRun(steps, allowed, r) ensures WithinGrants(End(steps), r) {
        NeverOverspent(steps, allowed, r);
      }
    }
  }

  // ------------------------------------------------------------------
  // Limits on the days
  // ------------------------------------------------------------------

  // 10,000 keys for one day more, and the price wraps around.
  const MAX_DAYS: int := 922_337_203_685_477

  function ForDays(r: string, count: int, days: Int64): Request {
    Request("app", r, true, count, "", days, false, 1)
  }

  function ForLife(r: string): Request {
    Request("app", r, true, 1, "", 0, true, 1)
  }

  /** Beyond that, some number of keys has a negative price. */
  lemma NegativePrice(r: string, days: Int64) returns (count: nat)
    requires days > MAX_DAYS
    ensures WellFormed(ForDays(r, count, days)) && -TWO_63 < Price(ForDays(r, count, days)) < 0
  {
    assert IsInt64(days);
    count := FirstOver(TWO_63, days);
    MulLess(count - 1, 10_000, days);
    if count * days == TWO_63 {
      assert count != 10_000;
      MulDistributes(count, 1, days);
      count := count + 1;
    } else {
      MulDistributes(count - 1, 1, days);
    }
    WrapIs(count * days, 1);
  }

  lemma FirstOver(x: nat, d: nat) returns (c: nat)
    requires 0 < d < x
    ensures c > 1 && (c - 1) * d < x <= c * d
  {
    c := (x - 1) / d + 1;
    assert x - 1 == (c - 1) * d + (x - 1) % d;
    MulDistributes(c - 1, 1, d);
  }

  // Within the limits the price is count times days, and no licence is worth more than its days.
  lemma PricedWithin(q: Request)
    requires WellFormed(q) && 0 <= q.durationDays <= MAX_DAYS && !q.isLifetime
    ensures Price(q) == q.count * q.durationDays >= 0 && Value(q) <= Price(q)
  {
    MulMono(q.count, 10_000, q.durationDays);
    MulMono(0, q.count, q.durationDays);
    var seconds := q.durationDays * 86_400;
    var k: int :| Wrap64(seconds) == seconds + k * TWO_64;
    assert k <= 0;
    MulMono(Worth(Issue(q, "")), q.durationDays, q.count);
  }

  /** Prices under limits on the days are never negative exactly within 0 and 922,337,203,685,477. */
  lemma PricesExactly(lo: Int64, hi: Int64, r: string)
    requires lo <= hi
    ensures (forall q :: Offered(WithDays(lo, hi), r, q) ==> Price(q) >= 0) <==> 0 <= lo && hi <= MAX_DAYS
  {
    if 0 <= lo && hi <= MAX_DAYS {
      forall q | Offered(WithDays(lo, hi), r, q) ensures Price(q) >= 0 {
        if !q.isLifetime {
          PricedWithin(q);
        }
      }
    } else if hi > MAX_DAYS {
      var count := NegativePrice(r, hi);
      assert Offered(WithDays(lo, hi), r, ForDays(r, count, hi));
    } else {
      assert Offered(WithDays(lo, hi), r, ForDays(r, 1, lo)) && Price(ForDays(r, 1, lo)) == lo;
    }
  }

  /** So limits on the days keep every reseller from being overdrawn exactly there. */
  lemma DaysNeverOverdrawExactly(lo: Int64, hi: Int64, r: string)
    requires lo <= hi
    ensures NeverOverdraws(WithDays(lo, hi), r) <==> 0 <= lo && hi <= MAX_DAYS
  {
    OverdrawsExactly(WithDays(lo, hi), r);
    PricesExactly(lo, hi, r);
  }

  lemma SafeWithin(q: Request)
    requires WellFormed(q) && (q.isLifetime || 0 <= q.durationDays <= MAX_DAYS || q.durationDays == -TWO_63)
    ensures Safe(q)
  {
    if q.isLifetime {
      PriceIsWorth(q);
    } else if q.durationDays == -TWO_63 {
      assert Worth(Issue(q, "")) == 0;
      assert q.count % 2 == 0 || q.count % 2 == 1;
      var half := q.count / 2;
      assert q.count * -TWO_63 == -half * TWO_64 - q.count % 2 * TWO_63;
      WrapIs(q.count * -TWO_63, -half);
    } else {
      PricedWithin(q);
    }
  }

  /** Limits on the days keep every reseller from overspending exactly within 0 and
      922,337,203,685,477, or when they let the one number -2^63 through. */
  lemma DaysNeverOverspendExactly(lo: Int64, hi: Int64, r: string)
    requires lo <= hi
    ensures NeverOverspends(WithDays(lo, hi), r) <==> (0 <= lo && hi <= MAX_DAYS) || hi == -TWO_63
  {
    OverspendsExactly(WithDays(lo, hi), r, ForLife(r));
    if (0 <= lo && hi <= MAX_DAYS) || hi == -TWO_63 {
      forall q | Offered(WithDays(lo, hi), r, q) ensures Safe(q) {
        SafeWithin(q);
      }
    } else if hi > MAX_DAYS {
      var count := NegativePrice(r, hi);
      assert Offered(WithDays(lo, hi), r, ForDays(r, count, hi)) && !Safe(ForDays(r, count, hi));
    } else {
      var days: Int64 := if lo == -TWO_63 then lo + 1 else lo;
      assert Offered(WithDays(lo, hi), r, ForDays(r, 1, days)) && Price(ForDays(r, 1, days)) == days;
      assert !Safe(ForDays(r, 1, days));
    }
  }

  /** With no credits at all, a request for -400 days pays for a lifetime key. */
  lemma CreditsMinted()
    ensures var steps := Minting("r", 0, ForDays("r", 1, -400), ForLife("r"));
            SoundRun(steps) && Granted(End(steps), "r") == 0 && Issued(End(steps), "r") == 365
  {
    MintingOverspends("r", 0, ForDays("r", 1, -400), ForLife("r"));
  }

  /** So does a request for 10,000 keys of positive days, whose price wraps around. */
  lemma CreditsMintedByOverflow()
    ensures var steps := Minting("r", 0, ForDays("r", 10_000, MAX_DAYS + 1), ForLife("r"));
            SoundRun(steps) && Granted(End(steps), "r") == 0 && Issued(End(steps), "r") == 365
  {
    WrapIs(10_000 * (MAX_DAYS + 1), 1);
    MintingOverspends("r", 0, ForDays("r", 10_000, MAX_DAYS + 1), ForLife("r"));
  }

  /** And with 5,000 credits it leaves the reseller overdrawn. */
  lemma OverdrawnByOverflow()
    ensures var steps := [Enrol("r", Enrolled("r", 5_000))] + [Deduct(ForDays("r", 10_000, MAX_DAYS + 1))];
            SoundRun(steps) && Granted(End(steps), "r") == 5_000 && Balance(End(steps), "r") < 0
  {
    WrapIs(10_000 * (MAX_DAYS + 1), 1);
    PaidOut("r", 5_000, ForDays("r", 10_000, MAX_DAYS + 1));
    Started("r", 5_000);
  }

  // ------------------------------------------------------------------
  // The handler
  // ------------------------------------------------------------------

  /** The licence that a request for keys promises: unactivated, without a device or a deadline. */
  predicate Promised(l: License, q: Request, key: string, now: int) {
    && l.appID == q.appID && l.licenseKey == key && l.createdBy == q.user && l.createdAt == now
    && l.status == "unactivated" && l.hwidHash == None && l.hwidList == []
    && l.activatedAt == None && l.expiresAt == None && l.lastHWIDReset == None && l.bannedReason == None
    && l.maxHWIDs == (if q.maxHWIDs > 1 then q.maxHWIDs else 1) && l.isLifetime == q.isLifetime
    && (!q.isLifetime ==> l.durationSeconds == Wrap64(q.durationDays * 86_400))
  }

  lemma IssueKeepsPromise(q: Request, keys: seq<string>, now: int)
    ensures forall i :: 0 <= i < |keys| ==> Promised(Batch(q, keys)[i].(createdAt := now), q, keys[i], now)
  {
  }

  /** The first authentication of a promised licence is granted to any device, and sets the deadline
      that its days promise: none for life, and otherwise the days from now on, exactly for 1 to
      106,751 of them. */
  lemma PromisedActivates(l: License, q: Request, key: string, created: int, hwid: string, lockOn: bool, now: int)
    requires Promised(l, q, key, created) && (lockOn ==> hwid != "")
    ensures var (l', o) := Authenticate(l, hwid, lockOn, now);
            && o == Outcome.Granted(l'.expiresAt) && l'.status == "active" && l'.hwidHash == Some(hwid)
            && (q.isLifetime ==> l'.expiresAt == None)
            && (!q.isLifetime && q.durationDays > 0 ==>
                  (l'.expiresAt == Some(now + q.durationDays * 86_400_000_000_000) <==> q.durationDays <= 106_751))
  {
    if !q.isLifetime && q.durationDays > 0 {
      DaysExactIff(l, q.durationDays, now);
    }
  }

  datatype GenerateError = BadRequest | PaymentRequired | BatchFailed

  class DashboardHandler {
    const resellerRepo: MemoryResellerRepo
    const licenseRepo: MemoryLicenseRepo
    const reader: KeyGenerator.Reader

    constructor (resellerRepo: MemoryResellerRepo, licenseRepo: MemoryLicenseRepo, reader: KeyGenerator.Reader)
      ensures this.resellerRepo == resellerRepo && this.licenseRepo == licenseRepo && this.reader == reader
    {
      this.resellerRepo := resellerRepo;
      this.licenseRepo := licenseRepo;
      this.reader := reader;
    }

    /** The three steps of one undisturbed request: a refusal changes nothing, a failed batch
        keeps the payment, a success issues the keys under the store's new ids. */
    method GenerateLicenses(q: Request, ids: seq<string>, now: int) returns (r: Result<seq<string>, GenerateError>)
      requires WellFormed(q) && !CannotPay(resellerRepo.resellers, q) ==>
                 KeyGenerator.Halts(KeyGenerator.EffectiveMask(q.mask), reader.tape, reader.pos, q.count)
      requires WellFormed(q) ==> |ids| == q.count
      requires NewIDs(licenseRepo.licenses, ids)
      modifies resellerRepo, licenseRepo, reader
      ensures r == Err(BadRequest) <==> !WellFormed(q)
      ensures r == Err(PaymentRequired) <==> WellFormed(q) && CannotPay(old(resellerRepo.resellers), q)
      ensures var before := old(resellerRepo.resellers);
              if (r.Ok? || r == Err(BatchFailed)) && q.isReseller then
                var price := Wrap64(q.count * if q.isLifetime then 365 else q.durationDays);
                && q.user in before && before[q.user].credits >= price
                && resellerRepo.resellers
                == before[q.user := before[q.user].(credits := Wrap64(before[q.user].credits - price))]
              else resellerRepo.resellers == before
      ensures WellFormed(q) ==> resellerRepo.resellers == Charged(old(resellerRepo.resellers), q)
      ensures r.Err? ==> licenseRepo.licenses == old(licenseRepo.licenses)
      ensures r.Ok? ==>
                && |r.value| == q.count && KeyGenerator.Distinct(r.value)
                && (forall k :: k in r.value ==> KeyGenerator.Matches(k, KeyGenerator.EffectiveMask(q.mask)))
                && Adds(old(licenseRepo.licenses), licenseRepo.licenses, Batch(q, r.value), ids, now)
                && forall i :: 0 <= i < |ids| ==>
                     && HasKey(licenseRepo.licenses, ids[i], q.appID, r.value[i])
                     && Promised(licenseRepo.licenses[ids[i]], q, r.value[i], now)
    {
      if q.count < 1 || q.count > 10_000 {
        return Err(BadRequest);
      }
      var maxHWIDs := if q.maxHWIDs <= 0 then 1 else q.maxHWIDs;
      if q.isReseller {
        var required := Wrap64(q.count * q.durationDays);
        if q.isLifetime {
          required := Wrap64(q.count * 365);
        }
        var paid := resellerRepo.DeductCredits(q.user, required);
        if paid != Ok(true) {
          return Err(PaymentRequired);
        }
      }
      var batch := KeyGenerator.GenerateBatch(q.mask, q.count, reader);
      if batch.Err? {
        return Err(BatchFailed);
      }
      StoreKeys(q, batch.value, maxHWIDs, ids, now);
      return Ok(batch.value);
    }

    /** The last part of GenerateLicenses: the records of the keys, into the store. */
    method StoreKeys(q: Request, keys: seq<string>, maxHWIDs: int, ids: seq<string>, now: int)
      requires |ids| == |keys| && NewIDs(licenseRepo.licenses, ids)
      requires maxHWIDs == if q.maxHWIDs <= 0 then 1 else q.maxHWIDs
      modifies licenseRepo
      ensures Adds(old(licenseRepo.licenses), licenseRepo.licenses, Batch(q, keys), ids, now)
      ensures forall i :: 0 <= i < |ids| ==>
                && HasKey(licenseRepo.licenses, ids[i], q.appID, keys[i])
                && Promised(licenseRepo.licenses[ids[i]], q, keys[i], now)
    {
      var durationSeconds := Wrap64(q.durationDays * 86_400);
      if q.isLifetime {
        durationSeconds := 0;
      }
      var models := new License[|keys|](_ => Issue(q, ""));
      for i := 0 to |keys|
        invariant forall j :: 0 <= j < i ==> models[j] == Issue(q, keys[j])
        modifies models
      {
        models[i] := License(q.appID, keys[i], durationSeconds, q.isLifetime, None, [], maxHWIDs, UNACTIVATED,
                             None, None, None, None, q.user, 0);
      }
      IssueKeepsPromise(q, keys, now);
      licenseRepo.BulkCreate(models[..], ids, now);
    }
  }
}

/** The replay guard inside the client protocol: over whole runs of all kinds of requests, how
    often one nonce and timestamp can succeed. */
module SessionReplay {
  import opened Basics
  import opened Cache
  import opened Sessions
  import PasswordHash
  import ReplayGuard
  import Tables = KeyedTables

  datatype Stamp = Stamp(nonce: string, timestamp: Int64)

  function At(a: Action): int {
    if a.Other? then a.event.now else a.at
  }

  function StampInside(w: World, kind: Kind, sessionID: string, env: Envelope, now: int): Option<Stamp> {
    match Opened(w, kind, sessionID, env, now)
    case Err(_) => None
    case Ok((_, b, _)) => Some(Stamp(b.nonce, b.timestamp))
  }

  /** The nonce and timestamp of a request, if its envelope opens. */
  function StampOf(w: World, a: Action): Option<Stamp> {
    match a
    case Init(q, _, _) => Some(Stamp(q.nonce, q.timestamp))
    case AuthLicense(s, env, _, _, at) => StampInside(w, ForLicense, s, env, at)
    case AuthUser(s, env, _, _, _, at) => StampInside(w, ForLogin, s, env, at)
    case _ => None
  }

  ghost predicate Succeeds(w: World, a: Action)
    requires Tables.Unique(w.users)
  {
    match a
    case Init(q, x, at) => InitStep(w, q, x, at).1.Ok?
    case AuthLicense(s, env, found, uuid, at) => LicenseStep(w, s, env, found, uuid, at).1.Ok?
    case AuthUser(s, env, uuid, ip, idKey, at) => LoginStep(w, s, env, uuid, ip, idKey, at).1.Ok?
    case _ => false
  }

  // ------------------------------------------------------------------
  // What one step does to the nonces
  // ------------------------------------------------------------------

  ghost predicate SameNonces(items: Items, items': Items) {
    forall n :: Lookup(items', NonceKey(n)) == Lookup(items, NonceKey(n))
  }

  lemma StoredKeepsNonces(items: Items, token: string, d: SessionData, ttl: int, now: int)
    ensures SameNonces(items, Stored(items, token, d, ttl, now))
  {
    forall n ensures NonceKey(n) != SessionKey(token) {
      assert NonceKey(n)[0] == 'n' && SessionKey(token)[0] == 's';
    }
  }

  /** The nonces are left alone by a request that fails, or are those that the guard leaves, which
      has let the request through if it succeeds. */
  ghost predicate Guarded(items: Items, items': Items, stamp: Option<Stamp>, at: int, ok: bool) {
    || (SameNonces(items, items') && !ok)
    || (stamp.Some?
        && var (admitted, passed) := Admit(items, stamp.value.nonce, stamp.value.timestamp, at);
           SameNonces(admitted, items') && (ok ==> passed))
  }

  // After the guard has answered, a request leaves the nonces alone.
  lemma GreetSameNonces(w: World, admitted: (Items, bool), q: InitRequest, x: Drawn, now: int)
    ensures var (w', r) := Greet(w, admitted, q, x, now);
            SameNonces(admitted.0, w'.items) && (r.Ok? ==> admitted.1)
  {
    var d := Greeting(q, x, now);
    StoredKeepsNonces(admitted.0, d.sessionID, d, HOUR, now);
  }

  lemma RedeemSameNonces(w: World, admitted: (Items, bool), app: App, d: SessionData, b: Body, found: Option<string>,
                         uuid: string, now: int)
    ensures var (w', r) := RedeemAs(w, admitted, app, d, b, found, uuid, now);
            SameNonces(admitted.0, w'.items) && (r.Ok? ==> admitted.1)
  {
    if found.Some? {
      StoredKeepsNonces(admitted.0, "tok_" + uuid, Licensed(d, found.value, b.hwid), 2 * HOUR, now);
    }
  }

  lemma LogInSameNonces(w: World, admitted: (Items, bool), d: SessionData, b: Body,
                        user: Result<(string, Tables.User), Error>, uuid: string, ip: string, now: int)
    ensures var (w', r) := LogInAs(w, admitted, d, b, user, uuid, ip, now);
            SameNonces(admitted.0, w'.items) && (r.Ok? ==> admitted.1)
  {
    if user.Ok? {
      var d' := d.(userID := user.value.0, hwid := b.hwid);
      StoredKeepsNonces(admitted.0, "tok_" + uuid, d', 2 * HOUR, now);
    }
  }

  lemma InitGuarded(w: World, q: InitRequest, x: Drawn, now: int)
    ensures var (w', r) := InitStep(w, q, x, now);
            Guarded(w.items, w'.items, Some(Stamp(q.nonce, q.timestamp)), now, r.Ok?)
  {
    GreetSameNonces(w, Admit(w.items, q.nonce, q.timestamp, now), q, x, now);
  }

  lemma LicenseGuarded(w: World, s: string, env: Envelope, found: Option<string>, uuid: string, now: int)
    ensures var (w', r) := LicenseStep(w, s, env, found, uuid, now);
            Guarded(w.items, w'.items, StampInside(w, ForLicense, s, env, now), now, r.Ok?)
  {
    var request := Opened(w, ForLicense, s, env, now);
    if request.Ok? {
      var (d, b, _) := request.value;
      RedeemSameNonces(w, Admit(w.items, b.nonce, b.timestamp, now), w.apps[d.appID], d, b, found, uuid, now);
    }
  }

  lemma LoginGuarded(w: World, s: string, env: Envelope, uuid: string, ip: string, idKey: PasswordHash.IDKey, now: int)
    requires Tables.Unique(w.users)
    ensures var (w', r) := LoginStep(w, s, env, uuid, ip, idKey, now);
            Guarded(w.items, w'.items, StampInside(w, ForLogin, s, env, now), now, r.Ok?)
  {
    var request := Opened(w, ForLogin, s, env, now);
    if request.Ok? {
      var (d, b, _) := request.value;
      LogInSameNonces(w, Admit(w.items, b.nonce, b.timestamp, now), d, b,
                      Credentials(w.users, (d.appID, b.username), b.password, idKey), uuid, ip, now);
    }
  }

  lemma NextGuarded(w: World, a: Action)
    requires Tables.Unique(w.users) && Tables.Unique(w.variables) && !a.Other?
    ensures Guarded(w.items, Next(w, a).items, StampOf(w, a), At(a), Succeeds(w, a))
  {
    match a
    case Init(q, x, at) => InitGuarded(w, q, x, at);
    case AuthLicense(s, env, found, uuid, at) => LicenseGuarded(w, s, env, found, uuid, at);
    case AuthUser(s, env, uuid, ip, idKey, at) => LoginGuarded(w, s, env, uuid, ip, idKey, at);
    case Administer(_, _, _, _, _) =>
  }

  // ------------------------------------------------------------------
  // Along a run
  // ------------------------------------------------------------------

  const TTL: int := 60_000 * ReplayGuard.MILLI

  predicate HeldIn(items: Items, nonce: string, deadline: int, now: int) {
    ReplayGuard.Holds(Lookup(items, NonceKey(nonce)), deadline, now)
  }

  lemma GuardedHolds(items: Items, items': Items, stamp: Option<Stamp>, at: int, ok: bool,
                     nonce: string, deadline: int, now: int)
    requires Guarded(items, items', stamp, at, ok) && HeldIn(items, nonce, deadline, now) && now <= at
    ensures HeldIn(items', nonce, deadline, at)
    ensures ok && stamp.value.nonce == nonce ==> at >= deadline
  {
    if stamp.Some? {
      var r := ReplayGuard.Request(stamp.value.nonce, stamp.value.timestamp, at, at);
      ReplayGuard.NextHolds(items, ReplayGuard.Validate(r), ReplayGuard.CODE, nonce, deadline, now);
    }
  }

  lemma GuardedSuccess(items: Items, items': Items, stamp: Option<Stamp>, at: int)
    requires Guarded(items, items', stamp, at, true) && ReplayGuard.ClockInRange(at / ReplayGuard.MILLI, 30_000)
    ensures stamp.Some? && HeldIn(items', stamp.value.nonce, at + TTL, at)
    ensures Abs(at / ReplayGuard.MILLI - stamp.value.timestamp) <= 30_000
  {
    ReplayGuard.SkewOkIsExact(at / ReplayGuard.MILLI, stamp.value.timestamp, 30_000);
  }

  lemma NextHolds(w: World, a: Action, nonce: string, deadline: int, now: int)
    requires Tables.Unique(w.users) && Tables.Unique(w.variables)
    requires a.Other? ==> ReplayGuard.Foreign(a.event.op)
    requires HeldIn(w.items, nonce, deadline, now) && now <= At(a)
    ensures HeldIn(Next(w, a).items, nonce, deadline, At(a))
    ensures Succeeds(w, a) && StampOf(w, a).value.nonce == nonce ==> At(a) >= deadline
  {
    if a.Other? {
      ReplayGuard.NextHolds(w.items, ReplayGuard.GuardStep.Other(a.event), ReplayGuard.CODE, nonce, deadline, now);
    } else {
      NextGuarded(w, a);
      GuardedHolds(w.items, Next(w, a).items, StampOf(w, a), At(a), Succeeds(w, a), nonce, deadline, now);
    }
  }

  /** The clock does not go back and is in the range where the skew test is exact, and no other
      use of the cache touches a nonce. */
  ghost predicate Clocked(acts: seq<Action>) {
    && (forall i, j :: 0 <= i <= j < |acts| ==> At(acts[i]) <= At(acts[j]))
    && (forall i :: 0 <= i < |acts| ==> ReplayGuard.ClockInRange(At(acts[i]) / ReplayGuard.MILLI, 30_000))
    && (forall i :: 0 <= i < |acts| && acts[i].Other? ==> ReplayGuard.Foreign(acts[i].event.op))
  }

  /** The i-th request of the run carries the stamp and succeeds. */
  ghost predicate Success(ws: seq<World>, acts: seq<Action>, i: nat, stamp: Stamp) {
    && i < |acts| < |ws| && Tables.Unique(ws[i].users)
    && StampOf(ws[i], acts[i]) == Some(stamp) && Succeeds(ws[i], acts[i])
  }

  lemma SuccessHolds(ws: seq<World>, acts: seq<Action>, i: nat, stamp: Stamp)
    requires IsRun(ws, acts) && Clocked(acts) && Success(ws, acts, i, stamp)
    ensures HeldIn(ws[i + 1].items, stamp.nonce, At(acts[i]) + TTL, At(acts[i]))
    ensures Abs(At(acts[i]) / ReplayGuard.MILLI - stamp.timestamp) <= 30_000
  {
    RunStep(ws, acts, i);
    NextGuarded(ws[i], acts[i]);
    GuardedSuccess(ws[i].items, ws[i + 1].items, StampOf(ws[i], acts[i]), At(acts[i]));
  }

  lemma HoldsOneMore(ws: seq<World>, acts: seq<Action>, k: nat, nonce: string, deadline: int, now: int)
    requires IsRun(ws, acts) && Clocked(acts) && k < |acts|
    requires HeldIn(ws[k].items, nonce, deadline, now) && now <= At(acts[k])
    ensures HeldIn(ws[k + 1].items, nonce, deadline, At(acts[k]))
    ensures forall stamp :: Success(ws, acts, k, stamp) && stamp.nonce == nonce ==> At(acts[k]) >= deadline
  {
    RunStep(ws, acts, k);
    NextHolds(ws[k], acts[k], nonce, deadline, now);
  }

  lemma {:induction false} HoldsUntil(ws: seq<World>, acts: seq<Action>, i: nat, k: nat, nonce: string, deadline: int)
    requires IsRun(ws, acts) && Clocked(acts) && i < k <= |acts|
    requires HeldIn(ws[i + 1].items, nonce, deadline, At(acts[i]))
    ensures HeldIn(ws[k].items, nonce, deadline, At(acts[k - 1]))
  {
    if k > i + 1 {
      HoldsUntil(ws, acts, i, k - 1, nonce, deadline);
      HoldsOneMore(ws, acts, k - 1, nonce, deadline, At(acts[k - 2]));
    }
  }

  /** Any two requests of a run that succeed with one nonce, of whatever kinds and in whatever
      sessions, are a minute apart. */
  lemma SuccessesApart(ws: seq<World>, acts: seq<Action>, i: nat, j: nat, a: Stamp, b: Stamp)
    requires IsRun(ws, acts) && Clocked(acts) && i < j
    requires Success(ws, acts, i, a) && Success(ws, acts, j, b) && a.nonce == b.nonce
    ensures At(acts[j]) >= At(acts[i]) + TTL
  {
    SuccessHolds(ws, acts, i, a);
    HoldsUntil(ws, acts, i, j, a.nonce, At(acts[i]) + TTL);
    HoldsOneMore(ws, acts, j, a.nonce, At(acts[i]) + TTL, At(acts[j - 1]));
  }

  /** So one nonce and timestamp succeed a second time at the two ends of their window only. */
  lemma SucceedsTwiceOnlyAtTheEnds(ws: seq<World>, acts: seq<Action>, i: nat, j: nat, stamp: Stamp)
    requires IsRun(ws, acts) && Clocked(acts) && i < j
    requires Success(ws, acts, i, stamp) && Success(ws, acts, j, stamp)
    ensures At(acts[i]) / ReplayGuard.MILLI == stamp.timestamp - 30_000
    ensures At(acts[j]) / ReplayGuard.MILLI == stamp.timestamp + 30_000
  {
    SuccessesApart(ws, acts, i, j, stamp, stamp);
    SuccessHolds(ws, acts, i, stamp);
    SuccessHolds(ws, acts, j, stamp);
  }

  /** And never a third time, over any run. */
  lemma NeverThrice(ws: seq<World>, acts: seq<Action>, i: nat, j: nat, k: nat, stamp: Stamp)
    requires IsRun(ws, acts) && Clocked(acts) && i < j < k
    requires Success(ws, acts, i, stamp) && Success(ws, acts, j, stamp)
    ensures !Success(ws, acts, k, stamp)
  {
    if Success(ws, acts, k, stamp) {
      SucceedsTwiceOnlyAtTheEnds(ws, acts, i, j, stamp);
      SucceedsTwiceOnlyAtTheEnds(ws, acts, j, k, stamp);
    }
  }
}

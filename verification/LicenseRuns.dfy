/** Whole lives of a licence: any mix of authentication requests and administrator
    operations, in any order. */
module LicenseRuns {
  import opened Basics
  import opened Licenses

  datatype Event =
    | Auth(hwid: string, lockOn: bool, now: int)
    | Reset(at: int)
    | Status(status: string, reason: Option<string>)
    | Extend(seconds: int)

  function Apply(l: License, e: Event): License {
    match e
    case Auth(hwid, lockOn, now) => Authenticate(l, hwid, lockOn, now).0
    case Reset(at) => WithReset(l, at)
    case Status(s, reason) => WithStatus(l, s, reason)
    case Extend(seconds) => Extended(l, seconds)
  }

  function After(l: License, es: seq<Event>): License {
    if es == [] then l else Apply(After(l, es[..|es| - 1]), es[|es| - 1])
  }

  predicate Grants(l: License, e: Event) {
    e.Auth? && Authenticate(l, e.hwid, e.lockOn, e.now).1.Granted?
  }

  /** The i-th event of the run is a successful authentication. */
  predicate Success(l: License, es: seq<Event>, i: nat) {
    i < |es| && Grants(After(l, es[..i]), es[i])
  }

  // ------------------------------------------------------------------
  // Deadline conservation
  // ------------------------------------------------------------------

  /** The clock of the last request that took the unactivated branch. */
  function LastActivation(l: License, es: seq<Event>): Option<int> {
    if es == [] then None
    else
      var front, last := es[..|es| - 1], es[|es| - 1];
      if Grants(After(l, front), last) && FirstUse(After(l, front)) then Some(last.now)
      else LastActivation(l, front)
  }

  /** On every run and for every int64: a deadline is the last activation plus the current
      duration, modulo 2^64 nanoseconds. */
  lemma {:induction false} DeadlineModulo(l: License, es: seq<Event>)
    requires l.expiresAt == None
    ensures var m := After(l, es);
            m.expiresAt.Some? ==>
              && LastActivation(l, es).Some?
              && Congruent64(m.expiresAt.value, LastActivation(l, es).value + m.durationSeconds * SECOND)
  {
    if es != [] {
      var front, last := es[..|es| - 1], es[|es| - 1];
      var m := After(l, front);
      DeadlineModulo(l, front);
      if last.Extend? && m.expiresAt.Some? {
        var anchor := LastActivation(l, front).value;
        var d := m.durationSeconds;
        CongruentSum(m.expiresAt.value, anchor + d * SECOND, Nanoseconds(last.seconds), last.seconds * SECOND);
        CongruentScale(Wrap64(d + last.seconds), d + last.seconds, SECOND);
        CongruentBack(Wrap64(d + last.seconds) * SECOND, (d + last.seconds) * SECOND);
        assert Congruent64(anchor, anchor + 0 * TWO_64);
        CongruentSum(anchor, anchor, (d + last.seconds) * SECOND, Wrap64(d + last.seconds) * SECOND);
        CongruentTrans(m.expiresAt.value + Nanoseconds(last.seconds), anchor + (d + last.seconds) * SECOND,
                       anchor + Wrap64(d + last.seconds) * SECOND);
      } else if Grants(m, last) && FirstUse(m) && CalculateExpiration(m, last.now).Some? {
        assert Congruent64(last.now, last.now + 0 * TWO_64);
        CongruentSum(last.now, last.now, Nanoseconds(m.durationSeconds), m.durationSeconds * SECOND);
      }
    }
  }

  lemma CongruentBack(a: int, b: int)
    requires Congruent64(a, b)
    ensures Congruent64(b, a)
  {
    var k: int :| a == b + k * TWO_64;
    assert b == a + (-k) * TWO_64;
  }

  /** No duration of the run, and no extension, is beyond what int64 nanoseconds hold. */
  ghost predicate AllFit(l: License, es: seq<Event>) {
    && (forall i :: 0 <= i <= |es| ==> Fits(After(l, es[..i]).durationSeconds))
    && (forall i :: 0 <= i < |es| && es[i].Extend? ==> Fits(es[i].seconds))
  }

  /** Then the deadline is exactly the last activation plus the current duration, through any
      mix of rebindings, resets, status changes and extensions. */
  lemma {:induction false} DeadlineExact(l: License, es: seq<Event>)
    requires l.expiresAt == None && AllFit(l, es)
    ensures var m := After(l, es);
            m.expiresAt.Some? ==>
              && LastActivation(l, es).Some?
              && m.expiresAt.value == LastActivation(l, es).value + m.durationSeconds * SECOND
  {
    if es != [] {
      var front, last := es[..|es| - 1], es[|es| - 1];
      forall i | 0 <= i <= |front| ensures front[..i] == es[..i] {}
      DeadlineExact(l, front);
      var m := After(l, front);
      assert es[..|es|] == es;
      assert Fits(m.durationSeconds) && Fits(After(l, es).durationSeconds);
      NanosecondsExactIff(m.durationSeconds);
      if last.Extend? {
        NanosecondsExactIff(last.seconds);
      }
    }
  }

  // ------------------------------------------------------------------
  // Expiry is absorbing
  // ------------------------------------------------------------------

  /** Once its deadline has passed, a licence grants nothing, whatever statuses it is given and
      however often it is reset, and keeps its deadline, as long as nobody extends it. */
  lemma {:induction false} ExpiryAbsorbing(l: License, es: seq<Event>, deadline: int)
    requires l.expiresAt == Some(deadline)
    requires forall i :: 0 <= i < |es| ==> !es[i].Extend? && (es[i].Auth? ==> es[i].now > deadline)
    ensures After(l, es).expiresAt == Some(deadline)
    ensures forall i :: 0 <= i < |es| ==> !Success(l, es, i)
  {
    if es != [] {
      var front := es[..|es| - 1];
      ExpiryAbsorbing(l, front, deadline);
      forall i | 0 <= i < |es| ensures !Success(l, es, i) {
        if i < |front| {
          assert front[..i] == es[..i];
          assert !Success(l, front, i);
        }
      }
    }
  }

  /** Extending is the way back: the next request of an authorised device is granted exactly
      when the new deadline has not passed, unless the licence is banned or paused. The deadline
      moves by what int64 nanoseconds make of the seconds. */
  lemma ExtendRevives(l: License, deadline: int, seconds: int, hwid: string, lockOn: bool, now: int)
    requires l.expiresAt == Some(deadline)
    ensures Success(l, [Extend(seconds), Auth(hwid, lockOn, now)], 1) <==>
            && l.status != BANNED && l.status != PAUSED
            && now <= deadline + Nanoseconds(seconds)
            && ValidateHWID(l, hwid, lockOn).Ok?
    ensures Nanoseconds(seconds) == seconds * SECOND <==> Fits(seconds)
  {
    var es := [Extend(seconds), Auth(hwid, lockOn, now)];
    assert es[..1] == [Extend(seconds)] && es[..1][..0] == [];
    NanosecondsExactIff(seconds);
    assert After(l, es[..1]) == Extended(After(l, es[..1][..0]), seconds);
  }

  // ------------------------------------------------------------------
  // Device lock
  // ------------------------------------------------------------------

  predicate Bound(l: License) {
    l.hwidHash.Some? && l.hwidHash.value != ""
  }

  function Authorised(l: License): set<string> {
    (if l.hwidHash.Some? then {l.hwidHash.value} else {}) + set h | h in l.hwidList
  }

  predicate AllowanceFull(l: License) {
    l.maxHWIDs <= 1 + |l.hwidList|
  }

  predicate Usable(l: License, now: int) {
    l.status != BANNED && l.status != PAUSED && (l.expiresAt.Some? ==> now <= l.expiresAt.value)
  }

  /** The outcome of a request, whatever the licence: exactly which condition gives which answer. */
  lemma OutcomeExactly(l: License, hwid: string, lockOn: bool, now: int)
    ensures var o := Authenticate(l, hwid, lockOn, now).1;
            var expired := l.expiresAt.Some? && now > l.expiresAt.value;
            var open := l.status != "banned" && l.status != "paused";
            && (o.IsBanned? <==> l.status == "banned")
            && (o.IsPaused? <==> l.status == "paused")
            && (o.HasExpired? <==> open && expired)
            && (o == Refused(Required) <==> open && !expired && lockOn && hwid == "")
            && (o == Refused(Mismatch) <==>
                  open && !expired && lockOn && hwid != "" && Bound(l) && hwid !in Authorised(l) && AllowanceFull(l))
            && (o.Granted? <==>
                  open && !expired
                  && (lockOn ==> hwid != "" && (!Bound(l) || hwid in Authorised(l) || !AllowanceFull(l))))
  {
  }

  /** The record that a request leaves: a licence that is not granted changes only if it has
      expired; the first use sets the deadline; a new device is bound with the deadline kept; and
      the answer carries the deadline of the record. */
  lemma RecordExactly(l: License, hwid: string, lockOn: bool, now: int)
    ensures var (l', o) := Authenticate(l, hwid, lockOn, now);
            var deadline := if l.isLifetime || l.durationSeconds <= 0 then None
                            else Some(now + Wrap64(l.durationSeconds * 1_000_000_000));
            && (o.Granted? ==> o.expiresAt == l'.expiresAt)
            && l' == (if o.HasExpired? then l.(status := "expired", bannedReason := None)
                      else if !o.Granted? then l
                      else if l.status == "unactivated" then
                        l.(status := "active", hwidHash := Some(hwid), activatedAt := Some(now), expiresAt := deadline)
                      else if lockOn && (!Bound(l) || hwid !in Authorised(l)) then
                        l.(status := "active", hwidHash := Some(hwid), activatedAt := Some(now))
                      else l)
  {
  }

  /** With a full allowance a bound licence keeps exactly its devices through every event but a
      reset, except that the first use of a listed device drops an unlisted bound one. */
  lemma AuthorisedExactly(l: License, e: Event)
    requires Bound(l) && AllowanceFull(l) && !e.Reset? && (e.Auth? ==> e.lockOn)
    ensures Authorised(Apply(l, e)) == Authorised(l) <==>
            !(Grants(l, e) && FirstUse(l) && e.hwid != l.hwidHash.value && l.hwidHash.value !in l.hwidList)
  {
    if Grants(l, e) {
      assert e.hwid in Authorised(l);
      assert l.hwidHash.value in Authorised(l);
      assert Apply(l, e).hwidHash.Some? && Apply(l, e).hwidList == l.hwidList;
      if FirstUse(l) && e.hwid != l.hwidHash.value && l.hwidHash.value !in l.hwidList {
        assert l.hwidHash.value !in Authorised(Apply(l, e));
      }
    }
  }

  /** A reset frees the licence: nobody is authorised, and any device that names itself is let in,
      as far as the licence is usable. */
  lemma ResetFrees(l: License, at: int, hwid: string, lockOn: bool, now: int)
    ensures Authorised(After(l, [Reset(at)])) == {} && !Bound(After(l, [Reset(at)]))
    ensures After(l, [Reset(at)]) == l.(hwidHash := None, hwidList := [], lastHWIDReset := Some(at))
    ensures Success(l, [Reset(at), Auth(hwid, lockOn, now)], 1) <==> Usable(l, now) && (lockOn ==> hwid != "")
  {
    assert [Reset(at), Auth(hwid, lockOn, now)][..1] == [Reset(at)] && [Reset(at)][..0] == [];
    assert After(l, [Reset(at)]) == Apply(After(l, []), Reset(at));
  }

  /** A status takes effect at once, whatever the licence was before: the next request is granted
      exactly if the status bars nobody, the deadline holds and the device is allowed. */
  lemma StatusDecides(l: License, status: string, reason: Option<string>, hwid: string, lockOn: bool, now: int)
    ensures After(l, [Status(status, reason)]) == l.(status := status, bannedReason := reason)
    ensures Success(l, [Status(status, reason), Auth(hwid, lockOn, now)], 1) <==>
            && status != "banned" && status != "paused" && (l.expiresAt.Some? ==> now <= l.expiresAt.value)
            && (lockOn ==> hwid != "" && (!Bound(l) || hwid in Authorised(l) || !AllowanceFull(l)))
  {
    var es := [Status(status, reason), Auth(hwid, lockOn, now)];
    assert es[..1] == [Status(status, reason)] && [Status(status, reason)][..0] == [];
    assert After(l, [Status(status, reason)]) == Apply(After(l, []), Status(status, reason));
    OutcomeExactly(After(l, es[..1]), hwid, lockOn, now);
  }

  /** All the seconds by which a run extends the licence. */
  function Extensions(es: seq<Event>): int {
    if es == [] then 0
    else Extensions(es[..|es| - 1]) + if es[|es| - 1].Extend? then es[|es| - 1].seconds else 0
  }

  /** With or without a deadline, no extension is lost and nothing else changes the duration. */
  lemma {:induction false} DurationModulo(l: License, es: seq<Event>)
    ensures Congruent64(After(l, es).durationSeconds, l.durationSeconds + Extensions(es))
  {
    if es == [] {
      assert l.durationSeconds == l.durationSeconds + 0 + 0 * TWO_64;
    } else {
      var front, last := es[..|es| - 1], es[|es| - 1];
      DurationModulo(l, front);
      if last.Extend? {
        var d := After(l, front).durationSeconds;
        assert Congruent64(last.seconds, last.seconds + 0 * TWO_64);
        CongruentSum(d, l.durationSeconds + Extensions(front), last.seconds, last.seconds);
        CongruentTrans(Wrap64(d + last.seconds), d + last.seconds, l.durationSeconds + Extensions(es));
      }
    }
  }

  lemma DeviceLockStep(l: License, e: Event)
    requires Bound(l) && AllowanceFull(l) && !e.Reset? && (e.Auth? ==> e.lockOn)
    ensures Bound(Apply(l, e)) && AllowanceFull(Apply(l, e))
    ensures Authorised(Apply(l, e)) <= Authorised(l)
    ensures Grants(l, e) ==> e.hwid in Authorised(l)
  {
  }

  /** Between two resets, with the lock on and the allowance full, a bound licence never gains
      a device, and every success comes from a device that it had from the start. */
  lemma {:induction false} DeviceLock(l: License, es: seq<Event>)
    requires Bound(l) && AllowanceFull(l)
    requires forall i :: 0 <= i < |es| ==> !es[i].Reset? && (es[i].Auth? ==> es[i].lockOn)
    ensures Bound(After(l, es)) && AllowanceFull(After(l, es))
    ensures Authorised(After(l, es)) <= Authorised(l)
    ensures forall i :: 0 <= i < |es| && Success(l, es, i) ==> es[i].hwid in Authorised(l)
  {
    if es != [] {
      var front := es[..|es| - 1];
      DeviceLock(l, front);
      DeviceLockStep(After(l, front), es[|es| - 1]);
      forall i | 0 <= i < |es| && Success(l, es, i) ensures es[i].hwid in Authorised(l) {
        if i < |front| {
          assert front[..i] == es[..i];
          assert Success(l, front, i);
        }
      }
    }
  }

  lemma AfterOneMore(l: License, es: seq<Event>, i: nat)
    requires i < |es|
    ensures After(l, es[..i + 1]) == Apply(After(l, es[..i]), es[i])
  {
    assert es[..i + 1][..i] == es[..i];
  }

  lemma {:induction false} AfterAppend(l: License, es: seq<Event>, fs: seq<Event>)
    ensures After(l, es + fs) == After(After(l, es), fs)
  {
    if fs == [] {
      assert es + fs == es;
    } else {
      assert (es + fs)[..|es + fs| - 1] == es + fs[..|fs| - 1];
      AfterAppend(l, es, fs[..|fs| - 1]);
    }
  }

  lemma SuccessLater(l: License, es: seq<Event>, n: nat, k: nat)
    requires n <= k && Success(l, es, k)
    ensures Success(After(l, es[..n]), es[n..], k - n) && es[n..][k - n] == es[k]
  {
    var early, late := es[..n], es[n..][..k - n];
    assert early + late == es[..k];
    AfterAppend(l, early, late);
  }

  /** Nothing but a success binds a licence. */
  lemma {:induction false} UnboundUntilSuccess(l: License, es: seq<Event>)
    requires !Bound(l) && forall i :: 0 <= i < |es| ==> !Success(l, es, i)
    ensures !Bound(After(l, es))
    ensures (forall i :: 0 <= i < |es| ==> !es[i].Reset?) ==> After(l, es).hwidList == l.hwidList
    ensures After(l, es).maxHWIDs == l.maxHWIDs
  {
    if es != [] {
      var front := es[..|es| - 1];
      forall i | 0 <= i < |front| ensures !Success(l, front, i) {
        assert front[..i] == es[..i];
        assert !Success(l, es, i);
      }
      UnboundUntilSuccess(l, front);
      assert !Success(l, es, |front|);
    }
  }

  // The first success of a run.
  ghost predicate FirstSuccess(l: License, es: seq<Event>, n: nat) {
    Success(l, es, n) && forall i :: 0 <= i < n ==> !Success(l, es, i)
  }

  /** However long an unbound licence waits, and whatever administrators do meanwhile, its first
      success under the lock binds it to that device. */
  lemma FirstSuccessBinds(l: License, es: seq<Event>, n: nat)
    requires !Bound(l) && FirstSuccess(l, es, n) && es[n].lockOn
    ensures var m := After(l, es[..n + 1]);
            && Bound(m) && m.hwidHash == Some(es[n].hwid) && m.maxHWIDs == l.maxHWIDs
            && ((forall i :: 0 <= i < n ==> !es[i].Reset?) ==> m.hwidList == l.hwidList)
  {
    forall i | 0 <= i < n ensures !Success(l, es[..n], i) {
      assert es[..n][..i] == es[..i];
      assert !Success(l, es, i);
    }
    UnboundUntilSuccess(l, es[..n]);
    AfterOneMore(l, es, n);
  }

  /** From then on, with a full allowance and until a reset, that device and the list are all
      that is ever granted. */
  lemma FirstSuccessLocks(l: License, es: seq<Event>, n: nat, k: nat)
    requires !Bound(l) && AllowanceFull(l) && FirstSuccess(l, es, n) && Success(l, es, k)
    requires forall i :: 0 <= i < |es| ==> !es[i].Reset? && (es[i].Auth? ==> es[i].lockOn)
    ensures es[k].hwid == es[n].hwid || es[k].hwid in l.hwidList
  {
    FirstSuccessBinds(l, es, n);
    if k > n {
      SuccessLater(l, es, n + 1, k);
      DeviceLock(After(l, es[..n + 1]), es[n + 1..]);
    } else {
      assert k == n;
    }
  }

  /** After a reset, with an allowance of one, the first device to succeed under the lock is the
      only one until the next reset. */
  lemma ResetLocksAnew(l: License, at: int, es: seq<Event>, n: nat, k: nat)
    requires l.maxHWIDs <= 1
    requires FirstSuccess(After(l, [Reset(at)]), es, n) && Success(After(l, [Reset(at)]), es, k)
    requires forall i :: 0 <= i < |es| ==> !es[i].Reset? && (es[i].Auth? ==> es[i].lockOn)
    ensures es[k].hwid == es[n].hwid
  {
    ResetFrees(l, at, "", false, at);
    FirstSuccessLocks(After(l, [Reset(at)]), es, n, k);
  }

  function LongestPlusOne(s: seq<string>): (r: string)
    ensures r !in s && r != ""
    ensures forall i :: 0 <= i < |s| ==> |r| > |s[i]|
  {
    if s == [] then "x"
    else
      var r := LongestPlusOne(s[1..]);
      if |r| > |s[0]| then r else s[0] + "x"
  }

  /** The lock holds exactly when the allowance is full: otherwise every device but those
      already authorised is let in too, and takes the place of the bound one. */
  lemma DeviceLockExactly(l: License, now: int)
    requires Bound(l) && l.status != BANNED && l.status != PAUSED
    requires l.expiresAt.Some? ==> now <= l.expiresAt.value
    ensures (forall hwid :: Grants(l, Auth(hwid, true, now)) ==> hwid in Authorised(l)) <==> AllowanceFull(l)
    ensures !AllowanceFull(l) ==> forall hwid :: hwid != "" ==> Grants(l, Auth(hwid, true, now))
  {
    if !AllowanceFull(l) {
      var stranger := LongestPlusOne([l.hwidHash.value] + l.hwidList);
      assert l.hwidHash.value == ([l.hwidHash.value] + l.hwidList)[0];
      forall h | h in l.hwidList ensures h in [l.hwidHash.value] + l.hwidList {}
      assert stranger !in Authorised(l);
      assert Grants(l, Auth(stranger, true, now));
    }
  }

  /** No event but a reset changes whether the allowance is full, and a reset never fills one. */
  lemma AllowanceStep(l: License, e: Event)
    ensures !e.Reset? ==> (AllowanceFull(Apply(l, e)) <==> AllowanceFull(l))
    ensures !AllowanceFull(l) ==> !AllowanceFull(Apply(l, e))
  {
  }

  /** So on every run without resets, whatever its devices, the allowance is as full at the end
      as at the beginning. */
  lemma {:induction false} AllowanceUnchanged(l: License, es: seq<Event>)
    requires forall i :: 0 <= i < |es| ==> !es[i].Reset?
    ensures AllowanceFull(After(l, es)) <==> AllowanceFull(l)
  {
    if es != [] {
      AllowanceUnchanged(l, es[..|es| - 1]);
      AllowanceStep(After(l, es[..|es| - 1]), es[|es| - 1]);
    }
  }

  /** With room in the allowance, on every run and for ever: the lock refuses no device that
      names itself, so that a request succeeds exactly when the licence is usable. */
  lemma {:induction false} AllowanceNeverFills(l: License, es: seq<Event>)
    requires !AllowanceFull(l)
    ensures !AllowanceFull(After(l, es))
    ensures forall i :: 0 <= i < |es| && es[i].Auth? ==>
              (Success(l, es, i) <==> Usable(After(l, es[..i]), es[i].now) && (es[i].lockOn ==> es[i].hwid != ""))
  {
    if es != [] {
      var front := es[..|es| - 1];
      AllowanceNeverFills(l, front);
      AllowanceStep(After(l, front), es[|es| - 1]);
      forall i | 0 <= i < |es| && es[i].Auth?
        ensures Success(l, es, i) <==> Usable(After(l, es[..i]), es[i].now) && (es[i].lockOn ==> es[i].hwid != "")
      {
        if i < |front| {
          assert front[..i] == es[..i];
          assert Success(l, front, i) <==> Success(l, es, i);
        }
      }
    }
  }

  // ------------------------------------------------------------------
  // Overlapping requests
  // ------------------------------------------------------------------

  // The service reads a copy of the record under one lock and writes under another. Here the
  // two are separate steps, and any other step on the licence may come between them.
  datatype Step = Read(ticket: nat, auth: Event) | Commit(ticket: nat) | Admin(event: Event)

  datatype Pending = Pending(copy: License, auth: Event)

  datatype State = State(lic: License, pending: map<nat, Pending>)

  predicate Binds(copy: License, auth: Event)
    requires auth.Auth?
  {
    FirstUse(copy) || ValidateHWID(copy, auth.hwid, auth.lockOn) == Ok(true)
  }

  /** What a request that has read copy writes into the record current. */
  function Write(current: License, copy: License, auth: Event): License
    requires auth.Auth?
  {
    match Authenticate(copy, auth.hwid, auth.lockOn, auth.now).1
    case HasExpired => WithStatus(current, EXPIRED, None)
    case Granted(expiresAt) =>
      if Binds(copy, auth) then Activated(current, auth.hwid, expiresAt, auth.now) else current
    case _ => current
  }

  function Do(s: State, step: Step): State {
    match step
    case Read(t, auth) => if auth.Auth? then s.(pending := s.pending[t := Pending(s.lic, auth)]) else s
    case Commit(t) =>
      if t in s.pending && s.pending[t].auth.Auth? then
        State(Write(s.lic, s.pending[t].copy, s.pending[t].auth), s.pending - {t})
      else s
    case Admin(e) => s.(lic := Apply(s.lic, e))
  }

  function DoAll(s: State, steps: seq<Step>): State {
    if steps == [] then s else Do(DoAll(s, steps[..|steps| - 1]), steps[|steps| - 1])
  }

  // The request finds the record at its commit as it read it.
  predicate Steady(s: State, step: Step) {
    step.Commit? && step.ticket in s.pending ==> s.pending[step.ticket].copy == s.lic
  }

  predicate Undisturbed(s: State, steps: seq<Step>) {
    steps != [] ==>
      Undisturbed(s, steps[..|steps| - 1]) && Steady(DoAll(s, steps[..|steps| - 1]), steps[|steps| - 1])
  }

  /** The atomic event that a step stands for: a request takes place at its commit. */
  function Emits(s: State, step: Step): seq<Event> {
    if step.Admin? then [step.event]
    else if step.Commit? && step.ticket in s.pending && s.pending[step.ticket].auth.Auth?
    then [s.pending[step.ticket].auth]
    else []
  }

  function Serialised(s: State, steps: seq<Step>): seq<Event> {
    if steps == [] then []
    else Serialised(s, steps[..|steps| - 1]) + Emits(DoAll(s, steps[..|steps| - 1]), steps[|steps| - 1])
  }

  lemma SteadyStepIsAtomic(s: State, step: Step)
    requires Steady(s, step)
    ensures Do(s, step).lic == if Emits(s, step) == [] then s.lic else Apply(s.lic, Emits(s, step)[0])
  {
  }

  /** A run whose requests are not disturbed leaves what the run of atomic requests leaves, so
      that the theorems above are about it as well. */
  lemma {:induction false} UndisturbedRunsAreAtomic(s: State, steps: seq<Step>)
    requires Undisturbed(s, steps)
    ensures DoAll(s, steps).lic == After(s.lic, Serialised(s, steps))
  {
    if steps != [] {
      var front, last := steps[..|steps| - 1], steps[|steps| - 1];
      var before, serial := DoAll(s, front), Serialised(s, front);
      UndisturbedRunsAreAtomic(s, front);
      SteadyStepIsAtomic(before, last);
      if Emits(before, last) == [] {
        assert serial + [] == serial;
      } else {
        assert (serial + Emits(before, last))[..|serial|] == serial;
      }
    }
  }

  /** Disturbed, they are not. Of two requests that are both granted on the record as they read
      it, the second is also granted after the first exactly if the first writes nothing, or its
      deadline still holds and its binding leaves room: the lock is off, the devices are the same
      or the first is nameless, the second is in the list, or the allowance is not full. */
  lemma OverlapMattersExactly(l: License, first: Event, second: Event)
    requires Grants(l, first) && Grants(l, second)
    ensures Grants(Apply(l, first), second) <==>
            || !Binds(l, first)
            || (&& (FirstUse(l) && CalculateExpiration(l, first.now).Some? ==>
                      second.now <= CalculateExpiration(l, first.now).value)
                && (!second.lockOn || first.hwid == "" || second.hwid == first.hwid
                    || second.hwid in l.hwidList || !AllowanceFull(l)))
  {
  }

  // Both requests read before either commits.
  function Overlap(first: Event, second: Event): seq<Step> {
    [Read(0, first), Read(1, second), Commit(0), Commit(1)]
  }

  lemma OverlapRuns(l: License, first: Event, second: Event)
    requires first.Auth? && second.Auth?
    ensures var steps, s := Overlap(first, second), State(l, map[]);
            && DoAll(s, steps[..2]) == State(l, map[0 := Pending(l, first), 1 := Pending(l, second)])
            && DoAll(s, steps[..3]) == State(Write(l, l, first), map[1 := Pending(l, second)])
            && DoAll(s, steps) == State(Write(Write(l, l, first), l, second), map[])
  {
    var steps, s := Overlap(first, second), State(l, map[]);
    assert steps[..0] == [] && steps[..1][..0] == [] && steps[..2][..1] == steps[..1];
    assert steps[..3][..2] == steps[..2] && steps[..4] == steps && steps[..4][..3] == steps[..3];
    assert DoAll(s, steps[..1]) == State(l, map[0 := Pending(l, first)]);
    assert DoAll(s, steps[..2]) == State(l, map[0 := Pending(l, first), 1 := Pending(l, second)]);
    var three := DoAll(s, steps[..3]);
    assert three.pending == map[1 := Pending(l, second)];
    assert DoAll(s, steps).pending == map[];
  }

  /** Overlapped, both are granted whatever the allowance, and the licence is left bound to the
      later device: for two first uses of different devices under the lock, exactly a full
      allowance without the second in its list, or a deadline already passed, would have refused
      the second after the first. */
  lemma OverlappingFirstUses(l: License, first: Event, second: Event)
    requires FirstUse(l) && !Bound(l) && Grants(l, first) && Grants(l, second)
    requires first.lockOn && second.lockOn && first.hwid != second.hwid
    ensures var s, deadline := DoAll(State(l, map[]), Overlap(first, second)[..2]), CalculateExpiration(l, first.now);
            && s.pending == map[0 := Pending(l, first), 1 := Pending(l, second)]
            && DoAll(State(l, map[]), Overlap(first, second)).lic.hwidHash == Some(second.hwid)
            && !Undisturbed(State(l, map[]), Overlap(first, second))
            && (!Success(l, [first, second], 1) <==>
                  || (AllowanceFull(l) && second.hwid !in l.hwidList)
                  || (deadline.Some? && second.now > deadline.value))
  {
    var steps := Overlap(first, second);
    OverlapRuns(l, first, second);
    OverlapMattersExactly(l, first, second);
    assert steps[..|steps| - 1] == steps[..3];
    assert !Steady(DoAll(State(l, map[]), steps[..3]), steps[3]);
    assert [first, second][..1] == [first] && [first][..0] == [];
    assert After(l, [first]) == Apply(After(l, []), first);
  }

  lemma BetweenReadAndCommit(l: License, auth: Event, admin: Event)
    requires auth.Auth?
    ensures DoAll(State(l, map[]), [Read(0, auth), Admin(admin), Commit(0)]).lic == Write(Apply(l, admin), l, auth)
  {
    var steps, s := [Read(0, auth), Admin(admin), Commit(0)], State(l, map[]);
    assert steps[..3] == steps && steps[..3][..2] == steps[..2];
    assert steps[..2][..1] == steps[..1] && steps[..1][..0] == [];
    assert DoAll(s, steps[..1]) == State(l, map[0 := Pending(l, auth)]);
    assert DoAll(s, steps[..2]) == State(Apply(l, admin), map[0 := Pending(l, auth)]);
  }

  /** A ban or a pause set between the read and the write of a request is lost exactly when the
      request was granted and binds, or found the licence expired. */
  lemma BanLostExactly(l: License, auth: Event, status: string, reason: Option<string>)
    requires auth.Auth? && (status == BANNED || status == PAUSED)
    ensures var steps := [Read(0, auth), Admin(Status(status, reason)), Commit(0)];
            DoAll(State(l, map[]), steps).lic.status != status <==>
              || (Grants(l, auth) && Binds(l, auth))
              || (l.status != BANNED && l.status != PAUSED && l.expiresAt.Some? && auth.now > l.expiresAt.value)
  {
    BetweenReadAndCommit(l, auth, Status(status, reason));
  }

  /** A deadline moved between the read and the write of a request that binds is overwritten by
      the one that the request read or computed, while the duration keeps the extension: the
      deadline then no longer follows the duration. Nothing else loses an extension. */
  lemma ExtensionLostExactly(l: License, auth: Event, seconds: int)
    requires auth.Auth?
    ensures var steps := [Read(0, auth), Admin(Extend(seconds)), Commit(0)];
            var m := DoAll(State(l, map[]), steps).lic;
            && m.durationSeconds == Extended(l, seconds).durationSeconds
            && m.expiresAt == (if !(Grants(l, auth) && Binds(l, auth)) then Extended(l, seconds).expiresAt
                               else if FirstUse(l) then CalculateExpiration(l, auth.now) else l.expiresAt)
            && (!FirstUse(l) && l.expiresAt.Some? && Nanoseconds(seconds) != 0 ==>
                  (m.expiresAt == l.expiresAt <==> Grants(l, auth) && Binds(l, auth)))
  {
    BetweenReadAndCommit(l, auth, Extend(seconds));
  }

  /** A request that binds puts the licence back to use: it is active, and the same device is
      granted again at once, unless the fresh deadline has already passed. */
  lemma BanUndone(l: License, auth: Event, reason: Option<string>)
    requires Grants(l, auth) && Binds(l, auth)
    ensures var m, deadline := Write(WithStatus(l, BANNED, reason), l, auth), CalculateExpiration(l, auth.now);
            && m.status == ACTIVE && m.hwidHash == Some(auth.hwid)
            && (Grants(m, auth) <==> (FirstUse(l) && deadline.Some? ==> auth.now <= deadline.value))
  {
  }
}

/** Licences: the records and the store of backend/internal/repository/memory_store.go, the
    device check of hwid_service.go, the expiry computation of license_engine.go, and what
    AuthenticateLicense of client_auth_service.go decides about one licence. */
module Licenses {
  import opened Basics

  const UNACTIVATED := "unactivated"
  const ACTIVE := "active"
  const PAUSED := "paused"
  const BANNED := "banned"
  const EXPIRED := "expired"

  const SECOND: int := 1_000_000_000

  // Times are nanoseconds; durationSeconds is an int64.
  datatype License = License(appID: string, licenseKey: string, durationSeconds: int, isLifetime: bool,
                             hwidHash: Option<string>, hwidList: seq<string>, maxHWIDs: int,
                             status: string, activatedAt: Option<int>, expiresAt: Option<int>,
                             lastHWIDReset: Option<int>, bannedReason: Option<string>,
                             createdBy: string, createdAt: int)

  type Licenses = map<string, License>

  // ------------------------------------------------------------------
  // Pure decisions
  // ------------------------------------------------------------------

  /** time.Duration(seconds) * time.Second, in int64 nanoseconds. */
  function Nanoseconds(seconds: int): int {
    Wrap64(seconds * SECOND)
  }

  predicate Fits(seconds: int) {
    -9_223_372_036 <= seconds <= 9_223_372_036
  }

  lemma NanosecondsExactIff(seconds: int)
    ensures Nanoseconds(seconds) == seconds * SECOND <==> Fits(seconds)
  {
  }

  function CalculateExpiration(l: License, now: int): Option<int> {
    if l.isLifetime || l.durationSeconds <= 0 then None
    else Some(now + Nanoseconds(l.durationSeconds))
  }

  /** DurationDays as the dashboard stores them, and the deadline they lead to. */
  lemma DaysExactIff(l: License, days: int, now: int)
    requires days > 0 && l.durationSeconds == Wrap64(days * 86_400) && !l.isLifetime
    ensures CalculateExpiration(l, now) == Some(now + days * 86_400 * SECOND) <==> days <= 106_751
  {
  }

  datatype HwidError = Required | Mismatch

  /** Ok(needsBinding), or why the device is refused. */
  function ValidateHWID(l: License, hwid: string, lockOn: bool): Result<bool, HwidError> {
    if !lockOn then Ok(false)
    else if hwid == "" then Err(Required)
    else if l.hwidHash == None || l.hwidHash == Some("") then Ok(true)
    else if l.hwidHash == Some(hwid) then Ok(false)
    else if hwid in l.hwidList then Ok(false)
    else if l.maxHWIDs > 1 + |l.hwidList| then Ok(true)
    else Err(Mismatch)
  }

  // ------------------------------------------------------------------
  // What the operations of the store do to one licence
  // ------------------------------------------------------------------

  function Activated(l: License, hwid: string, expiresAt: Option<int>, now: int): License {
    l.(status := ACTIVE, hwidHash := Some(hwid), activatedAt := Some(now), expiresAt := expiresAt)
  }

  function Moved(deadline: Option<int>, nanoseconds: int): Option<int> {
    if deadline.None? then None else Some(deadline.value + nanoseconds)
  }

  function WithReset(l: License, now: int): License {
    l.(hwidHash := None, hwidList := [], lastHWIDReset := Some(now))
  }

  function WithStatus(l: License, status: string, reason: Option<string>): License {
    l.(status := status, bannedReason := reason)
  }

  function Extended(l: License, seconds: int): License {
    l.(durationSeconds := Wrap64(l.durationSeconds + seconds),
       expiresAt := if l.expiresAt.Some? then Some(l.expiresAt.value + Nanoseconds(seconds)) else None)
  }

  datatype Outcome = IsBanned | IsPaused | HasExpired | Refused(why: HwidError) | Granted(expiresAt: Option<int>)

  predicate FirstUse(l: License) {
    l.status == UNACTIVATED
  }

  /** The decision of one authentication request and the licence it leaves, as one atomic
      step with one reading of the clock. */
  function Authenticate(l: License, hwid: string, lockOn: bool, now: int): (License, Outcome) {
    if l.status == BANNED then (l, IsBanned)
    else if l.status == PAUSED then (l, IsPaused)
    else if l.expiresAt.Some? && now > l.expiresAt.value then (WithStatus(l, EXPIRED, None), HasExpired)
    else
      match ValidateHWID(l, hwid, lockOn)
      case Err(e) => (l, Refused(e))
      case Ok(needsBinding) =>
        var expiresAt := if FirstUse(l) then CalculateExpiration(l, now) else l.expiresAt;
        (if FirstUse(l) || needsBinding then Activated(l, hwid, expiresAt, now) else l, Granted(expiresAt))
  }

  // ------------------------------------------------------------------
  // Looking a licence up
  // ------------------------------------------------------------------

  predicate HasKey(licenses: Licenses, id: string, appID: string, key: string) {
    id in licenses && licenses[id].appID == appID && licenses[id].licenseKey == key
  }

  /** What a scan of the licences, in any order, may come upon. */
  ghost predicate Finds(licenses: Licenses, appID: string, key: string, found: Option<string>) {
    match found
    case Some(id) => HasKey(licenses, id, appID, key)
    case None => forall id :: !HasKey(licenses, id, appID, key)
  }

  ghost predicate UniqueKeys(licenses: Licenses) {
    forall i, j, appID, key :: HasKey(licenses, i, appID, key) && HasKey(licenses, j, appID, key) ==> i == j
  }

  /** Every lookup has one answer, whatever the order of the scan, exactly when no two licences
      of an application have one key. */
  lemma LookupDeterminedExactly(licenses: Licenses)
    ensures (forall appID, key, a, b :: Finds(licenses, appID, key, a) && Finds(licenses, appID, key, b) ==> a == b)
            <==> UniqueKeys(licenses)
  {
    if !UniqueKeys(licenses) {
      var i, j, appID, key :| HasKey(licenses, i, appID, key) && HasKey(licenses, j, appID, key) && i != j;
      assert Finds(licenses, appID, key, Some(i)) && Finds(licenses, appID, key, Some(j));
    }
  }

  /** What BulkCreate does: every licence of the batch under its ID, and nothing else. */
  ghost predicate Adds(before: Licenses, after: Licenses, batch: seq<License>, ids: seq<string>, now: int)
    requires |ids| == |batch|
  {
    && after.Keys == before.Keys + (set i | 0 <= i < |ids| :: ids[i])
    && (forall id :: id in before ==> id in after && after[id] == before[id])
    && (forall i :: 0 <= i < |ids| ==> ids[i] in after && after[ids[i]] == batch[i].(createdAt := now))
  }

  predicate NewIDs(licenses: Licenses, ids: seq<string>) {
    && (forall i, j :: 0 <= i < j < |ids| ==> ids[i] != ids[j])
    && (forall i :: 0 <= i < |ids| ==> ids[i] !in licenses)
  }

  // No licence of the store has the application and key of l.
  ghost predicate KeyFree(licenses: Licenses, l: License) {
    forall id :: !HasKey(licenses, id, l.appID, l.licenseKey)
  }

  lemma AddedFrom(before: Licenses, after: Licenses, batch: seq<License>, ids: seq<string>, now: int, id: string)
    returns (i: nat)
    requires |ids| == |batch| && Adds(before, after, batch, ids, now) && id in after && id !in before
    ensures i < |ids| && ids[i] == id && after[id] == batch[i].(createdAt := now)
  {
    i :| 0 <= i < |ids| && ids[i] == id;
  }

  lemma BatchKeepsUnique(before: Licenses, after: Licenses, batch: seq<License>, ids: seq<string>, now: int)
    requires |ids| == |batch| && Adds(before, after, batch, ids, now) && UniqueKeys(before)
    requires forall i, j :: 0 <= i < j < |batch| ==> batch[i].licenseKey != batch[j].licenseKey
    requires forall i :: 0 <= i < |batch| ==> KeyFree(before, batch[i])
    ensures UniqueKeys(after)
  {
    forall x, y, appID, key | HasKey(after, x, appID, key) && HasKey(after, y, appID, key) ensures x == y {
      assert x in before ==> HasKey(before, x, appID, key);
      assert y in before ==> HasKey(before, y, appID, key);
      if x !in before {
        var i := AddedFrom(before, after, batch, ids, now, x);
        assert KeyFree(before, batch[i]);
      }
      if y !in before {
        var j := AddedFrom(before, after, batch, ids, now, y);
        assert KeyFree(before, batch[j]);
      }
    }
  }

  /** A batch of distinct keys keeps lookups determined exactly when the store has none of its
      keys for its application yet; nothing of the source compares the two. */
  lemma BatchKeepsUniqueExactly(before: Licenses, after: Licenses, batch: seq<License>, ids: seq<string>, now: int)
    requires |ids| == |batch| && NewIDs(before, ids) && Adds(before, after, batch, ids, now) && UniqueKeys(before)
    requires forall i, j :: 0 <= i < j < |batch| ==> batch[i].licenseKey != batch[j].licenseKey
    ensures UniqueKeys(after) <==> forall i :: 0 <= i < |batch| ==> KeyFree(before, batch[i])
  {
    if forall i :: 0 <= i < |batch| ==> KeyFree(before, batch[i]) {
      BatchKeepsUnique(before, after, batch, ids, now);
    } else {
      var i :| 0 <= i < |batch| && !KeyFree(before, batch[i]);
      var id :| HasKey(before, id, batch[i].appID, batch[i].licenseKey);
      assert HasKey(after, id, batch[i].appID, batch[i].licenseKey);
      assert HasKey(after, ids[i], batch[i].appID, batch[i].licenseKey);
    }
  }

  /** Two batches of one and the same key break it. */
  lemma TwoBatchesClash(l: License, first: string, second: string, now: int)
    requires first != second
    ensures var one := map[first := l.(createdAt := now)];
            var two := one[second := l.(createdAt := now)];
            && Adds(map[], one, [l], [first], now) && Adds(one, two, [l], [second], now)
            && UniqueKeys(one) && !UniqueKeys(two)
            && Finds(two, l.appID, l.licenseKey, Some(first)) && Finds(two, l.appID, l.licenseKey, Some(second))
  {
    var one := map[first := l.(createdAt := now)];
    var two := one[second := l.(createdAt := now)];
    assert [first][0] == first && [second][0] == second;
    assert one.Keys == {first} && two.Keys == {first, second};
    assert (set i | 0 <= i < |[first]| :: [first][i]) == {first};
    assert (set i | 0 <= i < |[second]| :: [second][i]) == {second};
    assert HasKey(two, first, l.appID, l.licenseKey) && HasKey(two, second, l.appID, l.licenseKey);
  }

  class MemoryLicenseRepo {
    var licenses: Licenses

    constructor ()
      ensures licenses == map[]
    {
      licenses := map[];
    }

    /** ids are the random UUIDs that the store draws; they are assumed not to collide. */
    method BulkCreate(batch: seq<License>, ids: seq<string>, now: int)
      requires |ids| == |batch| && NewIDs(licenses, ids)
      modifies this
      ensures Adds(old(licenses), licenses, batch, ids, now)
    {
      for i := 0 to |batch|
        invariant licenses.Keys == old(licenses).Keys + set j | 0 <= j < i :: ids[j]
        invariant forall id :: id in old(licenses) ==> licenses[id] == old(licenses)[id]
        invariant forall j :: 0 <= j < i ==> ids[j] in licenses && licenses[ids[j]] == batch[j].(createdAt := now)
      {
        licenses := licenses[ids[i] := batch[i].(createdAt := now)];
      }
    }

    /** The map is scanned in any order; the record returned is a copy. */
    method GetByKey(appID: string, key: string) returns (r: Option<(string, License)>)
      ensures Finds(licenses, appID, key, if r.Some? then Some(r.value.0) else None)
      ensures r.Some? ==> r.value.1 == licenses[r.value.0]
    {
      var todo := licenses.Keys;
      while todo != {}
        invariant todo <= licenses.Keys
        invariant forall id :: id in licenses && id !in todo ==>
                    !(licenses[id].appID == appID && licenses[id].licenseKey == key)
        decreases |todo|
      {
        var id :| id in todo;
        if licenses[id].appID == appID && licenses[id].licenseKey == key {
          return Some((id, licenses[id]));
        }
        todo := todo - {id};
      }
      return None;
    }

    method Activate(id: string, hwid: string, expiresAt: Option<int>, now: int) returns (ok: bool)
      modifies this
      ensures ok == (id in old(licenses))
      ensures var l := if ok then Some(old(licenses)[id]) else None;
              licenses == if l.None? then old(licenses) else
                old(licenses)[id := l.value.(status := "active", hwidHash := Some(hwid), activatedAt := Some(now),
                                             expiresAt := expiresAt)]
    {
      if id !in licenses {
        return false;
      }
      var lic := licenses[id];
      lic := lic.(status := ACTIVE);
      lic := lic.(hwidHash := Some(hwid));
      lic := lic.(activatedAt := Some(now));
      lic := lic.(expiresAt := expiresAt);
      licenses := licenses[id := lic];
      return true;
    }

    method ResetHWID(id: string, now: int) returns (ok: bool)
      modifies this
      ensures ok == (id in old(licenses))
      ensures var l := if ok then Some(old(licenses)[id]) else None;
              licenses == if l.None? then old(licenses) else
                old(licenses)[id := l.value.(hwidHash := None, hwidList := [], lastHWIDReset := Some(now))]
    {
      if id !in licenses {
        return false;
      }
      licenses := licenses[id := licenses[id].(hwidHash := None, hwidList := [], lastHWIDReset := Some(now))];
      return true;
    }

    method SetStatus(id: string, status: string, reason: Option<string>) returns (ok: bool)
      modifies this
      ensures ok == (id in old(licenses))
      ensures var l := if ok then Some(old(licenses)[id]) else None;
              licenses == if l.None? then old(licenses) else
                old(licenses)[id := l.value.(status := status, bannedReason := reason)]
    {
      if id !in licenses {
        return false;
      }
      licenses := licenses[id := licenses[id].(status := status, bannedReason := reason)];
      return true;
    }

    method Extend(id: string, additionalSeconds: int) returns (ok: bool)
      modifies this
      ensures ok == (id in old(licenses))
      ensures var l := if ok then Some(old(licenses)[id]) else None;
              licenses == if l.None? then old(licenses) else
                old(licenses)[id := l.value.(durationSeconds := Wrap64(l.value.durationSeconds + additionalSeconds),
                                             expiresAt := Moved(l.value.expiresAt,
                                                                Wrap64(additionalSeconds * 1_000_000_000)))]
    {
      if id !in licenses {
        return false;
      }
      var lic := licenses[id];
      lic := lic.(durationSeconds := Wrap64(lic.durationSeconds + additionalSeconds));
      if lic.expiresAt.Some? {
        lic := lic.(expiresAt := Some(lic.expiresAt.value + Wrap64(additionalSeconds * SECOND)));
      }
      licenses := licenses[id := lic];
      return true;
    }

    method Delete(id: string)
      modifies this
      ensures licenses == old(licenses) - {id}
    {
      licenses := licenses - {id};
    }
  }
}

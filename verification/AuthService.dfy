/** ClientAuthService of backend/internal/service/client_auth_service.go over its cache and
    repositories: each method leaves the world, and gives the answer, of one step of Sessions. */
module AuthService {
  import opened Basics
  import opened Cache
  import opened Licenses
  import opened Sessions
  import KeyedTables
  import PasswordHash
  import ReplayGuard

  class ClientAuthService {
    const cache: MemoryCache
    const licenseRepo: MemoryLicenseRepo
    const userRepo: KeyedTables.UserRepo
    const varRepo: KeyedTables.VariableRepo
    const idKey: PasswordHash.IDKey
    var apps: map<string, App>
    ghost var handshakes: seq<Handshake>
    ghost var grants: seq<Grant>

    constructor (cache: MemoryCache, licenseRepo: MemoryLicenseRepo, userRepo: KeyedTables.UserRepo,
                 varRepo: KeyedTables.VariableRepo, idKey: PasswordHash.IDKey)
      ensures this.cache == cache && this.licenseRepo == licenseRepo && this.userRepo == userRepo
      ensures this.varRepo == varRepo && this.idKey == idKey
      ensures apps == map[] && handshakes == [] && grants == []
    {
      this.cache := cache;
      this.licenseRepo := licenseRepo;
      this.userRepo := userRepo;
      this.varRepo := varRepo;
      this.idKey := idKey;
      apps := map[];
      handshakes := [];
      grants := [];
    }

    ghost function Now(): World
      reads this, cache, licenseRepo, userRepo, varRepo
    {
      World(cache.items, apps, licenseRepo.licenses, userRepo.rows, varRepo.rows, handshakes, grants)
    }

    method Validate(nonce: string, timestamp: int, now: int) returns (ok: bool)
      modifies cache
      ensures (cache.items, ok) == Admit(old(cache.items), nonce, timestamp, now)
    {
      ok := ReplayGuard.ValidateNonceAndTimestamp(cache, ReplayGuard.Request(nonce, timestamp, now, now));
    }

    method Init(q: InitRequest, x: Drawn, now: int) returns (r: Result<string, Error>)
      modifies cache, `handshakes
      ensures (Now(), r) == InitStep(old(Now()), q, x, now)
    {
      if q.appID !in apps {
        return Err(AppNotFound);
      }
      if apps[q.appID].isPaused {
        return Err(AppPaused);
      }
      var ok := Validate(q.nonce, q.timestamp, now);
      if !ok {
        return Err(ReplayOrSkew);
      }
      if !q.publicKeyOk {
        return Err(BadPublicKey);
      }
      var sessionID := "sess_" + x.uuid;
      var data := SessionData(q.appID, sessionID, "", "", "", 0, x.encryptionKey, x.macKey, now, now + HOUR);
      cache.StoreSession(now, sessionID, data, HOUR);
      handshakes := handshakes + [Handshake(q.appID, sessionID, x.encryptionKey, x.macKey)];
      return Ok(sessionID);
    }

    /** found is the licence that the scan of the repository came upon. */
    method AuthenticateLicense(sessionID: string, env: Envelope, uuid: string, now: int)
      returns (r: Result<Answer<Token>, Error>, found: Option<string>)
      modifies cache, licenseRepo, `grants
      ensures (Now(), r) == LicenseStep(old(Now()), sessionID, env, found, uuid, now)
      ensures LooksUp(old(Now()), sessionID, env, found, now)
    {
      var session := cache.GetSession(now, sessionID);
      if session.None? {
        return Err(SessionNotFound), None;
      }
      var d := session.value;
      if d.appID !in apps || apps[d.appID].isPaused {
        return Err(AppPaused), None;
      }
      var key, aad := d.encryptionKey, Aad(d.appID, sessionID);
      var request := Open(ForLicense, env, key, aad);
      if request.Err? {
        return Err(request.error), None;
      }
      var (b, plain) := request.value;
      var token: Result<Token, Error>;
      token, found := RedeemKey(apps[d.appID], d, b, uuid, now);
      if token.Err? {
        return Err(token.error), found;
      }
      return Ok(Respond(plain, key, aad, token.value)), found;
    }

    /** The body of AuthenticateLicense once its envelope is open. */
    method RedeemKey(app: App, session: SessionData, b: Body, uuid: string, now: int)
      returns (r: Result<Token, Error>, found: Option<string>)
      modifies cache, licenseRepo, `grants
      ensures (Now(), r) == Redeem(old(Now()), app, session, b, found, uuid, now)
      ensures found.Some? ==> Finds(old(licenseRepo.licenses), session.appID, b.licenseKey, found)
    {
      var ok := Validate(b.nonce, b.timestamp, now);
      if !ok {
        return Err(ReplayOrSkew), None;
      }
      if app.integrityHash != "" && b.binaryHash != "" && app.integrityHash != b.binaryHash {
        return Err(IntegrityFailed), None;
      }
      var row := licenseRepo.GetByKey(session.appID, b.licenseKey);
      if row.None? {
        return Err(LicenseInvalid), None;
      }
      var (id, l) := row.value;
      found := Some(id);
      var outcome := Decide(id, b.hwid, app.hwidLockEnabled, now);
      if !outcome.Granted? {
        return Err(Denied(outcome)), found;
      }
      var token := "tok_" + uuid;
      var d := session.(licenseID := id, hwid := b.hwid, tierLevel := TIER);
      cache.StoreSession(now, token, d, 2 * HOUR);
      grants := grants + [Grant(d.appID, d.sessionID, id, TIER, l, b.hwid, app.hwidLockEnabled, now)];
      return Ok(Token(token, outcome.expiresAt)), found;
    }

    /** Its part about the licence that was found. */
    method Decide(id: string, hwid: string, lockOn: bool, now: int) returns (r: Outcome)
      requires id in licenseRepo.licenses
      modifies licenseRepo
      ensures r == Authenticate(old(licenseRepo.licenses)[id], hwid, lockOn, now).1
      ensures licenseRepo.licenses
           == old(licenseRepo.licenses)[id := Authenticate(old(licenseRepo.licenses)[id], hwid, lockOn, now).0]
    {
      var l := licenseRepo.licenses[id];
      assert licenseRepo.licenses[id := l] == licenseRepo.licenses;
      if l.status == BANNED {
        return IsBanned;
      }
      if l.status == PAUSED {
        return IsPaused;
      }
      if l.expiresAt.Some? && now > l.expiresAt.value {
        var _ := licenseRepo.SetStatus(id, EXPIRED, None);
        return HasExpired;
      }
      var needsBinding := ValidateHWID(l, hwid, lockOn);
      if needsBinding.Err? {
        return Refused(needsBinding.error);
      }
      var expiresAt := l.expiresAt;
      if l.status == UNACTIVATED || needsBinding.value {
        if l.status == UNACTIVATED {
          expiresAt := CalculateExpiration(l, now);
        }
        var _ := licenseRepo.Activate(id, hwid, expiresAt, now);
      }
      return Granted(expiresAt);
    }

    method AuthenticateUser(sessionID: string, env: Envelope, uuid: string, ip: string, now: int)
      returns (r: Result<Answer<Token>, Error>)
      requires KeyedTables.Unique(userRepo.rows)
      modifies cache, userRepo
      ensures KeyedTables.Unique(userRepo.rows)
      ensures (Now(), r) == LoginStep(old(Now()), sessionID, env, uuid, ip, idKey, now)
    {
      var session := cache.GetSession(now, sessionID);
      if session.None? {
        return Err(SessionNotFound);
      }
      var d := session.value;
      if d.appID !in apps || apps[d.appID].isPaused {
        return Err(AppPaused);
      }
      var key, aad := d.encryptionKey, Aad(d.appID, sessionID);
      var request := Open(ForLogin, env, key, aad);
      if request.Err? {
        return Err(request.error);
      }
      var (b, plain) := request.value;
      var token := LogInUser(d, b, uuid, ip, now);
      if token.Err? {
        return Err(token.error);
      }
      return Ok(Respond(plain, key, aad, token.value));
    }

    /** The body of AuthenticateUser once its envelope is open. */
    method LogInUser(session: SessionData, b: Body, uuid: string, ip: string, now: int)
      returns (r: Result<Token, Error>)
      requires KeyedTables.Unique(userRepo.rows)
      modifies cache, userRepo
      ensures KeyedTables.Unique(userRepo.rows)
      ensures (Now(), r) == LogIn(old(Now()), session, b, uuid, ip, idKey, now)
    {
      var ok := Validate(b.nonce, b.timestamp, now);
      if !ok {
        return Err(ReplayOrSkew);
      }
      var user := Identify((session.appID, b.username), b.password);
      if user.Err? {
        return Err(user.error);
      }
      var (id, _) := user.value;
      userRepo.UpdateLogin(id, ip, b.hwid, now);
      var token := "tok_" + uuid;
      var d := session.(userID := id, hwid := b.hwid);
      cache.StoreSession(now, token, d, 2 * HOUR);
      return Ok(Token(token, None));
    }

    /** Its part about the user's name and password. */
    method Identify(name: KeyedTables.Name, password: string) returns (r: Result<(string, KeyedTables.User), Error>)
      requires KeyedTables.Unique(userRepo.rows)
      ensures r == Credentials(userRepo.rows, name, password, idKey)
    {
      var row := userRepo.GetByUsername(name);
      if row.None? {
        return Err(BadCredentials);
      }
      var (id, user) := row.value;
      if user.isBanned {
        return Err(UserBanned);
      }
      var valid := PasswordHash.VerifyPassword(password, user.passwordHash, idKey);
      if valid != Ok(true) {
        return Err(BadCredentials);
      }
      return Ok((id, user));
    }

    method GetVariable(sessionToken: string, env: Envelope, now: int)
      returns (r: Result<Answer<(string, string)>, Error>)
      requires KeyedTables.Unique(varRepo.rows)
      ensures r == ReadVariable(Now(), sessionToken, env, now)
    {
      var session := cache.GetSession(now, sessionToken);
      if session.None? {
        return Err(SessionNotFound);
      }
      var d := session.value;
      if d.appID !in apps {
        return Err(AppNotFound);
      }
      var key, aad := d.encryptionKey, Aad(d.appID, d.sessionID);
      var request := Open(ForVariable, env, key, aad);
      if request.Err? {
        return Err(request.error);
      }
      var (b, plain) := request.value;
      var v := varRepo.GetByKey((d.appID, b.varKey));
      if v.None? {
        return Err(VariableNotFound);
      }
      if d.tierLevel < v.value.minTierLevel {
        return Err(TierInsufficient);
      }
      return Ok(Respond(plain, key, aad, (b.varKey, v.value.varValue)));
    }
  }
}

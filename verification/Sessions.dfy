/** The client protocol of backend/internal/service/client_auth_service.go: handshake, licence
    and user authentication, and the release of remote variables, as steps on one world. */
module Sessions {
  import opened Basics
  import opened Cache
  import opened Licenses
  import Tables = KeyedTables
  import PasswordHash
  import ReplayGuard

  datatype App = App(version: string, isPaused: bool, integrityHash: string, hwidLockEnabled: bool)

  // The fields that the JSON bodies of the three encrypted requests may carry; an absent
  // field is empty, as json.Unmarshal leaves it.
  datatype Body = Body(licenseKey: string, username: string, password: string, hwid: string,
                       binaryHash: string, nonce: string, timestamp: Int64, varKey: string)

  // A payload as it arrives: AES-GCM ciphertext made with a key and additional data, which
  // opens under these alone (content is None if it is no JSON); base64 of bare JSON; or neither.
  datatype Envelope = Sealed(key: string, aad: string, content: Option<Body>) | Plain(body: Body) | Garbage

  datatype Answer<+T> = SealedAnswer(key: string, aad: string, result: T) | PlainAnswer(result: T)

  datatype Kind = ForLicense | ForLogin | ForVariable

  datatype Error =
    | AppNotFound | AppPaused | SessionNotFound | ReplayOrSkew | BadPublicKey | DecryptionFailed | Malformed
    | IntegrityFailed | LicenseInvalid | Denied(outcome: Outcome) | BadCredentials | UserBanned
    | VariableNotFound | TierInsufficient

  datatype Token = Token(sessionToken: string, expiresAt: Option<int>)

  const HOUR: int := 3600 * SECOND

  /** The memory store reports every licence it finds as tier 1. */
  const TIER: int := 1

  // A bare JSON body passes if it names what this kind of request is about.
  predicate PlainAccepted(kind: Kind, b: Body) {
    match kind
    case ForLicense => b.licenseKey != ""
    case ForLogin => b.username != ""
    case ForVariable => b.varKey != ""
  }

  /** The body, and whether the request was bare. */
  function Open(kind: Kind, env: Envelope, key: string, aad: string): Result<(Body, bool), Error> {
    match env
    case Sealed(k, a, body) =>
      if k != key || a != aad then Err(DecryptionFailed)
      else if body.None? then Err(Malformed)
      else Ok((body.value, false))
    case Plain(body) => if PlainAccepted(kind, body) then Ok((body, true)) else Err(DecryptionFailed)
    case Garbage => Err(DecryptionFailed)
  }

  function Respond<T>(plain: bool, key: string, aad: string, result: T): Answer<T> {
    if plain then PlainAnswer(result) else SealedAnswer(key, aad, result)
  }

  function Aad(appID: string, sessionID: string): string {
    appID + ":" + sessionID
  }

  // History: what an Init handed out, and what a successful licence authentication was based on.
  datatype Handshake = Handshake(appID: string, sessionID: string, encryptionKey: string, macKey: string)

  datatype Grant = Grant(appID: string, sessionID: string, licenseID: string, tier: int,
                         license: License, hwid: string, lockOn: bool, at: int)

  type Users = Tables.Table<Tables.Name, Tables.User>

  type Variables = Tables.Table<Tables.Name, Tables.Variable>

  datatype World = World(items: Items, apps: map<string, App>, licenses: Licenses,
                         users: Users, variables: Variables,
                         handshakes: seq<Handshake>, grants: seq<Grant>)

  /** The replay guard with the code's constants and one reading of the clock. */
  function Admit(items: Items, nonce: string, timestamp: int, now: int): (Items, bool) {
    ReplayGuard.Guard(items, ReplayGuard.Request(nonce, timestamp, now, now), ReplayGuard.CODE)
  }

  function Stored(items: Items, token: string, d: SessionData, ttl: int, now: int): Items {
    Step(items, Event(now, Op.StoreSession(token, d, ttl))).0
  }

  // ------------------------------------------------------------------
  // Steps: one request each, with one reading of the clock
  // ------------------------------------------------------------------

  datatype InitRequest = InitRequest(appID: string, nonce: string, timestamp: Int64, publicKeyOk: bool)

  // What the random source and the key exchange give.
  datatype Drawn = Drawn(uuid: string, encryptionKey: string, macKey: string)

  function Greeting(q: InitRequest, x: Drawn, now: int): SessionData {
    SessionData(q.appID, "sess_" + x.uuid, "", "", "", 0, x.encryptionKey, x.macKey, now, now + HOUR)
  }

  /** The part of a handshake after the replay guard has answered. */
  function Greet(w: World, admitted: (Items, bool), q: InitRequest, x: Drawn, now: int)
    : (World, Result<string, Error>)
  {
    var w1 := w.(items := admitted.0);
    if !admitted.1 then (w1, Err(ReplayOrSkew))
    else if !q.publicKeyOk then (w1, Err(BadPublicKey))
    else
      var d := Greeting(q, x, now);
      (w1.(items := Stored(admitted.0, d.sessionID, d, HOUR, now),
           handshakes := w.handshakes + [Handshake(q.appID, d.sessionID, x.encryptionKey, x.macKey)]),
       Ok(d.sessionID))
  }

  function InitStep(w: World, q: InitRequest, x: Drawn, now: int): (World, Result<string, Error>) {
    if q.appID !in w.apps then (w, Err(AppNotFound))
    else if w.apps[q.appID].isPaused then (w, Err(AppPaused))
    else Greet(w, Admit(w.items, q.nonce, q.timestamp, now), q, x, now)
  }

  /** The session, the body and whether it came bare, of a request whose envelope opens. */
  function Opened(w: World, kind: Kind, sessionID: string, env: Envelope, now: int)
    : (r: Result<(SessionData, Body, bool), Error>)
    ensures r.Ok? ==> SessionOf(w.items, sessionID, now) == Some(r.value.0) && r.value.0.appID in w.apps
  {
    match SessionOf(w.items, sessionID, now)
    case None => Err(SessionNotFound)
    case Some(d) =>
      if d.appID !in w.apps || w.apps[d.appID].isPaused then Err(AppPaused)
      else
        match Open(kind, env, d.encryptionKey, Aad(d.appID, sessionID))
        case Err(e) => Err(e)
        case Ok((b, plain)) => Ok((d, b, plain))
  }

  function Licensed(d: SessionData, id: string, hwid: string): SessionData {
    d.(licenseID := id, hwid := hwid, tierLevel := TIER)
  }

  /** The part of a licence request after the replay guard has answered: d is the session, found
      the licence of its key. */
  function RedeemAs(w: World, admitted: (Items, bool), app: App, d: SessionData, b: Body, found: Option<string>,
                    uuid: string, now: int)
    : (World, Result<Token, Error>)
  {
    var w1 := w.(items := admitted.0);
    if !admitted.1 then (w1, Err(ReplayOrSkew))
    else if app.integrityHash != "" && b.binaryHash != "" && app.integrityHash != b.binaryHash
    then (w1, Err(IntegrityFailed))
    else if found.None? || found.value !in w.licenses then (w1, Err(LicenseInvalid))
    else
      var l := w.licenses[found.value];
      var (l', outcome) := Authenticate(l, b.hwid, app.hwidLockEnabled, now);
      var w2 := w1.(licenses := w.licenses[found.value := l']);
      if !outcome.Granted? then (w2, Err(Denied(outcome)))
      else
        (w2.(items := Stored(admitted.0, "tok_" + uuid, Licensed(d, found.value, b.hwid), 2 * HOUR, now),
             grants := w.grants
                       + [Grant(d.appID, d.sessionID, found.value, TIER, l, b.hwid, app.hwidLockEnabled, now)]),
         Ok(Token("tok_" + uuid, outcome.expiresAt)))
  }

  /** The part of a licence request after its envelope is open. */
  function Redeem(w: World, app: App, d: SessionData, b: Body, found: Option<string>, uuid: string, now: int)
    : (World, Result<Token, Error>)
  {
    RedeemAs(w, Admit(w.items, b.nonce, b.timestamp, now), app, d, b, found, uuid, now)
  }

  function LicenseStep(w: World, sessionID: string, env: Envelope, found: Option<string>, uuid: string, now: int)
    : (World, Result<Answer<Token>, Error>)
  {
    match Opened(w, ForLicense, sessionID, env, now)
    case Err(e) => (w, Err(e))
    case Ok((d, b, plain)) =>
      var (w', r) := Redeem(w, w.apps[d.appID], d, b, found, uuid, now);
      (w', if r.Ok? then Ok(Respond(plain, d.encryptionKey, Aad(d.appID, sessionID), r.value)) else Err(r.error))
  }

  /** The user that a name and a password stand for. */
  ghost function Credentials(users: Users, name: Tables.Name, password: string, idKey: PasswordHash.IDKey)
    : (r: Result<(string, Tables.User), Error>)
    requires Tables.Unique(users)
    ensures r.Ok? ==> name in Tables.Abstract(users) && Tables.Abstract(users)[name] == r.value
  {
    if name !in Tables.Abstract(users) then Err(BadCredentials)
    else
      var (id, user) := Tables.Abstract(users)[name];
      if user.isBanned then Err(UserBanned)
      else if PasswordHash.VerifyPassword(password, user.passwordHash, idKey) != Ok(true) then Err(BadCredentials)
      else Ok((id, user))
  }

  /** The part of a login after the replay guard has answered: user is what its name and password
      stand for. */
  function LogInAs(w: World, admitted: (Items, bool), d: SessionData, b: Body,
                   user: Result<(string, Tables.User), Error>, uuid: string, ip: string, now: int)
    : (World, Result<Token, Error>)
  {
    var w1 := w.(items := admitted.0);
    if !admitted.1 then (w1, Err(ReplayOrSkew))
    else
      match user
      case Err(e) => (w1, Err(e))
      case Ok((id, u)) =>
        (w1.(items := Stored(admitted.0, "tok_" + uuid, d.(userID := id, hwid := b.hwid), 2 * HOUR, now),
             users := w.users[id := Tables.Row((d.appID, b.username), Tables.LoggedIn(u, ip, b.hwid, now))]),
         Ok(Token("tok_" + uuid, None)))
  }

  /** The part of a login after its envelope is open. */
  ghost function LogIn(w: World, d: SessionData, b: Body, uuid: string, ip: string, idKey: PasswordHash.IDKey, now: int)
    : (World, Result<Token, Error>)
    requires Tables.Unique(w.users)
  {
    LogInAs(w, Admit(w.items, b.nonce, b.timestamp, now), d, b,
            Credentials(w.users, (d.appID, b.username), b.password, idKey), uuid, ip, now)
  }

  ghost function LoginStep(w: World, sessionID: string, env: Envelope, uuid: string, ip: string,
                           idKey: PasswordHash.IDKey, now: int)
    : (World, Result<Answer<Token>, Error>)
    requires Tables.Unique(w.users)
  {
    match Opened(w, ForLogin, sessionID, env, now)
    case Err(e) => (w, Err(e))
    case Ok((d, b, plain)) =>
      var (w', r) := LogIn(w, d, b, uuid, ip, idKey, now);
      (w', if r.Ok? then Ok(Respond(plain, d.encryptionKey, Aad(d.appID, sessionID), r.value)) else Err(r.error))
  }

  /** The value of a variable for the session. */
  ghost function ValueFor(variables: Variables, d: SessionData, varKey: string): Result<string, Error>
    requires Tables.Unique(variables)
  {
    var name := (d.appID, varKey);
    if name !in Tables.Abstract(variables) then Err(VariableNotFound)
    else if d.tierLevel < Tables.Abstract(variables)[name].1.minTierLevel then Err(TierInsufficient)
    else Ok(Tables.Abstract(variables)[name].1.varValue)
  }

  /** Reading a variable changes nothing. */
  ghost function ReadVariable(w: World, token: string, env: Envelope, now: int): Result<Answer<(string, string)>, Error>
    requires Tables.Unique(w.variables)
  {
    var d := SessionOf(w.items, token, now);
    if d.None? then Err(SessionNotFound)
    else if d.value.appID !in w.apps then Err(AppNotFound)
    else
      var key, aad := d.value.encryptionKey, Aad(d.value.appID, d.value.sessionID);
      match Open(ForVariable, env, key, aad)
      case Err(e) => Err(e)
      case Ok((b, plain)) =>
        var v := ValueFor(w.variables, d.value, b.varKey);
        if v.Err? then Err(v.error) else Ok(Respond(plain, key, aad, (b.varKey, v.value)))
  }

  /** found is a licence of the session's application with the key of the request. */
  ghost predicate LooksUp(w: World, sessionID: string, env: Envelope, found: Option<string>, now: int) {
    var request := Opened(w, ForLicense, sessionID, env, now);
    request.Ok? && found.Some? ==> Finds(w.licenses, request.value.0.appID, request.value.1.licenseKey, found)
  }

  // ------------------------------------------------------------------
  // Runs
  // ------------------------------------------------------------------

  datatype Action =
    | Init(q: InitRequest, x: Drawn, at: int)
    | AuthLicense(sessionID: string, env: Envelope, found: Option<string>, uuid: string, at: int)
    | AuthUser(sessionID: string, env: Envelope, uuid: string, ip: string, idKey: PasswordHash.IDKey, at: int)
    | Other(event: Event)
    | Administer(apps: map<string, App>, licenses: Licenses, users: Users, variables: Variables, at: int)

  ghost function Next(w: World, a: Action): World
    requires Tables.Unique(w.users) && Tables.Unique(w.variables)
  {
    match a
    case Init(q, x, at) => InitStep(w, q, x, at).0
    case AuthLicense(s, env, found, uuid, at) => LicenseStep(w, s, env, found, uuid, at).0
    case AuthUser(s, env, uuid, ip, idKey, at) => LoginStep(w, s, env, uuid, ip, idKey, at).0
    case Other(e) => w.(items := Step(w.items, e).0)
    case Administer(apps, licenses, users, variables, _) =>
      w.(apps := apps, licenses := licenses, users := users, variables := variables)
  }

  /** Any other cache step may come in between, as long as it stores no session; administrators
      may change applications, licences, users and variables at will, through the keyed tables;
      the UUID of a handshake is new. */
  ghost predicate Possible(w: World, a: Action) {
    match a
    case Init(_, x, _) => forall i :: 0 <= i < |w.handshakes| ==> w.handshakes[i].sessionID != "sess_" + x.uuid
    case AuthLicense(sessionID, env, found, _, at) => LooksUp(w, sessionID, env, found, at)
    case AuthUser(_, _, _, _, _, _) => true
    case Other(e) => !e.op.StoreSession? && (e.op.Set? ==> !e.op.value.Session?)
    case Administer(_, _, users, variables, _) => Tables.Unique(users) && Tables.Unique(variables)
  }

  /** The session's application, ID and keys are those of one handshake. */
  predicate ComesFrom(d: SessionData, h: Handshake) {
    h == Handshake(d.appID, d.sessionID, d.encryptionKey, d.macKey)
  }

  /** A success, when it was granted, of the licence that gave the session its tier. */
  predicate Justifies(g: Grant, d: SessionData) {
    && g.appID == d.appID && g.sessionID == d.sessionID && g.licenseID == d.licenseID && g.tier == d.tierLevel
    && Authenticate(g.license, g.hwid, g.lockOn, g.at).1.Granted?
  }

  ghost predicate Traced(w: World, d: SessionData) {
    && (exists i :: 0 <= i < |w.handshakes| && ComesFrom(d, w.handshakes[i]))
    && (d.tierLevel != 0 ==> exists i :: 0 <= i < |w.grants| && Justifies(w.grants[i], d))
  }

  ghost predicate Valid(w: World) {
    && Tables.Unique(w.users) && Tables.Unique(w.variables)
    && (forall k :: k in w.items && w.items[k].value.Session? ==> Traced(w, w.items[k].value.data))
    && (forall i, j :: 0 <= i < j < |w.handshakes| ==> w.handshakes[i].sessionID != w.handshakes[j].sessionID)
  }

  /** w' has all of w's history. */
  predicate Later(w: World, w': World) {
    w.handshakes <= w'.handshakes && w.grants <= w'.grants
  }

  lemma TracedLater(w: World, w': World, d: SessionData)
    requires Traced(w, d) && Later(w, w')
    ensures Traced(w', d)
  {
  }

  // Every session in items is one of the world's, or the new one.
  ghost predicate AtMostAdds(items: Items, w: World, d: Option<SessionData>) {
    forall k :: k in items && items[k].value.Session? ==>
      || d == Some(items[k].value.data)
      || (k in w.items && items[k] == w.items[k])
  }

  lemma AdmitAddsNone(w: World, nonce: string, timestamp: int, now: int)
    ensures AtMostAdds(Admit(w.items, nonce, timestamp, now).0, w, None)
  {
  }

  lemma StepAddsNone(w: World, e: Event)
    requires !e.op.StoreSession? && (e.op.Set? ==> !e.op.value.Session?)
    ensures AtMostAdds(Step(w.items, e).0, w, None)
  {
  }

  lemma StoredAdds(items: Items, w: World, token: string, d: SessionData, ttl: int, now: int)
    requires AtMostAdds(items, w, None)
    ensures AtMostAdds(Stored(items, token, d, ttl, now), w, Some(d))
  {
  }

  lemma KeepsTraces(w: World, w': World, d: Option<SessionData>)
    requires Valid(w) && Later(w, w') && AtMostAdds(w'.items, w, d)
    requires d.Some? ==> Traced(w', d.value)
    ensures forall k :: k in w'.items && w'.items[k].value.Session? ==> Traced(w', w'.items[k].value.data)
  {
  }

  lemma SessionTraced(w: World, token: string, now: int)
    requires Valid(w) && SessionOf(w.items, token, now).Some?
    ensures Traced(w, SessionOf(w.items, token, now).value)
  {
  }

  lemma GreetKeeps(w: World, admitted: (Items, bool), q: InitRequest, x: Drawn, now: int)
    requires Valid(w) && Possible(w, Init(q, x, now)) && AtMostAdds(admitted.0, w, None)
    ensures Valid(Greet(w, admitted, q, x, now).0)
  {
    var (w', r) := Greet(w, admitted, q, x, now);
    if r.Ok? {
      var d := Greeting(q, x, now);
      StoredAdds(admitted.0, w, d.sessionID, d, HOUR, now);
      assert ComesFrom(d, w'.handshakes[|w.handshakes|]);
      KeepsTraces(w, w', Some(d));
    } else {
      KeepsTraces(w, w', None);
    }
  }

  lemma InitKeeps(w: World, q: InitRequest, x: Drawn, now: int)
    requires Valid(w) && Possible(w, Init(q, x, now))
    ensures Valid(InitStep(w, q, x, now).0)
  {
    AdmitAddsNone(w, q.nonce, q.timestamp, now);
    GreetKeeps(w, Admit(w.items, q.nonce, q.timestamp, now), q, x, now);
  }

  lemma RedeemAsKeeps(w: World, admitted: (Items, bool), app: App, d: SessionData, b: Body, found: Option<string>,
                      uuid: string, now: int)
    requires Valid(w) && Traced(w, d) && AtMostAdds(admitted.0, w, None)
    ensures Valid(RedeemAs(w, admitted, app, d, b, found, uuid, now).0)
  {
    var (w', r) := RedeemAs(w, admitted, app, d, b, found, uuid, now);
    if r.Ok? {
      var d' := Licensed(d, found.value, b.hwid);
      StoredAdds(admitted.0, w, "tok_" + uuid, d', 2 * HOUR, now);
      var i :| 0 <= i < |w.handshakes| && ComesFrom(d, w.handshakes[i]);
      assert ComesFrom(d', w'.handshakes[i]);
      assert Justifies(w'.grants[|w.grants|], d');
      KeepsTraces(w, w', Some(d'));
    } else {
      KeepsTraces(w, w', None);
    }
  }

  lemma LicenseKeeps(w: World, sessionID: string, env: Envelope, found: Option<string>, uuid: string, now: int)
    requires Valid(w)
    ensures Valid(LicenseStep(w, sessionID, env, found, uuid, now).0)
  {
    var request := Opened(w, ForLicense, sessionID, env, now);
    if request.Ok? {
      var (d, b, _) := request.value;
      SessionTraced(w, sessionID, now);
      AdmitAddsNone(w, b.nonce, b.timestamp, now);
      RedeemAsKeeps(w, Admit(w.items, b.nonce, b.timestamp, now), w.apps[d.appID], d, b, found, uuid, now);
    }
  }

  lemma UserUpdateKeepsUnique(users: Users, name: Tables.Name, u: Tables.User)
    requires Tables.Unique(users) && name in Tables.Abstract(users)
    ensures Tables.Unique(users[Tables.Abstract(users)[name].0 := Tables.Row(name, u)])
  {
  }

  lemma LogInAsKeeps(w: World, admitted: (Items, bool), d: SessionData, b: Body,
                     user: Result<(string, Tables.User), Error>, uuid: string, ip: string, now: int)
    requires Valid(w) && Traced(w, d) && AtMostAdds(admitted.0, w, None)
    requires user.Ok? ==> var name := (d.appID, b.username);
                          name in Tables.Abstract(w.users) && Tables.Abstract(w.users)[name] == user.value
    ensures Valid(LogInAs(w, admitted, d, b, user, uuid, ip, now).0)
  {
    var (w', r) := LogInAs(w, admitted, d, b, user, uuid, ip, now);
    if r.Ok? {
      var (id, u) := user.value;
      UserUpdateKeepsUnique(w.users, (d.appID, b.username), Tables.LoggedIn(u, ip, b.hwid, now));
      var d' := d.(userID := id, hwid := b.hwid);
      StoredAdds(admitted.0, w, "tok_" + uuid, d', 2 * HOUR, now);
      TracedSameTier(w, d, d');
      TracedLater(w, w', d');
      KeepsTraces(w, w', Some(d'));
    } else {
      KeepsTraces(w, w', None);
    }
  }

  lemma LoginKeeps(w: World, sessionID: string, env: Envelope, uuid: string, ip: string,
                   idKey: PasswordHash.IDKey, now: int)
    requires Valid(w)
    ensures Valid(LoginStep(w, sessionID, env, uuid, ip, idKey, now).0)
  {
    var request := Opened(w, ForLogin, sessionID, env, now);
    if request.Ok? {
      var (d, b, _) := request.value;
      SessionTraced(w, sessionID, now);
      AdmitAddsNone(w, b.nonce, b.timestamp, now);
      LogInAsKeeps(w, Admit(w.items, b.nonce, b.timestamp, now), d, b,
                   Credentials(w.users, (d.appID, b.username), b.password, idKey), uuid, ip, now);
    }
  }

  /** Whoever knows the password of an unbanned user, and nobody else, logs in. */
  lemma LogInExactly(w: World, d: SessionData, b: Body, uuid: string, ip: string, idKey: PasswordHash.IDKey, now: int,
                     password: string, salt: seq<PasswordHash.Byte>)
    requires Tables.Unique(w.users) && (d.appID, b.username) in Tables.Abstract(w.users)
    requires |idKey(password, salt, 3, 65_536, 2, 32)| == 32
    requires Tables.Abstract(w.users)[(d.appID, b.username)].1.passwordHash
          == PasswordHash.HashPassword(password, salt, idKey)
    ensures LogIn(w, d, b, uuid, ip, idKey, now).1.Ok? <==>
            && Admit(w.items, b.nonce, b.timestamp, now).1
            && !Tables.Abstract(w.users)[(d.appID, b.username)].1.isBanned
            && idKey(b.password, salt, 3, 65_536, 2, 32) == idKey(password, salt, 3, 65_536, 2, 32)
  {
    PasswordHash.VerifyExactly(password, salt, b.password, idKey);
  }

  lemma TracedSameTier(w: World, d: SessionData, d': SessionData)
    requires Traced(w, d) && d' == d.(userID := d'.userID, hwid := d'.hwid)
    ensures Traced(w, d')
  {
  }

  lemma NextKeeps(w: World, a: Action)
    requires Valid(w) && Possible(w, a)
    ensures Valid(Next(w, a))
  {
    match a
    case Init(q, x, at) => InitKeeps(w, q, x, at);
    case AuthLicense(s, env, found, uuid, at) => LicenseKeeps(w, s, env, found, uuid, at);
    case AuthUser(s, env, uuid, ip, idKey, at) => LoginKeeps(w, s, env, uuid, ip, idKey, at);
    case Other(e) =>
      StepAddsNone(w, e);
      KeepsTraces(w, Next(w, a), None);
    case Administer(_, _, _, _, _) => KeepsTraces(w, Next(w, a), None);
  }

  const START: World := World(map[], map[], map[], map[], map[], [], [])

  ghost predicate TakesStep(w: World, a: Action, w': World) {
    Tables.Unique(w.users) && Tables.Unique(w.variables) && Possible(w, a) && w' == Next(w, a)
  }

  /** The worlds of a run, from a server that has just started. */
  ghost predicate IsRun(ws: seq<World>, acts: seq<Action>) {
    && |ws| == |acts| + 1 && ws[0] == START
    && forall i, j :: 0 <= i < |acts| && j == i + 1 ==> TakesStep(ws[i], acts[i], ws[j])
  }

  lemma RunStep(ws: seq<World>, acts: seq<Action>, j: nat)
    requires IsRun(ws, acts) && j < |acts|
    ensures TakesStep(ws[j], acts[j], ws[j + 1])
  {
  }

  /** In every world of every run, each session stems from a handshake, and each tier from a
      licence that was granted in the same application and handshake. */
  lemma {:induction false} RunValid(ws: seq<World>, acts: seq<Action>, n: nat)
    requires IsRun(ws, acts) && n <= |acts|
    ensures Valid(ws[n])
  {
    if n > 0 {
      RunValid(ws, acts, n - 1);
      RunStep(ws, acts, n - 1);
      NextKeeps(ws[n - 1], acts[n - 1]);
    }
  }

  /** The grant is of a licence that the world has, in the licence's own application. */
  predicate Earned(w: World, g: Grant, at: int) {
    && g.tier == TIER && g.license.appID == g.appID && g.at == at
    && g.licenseID in w.licenses && g.license == w.licenses[g.licenseID]
  }

  /** A grant of the history is the work of an earlier licence request of the run. */
  ghost predicate GrantedBy(ws: seq<World>, acts: seq<Action>, j: nat, g: Grant) {
    j < |acts| < |ws| && GrantingStep(ws[j], acts[j], g)
  }

  ghost predicate GrantingStep(w: World, a: Action, g: Grant) {
    && a.AuthLicense? && Earned(w, g, a.at)
    && LicenseStep(w, a.sessionID, a.env, a.found, a.uuid, a.at).1.Ok?
    && LicenseStep(w, a.sessionID, a.env, a.found, a.uuid, a.at).0.grants == w.grants + [g]
  }

  lemma RedeemAsGrants(w: World, admitted: (Items, bool), app: App, d: SessionData, b: Body, found: Option<string>,
                       uuid: string, now: int)
    returns (g: Option<Grant>)
    requires found.Some? ==> Finds(w.licenses, d.appID, b.licenseKey, found)
    ensures var (w', r) := RedeemAs(w, admitted, app, d, b, found, uuid, now);
            if r.Ok? then g.Some? && w'.grants == w.grants + [g.value] && Earned(w, g.value, now)
            else g.None? && w'.grants == w.grants
  {
    var (w', r) := RedeemAs(w, admitted, app, d, b, found, uuid, now);
    g := if r.Ok? then Some(w'.grants[|w.grants|]) else None;
  }

  lemma NextGrants(w: World, a: Action) returns (g: Option<Grant>)
    requires Tables.Unique(w.users) && Tables.Unique(w.variables) && Possible(w, a)
    ensures if g.Some? then GrantingStep(w, a, g.value) else Next(w, a).grants == w.grants
  {
    g := None;
    if a.AuthLicense? {
      var request := Opened(w, ForLicense, a.sessionID, a.env, a.at);
      if request.Ok? {
        var (d, b, _) := request.value;
        g := RedeemAsGrants(w, Admit(w.items, b.nonce, b.timestamp, a.at), w.apps[d.appID], d, b,
                            a.found, a.uuid, a.at);
      }
    }
  }

  lemma StepGrants(ws: seq<World>, acts: seq<Action>, j: nat, g: Grant)
    requires IsRun(ws, acts) && j < |acts| && g in ws[j + 1].grants
    ensures g in ws[j].grants || GrantedBy(ws, acts, j, g)
  {
    RunStep(ws, acts, j);
    var added := NextGrants(ws[j], acts[j]);
  }

  lemma {:induction false} GrantsComeFromRequests(ws: seq<World>, acts: seq<Action>, n: nat, g: Grant) returns (j: nat)
    requires IsRun(ws, acts) && n <= |acts| && g in ws[n].grants
    ensures j < n && GrantedBy(ws, acts, j, g)
  {
    if n == 0 {
      assert false;
    } else {
      j := n - 1;
      StepGrants(ws, acts, j, g);
      if g in ws[j].grants {
        j := GrantsComeFromRequests(ws, acts, j, g);
      }
    }
  }

  /** A handshake of the history is the work of an earlier Init of the run, which was answered
      with its session ID and was for its application and keys. */
  ghost predicate ShookBy(ws: seq<World>, acts: seq<Action>, j: nat, h: Handshake) {
    j < |acts| < |ws| && ShakingStep(ws[j], acts[j], h)
  }

  ghost predicate ShakingStep(w: World, a: Action, h: Handshake) {
    && a.Init? && InitStep(w, a.q, a.x, a.at).1 == Ok(h.sessionID)
    && h == Handshake(a.q.appID, "sess_" + a.x.uuid, a.x.encryptionKey, a.x.macKey)
  }

  lemma NextShakes(w: World, a: Action, h: Handshake)
    requires Tables.Unique(w.users) && Tables.Unique(w.variables) && h in Next(w, a).handshakes
    ensures h in w.handshakes || ShakingStep(w, a, h)
  {
  }

  lemma StepShakes(ws: seq<World>, acts: seq<Action>, j: nat, h: Handshake)
    requires IsRun(ws, acts) && j < |acts| && h in ws[j + 1].handshakes
    ensures h in ws[j].handshakes || ShookBy(ws, acts, j, h)
  {
    RunStep(ws, acts, j);
    NextShakes(ws[j], acts[j], h);
  }

  lemma {:induction false} HandshakesComeFromInits(ws: seq<World>, acts: seq<Action>, n: nat, h: Handshake)
    returns (j: nat)
    requires IsRun(ws, acts) && n <= |acts| && h in ws[n].handshakes
    ensures j < n && ShookBy(ws, acts, j, h)
  {
    if n == 0 {
      assert false;
    } else {
      j := n - 1;
      StepShakes(ws, acts, j, h);
      if h in ws[j].handshakes {
        j := HandshakesComeFromInits(ws, acts, j, h);
      }
    }
  }

  /** So over whole runs, application, ID and keys of every cached session are those of one
      earlier Init of the run, and its tier, if any, is one that an earlier licence request of
      the run was granted in the same application and handshake. */
  lemma SessionsComeFromRequests(ws: seq<World>, acts: seq<Action>, n: nat, key: string)
    returns (i: nat, h: Handshake, j: nat, g: Option<Grant>)
    requires IsRun(ws, acts) && n <= |acts|
    requires key in ws[n].items && ws[n].items[key].value.Session?
    ensures i < n && ShookBy(ws, acts, i, h) && ComesFrom(ws[n].items[key].value.data, h)
    ensures ws[n].items[key].value.data.tierLevel != 0 ==>
              && j < n && g.Some? && GrantedBy(ws, acts, j, g.value)
              && Justifies(g.value, ws[n].items[key].value.data)
  {
    RunValid(ws, acts, n);
    var d := ws[n].items[key].value.data;
    assert Traced(ws[n], d);
    var x :| 0 <= x < |ws[n].handshakes| && ComesFrom(d, ws[n].handshakes[x]);
    h := ws[n].handshakes[x];
    i := HandshakesComeFromInits(ws, acts, n, h);
    j, g := 0, None;
    if d.tierLevel != 0 {
      var y :| 0 <= y < |ws[n].grants| && Justifies(ws[n].grants[y], d);
      g := Some(ws[n].grants[y]);
      j := GrantsComeFromRequests(ws, acts, n, g.value);
    }
  }

  // ------------------------------------------------------------------
  // What a release of a variable shows
  // ------------------------------------------------------------------

  /** In world w the token's holder is given the variable of that name. */
  ghost predicate Releases(w: World, token: string, env: Envelope, now: int, name: Tables.Name) {
    && Tables.Unique(w.variables)
    && ReadVariable(w, token, env, now).Ok? && SessionOf(w.items, token, now).Some?
    && name in Tables.Abstract(w.variables)
    && name.0 == SessionOf(w.items, token, now).value.appID
    && (var answer := ReadVariable(w, token, env, now).value;
        answer.result == (name.1, Tables.Abstract(w.variables)[name].1.varValue))
  }

  /** A variable is released under one handshake of its application, the only one with that
      session ID: sealed with that handshake's key and additional data if the request was, and
      bare exactly if the request was bare. */
  lemma ReleasedUnderHandshake(ws: seq<World>, acts: seq<Action>, n: nat, token: string, env: Envelope, now: int,
                               name: Tables.Name)
    returns (i: nat)
    requires IsRun(ws, acts) && n <= |acts| && Releases(ws[n], token, env, now, name)
    ensures i < |ws[n].handshakes| && ws[n].handshakes[i].appID == name.0
    ensures forall k :: 0 <= k < |ws[n].handshakes| && ws[n].handshakes[k].sessionID == ws[n].handshakes[i].sessionID
                        ==> k == i
    ensures var h, answer := ws[n].handshakes[i], ReadVariable(ws[n], token, env, now).value;
            && (env.Plain? <==> answer.PlainAnswer?)
            && (answer.SealedAnswer? ==>
                  && answer.key == h.encryptionKey && answer.aad == Aad(h.appID, h.sessionID)
                  && env.Sealed? && env.key == answer.key && env.aad == answer.aad)
  {
    RunValid(ws, acts, n);
    SessionTraced(ws[n], token, now);
    var d := SessionOf(ws[n].items, token, now).value;
    i :| 0 <= i < |ws[n].handshakes| && ComesFrom(d, ws[n].handshakes[i]);
  }

  lemma ReleasedWithinTier(w: World, token: string, env: Envelope, now: int, name: Tables.Name)
    requires Releases(w, token, env, now, name)
    ensures Tables.Abstract(w.variables)[name].1.minTierLevel <= SessionOf(w.items, token, now).value.tierLevel
  {
  }

  /** A variable of tier 1 is released only after a licence request of the same application and
      handshake was granted; one of a higher tier never is. */
  lemma ReleasedAfterGrant(ws: seq<World>, acts: seq<Action>, n: nat, token: string, env: Envelope, now: int,
                           name: Tables.Name)
    returns (j: nat, g: Grant)
    requires IsRun(ws, acts) && n <= |acts| && Releases(ws[n], token, env, now, name)
    requires Tables.Abstract(ws[n].variables)[name].1.minTierLevel >= 1
    ensures j < n && GrantedBy(ws, acts, j, g)
    ensures g.license.appID == name.0 && g.sessionID == SessionOf(ws[n].items, token, now).value.sessionID
    ensures Authenticate(g.license, g.hwid, g.lockOn, g.at).1.Granted?
    ensures Tables.Abstract(ws[n].variables)[name].1.minTierLevel == TIER
  {
    RunValid(ws, acts, n);
    SessionTraced(ws[n], token, now);
    ReleasedWithinTier(ws[n], token, env, now, name);
    var d := SessionOf(ws[n].items, token, now).value;
    var i :| 0 <= i < |ws[n].grants| && Justifies(ws[n].grants[i], d);
    g := ws[n].grants[i];
    j := GrantsComeFromRequests(ws, acts, n, g);
  }

  // ------------------------------------------------------------------
  // Expired licences
  // ------------------------------------------------------------------

  predicate HasDeadline(w: World, id: string, deadline: int) {
    id in w.licenses && w.licenses[id].expiresAt == Some(deadline)
  }

  /** After the deadline, and leaving the deadline alone. */
  ghost predicate PastDeadline(a: Action, id: string, deadline: int) {
    match a
    case AuthLicense(_, _, _, _, at) => at > deadline
    case Administer(_, licenses, _, _, _) => id in licenses && licenses[id].expiresAt == Some(deadline)
    case _ => true
  }

  ghost predicate NoneFor(before: seq<Grant>, after: seq<Grant>, id: string) {
    before <= after && forall i :: |before| <= i < |after| ==> after[i].licenseID != id
  }

  lemma RedeemAsPastDeadline(w: World, admitted: (Items, bool), app: App, d: SessionData, b: Body,
                             found: Option<string>, uuid: string, now: int, id: string, deadline: int)
    requires HasDeadline(w, id, deadline) && now > deadline
    ensures var w' := RedeemAs(w, admitted, app, d, b, found, uuid, now).0;
            HasDeadline(w', id, deadline) && NoneFor(w.grants, w'.grants, id)
  {
  }

  lemma NextPastDeadline(w: World, a: Action, id: string, deadline: int)
    requires Tables.Unique(w.users) && Tables.Unique(w.variables)
    requires HasDeadline(w, id, deadline) && PastDeadline(a, id, deadline)
    ensures HasDeadline(Next(w, a), id, deadline) && NoneFor(w.grants, Next(w, a).grants, id)
  {
    if a.AuthLicense? {
      var request := Opened(w, ForLicense, a.sessionID, a.env, a.at);
      if request.Ok? {
        var (d, b, _) := request.value;
        RedeemAsPastDeadline(w, Admit(w.items, b.nonce, b.timestamp, a.at), w.apps[d.appID], d, b,
                             a.found, a.uuid, a.at, id, deadline);
      }
    }
  }

  /** Through any requests and any administration that leaves the deadline alone, a licence past
      its deadline is never granted again. */
  lemma {:induction false} ExpiredNeverGrantedAgain(ws: seq<World>, acts: seq<Action>, n: nat, m: nat,
                                                  id: string, deadline: int)
    requires IsRun(ws, acts) && n <= m <= |acts| && HasDeadline(ws[n], id, deadline)
    requires forall i :: n <= i < m ==> PastDeadline(acts[i], id, deadline)
    ensures HasDeadline(ws[m], id, deadline) && NoneFor(ws[n].grants, ws[m].grants, id)
  {
    if n < m {
      ExpiredNeverGrantedAgain(ws, acts, n, m - 1, id, deadline);
      RunStep(ws, acts, m - 1);
      assert PastDeadline(acts[m - 1], id, deadline);
      NextPastDeadline(ws[m - 1], acts[m - 1], id, deadline);
    }
  }
}

/** What the requests of the client protocol give their callers: exactly which answer on which
    condition, which session an answered token stands for and for how long, what happens to the
    records, and in what form the answer comes. */
module SessionEffects {
  import opened Basics
  import opened Cache
  import opened Licenses
  import opened Sessions
  import PasswordHash
  import Tables = KeyedTables

  const SECONDS: int := 1_000_000_000

  // ------------------------------------------------------------------
  // Envelopes
  // ------------------------------------------------------------------

  // What a bare body has to name.
  predicate Names(kind: Kind, b: Body) {
    && (kind.ForLicense? ==> b.licenseKey != "")
    && (kind.ForLogin? ==> b.username != "")
    && (kind.ForVariable? ==> b.varKey != "")
  }

  // Sealed with this key and these additional data.
  predicate SealedWith(env: Envelope, key: string, aad: string) {
    env.Sealed? && env.key == key && env.aad == aad
  }

  /** The envelope brings the body to whoever has the key and the additional data. */
  predicate Brings(env: Envelope, kind: Kind, key: string, aad: string, b: Body) {
    || (SealedWith(env, key, aad) && env.content == Some(b))
    || (env.Plain? && env.body == b && Names(kind, b))
  }

  /** Exactly then it opens, as bare exactly if it is; what opens to no JSON is malformed, and all
      the rest fails to decrypt. */
  lemma OpensExactly(kind: Kind, env: Envelope, key: string, aad: string)
    ensures var r := Open(kind, env, key, aad);
            && (forall b, plain :: r == Ok((b, plain)) <==> Brings(env, kind, key, aad, b) && plain == env.Plain?)
            && (r == Err(Malformed) <==> SealedWith(env, key, aad) && env.content.None?)
            && (r.Err? ==> r.error == Malformed || r.error == DecryptionFailed)
  {
  }

  /** An answer in the form of its request: bare to a bare one, and otherwise sealed with the key
      and the additional data. */
  predicate InForm<T(==)>(answer: Answer<T>, env: Envelope, key: string, aad: string, result: T) {
    answer == if env.Plain? then PlainAnswer(result) else SealedAnswer(key, aad, result)
  }

  // ------------------------------------------------------------------
  // Sessions under tokens
  // ------------------------------------------------------------------

  /** The token stands for the session up to and at the deadline, and for none afterwards. */
  ghost predicate StandsFor(items: Items, token: string, d: SessionData, deadline: int) {
    forall t :: SessionOf(items, token, t) == if t <= deadline then Some(d) else None
  }

  // Every other key is as the guard left it.
  ghost predicate OnlyAdds(admitted: Items, items: Items, token: string) {
    forall k :: k != SessionKey(token) ==> Lookup(items, k) == Lookup(admitted, k)
  }

  lemma StoredStands(items: Items, token: string, d: SessionData, ttl: int, now: int)
    ensures StandsFor(Stored(items, token, d, ttl, now), token, d, now + ttl)
    ensures OnlyAdds(items, Stored(items, token, d, ttl, now), token)
  {
  }

  // ------------------------------------------------------------------
  // Handshakes
  // ------------------------------------------------------------------

  /** Exactly which answer a handshake gives. */
  lemma InitAnswers(w: World, q: InitRequest, x: Drawn, now: int)
    ensures var r := InitStep(w, q, x, now).1;
            var known := q.appID in w.apps;
            var running := known && !w.apps[q.appID].isPaused;
            var passed := Admit(w.items, q.nonce, q.timestamp, now).1;
            && (r == Err(AppNotFound) <==> !known)
            && (r == Err(AppPaused) <==> known && !running)
            && (r == Err(ReplayOrSkew) <==> running && !passed)
            && (r == Err(BadPublicKey) <==> running && passed && !q.publicKeyOk)
            && (r == Ok("sess_" + x.uuid) <==> running && passed && q.publicKeyOk)
  {
  }

  /** A handshake that succeeds opens, for one hour, a session of the application with the drawn
      keys, without licence, user, device or tier, and changes nothing else. */
  lemma InitOpensSession(w: World, q: InitRequest, x: Drawn, now: int)
    requires InitStep(w, q, x, now).1.Ok?
    ensures var (w', r) := InitStep(w, q, x, now);
            var admitted := Admit(w.items, q.nonce, q.timestamp, now).0;
            && StandsFor(w'.items, r.value,
                         SessionData(q.appID, r.value, "", "", "", 0, x.encryptionKey, x.macKey,
                                     now, now + 3_600 * SECONDS), now + 3_600 * SECONDS)
            && OnlyAdds(admitted, w'.items, r.value)
            && w' == w.(items := w'.items, handshakes := w'.handshakes)
  {
    var d := Greeting(q, x, now);
    StoredStands(Admit(w.items, q.nonce, q.timestamp, now).0, d.sessionID, d, HOUR, now);
  }

  // ------------------------------------------------------------------
  // Licence requests
  // ------------------------------------------------------------------

  // A request to a live session of a running application whose envelope brings the body.
  ghost predicate Reaches(w: World, kind: Kind, sessionID: string, env: Envelope, now: int, d: SessionData, b: Body) {
    && SessionOf(w.items, sessionID, now) == Some(d)
    && d.appID in w.apps && !w.apps[d.appID].isPaused
    && Brings(env, kind, d.encryptionKey, d.appID + ":" + sessionID, b)
  }

  /** What a request that reaches nothing is told, of whichever of these kinds it is. */
  ghost predicate Unreached<T>(w: World, kind: Kind, sessionID: string, env: Envelope, now: int, r: Result<T, Error>) {
    match SessionOf(w.items, sessionID, now)
    case None => r == Err(SessionNotFound)
    case Some(d) =>
      if d.appID !in w.apps || w.apps[d.appID].isPaused then r == Err(AppPaused)
      else if SealedWith(env, d.encryptionKey, d.appID + ":" + sessionID) && env.content.None? then r == Err(Malformed)
      else r == Err(DecryptionFailed)
  }

  lemma OpenedExactly(w: World, kind: Kind, sessionID: string, env: Envelope, now: int)
    ensures var r := Opened(w, kind, sessionID, env, now);
            && (forall d, b, plain :: r == Ok((d, b, plain)) <==>
                  Reaches(w, kind, sessionID, env, now, d, b) && plain == env.Plain?)
            && (r.Err? ==> Unreached(w, kind, sessionID, env, now, r))
  {
    var d := SessionOf(w.items, sessionID, now);
    if d.Some? {
      OpensExactly(kind, env, d.value.encryptionKey, Aad(d.value.appID, sessionID));
    }
  }

  predicate IntegrityOk(app: App, b: Body) {
    app.integrityHash == "" || b.binaryHash == "" || app.integrityHash == b.binaryHash
  }

  lemma RedeemAnswers(w: World, admitted: (Items, bool), app: App, d: SessionData, b: Body, found: Option<string>,
                      uuid: string, now: int)
    ensures var r := RedeemAs(w, admitted, app, d, b, found, uuid, now).1;
            if !admitted.1 then r == Err(ReplayOrSkew)
            else if !IntegrityOk(app, b) then r == Err(IntegrityFailed)
            else if found.None? || found.value !in w.licenses then r == Err(LicenseInvalid)
            else
              var (l', o) := Authenticate(w.licenses[found.value], b.hwid, app.hwidLockEnabled, now);
              r == if o.Granted? then Ok(Token("tok_" + uuid, l'.expiresAt)) else Err(Denied(o))
  {
  }

  /** Exactly which answer a licence request gives: found is the licence of its key. A success names
      a token and the deadline that the licence then has. */
  lemma LicenseAnswers(w: World, sessionID: string, env: Envelope, found: Option<string>, uuid: string, now: int)
    ensures var r := LicenseStep(w, sessionID, env, found, uuid, now).1;
            && ((forall d, b :: !Reaches(w, ForLicense, sessionID, env, now, d, b)) ==>
                  Unreached(w, ForLicense, sessionID, env, now, r))
            && forall d, b :: Reaches(w, ForLicense, sessionID, env, now, d, b) ==>
                 var app := w.apps[d.appID];
                 if !Admit(w.items, b.nonce, b.timestamp, now).1 then r == Err(ReplayOrSkew)
                 else if !IntegrityOk(app, b) then r == Err(IntegrityFailed)
                 else if found.None? || found.value !in w.licenses then r == Err(LicenseInvalid)
                 else
                   var (l', o) := Authenticate(w.licenses[found.value], b.hwid, app.hwidLockEnabled, now);
                   if !o.Granted? then r == Err(Denied(o))
                   else r.Ok? && InForm(r.value, env, d.encryptionKey, d.appID + ":" + sessionID,
                                        Token("tok_" + uuid, l'.expiresAt))
  {
    OpenedExactly(w, ForLicense, sessionID, env, now);
    var request := Opened(w, ForLicense, sessionID, env, now);
    if request.Ok? {
      var (d, b, _) := request.value;
      RedeemAnswers(w, Admit(w.items, b.nonce, b.timestamp, now), w.apps[d.appID], d, b, found, uuid, now);
    }
  }

  lemma RedeemGives(w: World, admitted: (Items, bool), app: App, d: SessionData, b: Body, found: Option<string>,
                    uuid: string, now: int)
    requires RedeemAs(w, admitted, app, d, b, found, uuid, now).1.Ok?
    ensures var w' := RedeemAs(w, admitted, app, d, b, found, uuid, now).0;
            && found.Some? && found.value in w.licenses
            && StandsFor(w'.items, "tok_" + uuid, d.(licenseID := found.value, hwid := b.hwid, tierLevel := 1),
                         now + 7_200 * SECONDS)
            && OnlyAdds(admitted.0, w'.items, "tok_" + uuid)
            && w'.licenses == w.licenses[found.value :=
                                Authenticate(w.licenses[found.value], b.hwid, app.hwidLockEnabled, now).0]
            && w' == w.(items := w'.items, licenses := w'.licenses, grants := w'.grants)
  {
    StoredStands(admitted.0, "tok_" + uuid, Licensed(d, found.value, b.hwid), 2 * HOUR, now);
  }

  /** The token of a granted licence request stands for two hours for the session of the handshake,
      with the licence, the device and tier 1; the licence is the one that the request leaves, and
      nothing else changes. */
  lemma LicenseOpensSession(w: World, sessionID: string, env: Envelope, found: Option<string>, uuid: string, now: int,
                            d: SessionData, b: Body)
    requires Reaches(w, ForLicense, sessionID, env, now, d, b)
    requires LicenseStep(w, sessionID, env, found, uuid, now).1.Ok?
    ensures var (w', r) := LicenseStep(w, sessionID, env, found, uuid, now);
            var token := r.value.result.sessionToken;
            && token == "tok_" + uuid && found.Some? && found.value in w.licenses
            && StandsFor(w'.items, token, d.(licenseID := found.value, hwid := b.hwid, tierLevel := 1),
                         now + 7_200 * SECONDS)
            && OnlyAdds(Admit(w.items, b.nonce, b.timestamp, now).0, w'.items, token)
            && w'.licenses == w.licenses[found.value := Authenticate(w.licenses[found.value], b.hwid,
                                                                     w.apps[d.appID].hwidLockEnabled, now).0]
            && w' == w.(items := w'.items, licenses := w'.licenses, grants := w'.grants)
            && r.value.result.expiresAt == w'.licenses[found.value].expiresAt
  {
    OpenedExactly(w, ForLicense, sessionID, env, now);
    RedeemGives(w, Admit(w.items, b.nonce, b.timestamp, now), w.apps[d.appID], d, b, found, uuid, now);
    LicenseAnswers(w, sessionID, env, found, uuid, now);
  }

  // ------------------------------------------------------------------
  // Logins
  // ------------------------------------------------------------------

  /** What a name and a password are told, if anything. */
  lemma CredentialsExactly(users: Users, name: Tables.Name, password: string, idKey: PasswordHash.IDKey)
    requires Tables.Unique(users)
    ensures var r := Credentials(users, name, password, idKey);
            if name !in Tables.Abstract(users) then r == Err(BadCredentials)
            else
              var (id, u) := Tables.Abstract(users)[name];
              if u.isBanned then r == Err(UserBanned)
              else if PasswordHash.VerifyPassword(password, u.passwordHash, idKey) == Ok(true) then r == Ok((id, u))
              else r == Err(BadCredentials)
  {
  }

  lemma LogInAnswers(w: World, admitted: (Items, bool), d: SessionData, b: Body,
                     user: Result<(string, Tables.User), Error>, uuid: string, ip: string, now: int)
    ensures LogInAs(w, admitted, d, b, user, uuid, ip, now).1
         == if !admitted.1 then Err(ReplayOrSkew)
            else if user.Err? then Err(user.error) else Ok(Token("tok_" + uuid, None))
  {
  }

  /** Exactly which answer a login gives. */
  lemma LoginAnswers(w: World, sessionID: string, env: Envelope, uuid: string, ip: string,
                     idKey: PasswordHash.IDKey, now: int)
    requires Tables.Unique(w.users)
    ensures var r := LoginStep(w, sessionID, env, uuid, ip, idKey, now).1;
            && ((forall d, b :: !Reaches(w, ForLogin, sessionID, env, now, d, b)) ==>
                  Unreached(w, ForLogin, sessionID, env, now, r))
            && forall d, b :: Reaches(w, ForLogin, sessionID, env, now, d, b) ==>
                 var user := Credentials(w.users, (d.appID, b.username), b.password, idKey);
                 if !Admit(w.items, b.nonce, b.timestamp, now).1 then r == Err(ReplayOrSkew)
                 else if user.Err? then r == Err(user.error)
                 else r.Ok? && InForm(r.value, env, d.encryptionKey, d.appID + ":" + sessionID,
                                      Token("tok_" + uuid, None))
  {
    OpenedExactly(w, ForLogin, sessionID, env, now);
    var request := Opened(w, ForLogin, sessionID, env, now);
    if request.Ok? {
      var (d, b, _) := request.value;
      LogInAnswers(w, Admit(w.items, b.nonce, b.timestamp, now), d, b,
                   Credentials(w.users, (d.appID, b.username), b.password, idKey), uuid, ip, now);
    }
  }

  /** A user after a login: the address and the time are those of the login, the first device is
      kept, and all the rest is as before. */
  predicate MarkedLogin(u: Tables.User, u': Tables.User, ip: string, hwid: string, now: int) {
    && u'.ipAddress == Some(ip) && u'.lastLoginAt == Some(now)
    && u'.hwidHash == Some(if u.hwidHash.Some? then u.hwidHash.value else hwid)
    && u'.passwordHash == u.passwordHash && u'.isBanned == u.isBanned && u'.banReason == u.banReason
  }

  // Of all users, only the one of that name has changed, and keeps its ID.
  ghost predicate OnlyMarks(users: Users, users': Users, name: Tables.Name, ip: string, hwid: string, now: int)
    requires Tables.Unique(users) && Tables.Unique(users') && name in Tables.Abstract(users)
  {
    var before, after := Tables.Abstract(users), Tables.Abstract(users');
    && after.Keys == before.Keys && (forall other :: other in before && other != name ==> after[other] == before[other])
    && after[name].0 == before[name].0 && MarkedLogin(before[name].1, after[name].1, ip, hwid, now)
  }

  lemma LoggedInMarks(users: Users, name: Tables.Name, ip: string, hwid: string, now: int)
    requires Tables.Unique(users) && name in Tables.Abstract(users)
    ensures var (id, u) := Tables.Abstract(users)[name];
            var users' := users[id := Tables.Row(name, Tables.LoggedIn(u, ip, hwid, now))];
            Tables.Unique(users') && OnlyMarks(users, users', name, ip, hwid, now)
  {
    var (id, u) := Tables.Abstract(users)[name];
    Tables.PutAbstracts(users, id, Tables.Row(name, Tables.LoggedIn(u, ip, hwid, now)));
  }

  lemma LogInGives(w: World, admitted: (Items, bool), d: SessionData, b: Body,
                   user: Result<(string, Tables.User), Error>, uuid: string, ip: string, now: int)
    requires LogInAs(w, admitted, d, b, user, uuid, ip, now).1.Ok?
    ensures var w' := LogInAs(w, admitted, d, b, user, uuid, ip, now).0;
            && user.Ok?
            && StandsFor(w'.items, "tok_" + uuid, d.(userID := user.value.0, hwid := b.hwid), now + 7_200 * SECONDS)
            && OnlyAdds(admitted.0, w'.items, "tok_" + uuid)
            && w'.users == w.users[user.value.0 := Tables.Row((d.appID, b.username),
                                                              Tables.LoggedIn(user.value.1, ip, b.hwid, now))]
            && w' == w.(items := w'.items, users := w'.users)
  {
    StoredStands(admitted.0, "tok_" + uuid, d.(userID := user.value.0, hwid := b.hwid), 2 * HOUR, now);
  }

  /** The token of a login that succeeds stands for two hours for the session of the handshake, with
      its keys and tier, the user's ID and the device; the user's row carries the login, and nothing
      else changes. */
  lemma LoginOpensSession(w: World, sessionID: string, env: Envelope, uuid: string, ip: string,
                          idKey: PasswordHash.IDKey, now: int, d: SessionData, b: Body)
    requires Tables.Unique(w.users) && Reaches(w, ForLogin, sessionID, env, now, d, b)
    requires LoginStep(w, sessionID, env, uuid, ip, idKey, now).1.Ok?
    ensures var (w', r) := LoginStep(w, sessionID, env, uuid, ip, idKey, now);
            var token, name := r.value.result.sessionToken, (d.appID, b.username);
            && token == "tok_" + uuid && name in Tables.Abstract(w.users)
            && StandsFor(w'.items, token, d.(userID := Tables.Abstract(w.users)[name].0, hwid := b.hwid),
                         now + 7_200 * SECONDS)
            && OnlyAdds(Admit(w.items, b.nonce, b.timestamp, now).0, w'.items, token)
            && Tables.Unique(w'.users) && OnlyMarks(w.users, w'.users, name, ip, b.hwid, now)
            && w' == w.(items := w'.items, users := w'.users)
  {
    OpenedExactly(w, ForLogin, sessionID, env, now);
    var user := Credentials(w.users, (d.appID, b.username), b.password, idKey);
    LogInGives(w, Admit(w.items, b.nonce, b.timestamp, now), d, b, user, uuid, ip, now);
    LoggedInMarks(w.users, (d.appID, b.username), ip, b.hwid, now);
    LoginAnswers(w, sessionID, env, uuid, ip, idKey, now);
  }

  // ------------------------------------------------------------------
  // Variables
  // ------------------------------------------------------------------

  ghost predicate Asks(env: Envelope, d: SessionData, b: Body) {
    Brings(env, ForVariable, d.encryptionKey, d.appID + ":" + d.sessionID, b)
  }

  /** What a session reads of a variable: its value if it exists and its tier is within the
      session's. */
  lemma ValueExactly(variables: Variables, d: SessionData, varKey: string)
    requires Tables.Unique(variables)
    ensures var name, r := (d.appID, varKey), ValueFor(variables, d, varKey);
            if name !in Tables.Abstract(variables) then r == Err(VariableNotFound)
            else
              var v := Tables.Abstract(variables)[name].1;
              r == if v.minTierLevel <= d.tierLevel then Ok(v.varValue) else Err(TierInsufficient)
  {
  }

  /** The answer to a request for a variable, in the form of the request. */
  ghost predicate AnswersVariable(r: Result<Answer<(string, string)>, Error>, value: Result<string, Error>,
                                  env: Envelope, d: SessionData, varKey: string)
  {
    match value
    case Err(e) => r == Err(e)
    case Ok(v) => r.Ok? && InForm(r.value, env, d.encryptionKey, d.appID + ":" + d.sessionID, (varKey, v))
  }

  lemma VariableAsked(w: World, token: string, env: Envelope, now: int, d: SessionData, b: Body)
    requires Tables.Unique(w.variables) && SessionOf(w.items, token, now) == Some(d) && d.appID in w.apps
    requires Asks(env, d, b)
    ensures AnswersVariable(ReadVariable(w, token, env, now), ValueFor(w.variables, d, b.varKey), env, d, b.varKey)
  {
    assert Open(ForVariable, env, d.encryptionKey, Aad(d.appID, d.sessionID)) == Ok((b, env.Plain?));
  }

  lemma VariableUnasked(w: World, token: string, env: Envelope, now: int, d: SessionData)
    requires Tables.Unique(w.variables) && SessionOf(w.items, token, now) == Some(d) && d.appID in w.apps
    requires forall b :: !Asks(env, d, b)
    ensures ReadVariable(w, token, env, now)
         == Err(if SealedWith(env, d.encryptionKey, d.appID + ":" + d.sessionID) && env.content.None?
                then Malformed else DecryptionFailed)
  {
    var request := Open(ForVariable, env, d.encryptionKey, Aad(d.appID, d.sessionID));
    OpensExactly(ForVariable, env, d.encryptionKey, Aad(d.appID, d.sessionID));
    if request.Ok? {
      assert Asks(env, d, request.value.0);
    }
  }

  /** Exactly which answer a request for a variable gives: besides the session and its application,
      the envelope has to bring a body; otherwise which error. */
  lemma VariableExactly(w: World, token: string, env: Envelope, now: int)
    requires Tables.Unique(w.variables)
    ensures var r := ReadVariable(w, token, env, now);
            match SessionOf(w.items, token, now)
            case None => r == Err(SessionNotFound)
            case Some(d) =>
              if d.appID !in w.apps then r == Err(AppNotFound)
              else
                && (forall b :: Asks(env, d, b) ==>
                      AnswersVariable(r, ValueFor(w.variables, d, b.varKey), env, d, b.varKey))
                && ((forall b :: !Asks(env, d, b)) ==>
                      r == Err(if SealedWith(env, d.encryptionKey, d.appID + ":" + d.sessionID) && env.content.None?
                               then Malformed else DecryptionFailed))
  {
    var session := SessionOf(w.items, token, now);
    if session.Some? && session.value.appID in w.apps {
      forall b | Asks(env, session.value, b)
        ensures AnswersVariable(ReadVariable(w, token, env, now), ValueFor(w.variables, session.value, b.varKey), env,
                                session.value, b.varKey)
      {
        VariableAsked(w, token, env, now, session.value, b);
      }
      if forall b :: !Asks(env, session.value, b) {
        VariableUnasked(w, token, env, now, session.value);
      }
    }
  }

  // ------------------------------------------------------------------
  // Answers over runs
  // ------------------------------------------------------------------

  // Sessions lie under their own session ID, or under a token.
  ghost predicate Placed(items: Items) {
    forall k :: k in items && items[k].value.Session? ==>
                  k == SessionKey(items[k].value.data.sessionID) || SessionKey("tok_") <= k
  }

  lemma StoredPlaced(items: Items, token: string, d: SessionData, ttl: int, now: int)
    requires Placed(items) && (token == d.sessionID || "tok_" <= token)
    ensures Placed(Stored(items, token, d, ttl, now))
  {
    if "tok_" <= token {
      assert SessionKey(token)[..12] == SessionKey("tok_");
    }
  }

  lemma StepPlaced(items: Items, e: Event)
    requires Placed(items) && !e.op.StoreSession? && (e.op.Set? ==> !e.op.value.Session?)
    ensures Placed(Step(items, e).0)
  {
  }

  lemma AdmitPlaced(items: Items, nonce: string, timestamp: int, now: int)
    requires Placed(items)
    ensures Placed(Admit(items, nonce, timestamp, now).0)
  {
  }

  lemma GreetPlaced(w: World, admitted: (Items, bool), q: InitRequest, x: Drawn, now: int)
    requires Placed(admitted.0)
    ensures Placed(Greet(w, admitted, q, x, now).0.items)
  {
    var d := Greeting(q, x, now);
    StoredPlaced(admitted.0, d.sessionID, d, HOUR, now);
  }

  lemma RedeemPlaced(w: World, admitted: (Items, bool), app: App, d: SessionData, b: Body, found: Option<string>,
                     uuid: string, now: int)
    requires Placed(admitted.0)
    ensures Placed(RedeemAs(w, admitted, app, d, b, found, uuid, now).0.items)
  {
    assert "tok_" <= "tok_" + uuid;
    if found.Some? {
      StoredPlaced(admitted.0, "tok_" + uuid, Licensed(d, found.value, b.hwid), 2 * HOUR, now);
    }
  }

  lemma LogInPlaced(w: World, admitted: (Items, bool), d: SessionData, b: Body,
                    user: Result<(string, Tables.User), Error>, uuid: string, ip: string, now: int)
    requires Placed(admitted.0)
    ensures Placed(LogInAs(w, admitted, d, b, user, uuid, ip, now).0.items)
  {
    assert "tok_" <= "tok_" + uuid;
    if user.Ok? {
      StoredPlaced(admitted.0, "tok_" + uuid, d.(userID := user.value.0, hwid := b.hwid), 2 * HOUR, now);
    }
  }

  lemma InitPlaced(w: World, q: InitRequest, x: Drawn, now: int)
    requires Placed(w.items)
    ensures Placed(InitStep(w, q, x, now).0.items)
  {
    AdmitPlaced(w.items, q.nonce, q.timestamp, now);
    GreetPlaced(w, Admit(w.items, q.nonce, q.timestamp, now), q, x, now);
  }

  lemma LicensePlaced(w: World, s: string, env: Envelope, found: Option<string>, uuid: string, now: int)
    requires Placed(w.items)
    ensures Placed(LicenseStep(w, s, env, found, uuid, now).0.items)
  {
    var request := Opened(w, ForLicense, s, env, now);
    if request.Ok? {
      var (d, b, _) := request.value;
      AdmitPlaced(w.items, b.nonce, b.timestamp, now);
      RedeemPlaced(w, Admit(w.items, b.nonce, b.timestamp, now), w.apps[d.appID], d, b, found, uuid, now);
    }
  }

  lemma LoginPlaced(w: World, s: string, env: Envelope, uuid: string, ip: string, idKey: PasswordHash.IDKey, now: int)
    requires Placed(w.items) && Tables.Unique(w.users)
    ensures Placed(LoginStep(w, s, env, uuid, ip, idKey, now).0.items)
  {
    var request := Opened(w, ForLogin, s, env, now);
    if request.Ok? {
      var (d, b, _) := request.value;
      AdmitPlaced(w.items, b.nonce, b.timestamp, now);
      LogInPlaced(w, Admit(w.items, b.nonce, b.timestamp, now), d, b,
                  Credentials(w.users, (d.appID, b.username), b.password, idKey), uuid, ip, now);
    }
  }

  lemma NextPlaced(w: World, a: Action)
    requires Tables.Unique(w.users) && Tables.Unique(w.variables) && Possible(w, a) && Placed(w.items)
    ensures Placed(Next(w, a).items)
  {
    match a
    case Init(q, x, at) => InitPlaced(w, q, x, at);
    case AuthLicense(s, env, found, uuid, at) => LicensePlaced(w, s, env, found, uuid, at);
    case AuthUser(s, env, uuid, ip, idKey, at) => LoginPlaced(w, s, env, uuid, ip, idKey, at);
    case Other(e) => StepPlaced(w.items, e);
    case Administer(_, _, _, _, _) =>
  }

  lemma {:induction false} RunPlaced(ws: seq<World>, acts: seq<Action>, n: nat)
    requires IsRun(ws, acts) && n <= |acts|
    ensures Placed(ws[n].items)
  {
    if n > 0 {
      RunPlaced(ws, acts, n - 1);
      RunStep(ws, acts, n - 1);
      NextPlaced(ws[n - 1], acts[n - 1]);
    }
  }

  /** The session that a request is addressed to stems from exactly one handshake; its ID is the one
      addressed, unless a token was. */
  lemma AddressedHandshake(ws: seq<World>, acts: seq<Action>, n: nat, sessionID: string, now: int) returns (i: nat)
    requires IsRun(ws, acts) && n <= |acts| && SessionOf(ws[n].items, sessionID, now).Some?
    ensures i < |ws[n].handshakes| && ComesFrom(SessionOf(ws[n].items, sessionID, now).value, ws[n].handshakes[i])
    ensures forall k :: 0 <= k < |ws[n].handshakes| && ws[n].handshakes[k].sessionID == ws[n].handshakes[i].sessionID
                        ==> k == i
    ensures ws[n].handshakes[i].sessionID == sessionID || "tok_" <= sessionID
  {
    RunValid(ws, acts, n);
    RunPlaced(ws, acts, n);
    SessionTraced(ws[n], sessionID, now);
    var d := SessionOf(ws[n].items, sessionID, now).value;
    i :| 0 <= i < |ws[n].handshakes| && ComesFrom(d, ws[n].handshakes[i]);
    KeyParts(sessionID, d.sessionID);
  }

  lemma KeyParts(token: string, other: string)
    ensures SessionKey(token) == SessionKey(other) ==> token == other
    ensures SessionKey("tok_") <= SessionKey(token) ==> "tok_" <= token
  {
    assert SessionKey(token)[8..] == token && SessionKey(other)[8..] == other && SessionKey("tok_")[8..] == "tok_";
    if SessionKey("tok_") <= SessionKey(token) {
      assert SessionKey(token)[..12] == SessionKey("tok_");
      assert token[..4] == SessionKey(token)[..12][8..];
    }
  }

  lemma AadInjective(appID: string, one: string, other: string)
    ensures Aad(appID, one) == Aad(appID, other) ==> one == other
  {
    var n := |appID + ":"|;
    assert Aad(appID, one)[n..] == one && Aad(appID, other)[n..] == other;
  }

  /** An answer under a handshake: bare exactly to a bare request, and otherwise sealed with the
      handshake's key, as the request was, for the ID that the request was addressed to. These are
      the additional data of the handshake itself exactly if that is its own session ID. */
  predicate AnsweredUnder<T>(h: Handshake, answer: Answer<T>, env: Envelope, sessionID: string) {
    && (env.Plain? <==> answer.PlainAnswer?)
    && (answer.SealedAnswer? ==>
          && answer.key == h.encryptionKey && answer.aad == Aad(h.appID, sessionID)
          && SealedWith(env, answer.key, answer.aad)
          && (answer.aad == Aad(h.appID, h.sessionID) <==> sessionID == h.sessionID))
  }

  lemma InFormUnder<T>(h: Handshake, answer: Answer<T>, env: Envelope, kind: Kind, sessionID: string, d: SessionData,
                       b: Body, result: T)
    requires ComesFrom(d, h) && Brings(env, kind, d.encryptionKey, d.appID + ":" + sessionID, b)
    requires InForm(answer, env, d.encryptionKey, d.appID + ":" + sessionID, result)
    ensures AnsweredUnder(h, answer, env, sessionID)
  {
    AadInjective(h.appID, sessionID, h.sessionID);
  }

  /** Over whole runs, every granted licence request is answered under the one handshake of its
      session, whose ID is the one addressed unless a token was. */
  lemma LicenseAnsweredUnderHandshake(ws: seq<World>, acts: seq<Action>, n: nat, sessionID: string, env: Envelope,
                                      found: Option<string>, uuid: string, now: int)
    returns (i: nat)
    requires IsRun(ws, acts) && n <= |acts| && LicenseStep(ws[n], sessionID, env, found, uuid, now).1.Ok?
    ensures i < |ws[n].handshakes|
    ensures forall k :: 0 <= k < |ws[n].handshakes| && ws[n].handshakes[k].sessionID == ws[n].handshakes[i].sessionID
                        ==> k == i
    ensures AnsweredUnder(ws[n].handshakes[i], LicenseStep(ws[n], sessionID, env, found, uuid, now).1.value,
                          env, sessionID)
    ensures ws[n].handshakes[i].sessionID == sessionID || "tok_" <= sessionID
  {
    var w := ws[n];
    LicenseAnswers(w, sessionID, env, found, uuid, now);
    OpenedExactly(w, ForLicense, sessionID, env, now);
    var (d, b, plain) := Opened(w, ForLicense, sessionID, env, now).value;
    assert Reaches(w, ForLicense, sessionID, env, now, d, b);
    i := AddressedHandshake(ws, acts, n, sessionID, now);
    var answer := LicenseStep(w, sessionID, env, found, uuid, now).1.value;
    InFormUnder(w.handshakes[i], answer, env, ForLicense, sessionID, d, b, answer.result);
  }

  /** So is every login that succeeds. */
  lemma LoginAnsweredUnderHandshake(ws: seq<World>, acts: seq<Action>, n: nat, sessionID: string, env: Envelope,
                                    uuid: string, ip: string, idKey: PasswordHash.IDKey, now: int)
    returns (i: nat)
    requires IsRun(ws, acts) && n <= |acts| && Tables.Unique(ws[n].users)
    requires LoginStep(ws[n], sessionID, env, uuid, ip, idKey, now).1.Ok?
    ensures i < |ws[n].handshakes|
    ensures forall k :: 0 <= k < |ws[n].handshakes| && ws[n].handshakes[k].sessionID == ws[n].handshakes[i].sessionID
                        ==> k == i
    ensures AnsweredUnder(ws[n].handshakes[i], LoginStep(ws[n], sessionID, env, uuid, ip, idKey, now).1.value,
                          env, sessionID)
    ensures ws[n].handshakes[i].sessionID == sessionID || "tok_" <= sessionID
  {
    var w := ws[n];
    LoginAnswers(w, sessionID, env, uuid, ip, idKey, now);
    OpenedExactly(w, ForLogin, sessionID, env, now);
    var (d, b, plain) := Opened(w, ForLogin, sessionID, env, now).value;
    assert Reaches(w, ForLogin, sessionID, env, now, d, b);
    i := AddressedHandshake(ws, acts, n, sessionID, now);
    var answer := LoginStep(w, sessionID, env, uuid, ip, idKey, now).1.value;
    InFormUnder(w.handshakes[i], answer, env, ForLogin, sessionID, d, b, answer.result);
  }
}

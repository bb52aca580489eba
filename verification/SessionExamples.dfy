/** Runs of the client protocol in which variables are released: what the theorems of Sessions
    are about does happen, and a bare request does get a bare answer. */
module SessionExamples {
  import opened Basics
  import opened Cache
  import opened Licenses
  import opened Sessions
  import ReplayGuard
  import SessionReplay
  import Tables = KeyedTables

  /** Whoever holds a session, of whatever world, gets every variable within its tier in the
      clear by asking in the clear. */
  lemma BareRequestAnsweredBare(w: World, token: string, b: Body, now: int)
    requires Tables.Unique(w.variables)
    requires SessionOf(w.items, token, now).Some? && b.varKey != ""
    requires var d := SessionOf(w.items, token, now).value;
             && d.appID in w.apps && (d.appID, b.varKey) in Tables.Abstract(w.variables)
             && Tables.Abstract(w.variables)[(d.appID, b.varKey)].1.minTierLevel <= d.tierLevel
    ensures var d := SessionOf(w.items, token, now).value;
            && Releases(w, token, Plain(b), now, (d.appID, b.varKey))
            && ReadVariable(w, token, Plain(b), now)
            == Ok(PlainAnswer((b.varKey, Tables.Abstract(w.variables)[(d.appID, b.varKey)].1.varValue)))
  {
  }

  const APP: App := App("1.0", false, "", false)

  const LICENSE: License :=
    License("app", "KEY", 0, true, None, [], 1, UNACTIVATED, None, None, None, None, "dev", 0)

  const MOTD: Tables.Name := ("app", "motd")

  function OneVariable(tier: int): Variables {
    map["v" := Tables.Row(MOTD, Tables.Variable("hello", tier, true))]
  }

  // An application with a licence and a variable, and a handshake with it.
  function Setup(tier: int): Action {
    Administer(map["app" := APP], map["id" := LICENSE], map[], OneVariable(tier), 0)
  }

  const HELLO: Action := Init(InitRequest("app", "a", 0, true), Drawn("u", "key", "mac"), 0)

  function AfterSetup(tier: int): World {
    World(map[], map["app" := APP], map["id" := LICENSE], map[], OneVariable(tier), [], [])
  }

  const GREETING: SessionData := SessionData("app", "sess_u", "", "", "", 0, "key", "mac", 0, HOUR)

  const NONCE: Item := Item(Text("1"), Some(0 + MINUTE))

  function AfterHello(tier: int): World {
    AfterSetup(tier).(items := map[NonceKey("a") := NONCE][SessionKey("sess_u") := Item(Session(GREETING), Some(HOUR))],
                      handshakes := [Handshake("app", "sess_u", "key", "mac")])
  }

  const MINUTE: int := 60_000 * ReplayGuard.MILLI

  lemma Admitted(items: Items, nonce: string, timestamp: Int64, at: int)
    requires NonceKey(nonce) !in items || !Blocks(items[NonceKey(nonce)], at)
    requires at == 0 || at == MINUTE
    requires Abs(at / ReplayGuard.MILLI - timestamp) <= 30_000
    ensures Admit(items, nonce, timestamp, at)
         == (items[NonceKey(nonce) := Item(Text("1"), Some(at + MINUTE))], true)
  {
    ReplayGuard.SkewOkIsExact(at / ReplayGuard.MILLI, timestamp, 30_000);
  }

  lemma KeysDiffer(nonce: string, token: string)
    ensures NonceKey(nonce) != SessionKey(token)
  {
    assert NonceKey(nonce)[0] == 'n' && SessionKey(token)[0] == 's';
  }

  lemma Hello(tier: int)
    ensures TakesStep(START, Setup(tier), AfterSetup(tier))
    ensures TakesStep(AfterSetup(tier), HELLO, AfterHello(tier))
    ensures SessionOf(AfterHello(tier).items, "sess_u", 0) == Some(GREETING)
  {
    Admitted(map[], "a", 0, 0);
    KeysDiffer("a", "sess_u");
    assert "sess_" + "u" == "sess_u";
    assert [] + [Handshake("app", "sess_u", "key", "mac")] == [Handshake("app", "sess_u", "key", "mac")];
  }

  function Asking(varKey: string): Body {
    Body("", "", "", "", "", "", 0, varKey)
  }

  // One more step of a run.
  lemma ExtendRun(ws: seq<World>, acts: seq<Action>, a: Action, w: World)
    requires IsRun(ws, acts) && TakesStep(ws[|acts|], a, w)
    ensures IsRun(ws + [w], acts + [a])
  {
    var all, done := ws + [w], acts + [a];
    forall i, j | 0 <= i < |done| && j == i + 1 ensures TakesStep(all[i], done[i], all[j]) {
      if i < |acts| {
        RunStep(ws, acts, i);
      }
    }
  }

  lemma HelloRun(tier: int)
    ensures IsRun([START] + [AfterSetup(tier)] + [AfterHello(tier)], [] + [Setup(tier)] + [HELLO])
  {
    Hello(tier);
    ExtendRun([START], [], Setup(tier), AfterSetup(tier));
    ExtendRun([START] + [AfterSetup(tier)], [] + [Setup(tier)], HELLO, AfterHello(tier));
  }

  /** After nothing but a handshake, a variable without a tier is released in the clear, although
      every exchange after the handshake is meant to be encrypted. */
  lemma ReleasedInTheClear() returns (ws: seq<World>, acts: seq<Action>)
    ensures IsRun(ws, acts) && |acts| == 2 && acts[1].Init?
    ensures Releases(ws[2], "sess_u", Plain(Asking("motd")), 0, MOTD)
    ensures ReadVariable(ws[2], "sess_u", Plain(Asking("motd")), 0) == Ok(PlainAnswer(("motd", "hello")))
  {
    ws, acts := [START] + [AfterSetup(0)] + [AfterHello(0)], [] + [Setup(0)] + [HELLO];
    HelloRun(0);
    Hello(0);
    BareRequestAnsweredBare(ws[2], "sess_u", Asking("motd"), 0);
  }

  const REDEEM: Body := Body("KEY", "", "", "device", "", "b", 30_000, "")

  const REQUEST: Action := AuthLicense("sess_u", Sealed("key", Aad("app", "sess_u"), Some(REDEEM)), Some("id"), "t", 0)

  const GRANTED: SessionData := GREETING.(licenseID := "id", hwid := "device", tierLevel := TIER)

  function AfterRedeem(tier: int): World {
    var w := AfterHello(tier);
    w.(items := w.items[NonceKey("b") := NONCE][SessionKey("tok_t") := Item(Session(GRANTED), Some(2 * HOUR))],
       licenses := map["id" := Activated(LICENSE, "device", None, 0)],
       grants := [Grant("app", "sess_u", "id", TIER, LICENSE, "device", false, 0)])
  }

  lemma Redeemed(tier: int)
    ensures Redeem(AfterHello(tier), APP, GREETING, REDEEM, Some("id"), "t", 0)
         == (AfterRedeem(tier), Ok(Token("tok_t", None)))
    ensures SessionOf(AfterRedeem(tier).items, "tok_t", 0) == Some(GRANTED)
  {
    KeysDiffer("b", "sess_u");
    KeysDiffer("b", "tok_t");
    assert "tok_" + "t" == "tok_t";
    assert NonceKey("b")[6..] == "b" && NonceKey("a")[6..] == "a";
    assert "b"[0] != "a"[0];
    Admitted(AfterHello(tier).items, "b", 30_000, 0);
    var l := AfterHello(tier).licenses;
    assert l["id" := Activated(LICENSE, "device", None, 0)] == AfterRedeem(tier).licenses;
    var g := Grant("app", "sess_u", "id", TIER, LICENSE, "device", false, 0);
    assert [] + [g] == [g];
  }

  lemma RedeemStep(tier: int)
    ensures TakesStep(AfterHello(tier), REQUEST, AfterRedeem(tier))
  {
    Hello(tier);
    Redeemed(tier);
  }

  lemma RedeemRun()
    ensures IsRun([START] + [AfterSetup(1)] + [AfterHello(1)] + [AfterRedeem(1)], [] + [Setup(1)] + [HELLO] + [REQUEST])
  {
    HelloRun(1);
    RedeemStep(1);
    ExtendRun([START] + [AfterSetup(1)] + [AfterHello(1)], [] + [Setup(1)] + [HELLO], REQUEST, AfterRedeem(1));
  }

  lemma OneVariableStands(tier: int)
    ensures Tables.Unique(OneVariable(tier)) && MOTD in Tables.Abstract(OneVariable(tier))
    ensures Tables.Abstract(OneVariable(tier))[MOTD].1 == Tables.Variable("hello", tier, true)
  {
    assert OneVariable(tier)["v"].key == MOTD;
  }

  lemma SealedRelease(w: World)
    requires SessionOf(w.items, "tok_t", 0) == Some(GRANTED) && "app" in w.apps && w.variables == OneVariable(1)
    ensures var env := Sealed("key", Aad("app", "sess_u"), Some(Asking("motd")));
            && Releases(w, "tok_t", env, 0, MOTD)
            && ReadVariable(w, "tok_t", env, 0) == Ok(SealedAnswer("key", Aad("app", "sess_u"), ("motd", "hello")))
  {
    OneVariableStands(1);
    var aad := Aad("app", "sess_u");
    assert Open(ForVariable, Sealed("key", aad, Some(Asking("motd"))), "key", aad) == Ok((Asking("motd"), false));
    assert ReadVariable(w, "tok_t", Sealed("key", aad, Some(Asking("motd"))), 0)
        == Ok(SealedAnswer("key", aad, ("motd", "hello")));
  }

  /** After a granted licence request, a variable of tier 1 is released, sealed for the handshake. */
  lemma ReleasedForLicense() returns (ws: seq<World>, acts: seq<Action>)
    ensures IsRun(ws, acts) && |acts| == 3 && acts[2].AuthLicense? && ws[3].variables == OneVariable(1)
    ensures var env := Sealed("key", Aad("app", "sess_u"), Some(Asking("motd")));
            && Releases(ws[3], "tok_t", env, 0, MOTD)
            && ReadVariable(ws[3], "tok_t", env, 0) == Ok(SealedAnswer("key", Aad("app", "sess_u"), ("motd", "hello")))
  {
    ws := [START] + [AfterSetup(1)] + [AfterHello(1)] + [AfterRedeem(1)];
    acts := [] + [Setup(1)] + [HELLO] + [REQUEST];
    RedeemRun();
    Redeemed(1);
    SealedRelease(ws[3]);
  }

  // ------------------------------------------------------------------
  // One payload, granted twice
  // ------------------------------------------------------------------

  const REPLAY: Action :=
    AuthLicense("sess_u", Sealed("key", Aad("app", "sess_u"), Some(REDEEM)), Some("id"), "t2", MINUTE)

  function AfterReplay(): World {
    var w := AfterRedeem(1);
    w.(items := w.items[NonceKey("b") := Item(Text("1"), Some(MINUTE + MINUTE))]
                       [SessionKey("tok_t2") := Item(Session(GRANTED), Some(MINUTE + 2 * HOUR))],
       grants := w.grants + [Grant("app", "sess_u", "id", TIER, w.licenses["id"], "device", false, MINUTE)])
  }

  lemma SessionLives()
    ensures SessionOf(AfterRedeem(1).items, "sess_u", MINUTE) == Some(GREETING)
    ensures AfterRedeem(1).items[NonceKey("b")] == NONCE
  {
    KeysDiffer("b", "sess_u");
    KeysDiffer("b", "tok_t");
    assert SessionKey("tok_t")[8] == 't' && SessionKey("sess_u")[8] == 's';
  }

  lemma Replayed()
    ensures Redeem(AfterRedeem(1), APP, GREETING, REDEEM, Some("id"), "t2", MINUTE)
         == (AfterReplay(), Ok(Token("tok_t2", None)))
  {
    SessionLives();
    assert "tok_" + "t2" == "tok_t2";
    Admitted(AfterRedeem(1).items, "b", 30_000, MINUTE);
    var l := AfterRedeem(1).licenses;
    assert l["id" := l["id"]] == l;
  }

  lemma ReplayStep()
    ensures TakesStep(AfterRedeem(1), REPLAY, AfterReplay())
    ensures LicenseStep(AfterRedeem(1), "sess_u", REPLAY.env, Some("id"), "t2", MINUTE).1.Ok?
  {
    SessionLives();
    Replayed();
  }

  lemma RedeemSucceeds()
    ensures SessionReplay.Succeeds(AfterHello(1), REQUEST)
    ensures SessionReplay.StampOf(AfterHello(1), REQUEST) == Some(SessionReplay.Stamp("b", 30_000))
  {
    Hello(1);
    Redeemed(1);
  }

  lemma ReplaySucceeds()
    ensures SessionReplay.Succeeds(AfterRedeem(1), REPLAY)
    ensures SessionReplay.StampOf(AfterRedeem(1), REPLAY) == Some(SessionReplay.Stamp("b", 30_000))
  {
    SessionLives();
    ReplayStep();
  }

  function ReplayActs(): seq<Action> {
    [] + [Setup(1)] + [HELLO] + [REQUEST] + [REPLAY]
  }

  lemma ReplayClocked()
    ensures SessionReplay.Clocked(ReplayActs())
  {
    var acts := ReplayActs();
    assert |acts| == 4 && acts[0] == Setup(1) && acts[1] == HELLO && acts[2] == REQUEST && acts[3] == REPLAY;
    forall i | 0 <= i < |acts| ensures !acts[i].Other? && SessionReplay.At(acts[i]) == if i == 3 then MINUTE else 0 {}
    assert ReplayGuard.ClockInRange(0 / ReplayGuard.MILLI, 30_000);
    assert ReplayGuard.ClockInRange(MINUTE / ReplayGuard.MILLI, 30_000);
  }

  lemma SuccessFrom(ws: seq<World>, acts: seq<Action>, i: nat, w: World, a: Action, stamp: SessionReplay.Stamp)
    requires i < |acts| < |ws| && ws[i] == w && acts[i] == a && Tables.Unique(w.users)
    requires SessionReplay.StampOf(w, a) == Some(stamp) && SessionReplay.Succeeds(w, a)
    ensures SessionReplay.Success(ws, acts, i, stamp)
  {
  }

  lemma ReplayRun(ws: seq<World>)
    requires ws == [START] + [AfterSetup(1)] + [AfterHello(1)] + [AfterRedeem(1)] + [AfterReplay()]
    ensures IsRun(ws, ReplayActs())
  {
    RedeemRun();
    ReplayStep();
    ExtendRun(ws[..4], [] + [Setup(1)] + [HELLO] + [REQUEST], REPLAY, AfterReplay());
    assert ws == ws[..4] + [AfterReplay()];
  }

  lemma FirstSuccess(ws: seq<World>, acts: seq<Action>)
    requires |acts| == 4 < |ws| && ws[2] == AfterHello(1) && acts[2] == REQUEST
    ensures SessionReplay.Success(ws, acts, 2, SessionReplay.Stamp("b", 30_000))
  {
    RedeemSucceeds();
    SuccessFrom(ws, acts, 2, AfterHello(1), REQUEST, SessionReplay.Stamp("b", 30_000));
  }

  lemma SecondSuccess(ws: seq<World>, acts: seq<Action>)
    requires |acts| == 4 < |ws| && ws[3] == AfterRedeem(1) && acts[3] == REPLAY
    ensures SessionReplay.Success(ws, acts, 3, SessionReplay.Stamp("b", 30_000))
  {
    ReplaySucceeds();
    SuccessFrom(ws, acts, 3, AfterRedeem(1), REPLAY, SessionReplay.Stamp("b", 30_000));
  }

  /** The very same payload, sent again a minute later, is granted a second time. */
  lemma PayloadGrantedTwice() returns (ws: seq<World>, acts: seq<Action>)
    ensures IsRun(ws, acts) && SessionReplay.Clocked(acts) && |acts| == 4
    ensures acts[2].AuthLicense? && acts[3].AuthLicense? && acts[3].env == acts[2].env
    ensures SessionReplay.Success(ws, acts, 2, SessionReplay.Stamp("b", 30_000))
    ensures SessionReplay.Success(ws, acts, 3, SessionReplay.Stamp("b", 30_000))
  {
    ws := [START] + [AfterSetup(1)] + [AfterHello(1)] + [AfterRedeem(1)] + [AfterReplay()];
    acts := ReplayActs();
    ReplayRun(ws);
    ReplayClocked();
    FirstSuccess(ws, acts);
    SecondSuccess(ws, acts);
  }
}

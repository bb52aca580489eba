/** The in-memory cache of backend/internal/cache/cache.go: one mutex around one
    map, so that every method is one atomic step. Times are nanoseconds. */
module Cache {
  import opened Basics

  datatype SessionData = SessionData(appID: string, sessionID: string, licenseID: string, userID: string,
                                     hwid: string, tierLevel: int, encryptionKey: string, macKey: string,
                                     createdAt: int, expiresAt: int)

  // The dynamic types that the callers store under a key.
  datatype Value = Text(text: string) | Counter(count: int) | Session(data: SessionData)

  // expiresAt == None is Go's zero time: an item that never expires.
  datatype Item = Item(value: Value, expiresAt: Option<int>)

  type Items = map<string, Item>

  // The test of SetNonce and IncrementRateLimit, and the test of the readers and the
  // janitor. At now == expiresAt an item neither blocks nor is stale.
  predicate Blocks(item: Item, now: int) {
    item.expiresAt.None? || item.expiresAt.value > now
  }

  predicate Stale(item: Item, now: int) {
    item.expiresAt.Some? && now > item.expiresAt.value
  }

  function NonceKey(nonce: string): string {
    "nonce:" + nonce
  }

  function SessionKey(token: string): string {
    "session:" + token
  }

  datatype Op =
    | Set(key: string, value: Value, ttl: int)
    | Get(key: string)
    | Delete(key: string)
    | SetNonce(nonce: string, ttl: int)
    | Increment(key: string, ttl: int)
    | StoreSession(token: string, data: SessionData, ttl: int)
    | GetSession(token: string)
    | DeleteSession(token: string)
    | Sweep

  datatype Event = Event(now: int, op: Op)

  datatype Reply = Done | Found(value: Option<Value>) | Fresh(isNew: bool) | Counted(count: int)

  /** The only key that a method other than the janitor's sweep reads or writes. */
  function KeyOf(op: Op): (key: string)
    requires !op.Sweep?
  {
    match op
    case Set(k, _, _) => k
    case Get(k) => k
    case Delete(k) => k
    case SetNonce(n, _) => NonceKey(n)
    case Increment(k, _) => k
    case StoreSession(t, _, _) => SessionKey(t)
    case GetSession(t) => SessionKey(t)
    case DeleteSession(t) => SessionKey(t)
  }

  function Lookup(items: Items, key: string): Option<Item> {
    if key in items then Some(items[key]) else None
  }

  function Put(items: Items, key: string, slot: Option<Item>): (r: Items)
    ensures forall k :: Lookup(r, k) == if k == key then slot else Lookup(items, k)
    ensures slot == Lookup(items, key) ==> r == items
  {
    if slot.Some? then items[key := slot.value] else items - {key}
  }

  function Readable(slot: Option<Item>, now: int): Option<Value> {
    if slot.None? || Stale(slot.value, now) then None else Some(slot.value.value)
  }

  /** What a method does to the slot it addresses, and what it answers. */
  function Act(slot: Option<Item>, e: Event): (r: (Option<Item>, Reply))
    requires !e.op.Sweep?
  {
    match e.op
    case Set(_, v, ttl) =>
      (Some(Item(v, if ttl > 0 then Some(e.now + ttl) else None)), Done)
    case Get(_) => (slot, Found(Readable(slot, e.now)))
    case Delete(_) => (None, Done)
    case SetNonce(_, ttl) =>
      if slot.Some? && Blocks(slot.value, e.now) then (slot, Fresh(false))
      else (Some(Item(Text("1"), Some(e.now + ttl))), Fresh(true))
    case Increment(_, ttl) =>
      if slot.Some? && Blocks(slot.value, e.now) then
        var n := if slot.value.value.Counter? then slot.value.value.count + 1 else 1;
        (Some(slot.value.(value := Counter(n))), Counted(n))
      else (Some(Item(Counter(1), Some(e.now + ttl))), Counted(1))
    case StoreSession(_, d, ttl) => (Some(Item(Session(d), Some(e.now + ttl))), Done)
    case GetSession(_) =>
      var v := Readable(slot, e.now);
      (slot, Found(if v.Some? && v.value.Session? then v else None))
    case DeleteSession(_) => (None, Done)
  }

  function Swept(items: Items, now: int): Items {
    map k | k in items && !Stale(items[k], now) :: items[k]
  }

  function Step(items: Items, e: Event): (Items, Reply) {
    if e.op.Sweep? then (Swept(items, e.now), Done)
    else
      var (slot, reply) := Act(Lookup(items, KeyOf(e.op)), e);
      (Put(items, KeyOf(e.op), slot), reply)
  }

  function SessionOf(items: Items, token: string, now: int): Option<SessionData> {
    match Readable(Lookup(items, SessionKey(token)), now)
    case Some(Session(d)) => Some(d)
    case _ => None
  }

  class MemoryCache {
    var items: Items

    constructor ()
      ensures items == map[]
    {
      items := map[];
    }

    /** One pass of the janitor goroutine, which visits the keys in any order. */
    method Sweep(now: int)
      modifies this
      ensures items == Step(old(items), Event(now, Op.Sweep)).0
    {
      var todo := items.Keys;
      while todo != {}
        invariant todo <= old(items).Keys
        invariant items == map k | k in old(items) && (k in todo || !Stale(old(items)[k], now)) :: old(items)[k]
        decreases |todo|
      {
        var k :| k in todo;
        if Stale(items[k], now) {
          items := items - {k};
        }
        todo := todo - {k};
      }
    }

    method Set(now: int, key: string, value: Value, ttl: int)
      modifies this
      ensures items == Step(old(items), Event(now, Op.Set(key, value, ttl))).0
    {
      var exp := None;
      if ttl > 0 {
        exp := Some(now + ttl);
      }
      items := items[key := Item(value, exp)];
    }

    method Get(now: int, key: string) returns (r: Option<Value>)
      ensures (items, Found(r)) == Step(items, Event(now, Op.Get(key)))
    {
      if key !in items || Stale(items[key], now) {
        return None;
      }
      return Some(items[key].value);
    }

    method Delete(key: string)
      modifies this
      ensures forall now :: items == Step(old(items), Event(now, Op.Delete(key))).0
    {
      items := items - {key};
    }

    method SetNonce(now: int, nonce: string, ttl: int) returns (isNew: bool)
      modifies this
      ensures (items, Fresh(isNew)) == Step(old(items), Event(now, Op.SetNonce(nonce, ttl)))
    {
      var key := NonceKey(nonce);
      if key in items && Blocks(items[key], now) {
        return false;
      }
      items := items[key := Item(Text("1"), Some(now + ttl))];
      return true;
    }

    method IncrementRateLimit(now: int, key: string, ttl: int) returns (count: int)
      modifies this
      ensures (items, Counted(count)) == Step(old(items), Event(now, Increment(key, ttl)))
    {
      count := 1;
      if key in items && Blocks(items[key], now) {
        if items[key].value.Counter? {
          count := items[key].value.count + 1;
        }
        items := items[key := Item(Counter(count), items[key].expiresAt)];
      } else {
        items := items[key := Item(Counter(count), Some(now + ttl))];
      }
    }

    method StoreSession(now: int, token: string, data: SessionData, ttl: int)
      modifies this
      ensures items == Step(old(items), Event(now, Op.StoreSession(token, data, ttl))).0
    {
      items := items[SessionKey(token) := Item(Session(data), Some(now + ttl))];
    }

    method GetSession(now: int, token: string) returns (r: Option<SessionData>)
      ensures Step(items, Event(now, Op.GetSession(token)))
           == (items, Found(if r.Some? then Some(Session(r.value)) else None))
      ensures r == SessionOf(items, token, now)
    {
      var key := SessionKey(token);
      if key !in items || Stale(items[key], now) {
        return None;
      }
      match items[key].value
      case Session(data) => return Some(data);
      case _ => return None;
    }

    method DeleteSession(token: string)
      modifies this
      ensures forall now :: items == Step(old(items), Event(now, Op.DeleteSession(token))).0
    {
      items := items - {SessionKey(token)};
    }
  }

  // ------------------------------------------------------------------
  // Runs
  // ------------------------------------------------------------------

  function After(items: Items, es: seq<Event>): Items {
    if es == [] then items else Step(After(items, es[..|es| - 1]), es[|es| - 1]).0
  }

  ghost predicate Ordered(es: seq<Event>) {
    forall i, j :: 0 <= i <= j < |es| ==> es[i].now <= es[j].now
  }

  /** A step changes no slot but the one it addresses, and a sweep drops stale slots only. */
  lemma StepAt(items: Items, e: Event, key: string)
    ensures Lookup(Step(items, e).0, key) ==
            if e.op.Sweep? then
              (if key in items && Stale(items[key], e.now) then None else Lookup(items, key))
            else if KeyOf(e.op) == key then Act(Lookup(items, key), e).0
            else Lookup(items, key)
  {
  }

  /** The answers that the callers of a run see; a sweep answers nobody. */
  function Replies(items: Items, es: seq<Event>): seq<Reply> {
    if es == [] then []
    else
      var front, last := es[..|es| - 1], es[|es| - 1];
      if last.op.Sweep? then Replies(items, front)
      else Replies(items, front) + [Step(After(items, front), last).1]
  }

  /** The same run without its janitor. */
  function Unswept(es: seq<Event>): (r: seq<Event>) {
    if es == [] then []
    else
      var front, last := es[..|es| - 1], es[|es| - 1];
      if last.op.Sweep? then Unswept(front) else Unswept(front) + [last]
  }

  /** Equal slots, except that the swept cache may lack an item that is already stale. */
  predicate Similar(swept: Option<Item>, lazy: Option<Item>, now: int) {
    swept == lazy || (swept.None? && lazy.Some? && Stale(lazy.value, now))
  }

  ghost predicate Simulates(swept: Items, lazy: Items, now: int) {
    forall k :: Similar(Lookup(swept, k), Lookup(lazy, k), now)
  }

  lemma StepSimulates(swept: Items, lazy: Items, e: Event)
    requires Simulates(swept, lazy, e.now)
    ensures Simulates(Step(swept, e).0, if e.op.Sweep? then lazy else Step(lazy, e).0, e.now)
    ensures !e.op.Sweep? ==> Step(swept, e).1 == Step(lazy, e).1
  {
  }

  lemma SimulatesLater(swept: Items, lazy: Items, now: int, later: int)
    requires Simulates(swept, lazy, now) && now <= later
    ensures Simulates(swept, lazy, later)
  {
  }

  /** Forward simulation along a whole run. */
  lemma {:induction false} JanitorSimulates(items: Items, es: seq<Event>, now: int)
    requires Ordered(es) && (es != [] ==> es[|es| - 1].now <= now)
    ensures Simulates(After(items, es), After(items, Unswept(es)), now)
    ensures Replies(items, es) == Replies(items, Unswept(es))
  {
    if es != [] {
      var front, last := es[..|es| - 1], es[|es| - 1];
      var lazy := Unswept(front);
      JanitorSimulates(items, front, last.now);
      StepSimulates(After(items, front), After(items, lazy), last);
      if last.op.Sweep? {
        assert Unswept(es) == lazy;
      } else {
        assert Unswept(es) == lazy + [last] && (lazy + [last])[..|lazy|] == lazy;
      }
      SimulatesLater(After(items, es), After(items, Unswept(es)), last.now, now);
    }
  }

  /** Wherever the sweeps of two runs are placed, and however many there are, the callers see
      the same answers as long as they make the same calls. */
  lemma JanitorUnobservable(items: Items, es: seq<Event>, fs: seq<Event>)
    requires Ordered(es) && Ordered(fs) && Unswept(es) == Unswept(fs)
    ensures Replies(items, es) == Replies(items, fs)
  {
    JanitorSimulates(items, es, if es == [] then 0 else es[|es| - 1].now);
    JanitorSimulates(items, fs, if fs == [] then 0 else fs[|fs| - 1].now);
  }

  // ------------------------------------------------------------------
  // Reading back
  // ------------------------------------------------------------------

  // Sweeps aside, no step of the run addresses the key.
  ghost predicate Leaves(es: seq<Event>, key: string) {
    forall i :: 0 <= i < |es| && !es[i].op.Sweep? ==> KeyOf(es[i].op) != key
  }

  // An ordered run up to now that leaves the key alone.
  ghost predicate Meanwhile(es: seq<Event>, key: string, now: int) {
    Ordered(es) && Leaves(es, key) && (es != [] ==> es[|es| - 1].now <= now)
  }

  lemma {:induction false} SlotKept(items: Items, es: seq<Event>, key: string, now: int)
    requires Meanwhile(es, key, now)
    ensures Similar(Lookup(After(items, es), key), Lookup(items, key), now)
  {
    if es != [] {
      var front, last := es[..|es| - 1], es[|es| - 1];
      SlotKept(items, front, key, last.now);
      StepAt(After(items, front), last, key);
    }
  }

  /** Whatever happens to other keys and however often the cache is swept, a value is read back up
      to and at its deadline, for ever without one, and not afterwards. */
  lemma SetReadsBack(items: Items, at: int, key: string, value: Value, ttl: int, es: seq<Event>, now: int)
    requires Meanwhile(es, key, now)
    ensures Step(After(Step(items, Event(at, Op.Set(key, value, ttl))).0, es), Event(now, Op.Get(key))).1
         == Found(if ttl <= 0 || now <= at + ttl then Some(value) else None)
  {
    SlotKept(Step(items, Event(at, Op.Set(key, value, ttl))).0, es, key, now);
  }

  /** So is a session, and by GetSession as by the function that the theorems about sessions use. */
  lemma SessionReadsBack(items: Items, at: int, token: string, d: SessionData, ttl: int, es: seq<Event>, now: int)
    requires Meanwhile(es, SessionKey(token), now)
    ensures var later := After(Step(items, Event(at, Op.StoreSession(token, d, ttl))).0, es);
            && SessionOf(later, token, now) == (if now <= at + ttl then Some(d) else None)
            && Step(later, Event(now, Op.GetSession(token))).1
            == Found(if now <= at + ttl then Some(Session(d)) else None)
  {
    SlotKept(Step(items, Event(at, Op.StoreSession(token, d, ttl))).0, es, SessionKey(token), now);
  }

  /** And nothing is read back after a deletion. */
  lemma DeletedReadsNothing(items: Items, at: int, key: string, token: string, es: seq<Event>, fs: seq<Event>, now: int)
    requires Meanwhile(es, key, now) && Meanwhile(fs, SessionKey(token), now)
    ensures Step(After(Step(items, Event(at, Op.Delete(key))).0, es), Event(now, Op.Get(key))).1 == Found(None)
    ensures Step(After(Step(items, Event(at, Op.DeleteSession(token))).0, fs), Event(now, Op.GetSession(token))).1
         == Found(None)
  {
    SlotKept(Step(items, Event(at, Op.Delete(key))).0, es, key, now);
    SlotKept(Step(items, Event(at, Op.DeleteSession(token))).0, fs, SessionKey(token), now);
  }
}

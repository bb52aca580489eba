/** The variable and user tables of backend/internal/repository/memory_store.go: maps keyed by
    record ID that are searched, in Go's arbitrary map order, for a pair of names. */
module KeyedTables {
  import opened Basics

  datatype Row<K, V> = Row(key: K, value: V)

  type Table<K, V> = map<string, Row<K, V>>

  ghost predicate Unique<K, V>(t: Table<K, V>) {
    forall i, j :: i in t && j in t && t[i].key == t[j].key ==> i == j
  }

  /** The partial map that a table stands for: from a key to the ID and value of its row. */
  ghost function Abstract<K, V>(t: Table<K, V>): (m: map<K, (string, V)>)
    requires Unique(t)
    ensures forall i :: i in t ==> t[i].key in m && m[t[i].key] == (i, t[i].value)
    ensures forall k :: k in m ==> m[k].0 in t && t[m[k].0] == Row(k, m[k].1)
  {
    map i | i in t :: t[i].key := (i, t[i].value)
  }

  /** A scan in any order, as the methods below write it out. */
  method Find<K(==), V>(t: Table<K, V>, key: K) returns (r: Option<string>)
    ensures r.Some? ==> r.value in t && t[r.value].key == key
    ensures r.None? ==> forall i :: i in t ==> t[i].key != key
  {
    var todo := t.Keys;
    while todo != {}
      invariant todo <= t.Keys
      invariant forall i :: i in t && i !in todo ==> t[i].key != key
      decreases |todo|
    {
      var i :| i in todo;
      if t[i].key == key {
        return Some(i);
      }
      todo := todo - {i};
    }
    return None;
  }

  // ------------------------------------------------------------------
  // Operations on the partial map
  // ------------------------------------------------------------------

  function Upserted<K, V>(m: map<K, (string, V)>, key: K, value: V, newID: string): map<K, (string, V)> {
    m[key := (if key in m then m[key].0 else newID, value)]
  }

  function Removed<K, V>(m: map<K, (string, V)>, id: string): map<K, (string, V)> {
    map k | k in m && m[k].0 != id :: m[k]
  }

  function Amended<K, V>(m: map<K, (string, V)>, id: string, value: V): map<K, (string, V)> {
    map k | k in m :: if m[k].0 == id then (id, value) else m[k]
  }

  // A map that has the rows of the table, and nothing else, is what the table stands for.
  lemma AbstractIs<K, V>(t: Table<K, V>, m: map<K, (string, V)>)
    requires Unique(t)
    requires forall i :: i in t ==> t[i].key in m && m[t[i].key] == (i, t[i].value)
    requires forall k :: k in m ==> m[k].0 in t && t[m[k].0].key == k
    ensures Abstract(t) == m
  {
  }

  lemma PutAbstracts<K, V>(t: Table<K, V>, id: string, row: Row<K, V>)
    requires Unique(t) && forall i :: i in t && t[i].key == row.key ==> i == id
    requires id in t ==> t[id].key == row.key
    ensures Unique(t[id := row])
    ensures Abstract(t[id := row]) == Abstract(t)[row.key := (id, row.value)]
  {
    AbstractIs(t[id := row], Abstract(t)[row.key := (id, row.value)]);
  }

  lemma DeleteAbstracts<K, V>(t: Table<K, V>, id: string)
    requires Unique(t)
    ensures Unique(t - {id})
    ensures Abstract(t - {id}) == Removed(Abstract(t), id)
  {
    AbstractIs(t - {id}, Removed(Abstract(t), id));
  }

  lemma AmendAbstracts<K, V>(t: Table<K, V>, id: string, value: V)
    requires Unique(t) && id in t
    ensures Unique(t[id := Row(t[id].key, value)])
    ensures Abstract(t[id := Row(t[id].key, value)]) == Amended(Abstract(t), id, value)
  {
    var t' := t[id := Row(t[id].key, value)];
    assert forall i :: i in t' ==> t'[i].key == t[i].key;
    AbstractIs(t', Amended(Abstract(t), id, value));
  }

  // ------------------------------------------------------------------
  // Variables
  // ------------------------------------------------------------------

  type Name = (string, string) // application, and variable key or user name

  datatype Variable = Variable(varValue: string, minTierLevel: int, isSecret: bool)

  class VariableRepo {
    var rows: Table<Name, Variable>

    constructor ()
      ensures rows == map[]
    {
      rows := map[];
    }

    method Create(name: Name, v: Variable, newID: string)
      requires Unique(rows) && newID !in rows
      modifies this
      ensures Unique(rows)
      ensures Abstract(rows) == Upserted(old(Abstract(rows)), name, v, newID)
    {
      var found := Find(rows, name);
      if found.Some? {
        PutAbstracts(rows, found.value, Row(name, v));
        rows := rows[found.value := rows[found.value].(value := v)];
      } else {
        PutAbstracts(rows, newID, Row(name, v));
        rows := rows[newID := Row(name, v)];
      }
    }

    method GetByKey(name: Name) returns (r: Option<Variable>)
      requires Unique(rows)
      ensures r == if name in Abstract(rows) then Some(Abstract(rows)[name].1) else None
    {
      var found := Find(rows, name);
      if found.None? {
        return None;
      }
      return Some(rows[found.value].value);
    }

    method Delete(id: string)
      requires Unique(rows)
      modifies this
      ensures Unique(rows)
      ensures Abstract(rows) == Removed(old(Abstract(rows)), id)
    {
      DeleteAbstracts(rows, id);
      rows := rows - {id};
    }
  }

  // ------------------------------------------------------------------
  // Users
  // ------------------------------------------------------------------

  datatype User = User(passwordHash: string, hwidHash: Option<string>, ipAddress: Option<string>,
                       isBanned: bool, banReason: Option<string>, lastLoginAt: Option<int>)

  function LoggedIn(u: User, ip: string, hwid: string, now: int): User {
    u.(ipAddress := Some(ip), hwidHash := if u.hwidHash.None? then Some(hwid) else u.hwidHash, lastLoginAt := Some(now))
  }

  class UserRepo {
    var rows: Table<Name, User>

    constructor ()
      ensures rows == map[]
    {
      rows := map[];
    }

    /** Inserts if the name is free; ok is false if it is taken. */
    method Create(name: Name, u: User, newID: string) returns (ok: bool)
      requires Unique(rows) && newID !in rows
      modifies this
      ensures Unique(rows)
      ensures ok == (name !in old(Abstract(rows)))
      ensures Abstract(rows) == if ok then Upserted(old(Abstract(rows)), name, u, newID) else old(Abstract(rows))
    {
      var found := Find(rows, name);
      if found.Some? {
        return false;
      }
      PutAbstracts(rows, newID, Row(name, u));
      rows := rows[newID := Row(name, u)];
      return true;
    }

    method GetByUsername(name: Name) returns (r: Option<(string, User)>)
      requires Unique(rows)
      ensures r == if name in Abstract(rows) then Some(Abstract(rows)[name]) else None
    {
      var found := Find(rows, name);
      if found.None? {
        return None;
      }
      return Some((found.value, rows[found.value].value));
    }

    method UpdateLogin(id: string, ip: string, hwid: string, now: int)
      requires Unique(rows)
      modifies this
      ensures Unique(rows)
      ensures rows == if id in old(rows)
                      then old(rows)[id := Row(old(rows)[id].key, LoggedIn(old(rows)[id].value, ip, hwid, now))]
                      else old(rows)
      ensures id in old(rows) ==>
                var u, u' := old(rows)[id].value, rows[id].value;
                u' == u.(ipAddress := Some(ip), lastLoginAt := Some(now),
                         hwidHash := Some(if u.hwidHash.Some? then u.hwidHash.value else hwid))
    {
      if id in rows {
        var u := rows[id].value;
        u := u.(ipAddress := Some(ip));
        if u.hwidHash.None? {
          u := u.(hwidHash := Some(hwid));
        }
        u := u.(lastLoginAt := Some(now));
        rows := rows[id := rows[id].(value := u)];
      }
    }

    method SetBan(id: string, isBanned: bool, reason: Option<string>)
      requires Unique(rows)
      modifies this
      ensures Unique(rows)
      ensures rows.Keys == old(rows).Keys
      ensures forall i :: i in rows ==>
                var u := old(rows)[i].value;
                && rows[i].key == old(rows)[i].key
                && rows[i].value == if i == id then u.(isBanned := isBanned, banReason := reason) else u
    {
      if id in rows {
        rows := rows[id := rows[id].(value := rows[id].value.(isBanned := isBanned, banReason := reason))];
      }
    }

    method Delete(id: string)
      requires Unique(rows)
      modifies this
      ensures Unique(rows)
      ensures Abstract(rows) == Removed(old(Abstract(rows)), id)
    {
      DeleteAbstracts(rows, id);
      rows := rows - {id};
    }
  }

  // ------------------------------------------------------------------
  // Runs
  // ------------------------------------------------------------------

  datatype TableOp<K, V> =
    | Upsert(key: K, value: V, newID: string)
    | Insert(key: K, value: V, newID: string)
    | Amend(id: string, value: V)
    | Remove(id: string)

  ghost predicate Holds<K, V>(t: Table<K, V>, key: K, i: string) {
    i in t && t[i].key == key
  }

  /** One operation, whichever row of the key its scan comes upon. The store assumes that the
      UUIDs it draws are new. */
  ghost predicate Next<K, V>(t: Table<K, V>, op: TableOp<K, V>, t': Table<K, V>) {
    match op
    case Upsert(k, v, id) =>
      || (exists i :: Holds(t, k, i) && t' == t[i := Row(k, v)])
      || ((forall i :: !Holds(t, k, i)) && id !in t && t' == t[id := Row(k, v)])
    case Insert(k, v, id) =>
      || ((exists i :: Holds(t, k, i)) && t' == t)
      || ((forall i :: !Holds(t, k, i)) && id !in t && t' == t[id := Row(k, v)])
    case Amend(id, v) => t' == if id in t then t[id := Row(t[id].key, v)] else t
    case Remove(id) => t' == t - {id}
  }

  ghost predicate IsRun<K, V>(ts: seq<Table<K, V>>, ops: seq<TableOp<K, V>>) {
    && |ts| == |ops| + 1 && ts[0] == map[]
    && forall i :: 0 <= i < |ops| ==> Next(ts[i], ops[i], ts[i + 1])
  }

  function Apply<K, V>(m: map<K, (string, V)>, op: TableOp<K, V>): map<K, (string, V)> {
    match op
    case Upsert(k, v, id) => Upserted(m, k, v, id)
    case Insert(k, v, id) => if k in m then m else Upserted(m, k, v, id)
    case Amend(id, v) => Amended(m, id, v)
    case Remove(id) => Removed(m, id)
  }

  function ApplyAll<K, V>(ops: seq<TableOp<K, V>>): map<K, (string, V)> {
    if ops == [] then map[] else Apply(ApplyAll(ops[..|ops| - 1]), ops[|ops| - 1])
  }

  // What the partial map holds after an operation, key by key.
  lemma ApplyReads<K, V>(m: map<K, (string, V)>, op: TableOp<K, V>, key: K)
    ensures var m' := Apply(m, op);
            match op
            case Upsert(k, v, id) =>
              if key == k then key in m' && m'[key] == (if k in m then m[k].0 else id, v)
              else (key in m' <==> key in m) && (key in m ==> m'[key] == m[key])
            case Insert(k, v, id) =>
              if key == k && k !in m then key in m' && m'[key] == (id, v)
              else (key in m' <==> key in m) && (key in m ==> m'[key] == m[key])
            case Amend(id, v) =>
              && (key in m' <==> key in m)
              && (key in m ==> m'[key] == if m[key].0 == id then (id, v) else m[key])
            case Remove(id) =>
              && (key in m' <==> key in m && m[key].0 != id)
              && (key in m' ==> m'[key] == m[key])
  {
  }

  lemma UpdateRefines<K, V>(t: Table<K, V>, k: K, v: V, newID: string, i: string)
    requires Unique(t) && Holds(t, k, i)
    ensures k in Abstract(t) && Unique(t[i := Row(k, v)])
    ensures Abstract(t[i := Row(k, v)]) == Upserted(Abstract(t), k, v, newID)
  {
    PutAbstracts(t, i, Row(k, v));
  }

  lemma AddRefines<K, V>(t: Table<K, V>, k: K, v: V, newID: string)
    requires Unique(t) && newID !in t && forall i :: !Holds(t, k, i)
    ensures k !in Abstract(t) && Unique(t[newID := Row(k, v)])
    ensures Abstract(t[newID := Row(k, v)]) == Upserted(Abstract(t), k, v, newID)
  {
    assert k in Abstract(t) ==> Holds(t, k, Abstract(t)[k].0);
    forall i | i in t ensures t[i].key != k {
      assert !Holds(t, k, i);
    }
    PutAbstracts(t, newID, Row(k, v));
  }

  lemma AmendRefines<K, V>(t: Table<K, V>, id: string, value: V)
    requires Unique(t)
    ensures id in t ==> Unique(t[id := Row(t[id].key, value)])
    ensures Abstract(if id in t then t[id := Row(t[id].key, value)] else t) == Amended(Abstract(t), id, value)
  {
    if id in t {
      AmendAbstracts(t, id, value);
    } else {
      assert Amended(Abstract(t), id, value) == Abstract(t);
    }
  }

  lemma NextRefines<K, V>(t: Table<K, V>, op: TableOp<K, V>, t': Table<K, V>)
    requires Unique(t) && Next(t, op, t')
    ensures Unique(t') && Abstract(t') == Apply(Abstract(t), op)
  {
    if op.Remove? {
      DeleteAbstracts(t, op.id);
    } else if op.Amend? {
      AmendRefines(t, op.id, op.value);
    } else if i :| Holds(t, op.key, i) && (op.Upsert? ==> t' == t[i := Row(op.key, op.value)]) {
      UpdateRefines(t, op.key, op.value, op.newID, i);
    } else {
      AddRefines(t, op.key, op.value, op.newID);
    }
  }

  /** Under every sequence of upserts, insertions, amendments by ID and deletions, and every order of every scan,
      the table stands for the partial map to which the same operations lead. */
  lemma {:induction false} TableRefinesMap<K, V>(ts: seq<Table<K, V>>, ops: seq<TableOp<K, V>>)
    requires IsRun(ts, ops)
    ensures Unique(ts[|ops|]) && Abstract(ts[|ops|]) == ApplyAll(ops)
  {
    if ops != [] {
      var n := |ops| - 1;
      TableRefinesMap(ts[..n + 1], ops[..n]);
      NextRefines(ts[n], ops[n], ts[n + 1]);
    }
  }

  // The rows of a table can be read off the partial map.
  lemma AbstractInjective<K, V>(t: Table<K, V>, u: Table<K, V>)
    requires Unique(t) && Unique(u) && Abstract(t) == Abstract(u)
    ensures t == u
  {
    forall i | i in t ensures i in u && t[i] == u[i] {
      assert Abstract(u)[t[i].key] == (i, t[i].value);
    }
    forall i | i in u ensures i in t {
      assert Abstract(t)[u[i].key] == (i, u[i].value);
    }
  }

  /** So two runs of the same operations, whatever the orders of their scans, have the same table,
      and no lookup, whether it finds a row or none, can tell them apart. */
  lemma ScanOrderIrrelevant<K, V>(ts: seq<Table<K, V>>, us: seq<Table<K, V>>, ops: seq<TableOp<K, V>>)
    requires IsRun(ts, ops) && IsRun(us, ops)
    ensures ts[|ops|] == us[|ops|]
  {
    TableRefinesMap(ts, ops);
    TableRefinesMap(us, ops);
    AbstractInjective(ts[|ops|], us[|ops|]);
  }
}

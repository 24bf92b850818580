/** Regenerating a log from the data set (aof.c, rewriteAppendOnlyFileRio and the
    rewrite*Object functions): containers are emitted in batches of at most `limit` items. */
module Rewriter {
  import opened Common
  import opened Resp
  import opened Dataset
  import opened AofLog

  function LiveDb(d: Db, now: int): Db { map k | k in d && !Expired(d[k], now) :: d[k] }

  /** The data set without the keys already past their expiry. */
  function LiveAt(dbs: Dbs, now: int): (r: Dbs)
    ensures |r| == |dbs|
  {
    seq(|dbs|, j requires 0 <= j < |dbs| => LiveDb(dbs[j], now))
  }

  // ---- What is written for one value ----

  function Flat(items: seq<seq<Bytes>>): seq<Bytes> {
    if items == [] then [] else items[0] + Flat(items[1..])
  }

  function Min(a: nat, b: nat): nat { if a < b then a else b }

  /** The items in batches, each one variadic command. */
  function Batches(name: Bytes, key: Key, items: seq<seq<Bytes>>, limit: nat): seq<Cmd>
    requires limit > 0
    decreases |items|
  {
    if items == [] then []
    else
      var n := Min(limit, |items|);
      [Update([name, key] + Flat(items[..n]))] + Batches(name, key, items[n..], limit)
  }

  function Singles(elems: seq<Bytes>): seq<seq<Bytes>> {
    if elems == [] then [] else [[elems[0]]] + Singles(elems[1..])
  }

  /** Key and value of each element: field first for a hash, score first for a sorted set. */
  function Pairs(elems: seq<Bytes>, m: map<Bytes, Bytes>, keyFirst: bool): seq<seq<Bytes>>
    requires forall x :: x in elems ==> x in m
  {
    if elems == [] then []
    else [if keyFirst then [elems[0], m[elems[0]]] else [m[elems[0]], elems[0]]] + Pairs(elems[1..], m, keyFirst)
  }

  /** The order in which the iterators happen to visit a key's elements. */
  datatype KeyPlan = KeyPlan(key: Key, elems: seq<Bytes>)

  predicate PlanFor(elems: seq<Bytes>, v: Value) {
    match v
    case Str(_) => true
    case List(l) => elems == l
    case Set(m) => ElementsOf(elems) == m
    case ZSet(m) => ElementsOf(elems) == m.Keys
    case Hash(m) => ElementsOf(elems) == m.Keys
  }

  function ValueCmds(key: Key, elems: seq<Bytes>, v: Value, limit: nat): seq<Cmd>
    requires limit > 0 && PlanFor(elems, v)
  {
    match v
    case Str(s) => [SetCmd(key, s, [])]
    case List(_) => Batches("RPUSH", key, Singles(elems), limit)
    case Set(_) => Batches("SADD", key, Singles(elems), limit)
    case ZSet(m) => (assert forall x :: x in elems ==> x in ElementsOf(elems);
                     Batches("ZADD", key, Pairs(elems, m, false), limit))
    case Hash(m) => (assert forall x :: x in elems ==> x in ElementsOf(elems);
                     Batches("HMSET", key, Pairs(elems, m, true), limit))
  }

  function EntryCmds(key: Key, elems: seq<Bytes>, e: Entry, limit: nat): seq<Cmd>
    requires limit > 0 && PlanFor(elems, e.value)
  {
    ValueCmds(key, elems, e.value, limit) + if e.expire.Some? then [PExpireAt(key, e.expire.value)] else []
  }

  // ---- Batching changes nothing ----

  lemma {:induction false} FlatConcat(a: seq<seq<Bytes>>, b: seq<seq<Bytes>>)
    ensures Flat(a + b) == Flat(a) + Flat(b)
  {
    if a == [] {
      assert a + b == b;
    } else {
      assert (a + b)[1..] == a[1..] + b;
      FlatConcat(a[1..], b);
    }
  }

  predicate Width(items: seq<seq<Bytes>>, w: nat) { forall i :: 0 <= i < |items| ==> |items[i]| == w }

  lemma {:induction false} FlatLength(items: seq<seq<Bytes>>, w: nat)
    requires Width(items, w)
    ensures |Flat(items)| == w * |items|
  {
    if items != [] {
      FlatLength(items[1..], w);
      assert w * |items| == w + w * (|items| - 1);
    }
  }

  lemma {:induction false} PutPairsConcat(m: map<Bytes, Bytes>, a: seq<Bytes>, b: seq<Bytes>, keyFirst: bool)
    requires |a| % 2 == 0
    ensures PutPairs(m, a + b, keyFirst) == PutPairs(PutPairs(m, a, keyFirst), b, keyFirst)
    decreases |a|
  {
    if a == [] {
      assert a + b == b;
    } else {
      assert (a + b)[2..] == a[2..] + b;
      PutPairsConcat(if keyFirst then m[a[0] := a[1]] else m[a[1] := a[0]], a[2..], b, keyFirst);
    }
  }

  lemma {:induction false} PutPairsNonEmpty(m: map<Bytes, Bytes>, args: seq<Bytes>, keyFirst: bool)
    requires m != map[] || |args| >= 2
    ensures PutPairs(m, args, keyFirst) != map[]
    decreases |args|
  {
    if |args| >= 2 {
      var m' := if keyFirst then m[args[0] := args[1]] else m[args[1] := args[0]];
      assert (if keyFirst then args[0] else args[1]) in m';
      PutPairsNonEmpty(m', args[2..], keyFirst);
    }
  }

  predicate Batched(name: Bytes) { name in {"RPUSH", "SADD", "ZADD", "HMSET"} }

  function WidthOf(name: Bytes): nat { if name == "ZADD" || name == "HMSET" then 2 else 1 }

  /** Does the value have the type the command works on? */
  predicate TypeFor(name: Bytes, v: Option<Value>) {
    v.Some? ==>
      && !EmptyContainer(v.value)
      && (name == "RPUSH" ==> v.value.List?)
      && (name == "SADD" ==> v.value.Set?)
      && (name == "ZADD" ==> v.value.ZSet?)
      && (name == "HMSET" ==> v.value.Hash?)
  }

  function Act(name: Bytes, key: Key, args: seq<Bytes>, v: Option<Value>, eff: Effect): Option<Value> {
    NewValue([name, key] + args, v, eff)
  }

  lemma ActIs(name: Bytes, key: Key, args: seq<Bytes>, v: Option<Value>, eff: Effect)
    requires Batched(name) && args != [] && |args| % WidthOf(name) == 0 && TypeFor(name, v)
    ensures Act(name, key, args, v, eff)
            == (if name == "RPUSH" then PushEffect(args, v)
                else if name == "SADD" then AddEffect(args, v)
                else if name == "ZADD" then ZAddEffect(args, v)
                else HMSetEffect(args, v))
    ensures Act(name, key, args, v, eff).Some? && TypeFor(name, Act(name, key, args, v, eff))
  {
    assert ([name, key] + args)[2..] == args;
    if name == "SADD" {
      assert args[0] in ElementsOf(args);
    } else if name != "RPUSH" {
      PutPairsNonEmpty(if v.None? then map[] else if name == "ZADD" then v.value.scores else v.value.fields,
                       args, name == "HMSET");
    }
  }

  /** One command with all the arguments, or two with a part each: the same value. */
  lemma ActConcat(name: Bytes, key: Key, a: seq<Bytes>, b: seq<Bytes>, v: Option<Value>, eff: Effect)
    requires Batched(name) && a != [] && b != [] && TypeFor(name, v)
    requires |a| % WidthOf(name) == 0 && |b| % WidthOf(name) == 0
    ensures Act(name, key, a + b, v, eff) == Act(name, key, b, Act(name, key, a, v, eff), eff)
  {
    ActIs(name, key, a, v, eff);
    ActIs(name, key, b, Act(name, key, a, v, eff), eff);
    ActIs(name, key, a + b, v, eff);
    if name == "RPUSH" {
      if v.Some? { Assoc(v.value.items, a, b); }
    } else if name == "SADD" {
      assert ElementsOf(a + b) == ElementsOf(a) + ElementsOf(b);
      if v.Some? { assert v.value.members + ElementsOf(a) + ElementsOf(b) == v.value.members + ElementsOf(a + b); }
    } else {
      var m := if v.None? then map[] else if name == "ZADD" then v.value.scores else v.value.fields;
      PutPairsConcat(m, a, b, name == "HMSET");
    }
  }

  function EntryOf(v: Option<Value>): Option<Entry> { if v.Some? then Some(Entry(v.value, None)) else None }

  lemma UpdateEntry(name: Bytes, key: Key, args: seq<Bytes>, v: Option<Value>, loadTime: int, eff: Effect)
    ensures KeyUpdate(Update([name, key] + args), EntryOf(v), Env(loadTime, true), eff).entry
            == EntryOf(Act(name, key, args, v, eff))
  {
  }

  lemma FlatWhole(name: Bytes, items: seq<seq<Bytes>>)
    requires Width(items, WidthOf(name))
    ensures |Flat(items)| % WidthOf(name) == 0
    ensures items != [] ==> Flat(items) != []
  {
    FlatLength(items, WidthOf(name));
  }

  lemma {:induction false} BatchesOneKey(name: Bytes, key: Key, items: seq<seq<Bytes>>, limit: nat)
    requires limit > 0
    ensures OneKeyLog(Batches(name, key, items, limit), key)
    decreases |items|
  {
    if items != [] {
      var n := Min(limit, |items|);
      BatchesOneKey(name, key, items[n..], limit);
      assert SingleKey(Update([name, key] + Flat(items[..n])));
    }
  }

  /** Loading the batches is running one command with every item. */
  lemma {:induction false} LoadBatches(name: Bytes, key: Key, items: seq<seq<Bytes>>, limit: nat, v: Option<Value>,
                                       loadTime: int, eff: Effect)
    requires Batched(name) && limit > 0 && items != [] && Width(items, WidthOf(name)) && TypeFor(name, v)
    ensures OneKeyLog(Batches(name, key, items, limit), key)
    ensures LoadEntry(Batches(name, key, items, limit), EntryOf(v), loadTime, eff)
            == EntryOf(Act(name, key, Flat(items), v, eff))
    decreases |items|
  {
    var n := Min(limit, |items|);
    var a, b := items[..n], items[n..];
    var cmds, rest := Batches(name, key, items, limit), Batches(name, key, b, limit);
    assert items == a + b;
    FlatConcat(a, b);
    FlatWhole(name, a);
    FlatWhole(name, b);
    BatchesOneKey(name, key, items, limit);
    hide Act, KeyUpdate, TypeFor, WidthOf, Batched;
    var v' := Act(name, key, Flat(a), v, eff);
    UpdateEntry(name, key, Flat(a), v, loadTime, eff);
    ActIs(name, key, Flat(a), v, eff);
    assert cmds == [cmds[0]] + rest && cmds[1..] == rest;
    if b == [] {
      assert Flat(items) == Flat(a);
    } else {
      LoadBatches(name, key, b, limit, v', loadTime, eff);
      ActConcat(name, key, Flat(a), Flat(b), v, eff);
    }
  }

  // ---- The regenerated log rebuilds the data set ----

  lemma {:induction false} FlatSingles(elems: seq<Bytes>)
    ensures Flat(Singles(elems)) == elems && |Singles(elems)| == |elems| && Width(Singles(elems), 1)
  {
    if elems != [] {
      FlatSingles(elems[1..]);
      assert elems == [elems[0]] + elems[1..];
    }
  }

  lemma {:induction false} PairsWidth(elems: seq<Bytes>, m: map<Bytes, Bytes>, keyFirst: bool)
    requires forall x :: x in elems ==> x in m
    ensures |Pairs(elems, m, keyFirst)| == |elems| && Width(Pairs(elems, m, keyFirst), 2)
  {
    if elems != [] { PairsWidth(elems[1..], m, keyFirst); }
  }

  lemma PairsStep(elems: seq<Bytes>, m: map<Bytes, Bytes>, acc: map<Bytes, Bytes>)
    requires elems != [] && forall x :: x in elems ==> x in m
    ensures acc[elems[0] := m[elems[0]]] + (map y | y in elems[1..] :: m[y]) == acc + (map y | y in elems :: m[y])
  {
    assert elems == [elems[0]] + elems[1..];
  }

  lemma {:induction false} PutPairsOf(elems: seq<Bytes>, m: map<Bytes, Bytes>, keyFirst: bool, acc: map<Bytes, Bytes>)
    requires forall x :: x in elems ==> x in m
    ensures PutPairs(acc, Flat(Pairs(elems, m, keyFirst)), keyFirst) == acc + (map x | x in elems :: m[x])
    decreases |elems|
  {
    var put := map x | x in elems :: m[x];
    if elems == [] {
      assert acc + put == acc;
    } else {
      var x, flat := elems[0], Flat(Pairs(elems, m, keyFirst));
      assert flat[2..] == Flat(Pairs(elems[1..], m, keyFirst));
      PutPairsOf(elems[1..], m, keyFirst, acc[x := m[x]]);
      PairsStep(elems, m, acc);
    }
  }

  lemma NoElements()
    ensures ElementsOf([]) == {}
  {
  }

  lemma NoKeys(m: map<Bytes, Bytes>)
    ensures m.Keys == {} ==> m == map[]
  {
  }

  lemma LoadPairs(name: Bytes, key: Key, elems: seq<Bytes>, m: map<Bytes, Bytes>, limit: nat, loadTime: int,
                  eff: Effect)
    requires (name == "ZADD" || name == "HMSET") && limit > 0 && m != map[] && ElementsOf(elems) == m.Keys
    ensures forall x :: x in elems ==> x in m
    ensures var cmds := Batches(name, key, Pairs(elems, m, name == "HMSET"), limit);
            && OneKeyLog(cmds, key)
            && LoadEntry(cmds, None, loadTime, eff) == Some(Entry(if name == "HMSET" then Hash(m) else ZSet(m), None))
  {
    assert forall x :: x in elems ==> x in ElementsOf(elems);
    var kf := name == "HMSET";
    var items := Pairs(elems, m, kf);
    PairsWidth(elems, m, kf);
    NoElements();
    NoKeys(m);
    LoadBatches(name, key, items, limit, None, loadTime, eff);
    FlatWhole(name, items);
    ActIs(name, key, Flat(items), None, eff);
    PutPairsOf(elems, m, kf, map[]);
    assert map[] + (map x | x in elems :: m[x]) == m by {
      assert forall x :: x in m ==> x in ElementsOf(elems);
    }
  }

  lemma LoadSingles(name: Bytes, key: Key, elems: seq<Bytes>, limit: nat, loadTime: int, eff: Effect)
    requires (name == "RPUSH" || name == "SADD") && limit > 0 && elems != []
    ensures var cmds := Batches(name, key, Singles(elems), limit);
            && OneKeyLog(cmds, key)
            && LoadEntry(cmds, None, loadTime, eff)
               == Some(Entry(if name == "RPUSH" then List(elems) else Set(ElementsOf(elems)), None))
  {
    FlatSingles(elems);
    LoadBatches(name, key, Singles(elems), limit, None, loadTime, eff);
    ActIs(name, key, elems, None, eff);
  }

  /** Every non-empty value is rebuilt exactly: list order, set members, scores and fields. */
  lemma LoadValue(key: Key, elems: seq<Bytes>, v: Value, limit: nat, loadTime: int, eff: Effect)
    requires limit > 0 && PlanFor(elems, v) && !EmptyContainer(v)
    ensures OneKeyLog(ValueCmds(key, elems, v, limit), key)
    ensures LoadEntry(ValueCmds(key, elems, v, limit), None, loadTime, eff) == Some(Entry(v, None))
  {
    match v
    case Str(s) => LoadEntryOne(SetCmd(key, s, []), None, loadTime, eff);
    case List(_) => LoadSingles("RPUSH", key, elems, limit, loadTime, eff);
    case Set(_) =>
      NoElements();
      LoadSingles("SADD", key, elems, limit, loadTime, eff);
    case ZSet(m) => LoadPairs("ZADD", key, elems, m, limit, loadTime, eff);
    case Hash(m) => LoadPairs("HMSET", key, elems, m, limit, loadTime, eff);
  }

  lemma {:induction false} LoadEntryConcat(a: seq<Cmd>, b: seq<Cmd>, k: Key, e: Option<Entry>, loadTime: int,
                                           eff: Effect)
    requires OneKeyLog(a, k) && OneKeyLog(b, k)
    ensures OneKeyLog(a + b, k)
    ensures LoadEntry(a + b, e, loadTime, eff) == LoadEntry(b, LoadEntry(a, e, loadTime, eff), loadTime, eff)
    decreases |a|
  {
    if a == [] {
      assert a + b == b;
    } else {
      assert (a + b)[1..] == a[1..] + b;
      LoadEntryConcat(a[1..], b, k, KeyUpdate(a[0], e, Env(loadTime, true), eff).entry, loadTime, eff);
    }
  }

  lemma LoadWholeEntry(key: Key, elems: seq<Bytes>, e: Entry, limit: nat, loadTime: int, eff: Effect)
    requires limit > 0 && PlanFor(elems, e.value) && !EmptyContainer(e.value)
    ensures OneKeyLog(EntryCmds(key, elems, e, limit), key)
    ensures LoadEntry(EntryCmds(key, elems, e, limit), None, loadTime, eff) == Some(e)
  {
    var a := ValueCmds(key, elems, e.value, limit);
    LoadValue(key, elems, e.value, limit, loadTime, eff);
    if e.expire.Some? {
      var p := PExpireAt(key, e.expire.value);
      LoadEntryConcat(a, [p], key, None, loadTime, eff);
      LoadEntryOne(p, Some(Entry(e.value, None)), loadTime, eff);
    } else {
      assert a + [] == a;
    }
  }

  predicate PlansFor(plans: seq<KeyPlan>, d: Db) {
    && (forall i :: 0 <= i < |plans| ==> plans[i].key in d && PlanFor(plans[i].elems, d[plans[i].key].value))
    && (forall i, j :: 0 <= i < j < |plans| ==> plans[i].key != plans[j].key)
  }

  function KeysOf(plans: seq<KeyPlan>): set<Key> { set p | p in plans :: p.key }

  /** getExpire's value, -1 for none, and the test of aof.c:1096. */
  function ExpireTime(e: Entry): int { if e.expire.Some? then e.expire.value else -1 }

  predicate Skipped(e: Entry, now: int) { ExpireTime(e) != -1 && ExpireTime(e) < now }

  /** The commands of one key: none when it is past its expiry. */
  function KeyCmds(key: Key, elems: seq<Bytes>, e: Entry, now: int, limit: nat): seq<Cmd>
    requires limit > 0 && PlanFor(elems, e.value)
  {
    if Skipped(e, now) then [] else EntryCmds(key, elems, e, limit)
  }

  function DbCmds(plans: seq<KeyPlan>, d: Db, now: int, limit: nat): seq<Cmd>
    requires limit > 0 && PlansFor(plans, d)
    decreases |plans|
  {
    if plans == [] then []
    else
      var p := plans[0];
      KeyCmds(p.key, p.elems, d[p.key], now, limit) + DbCmds(plans[1..], d, now, limit)
  }

  lemma {:induction false} ReplayCmdsConcat(r: Dbs, db: nat, a: seq<Cmd>, b: seq<Cmd>, loadTime: int, eff: Effect)
    requires db < |r|
    ensures ReplayCmds(r, db, a + b, loadTime, eff)
            == ReplayCmds(ReplayCmds(r, db, a, loadTime, eff), db, b, loadTime, eff)
    decreases |a|
  {
    if a == [] {
      assert a + b == b;
    } else {
      assert (a + b)[1..] == a[1..] + b;
      ReplayCmdsConcat(Exec(r, db, a[0], Env(loadTime, true), eff).dbs, db, a[1..], b, loadTime, eff);
    }
  }

  function Restricted(d: Db, ks: set<Key>): Db { map k | k in d && k in ks :: d[k] }

  lemma RestrictedStep(m: Db, d: Db, k: Key, ks: set<Key>)
    ensures (if k in d then m[k := d[k]] else m) + Restricted(d, ks) == m + Restricted(d, {k} + ks)
  {
    if k in d { assert Restricted(d, {k} + ks)[k] == d[k]; }
  }

  lemma KeysOfStep(plans: seq<KeyPlan>, d: Db)
    requires plans != [] && PlansFor(plans, d)
    ensures PlansFor(plans[1..], d)
    ensures KeysOf(plans) == {plans[0].key} + KeysOf(plans[1..])
    ensures plans[0].key !in KeysOf(plans[1..])
  {
    assert plans == [plans[0]] + plans[1..];
  }

  lemma LoadOneKey(r: Dbs, db: nat, p: KeyPlan, e: Entry, limit: nat, loadTime: int, eff: Effect)
    requires db < |r| && limit > 0 && PlanFor(p.elems, e.value) && !EmptyContainer(e.value) && p.key !in r[db]
    ensures ReplayCmds(r, db, EntryCmds(p.key, p.elems, e, limit), loadTime, eff) == r[db := r[db][p.key := e]]
  {
    LoadWholeEntry(p.key, p.elems, e, limit, loadTime, eff);
    ReplayOneKey(r, db, p.key, EntryCmds(p.key, p.elems, e, limit), loadTime, eff);
  }

  lemma {:induction false} LoadDb(r: Dbs, db: nat, plans: seq<KeyPlan>, d: Db, now: int, limit: nat, loadTime: int,
                                  eff: Effect)
    requires db < |r| && limit > 0 && PlansFor(plans, d) && ValidDb(d)
    requires forall k :: k in KeysOf(plans) ==> k !in r[db]
    ensures ReplayCmds(r, db, DbCmds(plans, d, now, limit), loadTime, eff)
            == r[db := r[db] + Restricted(LiveDb(d, now), KeysOf(plans))]
    decreases |plans|
  {
    if plans == [] {
      assert r[db] + Restricted(LiveDb(d, now), KeysOf(plans)) == r[db];
      return;
    }
    var p, rest := plans[0], plans[1..];
    var e, live := d[p.key], LiveDb(d, now);
    KeysOfStep(plans, d);
    RestrictedStep(r[db], live, p.key, KeysOf(rest));
    hide PlanFor, Restricted, ReplayCmds, EntryCmds, KeysOf;
    if Skipped(e, now) {
      assert DbCmds(plans, d, now, limit) == DbCmds(rest, d, now, limit);
      LoadDb(r, db, rest, d, now, limit, loadTime, eff);
    } else {
      var r' := r[db := r[db][p.key := e]];
      LoadOneKey(r, db, p, e, limit, loadTime, eff);
      ReplayCmdsConcat(r, db, EntryCmds(p.key, p.elems, e, limit), DbCmds(rest, d, now, limit), loadTime, eff);
      LoadDb(r', db, rest, d, now, limit, loadTime, eff);
    }
  }

  /** Every key of the database is visited once. */
  predicate DbPlan(plans: seq<KeyPlan>, d: Db) { PlansFor(plans, d) && KeysOf(plans) == d.Keys }

  predicate PlansUpTo(plans: seq<seq<KeyPlan>>, dbs: Dbs, j: nat) {
    j <= |plans| <= |dbs| && forall i :: 0 <= i < j ==> DbPlan(plans[i], dbs[i])
  }

  /** The log of the first `j` databases. */
  function RewriteLog(plans: seq<seq<KeyPlan>>, dbs: Dbs, now: int, limit: nat, j: nat): seq<Argv>
    requires limit > 0 && PlansUpTo(plans, dbs, j)
  {
    if j == 0 then []
    else RewriteLog(plans, dbs, now, limit, j - 1) + DbLog(plans[j - 1], dbs[j - 1], j - 1, now, limit)
  }

  /** An empty database gets no SELECT. */
  function DbLog(plans: seq<KeyPlan>, d: Db, j: nat, now: int, limit: nat): seq<Argv>
    requires limit > 0 && DbPlan(plans, d)
  {
    if d == map[] then [] else [ArgvOf(Select(j))] + ArgvsOf(DbCmds(plans, d, now, limit))
  }

  lemma LoadSelect(st: Replayer, j: nat, loadTime: int, eff: Effect)
    requires Ok(st) && j < |st.dbs|
    ensures LoadLog(st, [ArgvOf(Select(j))], loadTime, eff) == st.(sel := j)
  {
    ParseArgvOf(Select(j));
    assert [ArgvOf(Select(j))][1..] == [];
  }

  lemma LoadDbLog(st: Replayer, plans: seq<KeyPlan>, d: Db, now: int, limit: nat, j: nat, loadTime: int, eff: Effect)
    requires Ok(st) && j < |st.dbs| && st.dbs[j] == map[] && limit > 0
    requires DbPlan(plans, d) && ValidDb(d)
    ensures LoadLog(st, DbLog(plans, d, j, now, limit), loadTime, eff).dbs == st.dbs[j := LiveDb(d, now)]
  {
    if d == map[] {
      assert LiveDb(d, now) == map[];
    } else {
      LoadFullDb(st, plans, d, now, limit, j, loadTime, eff);
    }
  }

  lemma LoadFullDb(st: Replayer, plans: seq<KeyPlan>, d: Db, now: int, limit: nat, j: nat, loadTime: int, eff: Effect)
    requires Ok(st) && j < |st.dbs| && st.dbs[j] == map[] && limit > 0 && d != map[]
    requires DbPlan(plans, d) && ValidDb(d)
    ensures LoadLog(st, DbLog(plans, d, j, now, limit), loadTime, eff).dbs == st.dbs[j := LiveDb(d, now)]
  {
    hide LoadLog, ArgvOf, ArgvsOf, DbCmds, Loggable, ReplayCmds, ValidDb, PlansFor, KeysOf;
    var select, cmds := ArgvOf(Select(j)), DbCmds(plans, d, now, limit);
    LoadSelect(st, j, loadTime, eff);
    LoadLogConcat(st, [select], ArgvsOf(cmds), loadTime, eff);
    DbCmdsLoggable(plans, d, now, limit);
    LoadArgvs(st.(sel := j), cmds, loadTime, eff);
    LoadDb(st.dbs, j, plans, d, now, limit, loadTime, eff);
    assert map[] + Restricted(LiveDb(d, now), d.Keys) == LiveDb(d, now);
  }

  predicate Plain(cmds: seq<Cmd>) { forall c :: c in cmds ==> Loggable(c) && !c.Select? }

  lemma {:induction false} BatchesPlain(name: Bytes, key: Key, items: seq<seq<Bytes>>, limit: nat)
    requires Batched(name) && limit > 0
    ensures Plain(Batches(name, key, items, limit))
    decreases |items|
  {
    if items != [] {
      var n := Min(limit, |items|);
      BatchesPlain(name, key, items[n..], limit);
      assert Loggable(Update([name, key] + Flat(items[..n])));
    }
  }

  lemma {:induction false} DbCmdsLoggable(plans: seq<KeyPlan>, d: Db, now: int, limit: nat)
    requires limit > 0 && PlansFor(plans, d)
    ensures Plain(DbCmds(plans, d, now, limit))
    decreases |plans|
  {
    if plans != [] {
      DbCmdsLoggable(plans[1..], d, now, limit);
      EntryCmdsPlain(plans[0].key, plans[0].elems, d[plans[0].key], limit);
    }
  }

  lemma EntryCmdsPlain(key: Key, elems: seq<Bytes>, e: Entry, limit: nat)
    requires limit > 0 && PlanFor(elems, e.value)
    ensures Plain(EntryCmds(key, elems, e, limit))
  {
    assert forall x :: x in elems ==> x in ElementsOf(elems);
    match e.value
    case Str(_) =>
    case List(_) => BatchesPlain("RPUSH", key, Singles(elems), limit);
    case Set(_) => BatchesPlain("SADD", key, Singles(elems), limit);
    case ZSet(m) => BatchesPlain("ZADD", key, Pairs(elems, m, false), limit);
    case Hash(m) => BatchesPlain("HMSET", key, Pairs(elems, m, true), limit);
  }

  lemma {:induction false} DbCmdsTimeless(plans: seq<KeyPlan>, d: Db, now: int, limit: nat)
    requires limit > 0 && PlansFor(plans, d) && ValidDb(d)
    ensures forall c :: c in DbCmds(plans, d, now, limit) ==> Timeless(c)
    decreases |plans|
  {
    if plans != [] {
      var p := plans[0];
      DbCmdsTimeless(plans[1..], d, now, limit);
      ValueCmdsNotExpire(p.key, p.elems, d[p.key].value, limit);
    }
  }

  lemma ValueCmdsNotExpire(key: Key, elems: seq<Bytes>, v: Value, limit: nat)
    requires limit > 0 && PlanFor(elems, v)
    ensures forall c :: c in ValueCmds(key, elems, v, limit) ==> !c.PExpireAt? && !c.Restore?
  {
    assert forall x :: x in elems ==> x in ElementsOf(elems);
    match v
    case Str(_) =>
    case List(_) => BatchesAreUpdates("RPUSH", key, Singles(elems), limit);
    case Set(_) => BatchesAreUpdates("SADD", key, Singles(elems), limit);
    case ZSet(m) => BatchesAreUpdates("ZADD", key, Pairs(elems, m, false), limit);
    case Hash(m) => BatchesAreUpdates("HMSET", key, Pairs(elems, m, true), limit);
  }

  lemma {:induction false} BatchesAreUpdates(name: Bytes, key: Key, items: seq<seq<Bytes>>, limit: nat)
    requires limit > 0
    ensures forall c :: c in Batches(name, key, items, limit) ==> c.Update?
    decreases |items|
  {
    if items != [] { BatchesAreUpdates(name, key, items[Min(limit, |items|)..], limit); }
  }

  /** Nothing in a regenerated log depends on when it is loaded. */
  lemma {:induction false} RewriteFixed(plans: seq<seq<KeyPlan>>, dbs: Dbs, now: int, limit: nat, j: nat)
    requires limit > 0 && PlansUpTo(plans, dbs, j) && Valid(dbs)
    ensures FixedLog(RewriteLog(plans, dbs, now, limit, j))
  {
    hide DbLog, DbPlan, ValidDb, FixedLog;
    if j == 0 {
      NoLogFixed();
    } else {
      RewriteFixed(plans, dbs, now, limit, j - 1);
      DbLogFixed(plans[j - 1], dbs[j - 1], j - 1, now, limit);
      FixedConcat(RewriteLog(plans, dbs, now, limit, j - 1), DbLog(plans[j - 1], dbs[j - 1], j - 1, now, limit));
    }
  }

  lemma NoLogFixed()
    ensures FixedLog([])
  {
  }

  lemma FixedConcat(a: seq<Argv>, b: seq<Argv>)
    requires FixedLog(a) && FixedLog(b)
    ensures FixedLog(a + b)
  {
  }

  lemma DbLogFixed(p: seq<KeyPlan>, d: Db, j: nat, now: int, limit: nat)
    requires limit > 0 && DbPlan(p, d) && ValidDb(d)
    ensures FixedLog(DbLog(p, d, j, now, limit))
  {
    hide DbCmds, ValidDb;
    DbCmdsLoggable(p, d, now, limit);
    DbCmdsTimeless(p, d, now, limit);
    ArgvsFixed(DbCmds(p, d, now, limit));
    ParseArgvOf(Select(j));
  }

  predicate LiveUpTo(r: Dbs, dbs: Dbs, now: int, j: nat) {
    |r| == |dbs| && forall i :: 0 <= i < |dbs| ==> r[i] == if i < j then LiveDb(dbs[i], now) else map[]
  }

  lemma {:induction false} LoadRewriteLog(plans: seq<seq<KeyPlan>>, dbs: Dbs, now: int, limit: nat, j: nat,
                                          loadTime: int, eff: Effect)
    requires dbs != [] && limit > 0 && PlansUpTo(plans, dbs, j) && Valid(dbs)
    ensures LiveUpTo(LoadLog(Start(|dbs|), RewriteLog(plans, dbs, now, limit, j), loadTime, eff).dbs, dbs, now, j)
  {
    hide LiveDb, DbLog, DbPlan, LoadLog, Start, LiveUpTo, ValidDb;
    if j == 0 {
      LoadNothing(dbs, now, loadTime, eff);
    } else {
      LoadRewriteLog(plans, dbs, now, limit, j - 1, loadTime, eff);
      var before, log := RewriteLog(plans, dbs, now, limit, j - 1), DbLog(plans[j - 1], dbs[j - 1], j - 1, now, limit);
      var st := LoadLog(Start(|dbs|), before, loadTime, eff);
      LoadLogConcat(Start(|dbs|), before, log, loadTime, eff);
      LiveStep(st.dbs, dbs, now, j);
      LoadDbLog(st, plans[j - 1], dbs[j - 1], now, limit, j - 1, loadTime, eff);
    }
  }

  lemma LoadNothing(dbs: Dbs, now: int, loadTime: int, eff: Effect)
    requires dbs != []
    ensures LiveUpTo(LoadLog(Start(|dbs|), [], loadTime, eff).dbs, dbs, now, 0)
  {
    hide LiveDb;
  }

  lemma LiveStep(r: Dbs, dbs: Dbs, now: int, j: nat)
    requires 0 < j <= |dbs| && LiveUpTo(r, dbs, now, j - 1)
    ensures r[j - 1] == map[] && LiveUpTo(r[j - 1 := LiveDb(dbs[j - 1], now)], dbs, now, j)
  {
  }

  /** Loading a regenerated log into an empty server rebuilds every unexpired key, with its
      value and expiry time, whatever order the iterators used and whenever it is loaded. */
  lemma RewriteRebuilds(plans: seq<seq<KeyPlan>>, dbs: Dbs, now: int, limit: nat, loadTime: int, eff: Effect)
    requires dbs != [] && limit > 0 && PlansUpTo(plans, dbs, |dbs|) && Valid(dbs)
    ensures LoadLog(Start(|dbs|), RewriteLog(plans, dbs, now, limit, |dbs|), loadTime, eff).dbs == LiveAt(dbs, now)
  {
    LoadRewriteLog(plans, dbs, now, limit, |dbs|, loadTime, eff);
  }

  // ---- No command exceeds the item limit ----

  predicate WithinLimit(argv: Argv, limit: nat) {
    argv != [] && Batched(argv[0]) ==> 2 < |argv| <= 2 + WidthOf(argv[0]) * limit
  }

  predicate AllWithin(cmds: seq<Cmd>, limit: nat) { forall c :: c in cmds ==> WithinLimit(ArgvOf(c), limit) }

  lemma {:induction false} BatchesWithin(name: Bytes, key: Key, items: seq<seq<Bytes>>, limit: nat)
    requires Batched(name) && limit > 0 && Width(items, WidthOf(name))
    ensures AllWithin(Batches(name, key, items, limit), limit)
    decreases |items|
  {
    if items != [] {
      var n := Min(limit, |items|);
      var first := items[..n];
      BatchesWithin(name, key, items[n..], limit);
      FlatLength(first, WidthOf(name));
      assert 1 <= WidthOf(name) * n <= WidthOf(name) * limit;
    }
  }

  lemma EntryWithin(key: Key, elems: seq<Bytes>, e: Entry, limit: nat)
    requires limit > 0 && PlanFor(elems, e.value)
    ensures AllWithin(EntryCmds(key, elems, e, limit), limit)
  {
    assert forall x :: x in elems ==> x in ElementsOf(elems);
    FlatSingles(elems);
    match e.value
    case Str(_) =>
    case List(_) => BatchesWithin("RPUSH", key, Singles(elems), limit);
    case Set(_) => BatchesWithin("SADD", key, Singles(elems), limit);
    case ZSet(m) => PairsWidth(elems, m, false); BatchesWithin("ZADD", key, Pairs(elems, m, false), limit);
    case Hash(m) => PairsWidth(elems, m, true); BatchesWithin("HMSET", key, Pairs(elems, m, true), limit);
  }

  lemma {:induction false} DbWithin(plans: seq<KeyPlan>, d: Db, now: int, limit: nat)
    requires limit > 0 && PlansFor(plans, d)
    ensures AllWithin(DbCmds(plans, d, now, limit), limit)
    decreases |plans|
  {
    if plans != [] {
      DbWithin(plans[1..], d, now, limit);
      EntryWithin(plans[0].key, plans[0].elems, d[plans[0].key], limit);
    }
  }

  predicate LogWithin(log: seq<Argv>, limit: nat) { forall argv :: argv in log ==> WithinLimit(argv, limit) }

  lemma NoLogWithin(limit: nat)
    ensures LogWithin([], limit)
  {
  }

  lemma LogWithinConcat(a: seq<Argv>, b: seq<Argv>, limit: nat)
    requires LogWithin(a, limit) && LogWithin(b, limit)
    ensures LogWithin(a + b, limit)
  {
  }

  lemma {:induction false} ArgvsWithin(cmds: seq<Cmd>, limit: nat)
    requires AllWithin(cmds, limit)
    ensures LogWithin(ArgvsOf(cmds), limit)
  {
    if cmds != [] { ArgvsWithin(cmds[1..], limit); }
  }

  lemma DbLogWithin(plans: seq<KeyPlan>, d: Db, j: nat, now: int, limit: nat)
    requires limit > 0 && DbPlan(plans, d)
    ensures LogWithin(DbLog(plans, d, j, now, limit), limit)
  {
    DbWithin(plans, d, now, limit);
    ArgvsWithin(DbCmds(plans, d, now, limit), limit);
    assert WithinLimit(ArgvOf(Select(j)), limit);
  }

  /** Every command of the regenerated log carries at least one item and at most `limit`. */
  lemma {:induction false} RewriteWithin(plans: seq<seq<KeyPlan>>, dbs: Dbs, now: int, limit: nat, j: nat)
    requires limit > 0 && PlansUpTo(plans, dbs, j)
    ensures LogWithin(RewriteLog(plans, dbs, now, limit, j), limit)
  {
    hide DbLog, DbPlan, LogWithin;
    if j == 0 {
      NoLogWithin(limit);
    } else {
      DbLogWithin(plans[j - 1], dbs[j - 1], j - 1, now, limit);
      RewriteWithin(plans, dbs, now, limit, j - 1);
      LogWithinConcat(RewriteLog(plans, dbs, now, limit, j - 1), DbLog(plans[j - 1], dbs[j - 1], j - 1, now, limit),
                      limit);
    }
  }

  // ---- Writing it out ----

  /** What is left to write with `i` items done, `count` of them in a command under way. */
  function InBatch(name: Bytes, key: Key, items: seq<seq<Bytes>>, limit: nat, i: nat, count: nat): Bytes
    requires limit > 0 && i <= |items| && count < limit
  {
    var e := Min(i + (limit - count), |items|);
    Bulks(Flat(items[i..e])) + EncodeAll(ArgvsOf(Batches(name, key, items[e..], limit)))
  }

  function Remaining(name: Bytes, key: Key, items: seq<seq<Bytes>>, limit: nat, i: nat, count: nat): Bytes
    requires limit > 0 && i <= |items| && count < limit
  {
    if count == 0 then EncodeAll(ArgvsOf(Batches(name, key, items[i..], limit)))
    else InBatch(name, key, items, limit, i, count)
  }

  lemma BulksOne(a: Bytes)
    ensures Bulks([a]) == Bulk(a)
  {
    hide Bulk;
    assert [a][1..] == [];
    assert Bulk(a) + [] == Bulk(a);
  }

  lemma EncodeBatch(name: Bytes, key: Key, part: seq<Bytes>, rest: Bytes)
    ensures Encode([name, key] + part) + rest
            == Header('*', 2 + |part|) + (Bulk(name) + (Bulk(key) + (Bulks(part) + rest)))
  {
    BulksOne(name);
    BulksOne(key);
    assert [name, key] + part == [name] + ([key] + part);
    BulksConcat([name], [key] + part);
    BulksConcat([key], part);
    hide Bulk, Header, Bulks;
    var h, a, b, c := Header('*', 2 + |part|), Bulk(name), Bulk(key), Bulks(part);
    Assoc(h, a + (b + c), rest);
    Assoc(a, b + c, rest);
    Assoc(b, c, rest);
  }

  lemma BatchesAt(name: Bytes, key: Key, items: seq<seq<Bytes>>, limit: nat, i: nat)
    requires limit > 0 && i < |items|
    ensures var n := Min(limit, |items| - i);
            Batches(name, key, items[i..], limit)
            == [Update([name, key] + Flat(items[i..i + n]))] + Batches(name, key, items[i + n..], limit)
  {
    var n := Min(limit, |items| - i);
    assert items[i..][..n] == items[i..i + n] && items[i..][n..] == items[i + n..];
  }

  lemma EncodeFirst(argv: Argv, rest: seq<Cmd>)
    ensures EncodeAll(ArgvsOf([Update(argv)] + rest)) == Encode(argv) + EncodeAll(ArgvsOf(rest))
  {
    hide Encode;
    assert ([Update(argv)] + rest)[1..] == rest;
    assert ([argv] + ArgvsOf(rest))[1..] == ArgvsOf(rest);
  }

  /** A batch is its header, the command name, the key and then its items; the header counts
      exactly the arguments that follow. */
  lemma StartBatch(name: Bytes, key: Key, items: seq<seq<Bytes>>, limit: nat, i: nat, n: nat)
    requires limit > 0 && i < |items| && n == Min(limit, |items| - i)
    ensures Remaining(name, key, items, limit, i, 0)
            == Header('*', 2 + |Flat(items[i..i + n])|)
              + (Bulk(name) + (Bulk(key) + InBatch(name, key, items, limit, i, 0)))
  {
    hide Flat, Batches, Bulk, Header, Bulks, EncodeAll, ArgvsOf;
    var part, rest := Flat(items[i..i + n]), Batches(name, key, items[i + n..], limit);
    BatchesAt(name, key, items, limit, i);
    BatchText(name, key, part, rest);
  }

  lemma BatchText(name: Bytes, key: Key, part: seq<Bytes>, rest: seq<Cmd>)
    ensures var tail := EncodeAll(ArgvsOf(rest));
            EncodeAll(ArgvsOf([Update([name, key] + part)] + rest))
            == Header('*', 2 + |part|) + (Bulk(name) + (Bulk(key) + (Bulks(part) + tail)))
  {
    hide Bulk, Header, Encode, Bulks, EncodeAll, ArgvsOf;
    EncodeFirst([name, key] + part, rest);
    EncodeBatch(name, key, part, EncodeAll(ArgvsOf(rest)));
  }

  lemma NextItem(name: Bytes, key: Key, items: seq<seq<Bytes>>, limit: nat, i: nat, count: nat)
    requires limit > 0 && i < |items| && count < limit
    ensures InBatch(name, key, items, limit, i, count)
            == Bulks(items[i]) + Remaining(name, key, items, limit, i + 1, if count + 1 == limit then 0 else count + 1)
  {
    hide Bulks, EncodeAll, Batches, Flat, ArgvsOf;
    var e := Min(i + (limit - count), |items|);
    FlatStep(items, i, e);
    Assoc(Bulks(items[i]), Bulks(Flat(items[i + 1..e])), EncodeAll(ArgvsOf(Batches(name, key, items[e..], limit))));
    if count + 1 == limit { LastOfBatch(items, i); }
  }

  lemma FlatStep(items: seq<seq<Bytes>>, i: nat, e: nat)
    requires i < e <= |items|
    ensures Bulks(Flat(items[i..e])) == Bulks(items[i]) + Bulks(Flat(items[i + 1..e]))
  {
    assert items[i..e][1..] == items[i + 1..e];
    BulksConcat(items[i], Flat(items[i + 1..e]));
  }

  lemma LastOfBatch(items: seq<seq<Bytes>>, i: nat)
    requires i < |items|
    ensures Bulks(Flat(items[i + 1..i + 1])) == []
  {
    assert items[i + 1..i + 1] == [];
  }

  /** The loop shared by rewriteListObject, rewriteSetObject, rewriteSortedSetObject and
      rewriteHashObject: a header every `limit` items, then one item at a time. */
  method RewriteItems(out: Bytes, name: Bytes, key: Key, items: seq<seq<Bytes>>, limit: nat) returns (r: Bytes)
    requires limit > 0 && Width(items, WidthOf(name))
    ensures r == out + EncodeAll(ArgvsOf(Batches(name, key, items, limit)))
  {
    hide Bulk, Bulks, Header, Remaining, InBatch, EncodeAll, Batches;
    r := out;
    var count, i := 0, 0;
    ghost var total := out + Remaining(name, key, items, limit, 0, 0);
    AllRemains(name, key, items, limit);
    while i < |items|
      invariant 0 <= i <= |items| && 0 <= count < limit
      invariant r + Remaining(name, key, items, limit, i, count) == total
    {
      ghost var rest := InBatch(name, key, items, limit, i, count);
      if count == 0 {
        var cmdItems := if |items| - i > limit then limit else |items| - i;
        StartBatch(name, key, items, limit, i, cmdItems);
        FlatLength(items[i..i + cmdItems], WidthOf(name));
        var h := Header('*', 2 + WidthOf(name) * cmdItems);
        Assoc(r, h, Bulk(name) + (Bulk(key) + rest));
        Assoc(r + h, Bulk(name), Bulk(key) + rest);
        Assoc(r + h + Bulk(name), Bulk(key), rest);
        r := r + h;
        r := r + Bulk(name);
        r := r + Bulk(key);
      } else {
        InBatchIsRemaining(name, key, items, limit, i, count);
      }
      NextItem(name, key, items, limit, i, count);
      ghost var before := r;
      r := WriteItem(r, items[i]);
      count := count + 1;
      if count == limit { count := 0; }
      i := i + 1;
      Assoc(before, Bulks(items[i - 1]), Remaining(name, key, items, limit, i, count));
    }
    NothingRemains(name, key, items, limit, count);
    assert r + [] == r;
  }

  lemma AllRemains(name: Bytes, key: Key, items: seq<seq<Bytes>>, limit: nat)
    requires limit > 0
    ensures Remaining(name, key, items, limit, 0, 0) == EncodeAll(ArgvsOf(Batches(name, key, items, limit)))
  {
    assert items[0..] == items;
  }

  lemma InBatchIsRemaining(name: Bytes, key: Key, items: seq<seq<Bytes>>, limit: nat, i: nat, count: nat)
    requires limit > 0 && i <= |items| && 0 < count < limit
    ensures InBatch(name, key, items, limit, i, count) == Remaining(name, key, items, limit, i, count)
  {
  }

  lemma NothingRemains(name: Bytes, key: Key, items: seq<seq<Bytes>>, limit: nat, count: nat)
    requires limit > 0 && count < limit
    ensures Remaining(name, key, items, limit, |items|, count) == []
  {
    assert items[|items|..] == [] && items[|items|..|items|] == [];
  }

  method WriteItem(r0: Bytes, item: seq<Bytes>) returns (r: Bytes)
    ensures r == r0 + Bulks(item)
  {
    r := r0;
    for j := 0 to |item|
      invariant r == r0 + Bulks(item[..j])
    {
      BulksSnoc(item[..j], item[j]);
      assert item[..j] + [item[j]] == item[..j + 1];
      hide Bulk, Bulks;
      Assoc(r0, Bulks(item[..j]), Bulk(item[j]));
      r := r + Bulk(item[j]);
    }
    assert item[..|item|] == item;
  }

  const SET_TEXT: Bytes := "*3\r\n$3\r\nSET\r\n"
  const PEXPIREAT_TEXT: Bytes := "*3\r\n$9\r\nPEXPIREAT\r\n"

  lemma CommandTexts()
    ensures Header('*', 3) + Bulk("SET") == SET_TEXT
    ensures Header('*', 3) + Bulk("PEXPIREAT") == PEXPIREAT_TEXT
  {
    hide Header, Bulk;
    HeaderText('*', 3);
    SetText();
    PexpireatText();
  }

  lemma HeaderText(c: char, n: nat)
    requires n < 10
    ensures Header(c, n) == [c, ('0' as int + n) as char, '\r', '\n']
  {
  }

  lemma SetText()
    ensures Bulk("SET") == "$3\r\nSET\r\n"
  {
    hide Header;
    HeaderText('$', 3);
  }

  lemma PexpireatText()
    ensures Bulk("PEXPIREAT") == "$9\r\nPEXPIREAT\r\n"
  {
    hide Header;
    HeaderText('$', 9);
  }

  lemma ThreeArgs(name: Bytes, key: Bytes, x: Bytes)
    ensures (Header('*', 3) + Bulk(name)) + Bulk(key) + Bulk(x) == Encode([name, key, x])
  {
    hide Header, Bulk, Bulks, Encode;
    assert [name, key, x] == [name, key] + [x];
    EncodeBatch(name, key, [x], []);
    BulksOne(x);
    var h, a, b, c, none := Header('*', 3), Bulk(name), Bulk(key), Bulk(x), "";
    assert c + none == c && Encode([name, key, x]) + none == Encode([name, key, x]);
    Assoc(h + a, b, c);
    Assoc(h, a, b + c);
  }

  function EncodeCmds(cmds: seq<Cmd>): Bytes { EncodeAll(ArgvsOf(cmds)) }

  lemma {:induction false} ArgvsOfConcat(a: seq<Cmd>, b: seq<Cmd>)
    ensures ArgvsOf(a + b) == ArgvsOf(a) + ArgvsOf(b)
  {
    if a == [] {
      assert a + b == b;
    } else {
      assert (a + b)[1..] == a[1..] + b;
      ArgvsOfConcat(a[1..], b);
    }
  }

  lemma EncodeCmdsConcat(out: Bytes, a: seq<Cmd>, b: seq<Cmd>)
    ensures out + EncodeCmds(a) + EncodeCmds(b) == out + EncodeCmds(a + b)
  {
    hide EncodeAll, ArgvsOf;
    ArgvsOfConcat(a, b);
    EncodeAllConcat(ArgvsOf(a), ArgvsOf(b));
    Assoc(out, EncodeCmds(a), EncodeCmds(b));
  }

  /** The order a dictionary iterator happens to produce. */
  method VisitOrder(s: set<Bytes>) returns (q: seq<Bytes>)
    ensures ElementsOf(q) == s
    ensures forall i, j :: 0 <= i < j < |q| ==> q[i] != q[j]
  {
    q := [];
    var rest := s;
    while rest != {}
      invariant ElementsOf(q) == s - rest && rest <= s
      invariant forall i, j :: 0 <= i < j < |q| ==> q[i] != q[j]
      decreases rest
    {
      var x :| x in rest;
      assert forall i :: 0 <= i < |q| ==> q[i] in ElementsOf(q);
      assert ElementsOf(q + [x]) == ElementsOf(q) + {x};
      q := q + [x];
      rest := rest - {x};
    }
  }

  /** One value: SET for a string, batches for a container. */
  method RewriteValue(out: Bytes, key: Key, v: Value, limit: nat) returns (r: Bytes, ghost elems: seq<Bytes>)
    requires limit > 0
    ensures PlanFor(elems, v)
    ensures r == out + EncodeCmds(ValueCmds(key, elems, v, limit))
  {
    match v {
      case Str(s) =>
        elems := [];
        hide Bulk, Encode, EncodeAll, Header;
        CommandTexts();
        ThreeArgs("SET", key, s);
        assert ArgvOf(SetCmd(key, s, [])) == ["SET", key, s];
        CatOne(out, SetCmd(key, s, []));
        Assoc(out, SET_TEXT, Bulk(key));
        Assoc(out, SET_TEXT + Bulk(key), Bulk(s));
        r := out + SET_TEXT;
        r := r + Bulk(key);
        r := r + Bulk(s);
      case List(l) =>
        elems := l;
        FlatSingles(l);
        r := RewriteItems(out, "RPUSH", key, Singles(l), limit);
      case Set(m) =>
        var q := VisitOrder(m);
        elems := q;
        FlatSingles(q);
        r := RewriteItems(out, "SADD", key, Singles(q), limit);
      case ZSet(m) =>
        var q := VisitOrder(m.Keys);
        elems := q;
        assert forall x :: x in q ==> x in ElementsOf(q);
        PairsWidth(q, m, false);
        r := RewriteItems(out, "ZADD", key, Pairs(q, m, false), limit);
      case Hash(m) =>
        var q := VisitOrder(m.Keys);
        elems := q;
        assert forall x :: x in q ==> x in ElementsOf(q);
        PairsWidth(q, m, true);
        r := RewriteItems(out, "HMSET", key, Pairs(q, m, true), limit);
    }
  }

  method RewriteEntry(out: Bytes, key: Key, e: Entry, limit: nat) returns (r: Bytes, ghost elems: seq<Bytes>)
    requires limit > 0 && (e.expire.Some? ==> e.expire.value != -1)
    ensures PlanFor(elems, e.value)
    ensures r == out + EncodeCmds(EntryCmds(key, elems, e, limit))
  {
    r, elems := RewriteValue(out, key, e.value, limit);
    hide Bulk, Encode, EncodeAll, Header, PlanFor, ValueCmds, ArgvsOf;
    var expiretime := ExpireTime(e);
    ghost var cmds := ValueCmds(key, elems, e.value, limit);
    if expiretime != -1 {
      ghost var p := PExpireAt(key, expiretime);
      CommandTexts();
      ThreeArgs("PEXPIREAT", key, DecInt(expiretime));
      CatOne(r, p);
      EncodeCmdsConcat(out, cmds, [p]);
      Assoc(r, PEXPIREAT_TEXT, Bulk(key));
      Assoc(r, PEXPIREAT_TEXT + Bulk(key), Bulk(DecInt(expiretime)));
      r := r + PEXPIREAT_TEXT;
      r := r + Bulk(key);
      r := r + Bulk(DecInt(expiretime));
    } else {
      assert cmds + [] == cmds;
    }
  }

  lemma SeqOf(s: set<Bytes>) returns (q: seq<Bytes>)
    ensures ElementsOf(q) == s
    decreases s
  {
    if s == {} {
      q := [];
      assert ElementsOf(q) == {};
    } else {
      var x :| x in s;
      var q' := SeqOf(s - {x});
      q := [x] + q';
      assert ElementsOf(q) == {x} + ElementsOf(q');
    }
  }

  /** A plan for a key that is skipped: any visiting order will do. */
  lemma SomePlan(v: Value) returns (elems: seq<Bytes>)
    ensures PlanFor(elems, v)
  {
    match v
    case Str(_) => elems := [];
    case List(l) => elems := l;
    case Set(m) => elems := SeqOf(m);
    case ZSet(m) => elems := SeqOf(m.Keys);
    case Hash(m) => elems := SeqOf(m.Keys);
  }

  lemma {:induction false} DbCmdsSnoc(plans: seq<KeyPlan>, p: KeyPlan, d: Db, now: int, limit: nat)
    requires limit > 0 && PlansFor(plans + [p], d)
    ensures PlansFor(plans, d) && p.key in d && PlanFor(p.elems, d[p.key].value)
    ensures DbCmds(plans + [p], d, now, limit)
            == DbCmds(plans, d, now, limit) + KeyCmds(p.key, p.elems, d[p.key], now, limit)
    decreases |plans|
  {
    hide PlanFor, KeyCmds;
    PlansPrefix(plans, p, d);
    var last := KeyCmds(p.key, p.elems, d[p.key], now, limit);
    if plans == [] {
      assert (plans + [p])[1..] == [];
      assert last + [] == last && [] + last == last;
    } else {
      assert (plans + [p])[1..] == plans[1..] + [p];
      DbCmdsSnoc(plans[1..], p, d, now, limit);
      var p0 := plans[0];
      Assoc(KeyCmds(p0.key, p0.elems, d[p0.key], now, limit), DbCmds(plans[1..], d, now, limit), last);
    }
  }

  lemma PlansPrefix(plans: seq<KeyPlan>, p: KeyPlan, d: Db)
    requires PlansFor(plans + [p], d)
    ensures PlansFor(plans, d) && p.key in d && PlanFor(p.elems, d[p.key].value)
    ensures plans != [] ==> PlansFor(plans[1..] + [p], d)
  {
    var all := plans + [p];
    assert all[|plans|] == p;
    assert forall i :: 0 <= i < |plans| ==> all[i] == plans[i];
    if plans != [] { assert plans[1..] + [p] == all[1..]; }
  }

  /** One turn of the loop over a database's keys (aof.c:1086-1125). */
  method RewriteKey(out: Bytes, key: Key, e: Entry, now: int, limit: nat) returns (r: Bytes, ghost elems: seq<Bytes>)
    requires limit > 0 && (e.expire.Some? ==> e.expire.value >= 0)
    ensures PlanFor(elems, e.value) && r == out + EncodeCmds(KeyCmds(key, elems, e, now, limit))
  {
    hide EntryCmds, PlanFor;
    var expiretime := ExpireTime(e);
    if expiretime != -1 && expiretime < now {
      elems := SomePlan(e.value);
      r := out;
      assert out + [] == out;
    } else {
      r, elems := RewriteEntry(out, key, e, limit);
    }
  }

  /** Entries of one database, in the order the iterator gives (aof.c:1083-1131). */
  method RewriteDb(out: Bytes, d: Db, now: int, limit: nat) returns (r: Bytes, ghost plans: seq<KeyPlan>)
    requires limit > 0 && ValidDb(d)
    ensures PlansFor(plans, d) && KeysOf(plans) == d.Keys
    ensures r == out + EncodeCmds(DbCmds(plans, d, now, limit))
  {
    hide EncodeCmds, KeyCmds, PlanFor, PlansFor, DbCmds, ElementsOf;
    var order := VisitOrder(d.Keys);
    Visited(order);
    r, plans := out, [];
    NoCmds(d, now, limit);
    assert out + [] == out;
    for i := 0 to |order|
      invariant |plans| == i && forall j :: 0 <= j < i ==> plans[j].key == order[j]
      invariant PlansFor(plans, d)
      invariant r == out + EncodeCmds(DbCmds(plans, d, now, limit))
    {
      var key := order[i];
      assert key in d.Keys;
      ghost var elems;
      r, elems := RewriteKey(r, key, d[key], now, limit);
      PlansSnoc(plans, KeyPlan(key, elems), d);
      DbCmdsSnoc(plans, KeyPlan(key, elems), d, now, limit);
      EncodeCmdsConcat(out, DbCmds(plans, d, now, limit), KeyCmds(key, elems, d[key], now, limit));
      plans := plans + [KeyPlan(key, elems)];
    }
    PlanKeys(plans, order);
  }

  lemma Visited(order: seq<Bytes>)
    ensures forall i :: 0 <= i < |order| ==> order[i] in ElementsOf(order)
  {
  }

  lemma NoCmds(d: Db, now: int, limit: nat)
    requires limit > 0
    ensures PlansFor([], d) && EncodeCmds(DbCmds([], d, now, limit)) == []
  {
  }

  lemma PlansSnoc(plans: seq<KeyPlan>, p: KeyPlan, d: Db)
    requires PlansFor(plans, d) && p.key in d && PlanFor(p.elems, d[p.key].value)
    requires forall j :: 0 <= j < |plans| ==> plans[j].key != p.key
    ensures PlansFor(plans + [p], d)
  {
  }

  lemma PlanKeys(plans: seq<KeyPlan>, order: seq<Key>)
    requires |plans| == |order| && forall j :: 0 <= j < |plans| ==> plans[j].key == order[j]
    ensures KeysOf(plans) == ElementsOf(order)
  {
    forall k | k in ElementsOf(order) ensures k in KeysOf(plans) {
      var j :| 0 <= j < |order| && order[j] == k;
      assert plans[j] in plans;
    }
  }

  lemma {:induction false} MorePlans(plans: seq<seq<KeyPlan>>, p: seq<KeyPlan>, dbs: Dbs, now: int, limit: nat, j: nat)
    requires limit > 0 && PlansUpTo(plans, dbs, j) && |plans| < |dbs|
    ensures PlansUpTo(plans + [p], dbs, j)
    ensures RewriteLog(plans + [p], dbs, now, limit, j) == RewriteLog(plans, dbs, now, limit, j)
  {
    hide DbPlan, DbLog;
    if j > 0 { MorePlans(plans, p, dbs, now, limit, j - 1); }
  }

  lemma PlansStep(plans: seq<seq<KeyPlan>>, p: seq<KeyPlan>, dbs: Dbs, now: int, limit: nat)
    requires limit > 0 && |plans| < |dbs| && PlansUpTo(plans, dbs, |plans|) && DbPlan(p, dbs[|plans|])
    ensures PlansUpTo(plans + [p], dbs, |plans| + 1)
    ensures EncodeAll(RewriteLog(plans + [p], dbs, now, limit, |plans| + 1))
            == EncodeAll(RewriteLog(plans, dbs, now, limit, |plans|))
              + EncodeAll(DbLog(p, dbs[|plans|], |plans|, now, limit))
  {
    hide DbLog, DbPlan, EncodeAll;
    MorePlans(plans, p, dbs, now, limit, |plans|);
    EncodeAllConcat(RewriteLog(plans, dbs, now, limit, |plans|), DbLog(p, dbs[|plans|], |plans|, now, limit));
  }

  /** One database's part of the log, SELECT included. */
  method RewriteOneDb(out: Bytes, d: Db, j: nat, now: int, limit: nat) returns (r: Bytes, ghost plans: seq<KeyPlan>)
    requires limit > 0 && ValidDb(d)
    ensures DbPlan(plans, d)
    ensures r == out + EncodeAll(DbLog(plans, d, j, now, limit))
  {
    if d == map[] {
      r, plans := out, [];
    } else {
      hide Bulk, Header, Encode;
      var selected := out + SELECT_TEXT;
      SelectText(j);
      Assoc(out, SELECT_TEXT, Bulk(Dec(j)));
      selected := selected + Bulk(Dec(j));
      r, plans := RewriteDb(selected, d, now, limit);
      ghost var select := ArgvOf(Select(j));
      EncodeAllOne(select);
      EncodeAllConcat([select], ArgvsOf(DbCmds(plans, d, now, limit)));
      hide EncodeAll;
      Assoc(out, Encode(select), EncodeCmds(DbCmds(plans, d, now, limit)));
    }
  }
}

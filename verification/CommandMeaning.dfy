/** What the commands do, told key by key from the databases before and after the call: when the key
    changes, to what, and that nothing else does. The clock is the server's, not the loader's. */
module CommandMeaning {
  import opened Common
  import opened Resp
  import opened Dataset

  /** The key is in the database and its time, if it has one, has not passed. */
  predicate There(d: Db, k: Key, now: int) {
    k in d && (d[k].expire.None? || d[k].expire.value < 0 || now <= d[k].expire.value)
  }

  predicate SameAt(a: Db, b: Db, k: Key) { if k in a then k in b && b[k] == a[k] else k !in b }

  predicate Holds(d: Db, k: Key, v: Value, expire: Option<int>) { k in d && d[k] == Entry(v, expire) }

  /** The key is as it was, but for having been removed if its time had passed. */
  predicate Untouched(before: Db, after: Db, k: Key, now: int) {
    if There(before, k, now) then SameAt(before, after, k) else k !in after
  }

  /** The other databases are as they were, and in `db` every key but those of `keys`. */
  ghost predicate Only(before: Dbs, after: Dbs, db: nat, keys: set<Key>)
    requires db < |before| == |after|
  {
    && (forall j :: 0 <= j < |before| && j != db ==> after[j] == before[j])
    && (forall k :: k !in keys ==> SameAt(before[db], after[db], k))
  }

  function Run(dbs: Dbs, db: nat, c: Cmd, now: int, eff: Effect): (r: Dbs)
    requires db < |dbs|
    ensures |r| == |dbs|
  {
    Exec(dbs, db, c, Env(now, false), eff).dbs
  }

  /** A command on one key changes no other key. */
  lemma OneKeyOnly(dbs: Dbs, db: nat, c: Cmd, now: int, eff: Effect)
    requires db < |dbs| && SingleKey(c)
    ensures Only(dbs, Run(dbs, db, c, now, eff), db, {KeyOf(c)})
  {
    hide KeyUpdate, Rejected, KeyOf;
  }

  /** What a command on one key leaves there, from what it finds. */
  lemma OneKey(dbs: Dbs, db: nat, c: Cmd, now: int, eff: Effect)
    requires db < |dbs| && SingleKey(c) && !Rejected(c) && !(c.Restore? && c.replace)
    ensures var d, k := dbs[db], KeyOf(c);
            var e := if There(d, k, now) then Some(d[k]) else None;
            var u := KeyUpdate(c, e, Env(now, false), eff);
            && Get(Run(dbs, db, c, now, eff), db, k) == u.entry
            && Exec(dbs, db, c, Env(now, false), eff).feeds
               == (if k in d && !There(d, k, now) then [Feed(db, Del([k]))] else []) + FeedsIn(db, u.fed)
  {
    hide KeyUpdate, Rejected, KeyOf, FeedsIn;
  }

  // ---- SET ----

  /** The last EX counts in seconds, the last PX in milliseconds; with neither there is no time. */
  lemma {:induction false} TtlMeans(opts: seq<SetOpt>, i: nat)
    requires i < |opts| && forall j :: i < j < |opts| ==> !opts[j].EX? && !opts[j].PX?
    ensures opts[i].EX? ==> SetTtl(opts) == Some(1000 * opts[i].n)
    ensures opts[i].PX? ==> SetTtl(opts) == Some(opts[i].n)
  {
    TtlScan(opts, i, None);
  }

  lemma {:induction false} TtlScan(opts: seq<SetOpt>, i: nat, ttl: Option<int>)
    requires i < |opts| && forall j :: i < j < |opts| ==> !opts[j].EX? && !opts[j].PX?
    ensures opts[i].EX? ==> TtlFrom(opts, ttl) == Some(1000 * opts[i].n)
    ensures opts[i].PX? ==> TtlFrom(opts, ttl) == Some(opts[i].n)
    decreases |opts|
  {
    var next := match opts[0] case EX(n) => Some(n * 1000) case PX(n) => Some(n) case _ => ttl;
    if i == 0 {
      TtlNone(opts[1..], next);
    } else {
      assert opts[i] == opts[1..][i - 1];
      TtlScan(opts[1..], i - 1, next);
    }
  }

  lemma {:induction false} TtlNone(opts: seq<SetOpt>, ttl: Option<int>)
    requires forall j :: 0 <= j < |opts| ==> !opts[j].EX? && !opts[j].PX?
    ensures TtlFrom(opts, ttl) == ttl
    decreases |opts|
  {
    if opts != [] { TtlNone(opts[1..], ttl); }
  }

  /** SET with NX writes exactly when the key is not there, with XX exactly when it is, and with
      neither always. What it writes is the string with the time asked for or none; otherwise the key
      is as it was. */
  lemma SetMeans(dbs: Dbs, db: nat, key: Key, val: Bytes, opts: seq<SetOpt>, now: int, eff: Effect)
    requires db < |dbs| && !Rejected(SetCmd(key, val, opts))
    ensures var after := Run(dbs, db, SetCmd(key, val, opts), now, eff);
            var there, ttl := There(dbs[db], key, now), SetTtl(opts);
            && (NX in opts && there ==> Untouched(dbs[db], after[db], key, now))
            && (XX in opts && !there ==> Untouched(dbs[db], after[db], key, now))
            && (!(NX in opts && there) && !(XX in opts && !there) ==>
                  Holds(after[db], key, Str(val), if ttl.Some? then Some(now + ttl.value) else None))
            && Only(dbs, after, db, {key})
  {
    var c := SetCmd(key, val, opts);
    hide Rejected, SetTtl, Only, FeedsIn;
    OneKeyOnly(dbs, db, c, now, eff);
    OneKey(dbs, db, c, now, eff);
  }

  /** A SET is logged exactly when it writes, after the DEL of a key whose time had passed. */
  lemma SetFeeds(dbs: Dbs, db: nat, key: Key, val: Bytes, opts: seq<SetOpt>, now: int, eff: Effect)
    requires db < |dbs| && !Rejected(SetCmd(key, val, opts))
    ensures var there := There(dbs[db], key, now);
            Exec(dbs, db, SetCmd(key, val, opts), Env(now, false), eff).feeds
            == (if key in dbs[db] && !there then [Feed(db, Del([key]))] else [])
               + if (NX in opts && there) || (XX in opts && !there) then []
                 else [Feed(db, SetCmd(key, val, opts))]
  {
    var c := SetCmd(key, val, opts);
    hide Rejected, SetTtl;
    OneKey(dbs, db, c, now, eff);
    assert FeedsIn(db, [c][1..]) == [];
  }

  /** SETEX counts in seconds and PSETEX in milliseconds; both always write. */
  lemma SetExMeans(dbs: Dbs, db: nat, key: Key, n: int, val: Bytes, now: int, eff: Effect)
    requires db < |dbs| && n > 0
    ensures var after := Run(dbs, db, SetEx(key, n, val), now, eff);
            Holds(after[db], key, Str(val), Some(now + 1000 * n)) && Only(dbs, after, db, {key})
    ensures var after := Run(dbs, db, PSetEx(key, n, val), now, eff);
            Holds(after[db], key, Str(val), Some(now + n)) && Only(dbs, after, db, {key})
  {
    hide Only;
    OneKeyOnly(dbs, db, SetEx(key, n, val), now, eff);
    OneKey(dbs, db, SetEx(key, n, val), now, eff);
    OneKeyOnly(dbs, db, PSetEx(key, n, val), now, eff);
    OneKey(dbs, db, PSetEx(key, n, val), now, eff);
  }

  // ---- Expiry ----

  /** A deadline on a key: one that has come removes the key, another keeps its value. */
  predicate Deadline(before: Db, after: Db, k: Key, when: int, now: int) {
    if !There(before, k, now) || when <= now then k !in after
    else Holds(after, k, before[k].value, Some(when))
  }

  /** EXPIRE and EXPIREAT count in seconds, PEXPIRE and PEXPIREAT in milliseconds; the first of each
      pair from now. */
  lemma ExpireMeans(dbs: Dbs, db: nat, k: Key, n: int, now: int, eff: Effect)
    requires db < |dbs|
    ensures Deadline(dbs[db], Run(dbs, db, Expire(k, n), now, eff)[db], k, now + 1000 * n, now)
    ensures Deadline(dbs[db], Run(dbs, db, PExpire(k, n), now, eff)[db], k, now + n, now)
    ensures Deadline(dbs[db], Run(dbs, db, ExpireAt(k, n), now, eff)[db], k, 1000 * n, now)
    ensures Deadline(dbs[db], Run(dbs, db, PExpireAt(k, n), now, eff)[db], k, n, now)
  {
    hide Run;
    OneKey(dbs, db, Expire(k, n), now, eff);
    OneKey(dbs, db, PExpire(k, n), now, eff);
    OneKey(dbs, db, ExpireAt(k, n), now, eff);
    OneKey(dbs, db, PExpireAt(k, n), now, eff);
  }

  /** PERSIST takes the time away and leaves the value. */
  lemma PersistMeans(dbs: Dbs, db: nat, k: Key, now: int, eff: Effect)
    requires db < |dbs|
    ensures var after := Run(dbs, db, Persist(k), now, eff)[db];
            if There(dbs[db], k, now) then Holds(after, k, dbs[db][k].value, None) else k !in after
  {
    OneKey(dbs, db, Persist(k), now, eff);
  }

  // ---- Strings and payloads ----

  /** GETSET writes a string without a time unless the key holds something else; INCRBYFLOAT keeps
      the time. */
  lemma StringsMean(dbs: Dbs, db: nat, k: Key, v: Bytes, incr: Bytes, sum: Option<Bytes>, now: int, eff: Effect)
    requires db < |dbs|
    ensures var d, there := dbs[db], There(dbs[db], k, now);
            var given, added := Run(dbs, db, GetSet(k, v), now, eff)[db],
                                Run(dbs, db, IncrByFloat(k, incr, sum), now, eff)[db];
            && (if there && !d[k].value.Str? then SameAt(d, given, k) else Holds(given, k, Str(v), None))
            && (if sum.None? || (there && !d[k].value.Str?) then Untouched(d, added, k, now)
                else Holds(added, k, Str(sum.value), if there then d[k].expire else None))
  {
    hide Run;
    OneKey(dbs, db, GetSet(k, v), now, eff);
    OneKey(dbs, db, IncrByFloat(k, incr, sum), now, eff);
  }

  /** RESTORE writes the value of a good payload with the time asked for, counted from now, unless
      the key is there and REPLACE is not given. */
  lemma RestoreMeans(dbs: Dbs, db: nat, k: Key, ttl: int, p: Bytes, replace: bool, now: int, eff: Effect)
    requires db < |dbs|
    ensures var d, v := dbs[db], eff.restore(p);
            var after := Run(dbs, db, Restore(k, ttl, p, replace), now, eff)[db];
            var good := v.Some? && !EmptyContainer(v.value);
            && (good && ttl >= 0 && (replace || !There(d, k, now)) ==>
                  Holds(after, k, v.value, if ttl == 0 then None else Some(now + ttl)))
            && (!good || ttl < 0 ==> if replace then SameAt(d, after, k) else Untouched(d, after, k, now))
            && (!replace && There(d, k, now) ==> SameAt(d, after, k))
  {
    if !replace { OneKey(dbs, db, Restore(k, ttl, p, replace), now, eff); }
  }

  // ---- Several keys and whole databases ----

  lemma DelIs(dbs: Dbs, db: nat, c: Cmd, now: int, eff: Effect)
    requires db < |dbs| && (c.Del? || c.Unlink?)
    ensures Run(dbs, db, c, now, eff) == Without(dbs, db, set k | k in c.keys)
  {
    DelKeysRemoves(dbs, db, c.keys, Env(now, false));
    if SingleKey(c) {
      TouchThenRemove(dbs, db, c.keys[0], Env(now, false));
      assert (set k | k in c.keys) == {c.keys[0]};
    }
  }

  /** DEL and UNLINK remove the keys named and no other. */
  lemma DelMeans(dbs: Dbs, db: nat, c: Cmd, now: int, eff: Effect)
    requires db < |dbs| && (c.Del? || c.Unlink?)
    ensures var after := Run(dbs, db, c, now, eff);
            (forall k :: k in c.keys ==> k !in after[db]) && Only(dbs, after, db, set k | k in c.keys)
  {
    hide Run, Only;
    DelIs(dbs, db, c, now, eff);
    WithoutMeans(dbs, db, set k | k in c.keys);
  }

  lemma WithoutMeans(dbs: Dbs, db: nat, keys: set<Key>)
    requires db < |dbs|
    ensures Only(dbs, Without(dbs, db, keys), db, keys)
  {
  }

  /** RENAME gives the value and the time of the source to the target and removes the source, unless
      the source is not there or RENAMENX finds the target there. */
  lemma RenameMeans(dbs: Dbs, db: nat, src: Key, dst: Key, nx: bool, now: int, eff: Effect)
    requires db < |dbs| && src != dst
    ensures var d, after := dbs[db], Run(dbs, db, Rename(src, dst, nx), now, eff);
            && (There(d, src, now) && !(nx && There(d, dst, now)) ==>
                  src !in after[db] && Holds(after[db], dst, d[src].value, d[src].expire))
            && (!There(d, src, now) ==> src !in after[db] && SameAt(d, after[db], dst))
            && (There(d, src, now) && nx && There(d, dst, now) ==> after == dbs)
            && Only(dbs, after, db, {src, dst})
  {
  }

  /** MOVE does the same between two databases, and never overwrites. */
  lemma MoveMeans(dbs: Dbs, db: nat, k: Key, id: nat, now: int, eff: Effect)
    requires db < |dbs| && id < |dbs| && id != db
    ensures var after := Run(dbs, db, Move(k, id), now, eff);
            var moves := There(dbs[db], k, now) && !There(dbs[id], k, now);
            && (moves ==> k !in after[db] && Holds(after[id], k, dbs[db][k].value, dbs[db][k].expire))
            && (!There(dbs[db], k, now) ==> k !in after[db] && SameAt(dbs[id], after[id], k))
            && (There(dbs[db], k, now) && There(dbs[id], k, now) ==> after == dbs)
            && (forall j, q :: 0 <= j < |dbs| && !(j in {db, id} && q == k) ==> SameAt(dbs[j], after[j], q))
  {
  }

  /** SWAPDB exchanges two databases. */
  lemma SwapMeans(dbs: Dbs, db: nat, i: nat, j: nat, now: int, eff: Effect)
    requires db < |dbs| && i < |dbs| && j < |dbs|
    ensures var after := Run(dbs, db, SwapDb(i, j), now, eff);
            && after[i] == dbs[j] && after[j] == dbs[i]
            && forall m :: 0 <= m < |dbs| && m != i && m != j ==> after[m] == dbs[m]
  {
  }

  /** FLUSHDB empties one database and FLUSHALL all. */
  lemma FlushMeans(dbs: Dbs, db: nat, now: int, eff: Effect)
    requires db < |dbs|
    ensures var after := Run(dbs, db, FlushDb, now, eff);
            after[db] == map[] && forall m :: 0 <= m < |dbs| && m != db ==> after[m] == dbs[m]
    ensures forall m :: 0 <= m < |dbs| ==> Run(dbs, db, FlushAll, now, eff)[m] == map[]
  {
  }
}

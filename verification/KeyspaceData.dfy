/** The databases of db.c hold the data set: run on the same commands, the dictionaries, the
    expires and the DELs for expired keys follow the interpreter that the append-only file is
    about. */
module KeyspaceData {
  import opened Common
  import opened Resp
  import opened Dataset
  import K = Keyspace

  type Store = seq<K.Db<Value>>

  /** A value with its expiry, from the dictionary and the expires. */
  function Entries(d: K.Db<Value>): Db {
    map k | k in d.dict :: Entry(d.dict[k], if k in d.expires then Some(d.expires[k]) else None)
  }

  function AllEntries(s: Store): (r: Dbs)
    ensures |r| == |s|
  {
    seq(|s|, j requires 0 <= j < |s| => Entries(s[j]))
  }

  /** The propagated DELs as feeds. */
  function Sent(dels: seq<(nat, Key)>): seq<Feed> {
    if dels == [] then [] else [Feed(dels[0].0, Del([dels[0].1]))] + Sent(dels[1..])
  }

  lemma {:induction false} SentConcat(a: seq<(nat, Key)>, b: seq<(nat, Key)>)
    ensures Sent(a + b) == Sent(a) + Sent(b)
  {
    if a == [] {
      assert a + b == b;
    } else {
      assert (a + b)[1..] == a[1..] + b;
      SentConcat(a[1..], b);
    }
  }

  function Live(now: int): K.Env { K.Env(now, false, false) }

  predicate TimesOf(d: K.Db<Value>) {
    d.expires.Keys <= d.dict.Keys && forall k :: k in d.expires ==> d.expires[k] >= 0
  }

  /** Expiry times are recorded for keys that are there, and are never negative. */
  predicate Times(s: Store) { forall j :: 0 <= j < |s| ==> TimesOf(s[j]) }

  // ---- One database ----

  lemma EntriesDel(d: K.Db<Value>, k: Key)
    ensures Entries(K.Del(d, k)) == Entries(d) - {k}
    ensures TimesOf(d) ==> TimesOf(K.Del(d, k))
  {
  }

  lemma EntriesMoved(src: K.Db<Value>, dst: K.Db<Value>, k: Key)
    requires TimesOf(src) && TimesOf(dst) && k in src.dict && k !in dst.dict
    ensures var d' := K.WithExpiry(K.Db(dst.dict[k := src.dict[k]], dst.expires), k, K.Expiry(src, k));
            Entries(d') == Entries(dst)[k := Entries(src)[k]] && TimesOf(d')
  {
  }

  lemma EntriesRenamed(d: K.Db<Value>, k: Key, to: Key)
    requires TimesOf(d) && k in d.dict && k != to
    ensures Entries(K.Renamed(d, k, to)) == Entries(d)[to := Entries(d)[k]] - {k}
    ensures TimesOf(K.Renamed(d, k, to))
  {
  }

  // ---- All databases ----

  lemma AllTouch(s: Store, j: nat, k: Key, now: int)
    requires j < |s| && Times(s)
    ensures var d := K.Touch(s[j], k, Live(now));
            && Touch(AllEntries(s), j, k, Env(now, false))
               == Outcome(AllEntries(s[j := d]), Sent(K.Dels(s[j], k, Live(now), j)))
            && Get(AllEntries(s[j := d]), j, k)
               == (if k in d.dict then Some(Entries(d)[k]) else None)
            && Times(s[j := d])
  {
    EntriesDel(s[j], k);
    var d := K.Touch(s[j], k, Live(now));
    assert s[j := s[j]] == s;
    hide Expired, K.Touch;
    if d != s[j] { assert Sent([(j, k)][1..]) == []; }
  }

  /** What a step of the server is against the interpreter: the databases are those of the outcome
      and the feeds are the DELs of expired keys, then the command itself if it counted. */
  predicate Matches(before: Store, after: Store, sent: seq<(nat, Key)>, fed: seq<Cmd>, db: nat, c: Cmd, now: int,
                    eff: Effect)
  {
    && db < |before| && Times(after)
    && Exec(AllEntries(before), db, c, Env(now, false), eff)
       == Outcome(AllEntries(after), Sent(sent) + FeedsIn(db, fed))
  }

  /** A command on one key, from what it makes of the database the key was looked up in. */
  lemma SingleMatches(s: Store, db: nat, c: Cmd, d': K.Db<Value>, fed: seq<Cmd>, now: int, eff: Effect)
    requires db < |s| && Times(s) && SingleKey(c) && !Rejected(c) && !(c.Restore? && c.replace) && TimesOf(d')
    requires var k := KeyOf(c);
             var d := K.Touch(s[db], k, Live(now));
             var u := KeyUpdate(c, if k in d.dict then Some(Entries(d)[k]) else None, Env(now, false), eff);
             && fed == u.fed
             && Entries(d') == if u.entry.Some? then Entries(d)[k := u.entry.value] else Entries(d) - {k}
    ensures Matches(s, s[db := d'], K.Dels(s[db], KeyOf(c), Live(now), db), fed, db, c, now, eff)
  {
    hide KeyUpdate, K.Touch, K.Dels, Entries, TimesOf, FeedsIn, Rejected;
    var k := KeyOf(c);
    var d := K.Touch(s[db], k, Live(now));
    AllTouch(s, db, k, now);
  }

  // ---- The commands ----

  function Ttl(c: Cmd): Option<int>
    requires IsSet(c)
  {
    if c.SetEx? then Some(c.n * 1000) else if c.PSetEx? then Some(c.n) else SetTtl(c.opts)
  }

  predicate Aborted(c: Cmd, there: bool) { c.SetCmd? && ((NX in c.opts && there) || (XX in c.opts && !there)) }

  /** The database a SET leaves, from the one the key was looked up in. */
  function SetIn(d: K.Db<Value>, c: Cmd, now: int): K.Db<Value>
    requires IsSet(c)
  {
    if Aborted(c, c.key in d.dict) then d
    else
      K.Db(d.dict[c.key := Str(c.val)],
           if Ttl(c).Some? then (d.expires - {c.key})[c.key := now + Ttl(c).value] else d.expires - {c.key})
  }

  lemma SetMatches(s: Store, db: nat, c: Cmd, now: int, eff: Effect)
    requires db < |s| && Times(s) && IsSet(c) && !Rejected(c) && now >= 0
    ensures var d := K.Touch(s[db], c.key, Live(now));
            Matches(s, s[db := SetIn(d, c, now)], K.Dels(s[db], c.key, Live(now), db),
                    if Aborted(c, c.key in d.dict) then [] else [c], db, c, now, eff)
  {
    var d := K.Touch(s[db], c.key, Live(now));
    hide K.Touch, Entries, TimesOf, SetIn, Rejected, SetTtl, K.Dels, Matches;
    SingleMatches(s, db, c, SetIn(d, c, now), if Aborted(c, c.key in d.dict) then [] else [c], now, eff);
  }

  lemma TouchedAgain(d: K.Db<Value>, k: Key, now: int)
    ensures var t := K.Touch(d, k, Live(now));
            K.Touch(t, k, Live(now)) == t && forall j: nat :: K.Dels(t, k, Live(now), j) == []
  {
  }

  lemma RejectedMatches(s: Store, db: nat, c: Cmd, now: int, eff: Effect)
    requires db < |s| && Times(s) && Rejected(c)
    ensures Matches(s, s, [], [], db, c, now, eff)
  {
  }

  /** The key is in the dictionary and its time, if it has one, has not passed. */
  predicate There(d: K.Db<Value>, k: Key, now: int) {
    k in d.dict && (k in d.expires ==> d.expires[k] < 0 || now <= d.expires[k])
  }

  /** The dictionary and the expires say the same about the key. */
  predicate SameKey(a: K.Db<Value>, b: K.Db<Value>, k: Key) {
    && (if k in a.dict then k in b.dict && b.dict[k] == a.dict[k] else k !in b.dict)
    && (if k in a.expires then k in b.expires && b.expires[k] == a.expires[k] else k !in b.expires)
  }

  /** Nothing but key `k` of database `db` differs. */
  ghost predicate OnlyKey(before: Store, after: Store, db: nat, k: Key)
    requires db < |before|
  {
    && |after| == |before|
    && (forall j :: 0 <= j < |before| && j != db ==> after[j] == before[j])
    && (forall q :: q != k ==> SameKey(before[db], after[db], q))
  }

  lemma TimesAt(s: Store, j: nat)
    requires Times(s) && j < |s|
    ensures TimesOf(s[j])
  {
  }

  lemma SetKeeps(d: K.Db<Value>, c: Cmd, now: int)
    requires IsSet(c) && TimesOf(d)
    ensures var d' := SetIn(K.Touch(d, c.key, Live(now)), c, now);
            var there := There(d, c.key, now);
            && (c.key in K.Touch(d, c.key, Live(now)).dict <==> there)
            && (c.SetCmd? && ((NX in c.opts && there) || (XX in c.opts && !there)) ==>
                  if there then d' == d else c.key !in d'.dict)
            && forall q :: q != c.key ==> SameKey(d, d', q)
  {
  }

  lemma SetWrites(d: K.Db<Value>, c: Cmd, now: int)
    requires IsSet(c) && TimesOf(d)
    ensures var d' := SetIn(K.Touch(d, c.key, Live(now)), c, now);
            var there := There(d, c.key, now);
            var ttl := if c.SetEx? then Some(1000 * c.n) else if c.PSetEx? then Some(c.n) else SetTtl(c.opts);
            !(c.SetCmd? && ((NX in c.opts && there) || (XX in c.opts && !there))) ==>
              && c.key in d'.dict && d'.dict[c.key] == Str(c.val)
              && (if ttl.Some? then c.key in d'.expires && d'.expires[c.key] == now + ttl.value
                  else c.key !in d'.expires)
  {
    hide SetTtl;
  }

  /** setGenericCommand with its options, SETEX and PSETEX: NX writes exactly when the key is not
      there, XX exactly when it is, and the others always. */
  method Set(s: K.Server<Value>, c: Cmd, now: int, ghost eff: Effect)
    returns (ghost sent: seq<(nat, Key)>, fed: seq<Cmd>)
    requires s.Valid() && Times(s.dbs) && IsSet(c) && now >= 0
    modifies s
    ensures s.Valid() && s.selected == old(s.selected) && s.propagated == old(s.propagated) + sent
    ensures Matches(old(s.dbs), s.dbs, sent, fed, s.selected, c, now, eff)
    ensures Rejected(c) ==> s.dbs == old(s.dbs) && fed == []
    ensures var d, d' := old(s.dbs)[s.selected], s.dbs[s.selected];
            var there := There(d, c.key, now);
            var ttl := if c.SetEx? then Some(1000 * c.n) else if c.PSetEx? then Some(c.n) else SetTtl(c.opts);
            !Rejected(c) ==>
              && OnlyKey(old(s.dbs), s.dbs, s.selected, c.key)
              && (if c.SetCmd? && ((NX in c.opts && there) || (XX in c.opts && !there)) then
                    fed == [] && if there then SameKey(d, d', c.key) else c.key !in d'.dict
                  else
                    && fed == [c] && c.key in d'.dict && d'.dict[c.key] == Str(c.val)
                    && (if ttl.Some? then c.key in d'.expires && d'.expires[c.key] == now + ttl.value
                        else c.key !in d'.expires))
  {
    hide K.Touch, K.Dels, Matches, Rejected, SetTtl, Times, K.Indexes, K.ExpiresInDict;
    fed, sent := [], [];
    if Rejected(c) {
      RejectedMatches(s.dbs, s.selected, c, now, eff);
      return;
    }
    ghost var was := s.dbs[s.selected];
    SetMatches(s.dbs, s.selected, c, now, eff);
    TouchedAgain(was, c.key, now);
    TimesAt(s.dbs, s.selected);
    SetKeeps(was, c, now);
    SetWrites(was, c, now);
    var o := s.LookupKeyWrite(s.selected, c.key, Live(now));
    sent := K.Dels(was, c.key, Live(now), s.selected);
    if Aborted(c, o.Some?) { return; }
    s.SetKey(c.key, Str(c.val), Live(now));
    var ttl := Ttl(c);
    if ttl.Some? { s.SetExpire(s.selected, c.key, now + ttl.value); }
    fed := [c];
    assert s.dbs == old(s.dbs)[s.selected := SetIn(K.Touch(was, c.key, Live(now)), c, now)];
  }

  lemma ExpireMatches(s: Store, db: nat, c: Cmd, now: int, eff: Effect)
    requires db < |s| && Times(s) && IsExpire(c) && now >= 0
    ensures var k, when := c.key, When(c, now);
            var d := K.Touch(s[db], k, Live(now));
            var d' := if k !in d.dict then d else if when <= now then K.Del(d, k)
                      else K.Db(d.dict, d.expires[k := when]);
            var fed := if k !in d.dict then [] else if when <= now then [Del([k])] else [c];
            Matches(s, s[db := d'], K.Dels(s[db], k, Live(now), db), fed, db, c, now, eff)
  {
    var k, when := c.key, When(c, now);
    var d := K.Touch(s[db], k, Live(now));
    EntriesDel(d, k);
    hide K.Touch, K.Dels, Matches, Entries, TimesOf;
    if k !in d.dict {
      SingleMatches(s, db, c, d, [], now, eff);
    } else if when <= now {
      SingleMatches(s, db, c, K.Del(d, k), [Del([k])], now, eff);
    } else {
      SingleMatches(s, db, c, K.Db(d.dict, d.expires[k := when]), [c], now, eff);
    }
  }

  lemma ExpireKeeps(d: K.Db<Value>, k: Key, now: int)
    requires TimesOf(d)
    ensures var t := K.Touch(d, k, Live(now));
            && (k in t.dict <==> There(d, k, now)) && (k in t.dict ==> t == d)
            && (forall q :: q != k ==> SameKey(d, t, q))
            && (forall q :: q != k ==> SameKey(d, K.Del(t, k), q))
  {
  }

  /** EXPIRE, PEXPIRE, EXPIREAT and PEXPIREAT: a deadline in seconds or milliseconds, from now or
      from the epoch. One that has come removes the key; another is recorded. */
  method ExpireKey(s: K.Server<Value>, c: Cmd, now: int, ghost eff: Effect)
    returns (ghost sent: seq<(nat, Key)>, fed: seq<Cmd>)
    requires s.Valid() && Times(s.dbs) && IsExpire(c) && now >= 0
    modifies s
    ensures s.Valid() && s.selected == old(s.selected) && s.propagated == old(s.propagated) + sent
    ensures Matches(old(s.dbs), s.dbs, sent, fed, s.selected, c, now, eff)
    ensures var d, d' := old(s.dbs)[s.selected], s.dbs[s.selected];
            var when := match c
              case Expire(_, n) => now + 1000 * n
              case PExpire(_, n) => now + n
              case ExpireAt(_, n) => 1000 * n
              case PExpireAt(_, n) => n;
            && OnlyKey(old(s.dbs), s.dbs, s.selected, c.key)
            && (if !There(d, c.key, now) || when <= now then c.key !in d'.dict
                else d' == K.Db(d.dict, d.expires[c.key := when]))
            && fed == if !There(d, c.key, now) then [] else if when <= now then [Del([c.key])] else [c]
  {
    hide K.Touch, K.Dels, Matches, Times, K.Indexes, K.ExpiresInDict;
    ExpireMatches(s.dbs, s.selected, c, now, eff);
    TimesAt(s.dbs, s.selected);
    ExpireKeeps(s.dbs[s.selected], c.key, now);
    sent := K.Dels(s.dbs[s.selected], c.key, Live(now), s.selected);
    var when := When(c, now);
    var reply := s.Expire(c.key, when, Live(now));
    fed := if reply == K.Zero then [] else if when <= now then [Del([c.key])] else [c];
  }

  lemma PersistMatches(s: Store, db: nat, c: Cmd, now: int, eff: Effect)
    requires db < |s| && Times(s) && c.Persist?
    ensures var d := K.Touch(s[db], c.key, Live(now));
            Matches(s, s[db := K.Db(d.dict, d.expires - {c.key})], K.Dels(s[db], c.key, Live(now), db),
                    if c.key in d.expires then [c] else [], db, c, now, eff)
  {
    var d := K.Touch(s[db], c.key, Live(now));
    assert c.key in d.expires ==> c.key in d.dict;
    hide K.Touch, K.Dels, Matches, TimesOf;
    SingleMatches(s, db, c, K.Db(d.dict, d.expires - {c.key}), if c.key in d.expires then [c] else [], now, eff);
  }

  method PersistKey(s: K.Server<Value>, c: Cmd, now: int, ghost eff: Effect)
    returns (ghost sent: seq<(nat, Key)>, fed: seq<Cmd>)
    requires s.Valid() && Times(s.dbs) && c.Persist?
    modifies s
    ensures s.Valid() && s.selected == old(s.selected) && s.propagated == old(s.propagated) + sent
    ensures Matches(old(s.dbs), s.dbs, sent, fed, s.selected, c, now, eff)
  {
    hide K.Touch, K.Dels, Matches, Times, K.Indexes, K.ExpiresInDict;
    PersistMatches(s.dbs, s.selected, c, now, eff);
    sent := K.Dels(s.dbs[s.selected], c.key, Live(now), s.selected);
    var reply := s.Persist(c.key, Live(now));
    fed := if reply == K.One then [c] else [];
  }

  lemma DelTouched(d: K.Db<Value>, k: Key, now: int)
    ensures K.Del(K.Touch(d, k, Live(now)), k) == K.Del(d, k)
  {
  }

  lemma WithoutFirst(d: K.Db<Value>, keys: seq<Key>)
    requires keys != []
    ensures K.Without(K.Del(d, keys[0]), set k | k in keys[1..]) == K.Without(d, set k | k in keys)
  {
    assert (set k | k in keys) == {keys[0]} + set k | k in keys[1..];
  }

  lemma DelStep(s: Store, db: nat, k: Key, now: int)
    requires db < |s| && Times(s)
    ensures var s1, t := s[db := K.Del(s[db], k)], Touch(AllEntries(s), db, k, Env(now, false));
            && Times(s1) && Put(t.dbs, db, k, None) == AllEntries(s1)
            && t.feeds == Sent(K.Dels(s[db], k, Live(now), db))
            && (k in t.dbs[db] <==> k in K.Touch(s[db], k, Live(now)).dict)
  {
    var d := K.Touch(s[db], k, Live(now));
    AllTouch(s, db, k, now);
    DelTouched(s[db], k, now);
    EntriesDel(d, k);
    EntriesDel(s[db], k);
  }

  lemma {:induction false} DelKeysData(s: Store, db: nat, keys: seq<Key>, now: int)
    requires db < |s| && Times(s)
    ensures var s' := s[db := K.Without(s[db], set k | k in keys)];
            && Times(s')
            && DelKeys(AllEntries(s), db, keys, Env(now, false))
               == (Outcome(AllEntries(s'), Sent(K.DelsOfAll(s[db], keys, Live(now), db))),
                   K.DelCount(s[db], keys, Live(now)) > 0)
    decreases |keys|
  {
    hide Touch, Put, K.Touch, K.Dels, K.Del, AllEntries, TimesOf, Sent;
    if keys == [] {
      assert K.Without(s[db], {}) == s[db] && (set k | k in keys) == {};
      assert s[db := s[db]] == s;
      NothingSent();
    } else {
      var s1 := s[db := K.Del(s[db], keys[0])];
      DelStep(s, db, keys[0], now);
      DelKeysData(s1, db, keys[1..], now);
      WithoutFirst(s[db], keys);
      hide K.Without;
      SentConcat(K.Dels(s[db], keys[0], Live(now), db), K.DelsOfAll(s1[db], keys[1..], Live(now), db));
      assert s1[db := K.Without(s1[db], set k | k in keys[1..])] == s[db := K.Without(s[db], set k | k in keys)];
    }
  }

  lemma NothingSent()
    ensures Sent([]) == []
  {
  }

  /** DEL and UNLINK of any number of keys run the loop. */
  lemma DelExec(dbs: Dbs, db: nat, c: Cmd, now: int, eff: Effect)
    requires db < |dbs| && (c.Del? || c.Unlink?)
    ensures var (o, deleted) := DelKeys(dbs, db, c.keys, Env(now, false));
            Exec(dbs, db, c, Env(now, false), eff) == Outcome(o.dbs, o.feeds + FeedsIn(db, if deleted then [c] else []))
  {
    OneFeed(db, c);
    if SingleKey(c) {
      var t := Touch(dbs, db, c.keys[0], Env(now, false));
      assert c.keys[1..] == [] && t.feeds + [] == t.feeds && [c.keys[0]] == c.keys;
    }
  }

  lemma OneFeed(db: nat, c: Cmd)
    ensures FeedsIn(db, [c]) == [Feed(db, c)] && FeedsIn(db, []) == []
  {
    assert FeedsIn(db, [c][1..]) == [];
  }

  /** DEL and UNLINK of any number of keys, some of them expired or named twice. */
  method DeleteKeys(s: K.Server<Value>, c: Cmd, now: int, ghost eff: Effect)
    returns (ghost sent: seq<(nat, Key)>, fed: seq<Cmd>)
    requires s.Valid() && Times(s.dbs) && (c.Del? || c.Unlink?)
    modifies s
    ensures s.Valid() && s.selected == old(s.selected) && s.propagated == old(s.propagated) + sent
    ensures Matches(old(s.dbs), s.dbs, sent, fed, s.selected, c, now, eff)
  {
    hide K.Touch, K.DelCount, K.DelsOfAll, K.Indexes, K.ExpiresInDict, DelKeys, Exec, AllEntries, Sent, FeedsIn, Times,
         K.Without;
    DelKeysData(s.dbs, s.selected, c.keys, now);
    DelExec(AllEntries(s.dbs), s.selected, c, now, eff);
    sent := K.DelsOfAll(s.dbs[s.selected], c.keys, Live(now), s.selected);
    var deleted := s.DelCommand(c.keys, Live(now));
    fed := if deleted > 0 then [c] else [];
  }

  lemma RenameNothing(s: Store, db: nat, c: Cmd, now: int, eff: Effect)
    requires db < |s| && Times(s) && c.Rename?
    ensures var d1 := K.Touch(s[db], c.src, Live(now));
            c.src !in d1.dict || c.src == c.dst ==>
              Matches(s, s[db := d1], K.Dels(s[db], c.src, Live(now), db), [], db, c, now, eff)
  {
    AllTouch(s, db, c.src, now);
    hide K.Touch, K.Dels, AllEntries, Sent, Times, Touch;
    var sent := Sent(K.Dels(s[db], c.src, Live(now), db));
    assert sent + [] == sent;
  }

  lemma RenamePuts(s: Store, db: nat, d: K.Db<Value>, c: Cmd)
    requires db < |s| && Times(s) && c.Rename? && c.src != c.dst && d == s[db] && c.src in d.dict
    ensures var E := AllEntries(s);
            var s' := s[db := K.Renamed(d, c.src, c.dst)];
            && Times(s') && Get(E, db, c.src) == Some(Entries(d)[c.src])
            && AllEntries(s') == Put(Put(E, db, c.dst, Get(E, db, c.src)), db, c.src, None)
  {
    EntriesRenamed(d, c.src, c.dst);
    hide K.Renamed, Entries, TimesOf;
    assert c.src in Entries(d);
  }

  lemma RenameMatches(s: Store, db: nat, c: Cmd, now: int, eff: Effect)
    requires db < |s| && Times(s) && c.Rename? && c.src != c.dst
    ensures var d1 := K.Touch(s[db], c.src, Live(now));
            var d2 := K.Touch(d1, c.dst, Live(now));
            var sent := K.Dels(s[db], c.src, Live(now), db) + K.Dels(d1, c.dst, Live(now), db);
            c.src in d1.dict && c.src in d2.dict ==>
              if c.nx && c.dst in d2.dict then Matches(s, s[db := d2], sent, [], db, c, now, eff)
              else Matches(s, s[db := K.Renamed(d2, c.src, c.dst)], sent, [c], db, c, now, eff)
  {
    var d1 := K.Touch(s[db], c.src, Live(now));
    var d2 := K.Touch(d1, c.dst, Live(now));
    if c.src in d1.dict && c.src in d2.dict {
      var s1, s2 := s[db := d1], s[db := d2];
      AllTouch(s, db, c.src, now);
      AllTouch(s1, db, c.dst, now);
      assert s1[db := d2] == s2;
      RenamePuts(s2, db, d2, c);
      assert s2[db := K.Renamed(d2, c.src, c.dst)] == s[db := K.Renamed(d2, c.src, c.dst)];
      SentConcat(K.Dels(s[db], c.src, Live(now), db), K.Dels(d1, c.dst, Live(now), db));
      OneFeed(db, c);
      hide K.Touch, K.Dels, AllEntries, Sent, Times, Touch, Put, Get, K.Renamed, Entries, FeedsIn;
    }
  }

  method RenameKey(s: K.Server<Value>, c: Cmd, now: int, ghost eff: Effect)
    returns (ghost sent: seq<(nat, Key)>, fed: seq<Cmd>)
    requires s.Valid() && Times(s.dbs) && c.Rename?
    modifies s
    ensures s.Valid() && s.selected == old(s.selected) && s.propagated == old(s.propagated) + sent
    ensures Matches(old(s.dbs), s.dbs, sent, fed, s.selected, c, now, eff)
  {
    hide K.Touch, K.Dels, K.Renamed, Matches, Times, K.Indexes, K.ExpiresInDict;
    RenameNothing(s.dbs, s.selected, c, now, eff);
    if c.src != c.dst { RenameMatches(s.dbs, s.selected, c, now, eff); }
    ghost var d := s.dbs[s.selected];
    ghost var d1 := K.Touch(d, c.src, Live(now));
    sent := K.Dels(d, c.src, Live(now), s.selected)
            + if c.src in d1.dict && c.src != c.dst then K.Dels(d1, c.dst, Live(now), s.selected) else [];
    Assoc(s.propagated, K.Dels(d, c.src, Live(now), s.selected),
             if c.src in d1.dict && c.src != c.dst then K.Dels(d1, c.dst, Live(now), s.selected) else []);
    if c.src != c.dst { K.TouchOther(d1, c.dst, c.src, Live(now)); }
    var reply := s.Rename(c.src, c.dst, c.nx, Live(now));
    fed := if c.src != c.dst && reply == (if c.nx then K.One else K.Ok) then [c] else [];
    assert K.Dels(d, c.src, Live(now), s.selected) + [] == K.Dels(d, c.src, Live(now), s.selected);
  }

  // MOVE

  lemma MoveRefused(s: Store, db: nat, c: Cmd, now: int, eff: Effect)
    requires db < |s| && Times(s) && c.Move?
    ensures !(0 <= c.id < |s|) || c.id == db ==> Matches(s, s, [], [], db, c, now, eff)
    ensures var src := K.Touch(s[db], c.key, Live(now));
            0 <= c.id < |s| && c.id != db && c.key !in src.dict ==>
              Matches(s, s[db := src], K.Dels(s[db], c.key, Live(now), db), [], db, c, now, eff)
  {
    AllTouch(s, db, c.key, now);
    hide K.Touch, K.Dels, AllEntries, Times, Touch;
    var sent := Sent(K.Dels(s[db], c.key, Live(now), db));
    assert sent + [] == sent;
  }

  /** Both lookups of MOVE. */
  lemma MoveTouches(s: Store, db: nat, id: nat, k: Key, now: int)
    requires db < |s| && id < |s| && id != db && Times(s)
    ensures var src, dst := K.Touch(s[db], k, Live(now)), K.Touch(s[id], k, Live(now));
            var s2 := s[db := src][id := dst];
            var t := Touch(AllEntries(s), db, k, Env(now, false));
            && t.dbs == AllEntries(s[db := src]) && t.feeds == Sent(K.Dels(s[db], k, Live(now), db))
            && Get(t.dbs, db, k) == (if k in src.dict then Some(Entries(src)[k]) else None)
            && Touch(t.dbs, id, k, Env(now, false)) == Outcome(AllEntries(s2), Sent(K.Dels(s[id], k, Live(now), id)))
            && (k in AllEntries(s2)[id] <==> k in dst.dict)
            && Times(s2)
  {
    AllTouch(s, db, k, now);
    AllTouch(s[db := K.Touch(s[db], k, Live(now))], id, k, now);
  }

  lemma MovePuts(s: Store, db: nat, id: nat, k: Key)
    requires db < |s| && id < |s| && id != db && Times(s) && k in s[db].dict && k !in s[id].dict
    ensures var moved := K.WithExpiry(K.Db(s[id].dict[k := s[db].dict[k]], s[id].expires), k, K.Expiry(s[db], k));
            var s' := s[db := K.Del(s[db], k)][id := moved];
            && Times(s')
            && AllEntries(s') == Put(Put(AllEntries(s), id, k, Some(Entries(s[db])[k])), db, k, None)
  {
    var moved := K.WithExpiry(K.Db(s[id].dict[k := s[db].dict[k]], s[id].expires), k, K.Expiry(s[db], k));
    EntriesMoved(s[db], s[id], k);
    EntriesDel(s[db], k);
    hide K.WithExpiry, K.Expiry, K.Del, Entries, TimesOf;
  }

  lemma MoveMatches(s: Store, db: nat, c: Cmd, now: int, eff: Effect)
    requires db < |s| && Times(s) && c.Move? && 0 <= c.id < |s| && c.id != db
    ensures var k := c.key;
            var src, dst := K.Touch(s[db], k, Live(now)), K.Touch(s[c.id], k, Live(now));
            var sent := K.Dels(s[db], k, Live(now), db) + K.Dels(s[c.id], k, Live(now), c.id);
            k in src.dict ==>
              if k in dst.dict then Matches(s, s[db := src][c.id := dst], sent, [], db, c, now, eff)
              else
                var moved := K.WithExpiry(K.Db(dst.dict[k := src.dict[k]], dst.expires), k, K.Expiry(src, k));
                Matches(s, s[db := K.Del(src, k)][c.id := moved], sent, [c], db, c, now, eff)
  {
    hide K.Touch, K.Dels, AllEntries, Sent, Times, Touch, Put, Entries, FeedsIn, K.WithExpiry, K.Expiry, K.Del;
    var k, id := c.key, c.id;
    var src, dst := K.Touch(s[db], k, Live(now)), K.Touch(s[id], k, Live(now));
    MoveTouches(s, db, id, k, now);
    SentConcat(K.Dels(s[db], k, Live(now), db), K.Dels(s[id], k, Live(now), id));
    OneFeed(db, c);
    var sent := Sent(K.Dels(s[db], k, Live(now), db)) + Sent(K.Dels(s[id], k, Live(now), id));
    assert sent + [] == sent;
    if k in src.dict && k !in dst.dict {
      var s2 := s[db := src][id := dst];
      MovePuts(s2, db, id, k);
      var moved := K.WithExpiry(K.Db(dst.dict[k := src.dict[k]], dst.expires), k, K.Expiry(src, k));
      assert s2[db := K.Del(src, k)][id := moved] == s[db := K.Del(src, k)][id := moved];
    }
  }

  method MoveKey(s: K.Server<Value>, c: Cmd, now: int, ghost eff: Effect)
    returns (ghost sent: seq<(nat, Key)>, fed: seq<Cmd>)
    requires s.Valid() && Times(s.dbs) && c.Move? && !s.cluster
    modifies s
    ensures s.Valid() && s.selected == old(s.selected) && s.propagated == old(s.propagated) + sent
    ensures Matches(old(s.dbs), s.dbs, sent, fed, s.selected, c, now, eff)
  {
    hide K.Touch, K.Dels, K.WithExpiry, K.Expiry, K.Del, Matches, Times, K.Indexes, K.ExpiresInDict;
    MoveRefused(s.dbs, s.selected, c, now, eff);
    sent := [];
    ghost var d := s.dbs[s.selected];
    if 0 <= c.id < |s.dbs| && c.id != s.selected {
      MoveMatches(s.dbs, s.selected, c, now, eff);
      ghost var first, second := K.Dels(d, c.key, Live(now), s.selected), K.Dels(s.dbs[c.id], c.key, Live(now), c.id);
      sent := if c.key in K.Touch(d, c.key, Live(now)).dict then first + second else first;
      Assoc(s.propagated, first, second);
    }
    var reply := s.Move(c.key, c.id, Live(now));
    fed := if reply == K.One then [c] else [];
  }

  // SWAPDB, FLUSHDB and FLUSHALL

  method SwapDbs(s: K.Server<Value>, c: Cmd, now: int, ghost eff: Effect)
    returns (ghost sent: seq<(nat, Key)>, fed: seq<Cmd>)
    requires s.Valid() && Times(s.dbs) && c.SwapDb? && !s.cluster
    modifies s
    ensures s.Valid() && s.selected == old(s.selected) && s.propagated == old(s.propagated) + sent
    ensures Matches(old(s.dbs), s.dbs, sent, fed, s.selected, c, now, eff)
  {
    hide K.Indexes, K.ExpiresInDict, Entries, TimesOf;
    sent := [];
    OneFeed(s.selected, c);
    var reply := s.Swap(c.id1, c.id2);
    fed := if reply == K.Ok then [c] else [];
  }

  lemma NoEntries(d: K.Db<Value>)
    ensures Entries(d) == map[] <==> |d.dict| == 0
    ensures Entries(K.Db(map[], map[])) == map[] && TimesOf(K.Db(map[], map[]))
  {
    assert Entries(d) == map[] <==> Entries(d).Keys == {};
    assert d.dict == map[] <==> d.dict.Keys == {};
  }

  method FlushDbs(s: K.Server<Value>, c: Cmd, now: int, ghost eff: Effect)
    returns (ghost sent: seq<(nat, Key)>, fed: seq<Cmd>)
    requires s.Valid() && Times(s.dbs) && (c.FlushDb? || c.FlushAll?)
    modifies s
    ensures s.Valid() && s.selected == old(s.selected) && s.propagated == old(s.propagated) + sent
    ensures Matches(old(s.dbs), s.dbs, sent, fed, s.selected, c, now, eff)
  {
    hide K.Indexes, K.ExpiresInDict, Entries, TimesOf, K.Sizes;
    sent := [];
    OneFeed(s.selected, c);
    NoEntries(s.dbs[s.selected]);
    var removed := s.EmptyDb(if c.FlushDb? then s.selected else -1);
    fed := if c.FlushAll? || removed > 0 then [c] else [];
  }

  // GETSET, INCRBYFLOAT and RESTORE

  lemma GetSetMatches(s: Store, db: nat, c: Cmd, now: int, eff: Effect)
    requires db < |s| && Times(s) && c.GetSet?
    ensures var d := K.Touch(s[db], c.key, Live(now));
            var fails := c.key in d.dict && !d.dict[c.key].Str?;
            var d' := if fails then d else K.Db(d.dict[c.key := Str(c.val)], d.expires - {c.key});
            Matches(s, s[db := d'], K.Dels(s[db], c.key, Live(now), db), if fails then [] else [c], db, c, now, eff)
  {
    var d := K.Touch(s[db], c.key, Live(now));
    var fails := c.key in d.dict && !d.dict[c.key].Str?;
    var d' := if fails then d else K.Db(d.dict[c.key := Str(c.val)], d.expires - {c.key});
    hide K.Dels, Matches;
    SingleMatches(s, db, c, d', if fails then [] else [c], now, eff);
  }

  method GetAndSet(s: K.Server<Value>, c: Cmd, now: int, ghost eff: Effect)
    returns (ghost sent: seq<(nat, Key)>, fed: seq<Cmd>)
    requires s.Valid() && Times(s.dbs) && c.GetSet?
    modifies s
    ensures s.Valid() && s.selected == old(s.selected) && s.propagated == old(s.propagated) + sent
    ensures Matches(old(s.dbs), s.dbs, sent, fed, s.selected, c, now, eff)
  {
    hide K.Touch, K.Dels, K.Past, Matches, Times, K.Indexes, K.ExpiresInDict;
    ghost var d := s.dbs[s.selected];
    GetSetMatches(s.dbs, s.selected, c, now, eff);
    TouchedAgain(d, c.key, now);
    ReadOnMaster(d, c.key, now);
    sent := K.Dels(d, c.key, Live(now), s.selected);
    var o := s.LookupKeyRead(s.selected, c.key, Live(now), false);
    if o.Some? && !o.value.Str? { return sent, []; }
    s.SetKey(c.key, Str(c.val), Live(now));
    fed := [c];
    ghost var t := K.Touch(d, c.key, Live(now));
    assert s.dbs == old(s.dbs)[s.selected := K.Db(t.dict[c.key := Str(c.val)], t.expires - {c.key})];
  }

  /** On a master a read finds what is left after the expiry check. */
  lemma ReadOnMaster(d: K.Db<Value>, k: Key, now: int)
    ensures var t := K.Touch(d, k, Live(now));
            && (k in t.dict <==> k in d.dict && !K.Past(d, k, Live(now)))
            && (k in t.dict ==> t.dict[k] == d.dict[k])
  {
  }

  lemma FloatMatches(s: Store, db: nat, c: Cmd, now: int, eff: Effect)
    requires db < |s| && Times(s) && c.IncrByFloat?
    ensures var d := K.Touch(s[db], c.key, Live(now));
            var fails := c.sum.None? || (c.key in d.dict && !d.dict[c.key].Str?);
            var d' := if fails then d else K.Db(d.dict[c.key := Str(c.sum.value)], d.expires);
            Matches(s, s[db := d'], K.Dels(s[db], c.key, Live(now), db),
                    if fails then [] else [SetCmd(c.key, c.sum.value, [])], db, c, now, eff)
  {
    var d := K.Touch(s[db], c.key, Live(now));
    var fails := c.sum.None? || (c.key in d.dict && !d.dict[c.key].Str?);
    var d' := if fails then d else K.Db(d.dict[c.key := Str(c.sum.value)], d.expires);
    hide K.Dels, Matches;
    SingleMatches(s, db, c, d', if fails then [] else [SetCmd(c.key, c.sum.value, [])], now, eff);
  }

  /** The expiry stays in the dictionaries, and the command is fed as a SET. */
  method IncrementByFloat(s: K.Server<Value>, c: Cmd, now: int, ghost eff: Effect)
    returns (ghost sent: seq<(nat, Key)>, fed: seq<Cmd>)
    requires s.Valid() && Times(s.dbs) && c.IncrByFloat?
    modifies s
    ensures s.Valid() && s.selected == old(s.selected) && s.propagated == old(s.propagated) + sent
    ensures Matches(old(s.dbs), s.dbs, sent, fed, s.selected, c, now, eff)
  {
    hide K.Touch, K.Dels, Matches, Times, K.Indexes, K.ExpiresInDict;
    FloatMatches(s.dbs, s.selected, c, now, eff);
    sent := K.Dels(s.dbs[s.selected], c.key, Live(now), s.selected);
    var o := s.LookupKeyWrite(s.selected, c.key, Live(now));
    if c.sum.None? || (o.Some? && !o.value.Str?) { return sent, []; }
    var sum := Str(c.sum.value);
    if o.Some? { s.DbOverwrite(s.selected, c.key, sum); } else { s.DbAdd(s.selected, c.key, sum); }
    fed := [SetCmd(c.key, c.sum.value, [])];
    ghost var t := K.Touch(old(s.dbs[s.selected]), c.key, Live(now));
    assert s.dbs == old(s.dbs)[s.selected := K.Db(t.dict[c.key := sum], t.expires)];
  }

  /** The database as RESTORE finds it, and the DELs of the lookup; with REPLACE there is none. */
  function Found(d: K.Db<Value>, c: Cmd, now: int): K.Db<Value>
    requires c.Restore?
  {
    if c.replace then d else K.Touch(d, c.key, Live(now))
  }

  function FoundDels(d: K.Db<Value>, c: Cmd, now: int, j: nat): seq<(nat, Key)>
    requires c.Restore?
  {
    if c.replace then [] else K.Dels(d, c.key, Live(now), j)
  }

  function RestoreIn(d: K.Db<Value>, c: Cmd, v: Option<Value>, now: int): K.Db<Value>
    requires c.Restore?
  {
    if (!c.replace && c.key in d.dict) || c.ttl < 0 || v.None? then d
    else K.Db(d.dict[c.key := v.value],
              if c.ttl == 0 then d.expires - {c.key} else d.expires[c.key := now + c.ttl])
  }

  lemma RestoreMatches(s: Store, db: nat, c: Cmd, now: int, eff: Effect)
    requires db < |s| && Times(s) && c.Restore? && now >= 0
    ensures var d, v := Found(s[db], c, now), Payload(c.payload, eff);
            var fails := (!c.replace && c.key in d.dict) || c.ttl < 0 || v.None?;
            Matches(s, s[db := RestoreIn(d, c, v, now)], FoundDels(s[db], c, now, db), if fails then [] else [c],
                    db, c, now, eff)
  {
    hide K.Dels, Payload;
    var d, v := Found(s[db], c, now), Payload(c.payload, eff);
    var fails := (!c.replace && c.key in d.dict) || c.ttl < 0 || v.None?;
    var d' := RestoreIn(d, c, v, now);
    assert fails || Entries(d') == Entries(d)[c.key := Entry(v.value, if c.ttl == 0 then None else Some(now + c.ttl))];
    assert TimesOf(d');
    if c.replace {
      OneFeed(db, c);
      assert fails ==> s[db := d'] == s;
      assert AllEntries(s[db := d']) == AllEntries(s)[db := Entries(d')];
      PutGet(AllEntries(s), db, c.key);
    } else {
      hide Matches;
      SingleMatches(s, db, c, d', if fails then [] else [c], now, eff);
    }
  }

  method RestoreKey(s: K.Server<Value>, c: Cmd, v: Option<Value>, now: int, ghost eff: Effect)
    returns (ghost sent: seq<(nat, Key)>, fed: seq<Cmd>)
    requires s.Valid() && Times(s.dbs) && c.Restore? && v == Payload(c.payload, eff) && now >= 0
    modifies s
    ensures s.Valid() && s.selected == old(s.selected) && s.propagated == old(s.propagated) + sent
    ensures Matches(old(s.dbs), s.dbs, sent, fed, s.selected, c, now, eff)
  {
    hide K.Touch, K.Dels, Matches, Times, K.Indexes, K.ExpiresInDict, Payload;
    RestoreMatches(s.dbs, s.selected, c, now, eff);
    sent, fed := FoundDels(s.dbs[s.selected], c, now, s.selected), [];
    ghost var d := Found(s.dbs[s.selected], c, now);
    if !c.replace {
      var o := s.LookupKeyWrite(s.selected, c.key, Live(now));
      if o.Some? { return; }
    }
    assert s.dbs == old(s.dbs)[s.selected := d];
    if c.ttl < 0 || v.None? { return; }
    if c.replace { var _ := s.DbDelete(s.selected, c.key); } else { AbsentExpiry(s, c.key); }
    s.DbAdd(s.selected, c.key, v.value);
    if c.ttl != 0 { s.SetExpire(s.selected, c.key, now + c.ttl); }
    fed := [c];
    RestoreSteps(d, c, v.value, now);
    assert s.dbs == old(s.dbs)[s.selected := RestoreIn(d, c, v, now)];
  }

  lemma RestoreSteps(d: K.Db<Value>, c: Cmd, v: Value, now: int)
    requires c.Restore? && c.ttl >= 0 && (c.replace || c.key !in d.dict)
    ensures var cleared := K.Del(d, c.key);
            var added := K.Db(cleared.dict[c.key := v], cleared.expires);
            RestoreIn(d, c, Some(v), now)
            == if c.ttl == 0 then added else K.Db(added.dict, added.expires[c.key := now + c.ttl])
  {
    assert (d.dict - {c.key})[c.key := v] == d.dict[c.key := v];
    assert (d.expires - {c.key})[c.key := now + c.ttl] == d.expires[c.key := now + c.ttl];
  }

  lemma AbsentExpiry(s: K.Server<Value>, k: Key)
    requires s.Valid()
    ensures k !in s.dbs[s.selected].dict ==> K.Del(s.dbs[s.selected], k) == s.dbs[s.selected]
  {
  }

  // ---- Runs ----

  /** The writes of db.c and expire.c, SET and its kin, GETSET, INCRBYFLOAT and RESTORE; a cluster
      refuses the ones across databases. */
  predicate Handled(c: Cmd, cluster: bool) {
    || IsSet(c) || IsExpire(c) || c.Persist? || c.Del? || c.Unlink? || c.Rename? || c.FlushDb? || c.FlushAll?
    || c.GetSet? || c.IncrByFloat? || c.Restore?
    || (!cluster && (c.Move? || c.SwapDb?))
  }

  method Execute(s: K.Server<Value>, c: Cmd, now: int, eff: Effect)
    returns (ghost sent: seq<(nat, Key)>, fed: seq<Cmd>)
    requires s.Valid() && Times(s.dbs) && Handled(c, s.cluster) && now >= 0
    modifies s
    ensures s.Valid() && s.selected == old(s.selected) && s.propagated == old(s.propagated) + sent
    ensures Matches(old(s.dbs), s.dbs, sent, fed, s.selected, c, now, eff)
  {
    hide Matches, Times, K.Server.Valid;
    if IsSet(c) {
      sent, fed := Set(s, c, now, eff);
    } else if IsExpire(c) {
      sent, fed := ExpireKey(s, c, now, eff);
    } else if c.Persist? {
      sent, fed := PersistKey(s, c, now, eff);
    } else if c.Del? || c.Unlink? {
      sent, fed := DeleteKeys(s, c, now, eff);
    } else if c.Rename? {
      sent, fed := RenameKey(s, c, now, eff);
    } else if c.Move? {
      sent, fed := MoveKey(s, c, now, eff);
    } else if c.SwapDb? {
      sent, fed := SwapDbs(s, c, now, eff);
    } else if c.GetSet? {
      sent, fed := GetAndSet(s, c, now, eff);
    } else if c.IncrByFloat? {
      sent, fed := IncrementByFloat(s, c, now, eff);
    } else if c.Restore? {
      sent, fed := RestoreKey(s, c, Payload(c.payload, eff), now, eff);
    } else {
      sent, fed := FlushDbs(s, c, now, eff);
    }
  }

  datatype Event = Event(cmd: Cmd, now: int)

  /** The interpreter on a sequence of commands, each at its own time; SELECT moves between
      databases. */
  function Interpret(dbs: Dbs, db: nat, events: seq<Event>, eff: Effect): (Outcome, nat)
    requires db < |dbs|
    decreases |events|
  {
    if events == [] then (Outcome(dbs, []), db)
    else
      var c := events[0].cmd;
      var o := Exec(dbs, db, c, Env(events[0].now, false), eff);
      var db' := if c.Select? && 0 <= c.id < |dbs| then c.id else db;
      var (rest, last) := Interpret(o.dbs, db', events[1..], eff);
      (Outcome(rest.dbs, o.feeds + rest.feeds), last)
  }

  predicate EventOk(e: Event, cluster: bool) {
    e.now >= 0 && (Handled(e.cmd, cluster) || (e.cmd.Select? && (cluster ==> e.cmd.id == 0)))
  }

  method RunEvent(s: K.Server<Value>, e: Event, eff: Effect) returns (ghost feeds: seq<Feed>)
    requires s.Valid() && Times(s.dbs) && EventOk(e, s.cluster)
    modifies s
    ensures s.Valid() && Times(s.dbs) && |s.dbs| == old(|s.dbs|)
    ensures old(s.selected) < old(|s.dbs|)
    ensures Exec(old(AllEntries(s.dbs)), old(s.selected), e.cmd, Env(e.now, false), eff)
            == Outcome(AllEntries(s.dbs), feeds)
    ensures s.selected == if e.cmd.Select? && 0 <= e.cmd.id < |s.dbs| then e.cmd.id else old(s.selected)
  {
    hide Times, AllEntries, K.Indexes, K.ExpiresInDict, Sent, FeedsIn, KeyUpdate;
    if e.cmd.Select? {
      var _ := s.Select(e.cmd.id);
      feeds := [];
    } else {
      ghost var sent;
      var fed;
      ghost var n := |AllEntries(s.dbs)|;
      sent, fed := Execute(s, e.cmd, e.now, eff);
      feeds := Sent(sent) + FeedsIn(s.selected, fed);
      assert |AllEntries(s.dbs)| == n;
    }
  }

  /** After any run of the server its databases are those of the interpreter, and what it
      propagated, expiries and commands together, is what the interpreter feeds to the log. */
  method Run(s: K.Server<Value>, events: seq<Event>, eff: Effect) returns (ghost feeds: seq<Feed>)
    requires s.Valid() && Times(s.dbs)
    requires forall i :: 0 <= i < |events| ==> EventOk(events[i], s.cluster)
    modifies s
    ensures s.Valid() && Times(s.dbs) && old(s.selected) < old(|s.dbs|)
    ensures (Outcome(AllEntries(s.dbs), feeds), s.selected)
            == Interpret(old(AllEntries(s.dbs)), old(s.selected), events, eff)
  {
    hide Times, AllEntries, Exec, EventOk, K.Indexes, K.ExpiresInDict;
    feeds := [];
    ghost var start, db := AllEntries(s.dbs), s.selected;
    assert events[0..] == events;
    assert feeds + Interpret(start, db, events, eff).0.feeds == Interpret(start, db, events, eff).0.feeds;
    for i := 0 to |events|
      invariant s.Valid() && Times(s.dbs) && db < |start| == |s.dbs|
      invariant var (rest, last) := Interpret(AllEntries(s.dbs), s.selected, events[i..], eff);
                Interpret(start, db, events, eff) == (Outcome(rest.dbs, feeds + rest.feeds), last)
    {
      assert events[i..][1..] == events[i + 1..];
      ghost var more := RunEvent(s, events[i], eff);
      Assoc(feeds, more, Interpret(AllEntries(s.dbs), s.selected, events[i + 1..], eff).0.feeds);
      feeds := feeds + more;
    }
    assert events[|events|..] == [] && feeds + [] == feeds;
  }
}

/** The databases of a server (db.c): the dictionary and the expires of each, and in cluster mode
    the slot index and its counters. What the source asserts is here a precondition, so each call
    below is a proof that the assertion does not fire. */
module Keyspace {
  import opened Common
  import opened SlotIndex

  datatype Db<V> = Db(dict: map<Key, V>, expires: map<Key, int>)
  datatype Env = Env(now: int, loading: bool, slave: bool)
  datatype Reply = Ok | Zero | One | NoKeyError | OutOfRangeError | SameObjectError | NotInClusterError

  function Del<V>(d: Db<V>, k: Key): Db<V> { Db(d.dict - {k}, d.expires - {k}) }

  function Without<V>(d: Db<V>, gone: set<Key>): Db<V> { Db(d.dict - gone, d.expires - gone) }

  lemma WithoutMore<V>(d: Db<V>, gone: set<Key>, k: Key)
    ensures Without(d, {}) == d && Del(Without(d, gone), k) == Without(d, gone + {k})
  {
  }

  function DropExpiry(expires: map<Key, int>, k: Key): map<Key, int> {
    if |expires| > 0 then expires - {k} else expires
  }

  lemma DropExpiryIs(expires: map<Key, int>, k: Key)
    ensures DropExpiry(expires, k) == expires - {k}
  {
  }

  /** The time at which the key expires, or -1. */
  function Expiry<V>(d: Db<V>, k: Key): int { if k in d.expires then d.expires[k] else -1 }

  predicate Past<V>(d: Db<V>, k: Key, env: Env) { Expiry(d, k) >= 0 && env.now > Expiry(d, k) && !env.loading }

  /** The database once expireIfNeeded has looked at the key: only a master deletes. */
  function Touch<V>(d: Db<V>, k: Key, env: Env): Db<V> { if Past(d, k, env) && !env.slave then Del(d, k) else d }

  /** The DEL propagated when the key is looked at in database `j`. */
  function Dels<V>(d: Db<V>, k: Key, env: Env, j: nat): seq<(nat, Key)> {
    if Past(d, k, env) && !env.slave then [(j, k)] else []
  }

  /** How many of the keys DEL counts, and the expired ones it propagates on the way. */
  function DelCount<V>(d: Db<V>, keys: seq<Key>, env: Env): nat
    decreases |keys|
  {
    if keys == [] then 0
    else (if keys[0] in Touch(d, keys[0], env).dict then 1 else 0) + DelCount(Del(d, keys[0]), keys[1..], env)
  }

  function DelsOfAll<V>(d: Db<V>, keys: seq<Key>, env: Env, j: nat): seq<(nat, Key)>
    decreases |keys|
  {
    if keys == [] then [] else Dels(d, keys[0], env, j) + DelsOfAll(Del(d, keys[0]), keys[1..], env, j)
  }

  /** There and, on a master, not past its expiry. */
  predicate Present<V>(d: Db<V>, k: Key, env: Env) { k in Touch(d, k, env).dict }

  lemma PresentAfter<V>(d: Db<V>, gone: Key, k: Key, env: Env)
    ensures Present(Del(d, gone), k, env) <==> k != gone && Present(d, k, env)
  {
  }

  function Counted<V>(d: Db<V>, keys: seq<Key>, env: Env): set<Key> { set k | k in keys && Present(d, k, env) }

  /** DEL counts the keys that are present, one named twice only once. */
  lemma {:induction false} DelCountIs<V>(d: Db<V>, keys: seq<Key>, env: Env)
    ensures DelCount(d, keys, env) == |Counted(d, keys, env)|
    decreases |keys|
  {
    if keys != [] {
      var k, rest, d' := keys[0], keys[1..], Del(d, keys[0]);
      DelCountIs(d', rest, env);
      assert DelCount(d, keys, env) == (if Present(d, k, env) then 1 else 0) + DelCount(d', rest, env);
      hide Touch, Present, Del, DelCount;
      forall x ensures x in Counted(d', rest, env) <==> x != k && x in Counted(d, keys, env) {
        PresentAfter(d, k, x, env);
        assert x in keys <==> x == k || x in rest;
      }
      assert Counted(d, keys, env) == Counted(d', rest, env) + if Present(d, k, env) then {k} else {};
    }
  }

  lemma TouchOther<V>(d: Db<V>, k: Key, other: Key, env: Env)
    requires k != other
    ensures other in Touch(d, k, env).dict <==> other in d.dict
    ensures other in d.dict ==> Touch(d, k, env).dict[other] == d.dict[other]
    ensures Expiry(Touch(d, k, env), other) == Expiry(d, other)
  {
  }

  /** `when` recorded for the key, unless it is the code for no expiry. */
  function WithExpiry<V>(d: Db<V>, k: Key, when: int): Db<V> {
    if when == -1 then d else d.(expires := d.expires[k := when])
  }

  /** Key `k` of `d` put in place of whatever `to` held, with its value and its expiry. */
  function Renamed<V>(d: Db<V>, k: Key, to: Key): Db<V>
    requires k in d.dict
  {
    Del(WithExpiry(Db(d.dict[to := d.dict[k]], d.expires - {to}), to, Expiry(d, k)), k)
  }

  lemma AbsentDel<V>(dbs: seq<Db<V>>, j: nat, k: Key)
    requires ExpiresInDict(dbs) && j < |dbs| && k !in dbs[j].dict
    ensures Del(dbs[j], k) == dbs[j]
  {
  }

  lemma RenameSteps<V>(d: Db<V>, cleared: Db<V>, k: Key, to: Key)
    requires k in d.dict && k != to && cleared == Del(d, to)
    ensures var e, added := Expiry(d, k), Db(cleared.dict[to := d.dict[k]], cleared.expires);
            && Renamed(d, k, to) == Del(if e == -1 then added else Db(added.dict, added.expires[to := e]), k)
  {
    assert (d.dict - {to})[to := d.dict[k]] == d.dict[to := d.dict[k]];
  }

  /** After a rename the new name has the value and the expiry of the old one, which is gone, and
      every other key is as it was. */
  lemma RenamedMeaning<V>(d: Db<V>, k: Key, to: Key)
    requires k in d.dict && k != to
    ensures var r := Renamed(d, k, to);
            && k !in r.dict && k !in r.expires
            && to in r.dict && r.dict[to] == d.dict[k] && Expiry(r, to) == Expiry(d, k)
            && forall x :: x != k && x != to ==>
                 (x in r.dict <==> x in d.dict) && (x in d.dict ==> r.dict[x] == d.dict[x])
                   && Expiry(r, x) == Expiry(d, x)
  {
  }

  predicate ExpiresInDict<V>(dbs: seq<Db<V>>) { forall j :: 0 <= j < |dbs| ==> dbs[j].expires.Keys <= dbs[j].dict.Keys }

  /** In cluster mode only database 0 has keys, and the index and counters are those of its keys. */
  ghost predicate Indexes<V>(slotOf: Slots, dbs: seq<Db<V>>, index: set<seq<Byte>>, counts: seq<nat>)
    requires IsHash(slotOf) && dbs != []
  {
    && (forall j :: 0 < j < |dbs| ==> dbs[j].dict == map[])
    && IndexFor(slotOf, dbs[0].dict.Keys, index)
    && CountsFor(slotOf, dbs[0].dict.Keys, counts)
  }

  lemma IndexesDelete<V>(slotOf: Slots, dbs: seq<Db<V>>, index: set<seq<Byte>>, counts: seq<nat>, k: Key)
    requires IsHash(slotOf) && dbs != [] && Indexes(slotOf, dbs, index, counts) && k in dbs[0].dict
    ensures |counts| == SLOTS && counts[slotOf(k)] > 0
    ensures Indexes(slotOf, dbs[0 := Del(dbs[0], k)], index - {Indexed(slotOf, k)},
                    counts[slotOf(k) := counts[slotOf(k)] - 1])
  {
    hide IndexFor, Indexed;
    RemoveKey(slotOf, dbs[0].dict.Keys, index, counts, k);
    hide CountsFor;
    assert Del(dbs[0], k).dict.Keys == dbs[0].dict.Keys - {k};
  }

  lemma IndexesSame<V>(slotOf: Slots, dbs: seq<Db<V>>, index: set<seq<Byte>>, counts: seq<nat>, j: nat, d: Db<V>)
    requires IsHash(slotOf) && j < |dbs| && Indexes(slotOf, dbs, index, counts) && d.dict == dbs[j].dict
    ensures Indexes(slotOf, dbs[j := d], index, counts)
  {
    hide IndexFor, CountsFor;
  }

  lemma OnlyFirst<V>(slotOf: Slots, dbs: seq<Db<V>>, index: set<seq<Byte>>, counts: seq<nat>)
    requires IsHash(slotOf) && dbs != [] && Indexes(slotOf, dbs, index, counts)
    ensures forall j :: 0 < j < |dbs| ==> dbs[j].dict == map[]
  {
  }

  lemma IndexesEmpty<V>(slotOf: Slots, dbs: seq<Db<V>>)
    requires IsHash(slotOf) && dbs != [] && forall j :: 0 <= j < |dbs| ==> dbs[j].dict == map[]
    ensures Indexes(slotOf, dbs, {}, seq(SLOTS, _ => 0))
  {
    hide IndexFor, CountsFor;
    NoKeys(slotOf);
    assert dbs[0].dict.Keys == {};
  }

  lemma IndexMissing<V>(slotOf: Slots, dbs: seq<Db<V>>, counts: seq<nat>)
    requires IsHash(slotOf) && dbs != [] && dbs[0].dict != map[]
    ensures !Indexes(slotOf, dbs, {}, counts)
  {
    var k :| k in dbs[0].dict;
    assert Indexed(slotOf, k) !in {};
  }

  function Sizes<V>(dbs: seq<Db<V>>): nat {
    if dbs == [] then 0 else Sizes(dbs[..|dbs| - 1]) + |dbs[|dbs| - 1].dict|
  }

  lemma SizesSnoc<V>(dbs: seq<Db<V>>, j: nat)
    requires j < |dbs|
    ensures Sizes(dbs[..j + 1]) == Sizes(dbs[..j]) + |dbs[j].dict|
  {
    assert dbs[..j + 1][..j] == dbs[..j];
  }

  datatype Command<V> =
    | SetCmd(k: Key, v: V)
    | GetCmd(k: Key, readsOnly: bool)
    | DelCmd(keys: seq<Key>)
    | RenameCmd(k: Key, to: Key, nx: bool)
    | MoveCmd(k: Key, id: int)
    | SwapCmd(id1: int, id2: int)
    | ExpireCmd(k: Key, when: int)
    | PersistCmd(k: Key)
    | SelectCmd(id: int)
    | FlushDb
    | FlushAll
    | DelSlot(h: nat)

  class Server<V> {
    const cluster: bool
    const slotOf: Slots
    var dbs: seq<Db<V>>
    var index: set<seq<Byte>>
    var counts: seq<nat>
    var selected: nat
    /** The DELs sent to the slaves and the append-only file for expired keys. */
    var propagated: seq<(nat, Key)>

    ghost predicate Valid()
      reads this
    {
      && IsHash(slotOf) && selected < |dbs| && (cluster ==> selected == 0)
      && ExpiresInDict(dbs)
      && (cluster ==> Indexes(slotOf, dbs, index, counts))
    }

    constructor (cluster: bool, slotOf: Slots, dbnum: nat)
      requires dbnum > 0 && IsHash(slotOf)
      ensures Valid() && this.cluster == cluster && this.slotOf == slotOf && |dbs| == dbnum
      ensures forall j :: 0 <= j < dbnum ==> dbs[j] == Db(map[], map[])
    {
      NoKeys(slotOf);
      this.cluster, this.slotOf := cluster, slotOf;
      dbs := seq(dbnum, _ => Db(map[], map[]));
      index, counts, selected, propagated := {}, seq(SLOTS, _ => 0), 0, [];
    }

    // ---- Dictionary, index and counters together ----

    /** slotToKeyUpdateKey; the counter is unsigned, so it must not be taken below zero. */
    method SlotToKeyUpdate(k: Key, add: bool)
      requires |counts| == SLOTS && slotOf(k) < SLOTS && (add || counts[slotOf(k)] > 0)
      modifies `index, `counts
      ensures counts == old(counts)[slotOf(k) := if add then old(counts[slotOf(k)]) + 1 else old(counts[slotOf(k)]) - 1]
      ensures index == if add then old(index) + {Indexed(slotOf, k)} else old(index) - {Indexed(slotOf, k)}
    {
      var h := slotOf(k);
      counts := counts[h := if add then counts[h] + 1 else counts[h] - 1];
      if add { index := index + {Indexed(slotOf, k)}; } else { index := index - {Indexed(slotOf, k)}; }
    }

    method DbAdd(j: nat, k: Key, v: V)
      requires Valid() && j < |dbs| && (cluster ==> j == 0)
      requires k !in dbs[j].dict
      modifies `dbs, `index, `counts
      ensures Valid() && dbs == old(dbs)[j := Db(old(dbs[j].dict)[k := v], old(dbs[j].expires))]
    {
      if cluster {
        AddKey(slotOf, dbs[0].dict.Keys, index, counts, k);
        SlotToKeyUpdate(k, true);
      }
      dbs := dbs[j := dbs[j].(dict := dbs[j].dict[k := v])];
      assert dbs[j].dict.Keys == old(dbs[j].dict.Keys) + {k};
    }

    method DbOverwrite(j: nat, k: Key, v: V)
      requires Valid() && j < |dbs|
      requires k in dbs[j].dict
      modifies `dbs
      ensures Valid() && dbs == old(dbs)[j := Db(old(dbs[j].dict)[k := v], old(dbs[j].expires))]
    {
      dbs := dbs[j := dbs[j].(dict := dbs[j].dict[k := v])];
      assert dbs[j].dict.Keys == old(dbs[j].dict.Keys);
    }

    method DbDelete(j: nat, k: Key) returns (deleted: bool)
      requires Valid() && j < |dbs|
      modifies `dbs, `index, `counts
      ensures Valid() && dbs == old(dbs)[j := Del(old(dbs[j]), k)]
      ensures deleted <==> k in old(dbs[j].dict)
    {
      hide Indexes, Indexed;
      DropExpiryIs(dbs[j].expires, k);
      hide DropExpiry;
      var d := dbs[j].(expires := DropExpiry(dbs[j].expires, k));
      deleted := k in d.dict;
      if cluster { EntryGone(j, k); }
      if deleted && cluster { SlotToKeyUpdate(k, false); }
      dbs := dbs[j := d.(dict := d.dict - {k})];
      assert dbs[j] == Del(old(dbs[j]), k);
    }

    lemma EntryGone(j: nat, k: Key)
      requires Valid() && cluster && j < |dbs|
      ensures |counts| == SLOTS
      ensures if k in dbs[j].dict then
                && j == 0 && counts[slotOf(k)] > 0
                && Indexes(slotOf, dbs[0 := Del(dbs[0], k)], index - {Indexed(slotOf, k)},
                           counts[slotOf(k) := counts[slotOf(k)] - 1])
              else Indexes(slotOf, dbs[j := Del(dbs[j], k)], index, counts)
    {
      if k in dbs[j].dict {
        IndexesDelete(slotOf, dbs, index, counts, k);
      } else {
        IndexesSame(slotOf, dbs, index, counts, j, Del(dbs[j], k));
      }
    }

    // ---- Expires ----

    method RemoveExpire(j: nat, k: Key) returns (removed: bool)
      requires Valid() && j < |dbs|
      requires k in dbs[j].dict
      modifies `dbs
      ensures Valid() && dbs == old(dbs)[j := Db(old(dbs[j].dict), old(dbs[j].expires) - {k})]
      ensures removed <==> k in old(dbs[j].expires)
    {
      removed := k in dbs[j].expires;
      dbs := dbs[j := dbs[j].(expires := dbs[j].expires - {k})];
    }

    method SetExpire(j: nat, k: Key, when: int)
      requires Valid() && j < |dbs|
      requires k in dbs[j].dict
      modifies `dbs
      ensures Valid() && dbs == old(dbs)[j := Db(old(dbs[j].dict), old(dbs[j].expires)[k := when])]
    {
      dbs := dbs[j := dbs[j].(expires := dbs[j].expires[k := when])];
      assert dbs[j].expires.Keys == old(dbs[j].expires.Keys) + {k};
    }

    method GetExpire(j: nat, k: Key) returns (when: int)
      requires Valid() && j < |dbs|
      ensures when == Expiry(dbs[j], k)
    {
      if |dbs[j].expires| == 0 || k !in dbs[j].expires { return -1; }
      assert k in dbs[j].dict;
      return dbs[j].expires[k];
    }

    /** A key found expired is deleted and a DEL for it is propagated; a slave only reports it. */
    method ExpireIfNeeded(j: nat, k: Key, env: Env) returns (expired: bool)
      requires Valid() && j < |dbs|
      modifies `dbs, `index, `counts, `propagated
      ensures Valid() && dbs == old(dbs)[j := Touch(old(dbs[j]), k, env)]
      ensures expired <==> Past(old(dbs[j]), k, env)
      ensures propagated == old(propagated) + Dels(old(dbs[j]), k, env, j)
      ensures var d := old(dbs[j]);
              var gone := !env.loading && k in d.expires && 0 <= d.expires[k] < env.now;
              && (expired <==> gone)
              && (if gone && !env.slave then
                    && dbs == old(dbs)[j := Db(d.dict - {k}, d.expires - {k})]
                    && propagated == old(propagated) + [(j, k)]
                  else dbs == old(dbs) && propagated == old(propagated))
    {
      var when := GetExpire(j, k);
      if when < 0 || env.loading { return false; }
      if env.slave { return env.now > when; }
      if env.now <= when { return false; }
      propagated := propagated + [(j, k)];
      expired := DbDelete(j, k);
    }

    method LookupKey(j: nat, k: Key) returns (o: Option<V>)
      requires j < |dbs|
      ensures o == if k in dbs[j].dict then Some(dbs[j].dict[k]) else None
    {
      o := if k in dbs[j].dict then Some(dbs[j].dict[k]) else None;
    }

    /** lookupKeyReadWithFlags: a slave hides an expired key from a client that only reads. */
    method LookupKeyRead(j: nat, k: Key, env: Env, readsOnly: bool) returns (o: Option<V>)
      requires Valid() && j < |dbs|
      modifies `dbs, `index, `counts, `propagated
      ensures Valid() && dbs == old(dbs)[j := Touch(old(dbs[j]), k, env)]
      ensures propagated == old(propagated) + Dels(old(dbs[j]), k, env, j)
      ensures o == if k in old(dbs[j].dict) && !(Past(old(dbs[j]), k, env) && (!env.slave || readsOnly))
                   then Some(old(dbs[j].dict)[k]) else None
    {
      var expired := ExpireIfNeeded(j, k, env);
      if expired {
        if !env.slave { return None; }
        if readsOnly { return None; }
      }
      o := LookupKey(j, k);
    }

    method LookupKeyWrite(j: nat, k: Key, env: Env) returns (o: Option<V>)
      requires Valid() && j < |dbs|
      modifies `dbs, `index, `counts, `propagated
      ensures Valid() && dbs == old(dbs)[j := Touch(old(dbs[j]), k, env)]
      ensures propagated == old(propagated) + Dels(old(dbs[j]), k, env, j)
      ensures o == if k in dbs[j].dict then Some(dbs[j].dict[k]) else None
    {
      var expired := ExpireIfNeeded(j, k, env);
      o := LookupKey(j, k);
    }

    // ---- Commands ----

    /** setKey: the value is there whatever was there before, and never expires. */
    method SetKey(k: Key, v: V, env: Env)
      requires Valid()
      modifies `dbs, `index, `counts, `propagated
      ensures Valid()
      ensures var d := Touch(old(dbs[selected]), k, env);
              dbs == old(dbs)[selected := Db(d.dict[k := v], d.expires - {k})]
      ensures propagated == old(propagated) + Dels(old(dbs[selected]), k, env, selected)
    {
      var o := LookupKeyWrite(selected, k, env);
      if o.None? { DbAdd(selected, k, v); } else { DbOverwrite(selected, k, v); }
      var removed := RemoveExpire(selected, k);
    }

    /** delGenericCommand: each key is expired if need be, then deleted and counted. */
    method DelCommand(keys: seq<Key>, env: Env) returns (deleted: nat)
      requires Valid()
      modifies `dbs, `index, `counts, `propagated
      ensures Valid() && dbs == old(dbs)[selected := Without(old(dbs[selected]), set k | k in keys)]
      ensures deleted == DelCount(old(dbs[selected]), keys, env)
      ensures propagated == old(propagated) + DelsOfAll(old(dbs[selected]), keys, env, selected)
    {
      hide Indexes, Touch, Past, Without, Dels;
      deleted := 0;
      ghost var d := dbs[selected];
      ghost var gone: set<Key> := {};
      WithoutMore(d, gone, []);
      assert keys[0..] == keys;
      for i := 0 to |keys|
        invariant Valid() && gone == (set k | k in keys[..i])
        invariant dbs == old(dbs)[selected := Without(d, gone)]
        invariant DelCount(d, keys, env) == deleted + DelCount(dbs[selected], keys[i..], env)
        invariant old(propagated) + DelsOfAll(d, keys, env, selected)
                  == propagated + DelsOfAll(dbs[selected], keys[i..], env, selected)
      {
        assert keys[i..][1..] == keys[i + 1..];
        WithoutMore(d, gone, keys[i]);
        ghost var was, sent := dbs[selected], propagated;
        var counted := DelOne(keys[i], env);
        if counted { deleted := deleted + 1; }
        gone := gone + {keys[i]};
        Assoc(sent, Dels(was, keys[i], env, selected), DelsOfAll(dbs[selected], keys[i + 1..], env, selected));
      }
      assert keys[..|keys|] == keys;
    }

    /** One turn of the loop of delGenericCommand. */
    method DelOne(k: Key, env: Env) returns (deleted: bool)
      requires Valid()
      modifies `dbs, `index, `counts, `propagated
      ensures Valid() && dbs == old(dbs)[selected := Del(old(dbs[selected]), k)]
      ensures deleted <==> k in Touch(old(dbs[selected]), k, env).dict
      ensures propagated == old(propagated) + Dels(old(dbs[selected]), k, env, selected)
    {
      var expired := ExpireIfNeeded(selected, k, env);
      deleted := DbDelete(selected, k);
      assert Del(Del(old(dbs[selected]), k), k) == Del(old(dbs[selected]), k);
    }

    /** renameGenericCommand */
    method Rename(k: Key, to: Key, nx: bool, env: Env) returns (reply: Reply)
      requires Valid()
      modifies `dbs, `index, `counts, `propagated
      ensures Valid()
      ensures var d1 := Touch(old(dbs[selected]), k, env);
              if k !in d1.dict then reply == NoKeyError && dbs == old(dbs)[selected := d1]
              else if k == to then reply == (if nx then Zero else Ok) && dbs == old(dbs)[selected := d1]
              else
                var d2 := Touch(d1, to, env);
                if nx && to in d2.dict then reply == Zero && dbs == old(dbs)[selected := d2]
                else && reply == (if nx then One else Ok) && k in d2.dict
                     && dbs == old(dbs)[selected := Renamed(d2, k, to)]
      ensures var d1 := Touch(old(dbs[selected]), k, env);
              propagated == old(propagated) + Dels(old(dbs[selected]), k, env, selected)
                            + if k in d1.dict && k != to then Dels(d1, to, env, selected) else []
    {
      hide Indexes, ExpiresInDict, Renamed, WithExpiry, Touch, Past;
      var o := LookupKeyWrite(selected, k, env);
      if o.None? { return NoKeyError; }
      if k == to { return if nx then Zero else Ok; }
      var expire := GetExpire(selected, k);
      TouchOther(dbs[selected], to, k, env);
      var target := LookupKeyWrite(selected, to, env);
      ghost var d := dbs[selected];
      if target.Some? {
        if nx { return Zero; }
        var _ := DbDelete(selected, to);
      } else {
        AbsentDel(dbs, selected, to);
      }
      RenameSteps(d, dbs[selected], k, to);
      DbAdd(selected, to, o.value);
      if expire != -1 { SetExpire(selected, to, expire); }
      var _ := DbDelete(selected, k);
      return if nx then One else Ok;
    }

    /** moveCommand */
    method Move(k: Key, dbid: int, env: Env) returns (reply: Reply)
      requires Valid()
      modifies `dbs, `index, `counts, `propagated
      ensures Valid()
      ensures if cluster then reply == NotInClusterError && dbs == old(dbs)
              else if !(0 <= dbid < |old(dbs)|) then reply == OutOfRangeError && dbs == old(dbs)
              else if dbid == selected then reply == SameObjectError && dbs == old(dbs)
              else
                var src := Touch(old(dbs[selected]), k, env);
                if k !in src.dict then reply == Zero && dbs == old(dbs)[selected := src]
                else
                  var dst := Touch(old(dbs[dbid]), k, env);
                  if k in dst.dict then reply == Zero && dbs == old(dbs)[selected := src][dbid := dst]
                  else
                    && reply == One
                    && dbs == old(dbs)[selected := Del(src, k)]
                                      [dbid := WithExpiry(Db(dst.dict[k := src.dict[k]], dst.expires), k,
                                                          Expiry(src, k))]
      ensures if cluster || !(0 <= dbid < |old(dbs)|) || dbid == selected then propagated == old(propagated)
              else propagated == old(propagated) + Dels(old(dbs[selected]), k, env, selected)
                                 + if k in Touch(old(dbs[selected]), k, env).dict
                                   then Dels(old(dbs[dbid]), k, env, dbid) else []
    {
      if cluster { return NotInClusterError; }
      if dbid < 0 || dbid >= |dbs| { return OutOfRangeError; }
      if selected == dbid { return SameObjectError; }
      var o := LookupKeyWrite(selected, k, env);
      if o.None? { return Zero; }
      var expire := GetExpire(selected, k);
      var there := LookupKeyWrite(dbid, k, env);
      if there.Some? { return Zero; }
      DbAdd(dbid, k, o.value);
      if expire != -1 { SetExpire(dbid, k, expire); }
      var _ := DbDelete(selected, k);
      return One;
    }

    /** swapdbCommand and dbSwapDatabases */
    method Swap(id1: int, id2: int) returns (reply: Reply)
      requires Valid()
      modifies `dbs
      ensures Valid()
      ensures if cluster then reply == NotInClusterError && dbs == old(dbs)
              else if !(0 <= id1 < |old(dbs)| && 0 <= id2 < |old(dbs)|) then reply == OutOfRangeError && dbs == old(dbs)
              else reply == Ok && dbs == old(dbs)[id1 := old(dbs)[id2]][id2 := old(dbs)[id1]]
    {
      if cluster { return NotInClusterError; }
      if id1 < 0 || id1 >= |dbs| || id2 < 0 || id2 >= |dbs| { return OutOfRangeError; }
      if id1 == id2 { return Ok; }
      var aux := dbs[id1];
      dbs := dbs[id1 := dbs[id2]];
      dbs := dbs[id2 := aux];
      return Ok;
    }

    /** expireGenericCommand (expire.c:386-431) */
    method Expire(k: Key, when: int, env: Env) returns (reply: Reply)
      requires Valid()
      modifies `dbs, `index, `counts, `propagated
      ensures Valid()
      ensures var d := Touch(old(dbs[selected]), k, env);
              if k !in d.dict then reply == Zero && dbs == old(dbs)[selected := d]
              else reply == One &&
                   dbs == old(dbs)[selected := if when <= env.now && !env.loading && !env.slave then Del(d, k)
                                               else Db(d.dict, d.expires[k := when])]
      ensures propagated == old(propagated) + Dels(old(dbs[selected]), k, env, selected)
    {
      var o := LookupKeyWrite(selected, k, env);
      if o.None? { return Zero; }
      if when <= env.now && !env.loading && !env.slave {
        var deleted := DbDelete(selected, k);
        assert deleted;
      } else {
        SetExpire(selected, k, when);
      }
      return One;
    }

    /** persistCommand (expire.c:487-498) */
    method Persist(k: Key, env: Env) returns (reply: Reply)
      requires Valid()
      modifies `dbs, `index, `counts, `propagated
      ensures Valid()
      ensures var d := Touch(old(dbs[selected]), k, env);
              && dbs == old(dbs)[selected := Db(d.dict, d.expires - {k})]
              && reply == if k in d.expires then One else Zero
      ensures propagated == old(propagated) + Dels(old(dbs[selected]), k, env, selected)
    {
      var o := LookupKeyWrite(selected, k, env);
      assert o.None? ==> dbs[selected].expires - {k} == dbs[selected].expires;
      if o.None? { return Zero; }
      var removed := RemoveExpire(selected, k);
      return if removed then One else Zero;
    }

    /** selectCommand */
    method Select(id: int) returns (reply: Reply)
      requires Valid()
      modifies `selected
      ensures Valid()
      ensures if cluster && id != 0 then reply == NotInClusterError && selected == old(selected)
              else if 0 <= id < |dbs| then reply == Ok && selected == id
              else reply == OutOfRangeError && selected == old(selected)
    {
      if cluster && id != 0 { return NotInClusterError; }
      if id < 0 || id >= |dbs| { return OutOfRangeError; }
      selected := id;
      return Ok;
    }

    /** emptyDb: one database, or all of them for -1. In cluster mode the whole index goes, which is
        right for database 0, the only one with keys, and wrong for another unless there are none. */
    method EmptyDb(dbnum: int) returns (removed: int)
      requires Valid()
      modifies `dbs, `index, `counts
      ensures Valid() <==> (cluster && 0 < dbnum < |old(dbs)| ==> old(dbs[0].dict) == map[])
      ensures dbnum < -1 || dbnum >= |old(dbs)| ==> removed == -1 && dbs == old(dbs)
      ensures 0 <= dbnum < |old(dbs)| ==>
                removed == |old(dbs[dbnum].dict)| && dbs == old(dbs)[dbnum := Db(map[], map[])]
      ensures dbnum == -1 ==> removed == Sizes(old(dbs)) && dbs == seq(|old(dbs)|, _ => Db(map[], map[]))
    {
      hide Indexes;
      if cluster { OnlyFirst(slotOf, dbs, index, counts); }
      if dbnum < -1 || dbnum >= |dbs| { return -1; }
      removed := 0;
      for j := 0 to |dbs|
        invariant |dbs| == |old(dbs)|
        invariant forall i :: 0 <= i < |dbs| ==>
                    dbs[i] == if i < j && (dbnum == -1 || dbnum == i) then Db(map[], map[]) else old(dbs[i])
        invariant removed == if dbnum == -1 then Sizes(old(dbs)[..j])
                             else if dbnum < j then |old(dbs[dbnum].dict)| else 0
      {
        SizesSnoc(old(dbs), j);
        if dbnum == -1 || dbnum == j {
          removed := removed + |dbs[j].dict|;
          dbs := dbs[j := Db(map[], map[])];
        }
      }
      assert old(dbs)[..|dbs|] == old(dbs);
      if cluster {
        index, counts := {}, seq(SLOTS, _ => 0);
        if dbs[0].dict == map[] { IndexesEmpty(slotOf, dbs); } else { IndexMissing(slotOf, dbs, counts); }
      }
    }

    // ---- Slots ----

    /** raxSeek and raxNext of db.c:1434-1437: a key of the slot, while its counter is positive. */
    method LeastInSlot(h: nat) returns (k: Key)
      requires Valid() && cluster && h < SLOTS && counts[h] > 0
      ensures k in SlotKeys(slotOf, dbs[0].dict.Keys, h)
    {
      ghost var keys := dbs[0].dict.Keys;
      ghost var x :| x in SlotKeys(slotOf, keys, h);
      SlotEntry(slotOf, keys, index, x);
      var found, e := Next(index, Prefix(h));
      LeastOfSlot(slotOf, keys, index, h, x, e);
      k := e[2..];
    }

    lemma SlotCount(h: nat)
      requires Valid() && cluster && h < SLOTS
      ensures |counts| == SLOTS && counts[h] == |SlotKeys(slotOf, dbs[0].dict.Keys, h)|
    {
    }

    /** delKeysInSlot: removes exactly the keys of the slot and returns their number. */
    method DelKeysInSlot(h: nat) returns (removed: nat)
      requires Valid() && cluster && h < SLOTS
      modifies `dbs, `index, `counts
      ensures Valid()
      ensures var gone := SlotKeys(slotOf, old(dbs[0].dict.Keys), h);
              removed == |gone| && dbs == old(dbs)[0 := Without(old(dbs[0]), gone)]
    {
      hide Indexes, Without, SlotKeys;
      removed := 0;
      ghost var d, keys := dbs[0], dbs[0].dict.Keys;
      ghost var gone: set<Key> := {};
      WithoutMore(d, gone, []);
      SlotCount(h);
      assert keys - gone == keys;
      while counts[h] != 0
        invariant Valid() && removed == |gone| && gone <= SlotKeys(slotOf, keys, h)
        invariant dbs == old(dbs)[0 := Without(d, gone)] && dbs[0].dict.Keys == keys - gone
        invariant |counts| == SLOTS && counts[h] == |SlotKeys(slotOf, keys - gone, h)|
        decreases counts[h]
      {
        var k := LeastInSlot(h);
        WithoutMore(d, gone, k);
        SlotStep(slotOf, keys, gone, h, k);
        var _ := DbDelete(0, k);
        gone := gone + {k};
        removed := removed + 1;
        SlotCount(h);
      }
      SlotDone(slotOf, keys, gone, h);
    }

    // ---- Runs ----

    method Execute(c: Command<V>, env: Env)
      requires Valid()
      modifies this
      ensures Valid() && |dbs| == |old(dbs)|
    {
      match c {
        case SetCmd(k, v) => SetKey(k, v, env);
        case GetCmd(k, readsOnly) => var _ := LookupKeyRead(selected, k, env, readsOnly);
        case DelCmd(keys) => var _ := DelCommand(keys, env);
        case RenameCmd(k, to, nx) => var _ := Rename(k, to, nx, env);
        case MoveCmd(k, id) => var _ := Move(k, id, env);
        case SwapCmd(id1, id2) => var _ := Swap(id1, id2);
        case ExpireCmd(k, when) => var _ := Expire(k, when, env);
        case PersistCmd(k) => var _ := Persist(k, env);
        case SelectCmd(id) => var _ := Select(id);
        case FlushDb => var _ := EmptyDb(selected);
        case FlushAll => var _ := EmptyDb(-1);
        case DelSlot(h) => if cluster && h < SLOTS { var _ := DelKeysInSlot(h); }
      }
    }

    /** Whatever the commands and whenever they come, expires stay within the dictionaries and the
        index and counters are those of the keys. */
    method Run(cmds: seq<(Command<V>, Env)>)
      requires Valid()
      modifies this
      ensures Valid() && |dbs| == |old(dbs)|
      ensures ExpiresInDict(dbs) && (cluster ==> Indexes(slotOf, dbs, index, counts))
    {
      for i := 0 to |cmds|
        invariant Valid() && |dbs| == |old(dbs)|
      {
        Execute(cmds[i].0, cmds[i].1);
      }
    }
  }

  lemma SlotStep(slotOf: Slots, keys: set<Key>, gone: set<Key>, h: nat, k: Key)
    requires gone <= SlotKeys(slotOf, keys, h) && k in SlotKeys(slotOf, keys - gone, h)
    ensures k !in gone && gone + {k} <= SlotKeys(slotOf, keys, h) && keys - gone - {k} == keys - (gone + {k})
    ensures |SlotKeys(slotOf, keys - (gone + {k}), h)| == |SlotKeys(slotOf, keys - gone, h)| - 1
  {
    assert SlotKeys(slotOf, keys - (gone + {k}), h) == SlotKeys(slotOf, keys - gone, h) - {k};
  }

  lemma SlotDone(slotOf: Slots, keys: set<Key>, gone: set<Key>, h: nat)
    requires gone <= SlotKeys(slotOf, keys, h) && |SlotKeys(slotOf, keys - gone, h)| == 0
    ensures gone == SlotKeys(slotOf, keys, h)
  {
    forall k | k in SlotKeys(slotOf, keys, h) ensures k in gone {
      assert k !in gone ==> k in SlotKeys(slotOf, keys - gone, h);
    }
  }
}

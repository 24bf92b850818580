/** The data set, what a command does to it, and what the command feeds to the log.
    One interpreter serves the live server and the loader: commands run the same code while
    an append-only file is loaded, except that nothing expires (db.c, expireIfNeeded) and an
    expiry in the past is stored instead of deleting the key (expire.c, expireGenericCommand). */
module Dataset {
  import opened Common
  import opened Resp

  type Key = Bytes

  /** A sorted-set score is identified with the "%.17g" text it is logged as. */
  datatype Value =
    | Str(s: Bytes)
    | List(items: seq<Bytes>)
    | Set(members: set<Bytes>)
    | ZSet(scores: map<Bytes, Bytes>)
    | Hash(fields: map<Bytes, Bytes>)

  /** `expire` is an absolute unix time in milliseconds. */
  datatype Entry = Entry(value: Value, expire: Option<int>)

  type Db = map<Key, Entry>
  type Dbs = seq<Db>

  /** Is the key past its expiry at `now`? A negative time never expires (db.c:1101). */
  predicate Expired(e: Entry, now: int) { e.expire.Some? && 0 <= e.expire.value < now }

  predicate EmptyContainer(v: Value) {
    match v
    case Str(_) => false
    case List(l) => l == []
    case Set(m) => m == {}
    case ZSet(m) => m == map[]
    case Hash(m) => m == map[]
  }

  predicate ValidDb(d: Db) {
    forall k :: k in d ==> !EmptyContainer(d[k].value) && (d[k].expire.Some? ==> d[k].expire.value >= 0)
  }

  /** Containers in the key space are never empty, and expiry times are never negative. */
  predicate Valid(dbs: Dbs) { forall j :: 0 <= j < |dbs| ==> ValidDb(dbs[j]) }

  // ---- Commands ----

  datatype SetOpt = NX | XX | EX(n: int) | PX(n: int)

  datatype Cmd =
    | SetCmd(key: Key, val: Bytes, opts: seq<SetOpt>)
    | SetEx(key: Key, n: int, val: Bytes)
    | PSetEx(key: Key, n: int, val: Bytes)
    | Expire(key: Key, n: int)
    | PExpire(key: Key, n: int)
    | ExpireAt(key: Key, n: int)
    | PExpireAt(key: Key, n: int)
    | Persist(key: Key)
    | Del(keys: seq<Key>)
    | Unlink(keys: seq<Key>)
    | Rename(src: Key, dst: Key, nx: bool)
    | Move(key: Key, id: int)
    | FlushDb
    | FlushAll
    | SwapDb(id1: int, id2: int)
    | Select(id: int)
    | GetSet(key: Key, val: Bytes)
      /** `sum` is the text of the new value, none when the value or the operand is no number. */
    | IncrByFloat(key: Key, incr: Bytes, sum: Option<Bytes>)
      /** `ttl` is relative, in milliseconds, and 0 for none. */
    | Restore(key: Key, ttl: int, payload: Bytes, replace: bool)
      /** A write on the single key argv[1] that keeps the key's expiry (AofLog.SINGLE lists them). */
    | Update(argv: Argv)
      /** A write that runs, and is fed, as the update `form` of the same key: HINCRBYFLOAT as HSET with
          the sum, SPOP as SREM of the member picked, GEOADD as ZADD. */
    | Rewritten(argv: Argv, form: Argv)
      /** A write on several keys of the selected database (AofLog.MULTI lists them). */
    | Many(argv: Argv)

  /** What a command on several keys makes of a key it writes: left as it was, gone, or a new value
      with no expiry or the expiry one of the keys it looked up had. */
  datatype NewEntry = Same | Gone | New(value: Value, expiryOf: Option<nat>)

  /** The effect of the commands that have no case of their own: any functions. `one` maps the
      arguments and the value at the key of an Update to the new value. A Many looks up the keys
      `looks` in order for as long as `goesOn` says of what it found, and `many` maps what it found
      to what becomes of the keys `writes`. The flags say whether the command counts a change even
      when nothing comes out different. `restore` is the value a DUMP payload holds, if it is good. */
  datatype Effect = Effect(
    one: (Argv, Option<Value>) -> (Option<Value>, bool),
    looks: Argv -> seq<Key>,
    goesOn: (Argv, seq<Option<Entry>>) -> bool,
    writes: Argv -> seq<Key>,
    many: (Argv, seq<Option<Entry>>) -> (seq<NewEntry>, bool),
    restore: Bytes -> Option<Value>)

  function ElementsOf(s: seq<Bytes>): set<Bytes> { set x | x in s }

  /** Hash arguments come as field, value; sorted-set arguments as score, member. */
  function PutPairs(m: map<Bytes, Bytes>, args: seq<Bytes>, keyFirst: bool): map<Bytes, Bytes>
    decreases |args|
  {
    if |args| < 2 then m
    else PutPairs(if keyFirst then m[args[0] := args[1]] else m[args[1] := args[0]], args[2..], keyFirst)
  }

  function PushEffect(args: seq<Bytes>, v: Option<Value>): Option<Value> {
    match v
    case None => Some(List(args))
    case Some(List(l)) => Some(List(l + args))
    case Some(_) => v
  }

  function AddEffect(args: seq<Bytes>, v: Option<Value>): Option<Value> {
    match v
    case None => Some(Set(ElementsOf(args)))
    case Some(Set(m)) => Some(Set(m + ElementsOf(args)))
    case Some(_) => v
  }

  function ZAddEffect(args: seq<Bytes>, v: Option<Value>): Option<Value> {
    match v
    case None => Some(ZSet(PutPairs(map[], args, false)))
    case Some(ZSet(m)) => Some(ZSet(PutPairs(m, args, false)))
    case Some(_) => v
  }

  function HMSetEffect(args: seq<Bytes>, v: Option<Value>): Option<Value> {
    match v
    case None => Some(Hash(PutPairs(map[], args, true)))
    case Some(Hash(m)) => Some(Hash(PutPairs(m, args, true)))
    case Some(_) => v
  }

  /** The value after the command; a container left empty is removed from the key space. */
  function NewValue(argv: Argv, v: Option<Value>, eff: Effect): Option<Value>
    requires |argv| >= 2
  {
    var args := argv[2..];
    var r := if argv[0] == "RPUSH" then PushEffect(args, v)
             else if argv[0] == "SADD" then AddEffect(args, v)
             else if argv[0] == "ZADD" then ZAddEffect(args, v)
             else if argv[0] == "HMSET" then HMSetEffect(args, v)
             else eff.one(argv, v).0;
    if r.Some? && EmptyContainer(r.value) then None else r
  }

  /** A payload that holds an empty container is taken for a bad one. */
  function Payload(p: Bytes, eff: Effect): Option<Value> {
    var v := eff.restore(p);
    if v.Some? && EmptyContainer(v.value) then None else v
  }

  // ---- Execution ----

  datatype Env = Env(now: int, loading: bool)

  /** A command handed to feedAppendOnlyFile, with the database it ran in. */
  datatype Feed = Feed(db: nat, cmd: Cmd)

  datatype Outcome = Outcome(dbs: Dbs, feeds: seq<Feed>)

  predicate InRange(feeds: seq<Feed>, n: nat) { forall f :: f in feeds ==> f.db < n }

  /** expireIfNeeded: an expired key is deleted and the deletion is fed as a DEL. */
  function Touch(dbs: Dbs, db: nat, k: Key, env: Env): (o: Outcome)
    requires db < |dbs|
    ensures |o.dbs| == |dbs| && InRange(o.feeds, |dbs|)
  {
    if k in dbs[db] && !env.loading && Expired(dbs[db][k], env.now)
    then Outcome(dbs[db := dbs[db] - {k}], [Feed(db, Del([k]))])
    else Outcome(dbs, [])
  }

  function Put(dbs: Dbs, db: nat, k: Key, e: Option<Entry>): (r: Dbs)
    requires db < |dbs|
    ensures |r| == |dbs|
  {
    dbs[db := if e.Some? then dbs[db][k := e.value] else dbs[db] - {k}]
  }

  function Get(dbs: Dbs, db: nat, k: Key): Option<Entry>
    requires db < |dbs|
  {
    if k in dbs[db] then Some(dbs[db][k]) else None
  }

  function FeedsIn(db: nat, cmds: seq<Cmd>): (feeds: seq<Feed>)
    ensures forall f :: f in feeds ==> f.db == db
  {
    if cmds == [] then [] else [Feed(db, cmds[0])] + FeedsIn(db, cmds[1..])
  }

  // Commands on a single key

  predicate SingleKey(c: Cmd) {
    match c
    case SetCmd(_, _, _) | SetEx(_, _, _) | PSetEx(_, _, _) => true
    case Expire(_, _) | PExpire(_, _) | ExpireAt(_, _) | PExpireAt(_, _) | Persist(_) => true
    case GetSet(_, _) | IncrByFloat(_, _, _) | Restore(_, _, _, _) => true
    case Del(keys) => |keys| == 1
    case Update(argv) => |argv| >= 2
    case Rewritten(_, form) => |form| >= 2
    case _ => false
  }

  function KeyOf(c: Cmd): Key
    requires SingleKey(c)
  {
    match c
    case Del(keys) => keys[0]
    case Update(argv) => argv[1]
    case Rewritten(_, form) => form[1]
    case _ => c.key
  }

  predicate Conflict(opts: seq<SetOpt>) {
    || (NX in opts && XX in opts)
    || (exists i, j :: 0 <= i < |opts| && 0 <= j < |opts| && opts[i].EX? && opts[j].PX?)
  }

  /** The time to live asked for, in milliseconds: a later EX or PX overrides an earlier one. */
  function SetTtl(opts: seq<SetOpt>): Option<int> { TtlFrom(opts, None) }

  function TtlFrom(opts: seq<SetOpt>, ttl: Option<int>): Option<int> {
    if opts == [] then ttl
    else
      TtlFrom(opts[1..],
              match opts[0]
              case EX(n) => Some(n * 1000)
              case PX(n) => Some(n)
              case _ => ttl)
  }

  /** Commands refused before the key is looked up. */
  predicate Rejected(c: Cmd) {
    match c
    case SetCmd(_, _, opts) => Conflict(opts) || (SetTtl(opts).Some? && SetTtl(opts).value <= 0)
    case SetEx(_, n, _) => n <= 0
    case PSetEx(_, n, _) => n <= 0
    case _ => false
  }

  predicate IsSet(c: Cmd) { c.SetCmd? || c.SetEx? || c.PSetEx? }

  predicate IsExpire(c: Cmd) { c.Expire? || c.PExpire? || c.ExpireAt? || c.PExpireAt? }

  /** The absolute expiry time asked for by the expire commands. */
  function When(c: Cmd, now: int): int
    requires IsExpire(c)
  {
    match c
    case Expire(_, n) => n * 1000 + now
    case PExpire(_, n) => n + now
    case ExpireAt(_, n) => n * 1000
    case PExpireAt(_, n) => n
  }

  datatype KeyOut = KeyOut(entry: Option<Entry>, fed: seq<Cmd>)

  function ValueOf(e: Option<Entry>): Option<Value> { if e.Some? then Some(e.value.value) else None }

  function ExpiryOf(e: Option<Entry>): Option<int> { if e.Some? then e.value.expire else None }

  predicate WrongType(e: Option<Entry>) { e.Some? && !e.value.value.Str? }

  /** A write that keeps the expiry, fed as it is. */
  function UpdateOf(argv: Argv, e: Option<Entry>, eff: Effect): KeyOut
    requires |argv| >= 2
  {
    var was, fed := ValueOf(e), [Update(argv)];
    var v := NewValue(argv, was, eff);
    if v == was then KeyOut(e, if eff.one(argv, was).1 then fed else [])
    else if v.None? then KeyOut(None, fed)
    else KeyOut(Some(Entry(v.value, ExpiryOf(e))), fed)
  }

  predicate RestoreFails(c: Cmd, e: Option<Entry>, eff: Effect)
    requires c.Restore?
  {
    (!c.replace && e.Some?) || c.ttl < 0 || Payload(c.payload, eff).None?
  }

  /** What a single-key command makes of the entry at its key, and what it feeds. */
  function KeyUpdate(c: Cmd, e: Option<Entry>, env: Env, eff: Effect): KeyOut
    requires SingleKey(c)
  {
    match c
    case SetCmd(_, v, opts) =>
      if (NX in opts && e.Some?) || (XX in opts && e.None?) then KeyOut(e, [])
      else
        var ttl := SetTtl(opts);
        KeyOut(Some(Entry(Str(v), if ttl.Some? then Some(env.now + ttl.value) else None)), [c])
    case SetEx(_, n, v) => KeyOut(Some(Entry(Str(v), Some(env.now + n * 1000))), [c])
    case PSetEx(_, n, v) => KeyOut(Some(Entry(Str(v), Some(env.now + n))), [c])
    case Persist(_) =>
      if e.Some? && e.value.expire.Some? then KeyOut(Some(e.value.(expire := None)), [c]) else KeyOut(e, [])
    case Del(_) => KeyOut(None, if e.Some? then [c] else [])
    case GetSet(_, v) => if WrongType(e) then KeyOut(e, []) else KeyOut(Some(Entry(Str(v), None)), [c])
    case IncrByFloat(k, _, sum) =>
      if sum.None? || WrongType(e) then KeyOut(e, [])
      else KeyOut(Some(Entry(Str(sum.value), ExpiryOf(e))), [SetCmd(k, sum.value, [])])
    case Restore(_, ttl, p, _) =>
      if RestoreFails(c, e, eff) then KeyOut(e, [])
      else KeyOut(Some(Entry(Payload(p, eff).value, if ttl == 0 then None else Some(env.now + ttl))), [c])
    case Update(argv) => UpdateOf(argv, e, eff)
    case Rewritten(_, form) => UpdateOf(form, e, eff)
    case _ =>
      var when := When(c, env.now);
      if e.None? then KeyOut(e, [])
      else if when <= env.now && !env.loading then KeyOut(None, [Del([KeyOf(c)])])
      else KeyOut(Some(e.value.(expire := Some(when))), [c])
  }

  // Commands on several keys or databases

  /** delGenericCommand: each key is first expired if need be, then deleted; `deleted` tells
      whether any deletion was counted, in which case the whole command is fed. */
  function DelKeys(dbs: Dbs, db: nat, keys: seq<Key>, env: Env): (r: (Outcome, bool))
    requires db < |dbs|
    ensures |r.0.dbs| == |dbs| && InRange(r.0.feeds, |dbs|)
    decreases |keys|
  {
    if keys == [] then (Outcome(dbs, []), false)
    else
      var t := Touch(dbs, db, keys[0], env);
      var (o, deleted) := DelKeys(Put(t.dbs, db, keys[0], None), db, keys[1..], env);
      (Outcome(o.dbs, t.feeds + o.feeds), deleted || keys[0] in t.dbs[db])
  }

  function ExecDel(dbs: Dbs, db: nat, c: Cmd, env: Env): (o: Outcome)
    requires db < |dbs| && (c.Del? || c.Unlink?)
    ensures |o.dbs| == |dbs| && InRange(o.feeds, |dbs|)
  {
    var (o, deleted) := DelKeys(dbs, db, c.keys, env);
    if deleted then Outcome(o.dbs, o.feeds + [Feed(db, c)]) else o
  }

  function ExecRename(dbs: Dbs, db: nat, c: Cmd, env: Env): (o: Outcome)
    requires db < |dbs| && c.Rename?
    ensures |o.dbs| == |dbs| && InRange(o.feeds, |dbs|)
  {
    var t := Touch(dbs, db, c.src, env);
    var e := Get(t.dbs, db, c.src);
    if e.None? || c.src == c.dst then t
    else
      var u := Touch(t.dbs, db, c.dst, env);
      if c.nx && c.dst in u.dbs[db] then Outcome(u.dbs, t.feeds + u.feeds)
      else Outcome(Put(Put(u.dbs, db, c.dst, e), db, c.src, None), t.feeds + u.feeds + [Feed(db, c)])
  }

  function ExecMove(dbs: Dbs, db: nat, c: Cmd, env: Env): (o: Outcome)
    requires db < |dbs| && c.Move?
    ensures |o.dbs| == |dbs| && InRange(o.feeds, |dbs|)
  {
    if !(0 <= c.id < |dbs|) || c.id == db then Outcome(dbs, [])
    else
      var t := Touch(dbs, db, c.key, env);
      var e := Get(t.dbs, db, c.key);
      if e.None? then t
      else
        var u := Touch(t.dbs, c.id, c.key, env);
        if c.key in u.dbs[c.id] then Outcome(u.dbs, t.feeds + u.feeds)
        else Outcome(Put(Put(u.dbs, c.id, c.key, e), db, c.key, None), t.feeds + u.feeds + [Feed(db, c)])
  }

  // Commands on several keys of one database

  /** Each key in turn is expired if need be and looked up, until the command has seen enough. */
  function LookUp(dbs: Dbs, db: nat, keys: seq<Key>, seen: seq<Option<Entry>>, argv: Argv, env: Env, eff: Effect)
    : (r: (Outcome, seq<Option<Entry>>))
    requires db < |dbs|
    ensures |r.0.dbs| == |dbs| && InRange(r.0.feeds, |dbs|)
    decreases |keys|
  {
    if keys == [] || !eff.goesOn(argv, seen) then (Outcome(dbs, []), seen)
    else
      var t := Touch(dbs, db, keys[0], env);
      var (o, found) := LookUp(t.dbs, db, keys[1..], seen + [Get(t.dbs, db, keys[0])], argv, env, eff);
      (Outcome(o.dbs, t.feeds + o.feeds), found)
  }

  function ExpiryAt(found: seq<Option<Entry>>, src: Option<nat>): Option<int> {
    if src.Some? && src.value < |found| then ExpiryOf(found[src.value]) else None
  }

  /** A container left empty is removed from the key space. */
  function PutNew(dbs: Dbs, db: nat, k: Key, n: NewEntry, found: seq<Option<Entry>>): (r: Dbs)
    requires db < |dbs|
    ensures |r| == |dbs|
  {
    match n
    case Same => dbs
    case Gone => Put(dbs, db, k, None)
    case New(v, src) => Put(dbs, db, k, if EmptyContainer(v) then None else Some(Entry(v, ExpiryAt(found, src))))
  }

  function PutAll(dbs: Dbs, db: nat, keys: seq<Key>, outs: seq<NewEntry>, found: seq<Option<Entry>>): (r: Dbs)
    requires db < |dbs|
    ensures |r| == |dbs|
    decreases |keys|
  {
    if keys == [] || outs == [] then dbs
    else PutAll(PutNew(dbs, db, keys[0], outs[0], found), db, keys[1..], outs[1..], found)
  }

  function ExecMany(dbs: Dbs, db: nat, argv: Argv, env: Env, eff: Effect): (o: Outcome)
    requires db < |dbs|
    ensures |o.dbs| == |dbs| && InRange(o.feeds, |dbs|)
  {
    var (t, found) := LookUp(dbs, db, eff.looks(argv), [], argv, env, eff);
    var (outs, counted) := eff.many(argv, found);
    var dbs' := PutAll(t.dbs, db, eff.writes(argv), outs, found);
    Outcome(dbs', t.feeds + if dbs' != t.dbs || counted then [Feed(db, Many(argv))] else [])
  }

  /** The lookup of a command on one key. RESTORE with REPLACE removes the key unseen. */
  function Looked(dbs: Dbs, db: nat, c: Cmd, env: Env): (o: Outcome)
    requires db < |dbs| && SingleKey(c)
    ensures |o.dbs| == |dbs| && InRange(o.feeds, |dbs|)
  {
    if c.Restore? && c.replace then Outcome(dbs, []) else Touch(dbs, db, KeyOf(c), env)
  }

  function Exec(dbs: Dbs, db: nat, c: Cmd, env: Env, eff: Effect): (o: Outcome)
    requires db < |dbs|
    ensures |o.dbs| == |dbs| && InRange(o.feeds, |dbs|)
  {
    if Rejected(c) then Outcome(dbs, [])
    else if SingleKey(c) then
      var t := Looked(dbs, db, c, env);
      var u := KeyUpdate(c, Get(t.dbs, db, KeyOf(c)), env, eff);
      Outcome(Put(t.dbs, db, KeyOf(c), u.entry), t.feeds + FeedsIn(db, u.fed))
    else match c
      case Del(_) => ExecDel(dbs, db, c, env)
      case Unlink(_) => ExecDel(dbs, db, c, env)
      case Rename(_, _, _) => ExecRename(dbs, db, c, env)
      case Move(_, _) => ExecMove(dbs, db, c, env)
      case Many(argv) => ExecMany(dbs, db, argv, env, eff)
      case FlushDb => Outcome(dbs[db := map[]], if dbs[db] == map[] then [] else [Feed(db, c)])
      case FlushAll => Outcome(Empty(|dbs|), [Feed(db, c)])
      case SwapDb(i, j) =>
        if 0 <= i < |dbs| && 0 <= j < |dbs|
        then Outcome(dbs[i := dbs[j]][j := dbs[i]], [Feed(db, c)]) else Outcome(dbs, [])
      case _ => Outcome(dbs, [])
  }

  function Empty(n: nat): (dbs: Dbs)
    ensures |dbs| == n && forall j :: 0 <= j < n ==> dbs[j] == map[]
  {
    seq(n, _ => map[])
  }

  // ---- Feeding: translation to absolute times (aof.c, feedAppendOnlyFile) ----

  /** The commands logged for a command that ran at `now`. */
  function Translate(c: Cmd, now: int): seq<Cmd> {
    match c
    case Expire(_, _) | PExpire(_, _) | ExpireAt(_, _) => [PExpireAt(c.key, When(c, now))]
    case SetEx(k, n, v) => [SetCmd(k, v, []), PExpireAt(k, n * 1000 + now)]
    case PSetEx(k, n, v) => [SetCmd(k, v, []), PExpireAt(k, n + now)]
    case SetCmd(k, v, opts) =>
      var ttl := SetTtl(opts);
      [SetCmd(k, v, [])] + if ttl.Some? then [PExpireAt(k, ttl.value + now)] else []
    case _ => [c]
  }

  // ---- Replay ----

  function ReplayCmds(dbs: Dbs, db: nat, cmds: seq<Cmd>, loadTime: int, eff: Effect): (r: Dbs)
    requires db < |dbs|
    ensures |r| == |dbs|
    decreases |cmds|
  {
    if cmds == [] then dbs
    else ReplayCmds(Exec(dbs, db, cmds[0], Env(loadTime, true), eff).dbs, db, cmds[1..], loadTime, eff)
  }

  function ReplayFeeds(dbs: Dbs, feeds: seq<Feed>, now: int, loadTime: int, eff: Effect): (r: Dbs)
    requires InRange(feeds, |dbs|)
    ensures |r| == |dbs|
    decreases |feeds|
  {
    if feeds == [] then dbs
    else
      ReplayFeeds(ReplayCmds(dbs, feeds[0].db, Translate(feeds[0].cmd, now), loadTime, eff),
                  feeds[1..], now, loadTime, eff)
  }

  /** `r` is `d` without some keys that were already past their expiry at `t`. */
  predicate AgreeDb(d: Db, r: Db, t: int) {
    && (forall k :: k in r ==> k in d && r[k] == d[k])
    && (forall k :: k in d && k !in r ==> Expired(d[k], t))
  }

  /** The data sets differ only by keys already past their expiry at `t`. */
  predicate Agree(dbs: Dbs, r: Dbs, t: int) {
    |dbs| == |r| && forall j :: 0 <= j < |dbs| ==> AgreeDb(dbs[j], r[j], t)
  }

  // ---- A replay of what was fed follows the data set ----

  lemma AgreeLater(dbs: Dbs, r: Dbs, t: int, now: int)
    requires Agree(dbs, r, t) && t <= now
    ensures Agree(dbs, r, now)
  {
    forall j | 0 <= j < |dbs| ensures AgreeDb(dbs[j], r[j], now) {
      assert AgreeDb(dbs[j], r[j], t);
    }
  }

  lemma PutGet(dbs: Dbs, db: nat, k: Key)
    requires db < |dbs|
    ensures Put(dbs, db, k, Get(dbs, db, k)) == dbs
  {
    if k in dbs[db] { assert dbs[db][k := dbs[db][k]] == dbs[db]; } else { assert dbs[db] - {k} == dbs[db]; }
  }

  lemma PutPut(dbs: Dbs, db: nat, k: Key, e: Option<Entry>, e': Option<Entry>)
    requires db < |dbs|
    ensures Put(Put(dbs, db, k, e), db, k, e') == Put(dbs, db, k, e')
    ensures Get(Put(dbs, db, k, e), db, k) == e
  {
    assert Put(Put(dbs, db, k, e), db, k, e')[db] == Put(dbs, db, k, e')[db];
  }

  /** An entry under the commands of a log, all on the same key. */
  function LoadEntry(cmds: seq<Cmd>, e: Option<Entry>, loadTime: int, eff: Effect): Option<Entry>
    requires forall c :: c in cmds ==> SingleKey(c)
  {
    if cmds == [] then e
    else LoadEntry(cmds[1..], KeyUpdate(cmds[0], e, Env(loadTime, true), eff).entry, loadTime, eff)
  }

  predicate OneKeyLog(cmds: seq<Cmd>, k: Key) {
    forall c :: c in cmds ==> SingleKey(c) && !Rejected(c) && KeyOf(c) == k
  }

  lemma {:induction false} ReplayOneKey(dbs: Dbs, db: nat, k: Key, cmds: seq<Cmd>, loadTime: int, eff: Effect)
    requires db < |dbs| && OneKeyLog(cmds, k)
    ensures ReplayCmds(dbs, db, cmds, loadTime, eff)
            == Put(dbs, db, k, LoadEntry(cmds, Get(dbs, db, k), loadTime, eff))
    decreases |cmds|
  {
    if cmds == [] {
      PutGet(dbs, db, k);
    } else {
      var e := KeyUpdate(cmds[0], Get(dbs, db, k), Env(loadTime, true), eff).entry;
      ReplayOneKey(Put(dbs, db, k, e), db, k, cmds[1..], loadTime, eff);
      PutPut(dbs, db, k, e, LoadEntry(cmds[1..], e, loadTime, eff));
    }
  }

  function TranslateAll(cmds: seq<Cmd>, now: int): seq<Cmd> {
    if cmds == [] then [] else Translate(cmds[0], now) + TranslateAll(cmds[1..], now)
  }

  lemma LoadEntryOne(c: Cmd, e: Option<Entry>, loadTime: int, eff: Effect)
    requires SingleKey(c)
    ensures LoadEntry([c], e, loadTime, eff) == KeyUpdate(c, e, Env(loadTime, true), eff).entry
  {
    assert [c][1..] == [];
  }

  lemma LoadEntryTwo(a: Cmd, b: Cmd, e: Option<Entry>, loadTime: int, eff: Effect)
    requires SingleKey(a) && SingleKey(b)
    ensures LoadEntry([a, b], e, loadTime, eff)
            == KeyUpdate(b, KeyUpdate(a, e, Env(loadTime, true), eff).entry, Env(loadTime, true), eff).entry
  {
    assert [a, b][1..] == [b];
    LoadEntryOne(b, KeyUpdate(a, e, Env(loadTime, true), eff).entry, loadTime, eff);
  }

  /** At most one command is fed for a command on one key, and it is on the same key. */
  lemma FedAtMostOne(c: Cmd, e: Option<Entry>, env: Env, eff: Effect)
    requires SingleKey(c) && !Rejected(c)
    ensures var fed := KeyUpdate(c, e, env, eff).fed;
            fed == [] || (fed == [fed[0]] && SingleKey(fed[0]) && KeyOf(fed[0]) == KeyOf(c) && !Rejected(fed[0]))
  {
    hide NewValue;
  }

  lemma TranslateAllOne(c: Cmd, now: int)
    ensures TranslateAll([c], now) == Translate(c, now)
  {
    assert TranslateAll([c][1..], now) == [];
  }

  /** SET then PEXPIREAT: the value with its absolute expiry time, whenever it is loaded. */
  lemma LoadSetAt(k: Key, v: Bytes, when: int, e: Option<Entry>, loadTime: int, eff: Effect)
    ensures var log := [SetCmd(k, v, []), PExpireAt(k, when)];
            OneKeyLog(log, k) && LoadEntry(log, e, loadTime, eff) == Some(Entry(Str(v), Some(when)))
  {
    LoadEntryTwo(SetCmd(k, v, []), PExpireAt(k, when), e, loadTime, eff);
  }

  lemma {:induction false} ReplayFeedsConcat(r: Dbs, a: seq<Feed>, b: seq<Feed>, now: int, loadTime: int, eff: Effect)
    requires InRange(a, |r|) && InRange(b, |r|)
    ensures InRange(a + b, |r|)
    ensures ReplayFeeds(r, a + b, now, loadTime, eff)
            == ReplayFeeds(ReplayFeeds(r, a, now, loadTime, eff), b, now, loadTime, eff)
    decreases |a|
  {
    if a == [] {
      assert a + b == b;
    } else {
      assert (a + b)[1..] == a[1..] + b;
      var r' := ReplayCmds(r, a[0].db, Translate(a[0].cmd, now), loadTime, eff);
      ReplayFeedsConcat(r', a[1..], b, now, loadTime, eff);
    }
  }

  lemma ReplayFeedOne(r: Dbs, f: Feed, now: int, loadTime: int, eff: Effect)
    requires f.db < |r|
    ensures InRange([f], |r|)
    ensures ReplayFeeds(r, [f], now, loadTime, eff)
            == ReplayCmds(r, f.db, Translate(f.cmd, now), loadTime, eff)
  {
    assert [f][1..] == [];
  }

  /** A command that needs no translation is replayed by running it. */
  lemma ReplayPlain(r: Dbs, f: Feed, now: int, loadTime: int, eff: Effect)
    requires f.db < |r| && Translate(f.cmd, now) == [f.cmd]
    ensures InRange([f], |r|)
    ensures ReplayFeeds(r, [f], now, loadTime, eff) == Exec(r, f.db, f.cmd, Env(loadTime, true), eff).dbs
  {
    ReplayFeedOne(r, f, now, loadTime, eff);
    assert [f.cmd][1..] == [];
  }

  /** Different entries at a key still agree when the replay only lacks one that is expired. */
  predicate Follows(e: Option<Entry>, e': Option<Entry>, t: int) { e' == e || (e'.None? && Expired(e.value, t)) }

  /** The two entries agree at no time. */
  predicate Apart(e: Option<Entry>, e': Option<Entry>) {
    e' != e && (e'.None? ==> e.value.expire.None?)
  }

  lemma AgreePutBoth(dbs: Dbs, r: Dbs, db: nat, k: Key, e: Option<Entry>, e': Option<Entry>, t: int)
    requires Agree(dbs, r, t) && db < |dbs| && Follows(e, e', t)
    ensures Agree(Put(dbs, db, k, e), Put(r, db, k, e'), t)
  {
    forall j | 0 <= j < |dbs| ensures AgreeDb(Put(dbs, db, k, e)[j], Put(r, db, k, e')[j], t) {
      assert AgreeDb(dbs[j], r[j], t);
    }
  }

  lemma AgreeGet(d: Dbs, r: Dbs, db: nat, k: Key, t: int)
    requires Agree(d, r, t) && db < |d|
    ensures Follows(Get(d, db, k), Get(r, db, k), t)
  {
    assert AgreeDb(d[db], r[db], t);
  }

  // ---- When replaying what a command fed does what the command did ----

  /** What is fed for the command, loaded on the entry it ran on, leaves the entry it left. It does
      not for INCRBYFLOAT on a key with an expiry, because the SET it is fed as drops the expiry, nor
      for RESTORE with a time to live, which is logged as it is and counts from the load. */
  predicate Reproduced(c: Cmd, e: Option<Entry>, now: int, loadTime: int, eff: Effect) {
    match c
    case IncrByFloat(_, _, sum) => sum.None? || WrongType(e) || ExpiryOf(e).None?
    case Restore(_, ttl, _, _) => RestoreFails(c, e, eff) || ttl == 0 || loadTime == now
    case _ => true
  }

  /** The command makes something of an entry that a load without the entry does not make. */
  predicate Builds(c: Cmd, e: Entry, now: int, t: int, eff: Effect) {
    match c
    case Update(argv) => |argv| >= 2 && NewValue(argv, None, eff).Some? && UpdateOf(argv, Some(e), eff).fed != []
    case Rewritten(_, form) => |form| >= 2 && NewValue(form, None, eff).Some? && UpdateOf(form, Some(e), eff).fed != []
    case Persist(_) => true
    case Expire(_, _) | PExpire(_, _) | ExpireAt(_, _) | PExpireAt(_, _) =>
      When(c, now) > now && !(0 <= When(c, now) < t)
    case _ => false
  }

  /** The entry `e'` of a replay at the key where the server has `e`: the same, or none for an entry
      that is alive but expires before `t`. */
  predicate Behind(c: Cmd, e: Option<Entry>, e': Option<Entry>, t: int, now: int) {
    Follows(e, e', t) && (e' == e || (c.Restore? && c.replace) || !Expired(e.value, now))
  }

  /** The replay lacks the entry, and the command builds on it. */
  predicate Lags(c: Cmd, e: Option<Entry>, e': Option<Entry>, t: int, now: int, eff: Effect) {
    e' != e && e.Some? && Builds(c, e.value, now, t, eff)
  }

  /** The heart of replay: loading, at any time, what a command on one key fed. It follows the entry
      the command left exactly when the two conditions above hold. */
  predicate FollowsIff(c: Cmd, e: Option<Entry>, e': Option<Entry>, t: int, now: int, loadTime: int, eff: Effect)
    requires SingleKey(c)
  {
    var u := KeyUpdate(c, e, Env(now, false), eff);
    var log := TranslateAll(u.fed, now);
    && OneKeyLog(log, KeyOf(c))
    && var l := LoadEntry(log, e', loadTime, eff);
       && (Follows(u.entry, l, t) <==> Reproduced(c, e, now, loadTime, eff) && !Lags(c, e, e', t, now, eff))
       && (!Follows(u.entry, l, t) && !IsExpire(c) ==> Apart(u.entry, l))
       && (e' == e && Reproduced(c, e, now, loadTime, eff) ==> l == u.entry)
  }

  lemma ReplaySet(c: Cmd, e: Option<Entry>, e': Option<Entry>, t: int, now: int, loadTime: int, eff: Effect)
    requires IsSet(c) && !Rejected(c) && Behind(c, e, e', t, now)
    ensures FollowsIff(c, e, e', t, now, loadTime, eff)
  {
    if KeyUpdate(c, e, Env(now, false), eff).fed != [] {
      TranslateAllOne(c, now);
      var log := Translate(c, now);
      if |log| == 1 {
        LoadEntryOne(SetCmd(c.key, c.val, []), e', loadTime, eff);
      } else {
        LoadSetAt(c.key, c.val, log[1].n, e', loadTime, eff);
      }
    }
  }

  predicate IsUpdate(c: Cmd) { c.Update? || c.Rewritten? }

  lemma ReplayUpdate(c: Cmd, e: Option<Entry>, e': Option<Entry>, t: int, now: int, loadTime: int, eff: Effect)
    requires SingleKey(c) && IsUpdate(c) && Behind(c, e, e', t, now) && now <= t
    ensures FollowsIff(c, e, e', t, now, loadTime, eff)
  {
    hide NewValue;
    var argv := if c.Update? then c.argv else c.form;
    if UpdateOf(argv, e, eff).fed != [] {
      TranslateAllOne(Update(argv), now);
      LoadEntryOne(Update(argv), e', loadTime, eff);
    }
  }

  lemma ReplayExpire(c: Cmd, e: Option<Entry>, e': Option<Entry>, t: int, now: int, loadTime: int, eff: Effect)
    requires IsExpire(c) && Behind(c, e, e', t, now) && now <= t
    ensures FollowsIff(c, e, e', t, now, loadTime, eff)
  {
    hide UpdateOf, Payload, RestoreFails, TtlFrom, Conflict, NewValue;
    if e.Some? {
      var when := When(c, now);
      var fed := if when <= now then Del([KeyOf(c)]) else c;
      TranslateAllOne(fed, now);
      LoadEntryOne(if when <= now then fed else PExpireAt(c.key, when), e', loadTime, eff);
    }
  }

  lemma ReplayOther(c: Cmd, e: Option<Entry>, e': Option<Entry>, t: int, now: int, loadTime: int, eff: Effect)
    requires SingleKey(c) && !IsSet(c) && !IsUpdate(c) && !IsExpire(c) && Behind(c, e, e', t, now)
    ensures FollowsIff(c, e, e', t, now, loadTime, eff)
  {
    hide Payload, UpdateOf, NewValue, When;
    var fed := if c.IncrByFloat? && c.sum.Some? then SetCmd(c.key, c.sum.value, []) else c;
    if KeyUpdate(c, e, Env(now, false), eff).fed != [] {
      TranslateAllOne(fed, now);
      LoadEntryOne(fed, e', loadTime, eff);
    }
  }

  lemma ReplayKeyUpdate(c: Cmd, e: Option<Entry>, e': Option<Entry>, t: int, now: int, loadTime: int, eff: Effect)
    requires SingleKey(c) && !Rejected(c) && Behind(c, e, e', t, now) && now <= t
    ensures FollowsIff(c, e, e', t, now, loadTime, eff)
  {
    hide FollowsIff;
    if IsSet(c) {
      ReplaySet(c, e, e', t, now, loadTime, eff);
    } else if IsUpdate(c) {
      ReplayUpdate(c, e, e', t, now, loadTime, eff);
    } else if IsExpire(c) {
      ReplayExpire(c, e, e', t, now, loadTime, eff);
    } else {
      ReplayOther(c, e, e', t, now, loadTime, eff);
    }
  }

  // A replay may already lack keys that expire only at a later time, the horizon: the snapshot of
  // a child that looks at its clock after the fork leaves them out. Below, `t` is the horizon and
  // `now` the time of a command, not later than it.

  /** Alive at `now`, but not in the replay. */
  predicate Missing(d: Dbs, r: Dbs, db: nat, k: Key, now: int) {
    db < |d| && db < |r| && k in d[db] && k !in r[db] && !Expired(d[db][k], now)
  }

  predicate Alive(d: Dbs, db: nat, k: Key, now: int) { db < |d| && k in d[db] && !Expired(d[db][k], now) }

  /** Reproduced at every load, asked of the data set before the command runs. */
  predicate Lossless(d: Dbs, db: nat, c: Cmd, now: int, eff: Effect) {
    match c
    case IncrByFloat(k, _, sum) =>
      sum.Some? && Alive(d, db, k, now) && d[db][k].value.Str? ==> d[db][k].expire.None?
    case Restore(k, ttl, p, replace) =>
      ttl > 0 && Payload(p, eff).Some? ==> !replace && Alive(d, db, k, now)
    case _ => true
  }

  lemma LosslessEntry(d: Dbs, db: nat, c: Cmd, now: int, loadTime: int, eff: Effect)
    requires db < |d| && SingleKey(c) && Lossless(d, db, c, now, eff)
    ensures Reproduced(c, Get(Looked(d, db, c, Env(now, false)).dbs, db, KeyOf(c)), now, loadTime, eff)
  {
  }

  /** What the command feeds does what it did, and it does not build on a key the replay lacks. */
  predicate Safe(d: Dbs, r: Dbs, db: nat, c: Cmd, now: int, t: int, eff: Effect) {
    && Lossless(d, db, c, now, eff)
    && (SingleKey(c) && Missing(d, r, db, KeyOf(c), now) ==> !Builds(c, d[db][KeyOf(c)], now, t, eff))
    && match c
       case Rename(src, dst, nx) => !nx && src != dst && Missing(d, r, db, src, now) ==>
         dst !in r[db] || (dst in d[db] && (Expired(d[db][dst], now) || d[db][dst] == d[db][src]))
       case Many(argv) => forall i :: 0 <= i < |eff.looks(argv)| ==> !Missing(d, r, db, eff.looks(argv)[i], now)
       case _ => true
  }

  /** Expiring a key and replaying the fed DEL keep agreement, and leave both sides with the same
      entry there unless the replay lacks a key that is still alive. */
  lemma TouchAgree(d: Dbs, r: Dbs, db: nat, k: Key, t: int, now: int, loadTime: int, eff: Effect)
    requires Agree(d, r, t) && now <= t && db < |d|
    ensures var o := Touch(d, db, k, Env(now, false));
            var r' := ReplayFeeds(r, o.feeds, now, loadTime, eff);
            && r' == (if o.feeds == [] then r else Put(r, db, k, None))
            && o.dbs == (if o.feeds == [] then d else Put(d, db, k, None))
            && Agree(o.dbs, r', t)
            && (!Missing(d, r, db, k, now) ==> Get(o.dbs, db, k) == Get(r', db, k))
            && (Missing(d, r, db, k, now) ==> o.feeds == [])
  {
    var o := Touch(d, db, k, Env(now, false));
    assert AgreeDb(d[db], r[db], t);
    if o.feeds != [] {
      ReplayPlain(r, Feed(db, Del([k])), now, loadTime, eff);
    }
  }

  predicate SameTime(c: Cmd, now: int, loadTime: int) { c.Restore? && loadTime == now }

  /** The conditions of the entry, in terms of the data sets. */
  lemma SafeEntry(d: Dbs, r: Dbs, db: nat, c: Cmd, t: int, now: int, loadTime: int, eff: Effect)
    requires Agree(d, r, t) && now <= t && db < |d| && SingleKey(c) && !Rejected(c)
    ensures var k := KeyOf(c);
            var o := Looked(d, db, c, Env(now, false));
            var r' := ReplayFeeds(r, o.feeds, now, loadTime, eff);
            var e, e' := Get(o.dbs, db, k), Get(r', db, k);
            && r' == (if o.feeds == [] then r else Put(r, db, k, None))
            && o.dbs == (if o.feeds == [] then d else Put(d, db, k, None))
            && Behind(c, e, e', t, now)
            && (Safe(d, r, db, c, now, t, eff) || SameTime(c, now, loadTime) <==>
                  Reproduced(c, e, now, loadTime, eff) && !Lags(c, e, e', t, now, eff))
  {
    hide NewValue, Payload, UpdateOf, When;
    TouchAgree(d, r, db, KeyOf(c), t, now, loadTime, eff);
    AgreeGet(d, r, db, KeyOf(c), t);
  }

  /** The two sides at the key of a single-key command, after it ran and its feed was replayed. */
  lemma SingleReplayed(d: Dbs, r: Dbs, db: nat, c: Cmd, t: int, now: int, loadTime: int, eff: Effect)
    returns (e: Option<Entry>, e': Option<Entry>)
    requires Agree(d, r, t) && now <= t && db < |d| && SingleKey(c) && !Rejected(c)
    ensures var k := KeyOf(c);
            var o := Exec(d, db, c, Env(now, false), eff);
            && o.dbs == Put(d, db, k, e)
            && ReplayFeeds(r, o.feeds, now, loadTime, eff) == Put(r, db, k, e')
            && (Safe(d, r, db, c, now, t, eff) || SameTime(c, now, loadTime) <==> Follows(e, e', t))
            && (!Follows(e, e', t) && !IsExpire(c) ==> Apart(e, e'))
  {
    assert |d| == |r|;
    hide Agree, Safe, Missing, Builds, Reproduced, Looked, Follows, Apart, KeyUpdate, Translate, LoadEntry, ReplayFeeds;
    var k := KeyOf(c);
    var o := Looked(d, db, c, Env(now, false));
    SafeEntry(d, r, db, c, t, now, loadTime, eff);
    var r' := ReplayFeeds(r, o.feeds, now, loadTime, eff);
    var was, was' := Get(o.dbs, db, k), Get(r', db, k);
    ReplayKeyUpdate(c, was, was', t, now, loadTime, eff);
    var u := KeyUpdate(c, was, Env(now, false), eff);
    e, e' := u.entry, LoadEntry(TranslateAll(u.fed, now), was', loadTime, eff);
    FedReplay(r', db, k, c, was, now, loadTime, eff);
    ReplayFeedsConcat(r, o.feeds, FeedsIn(db, u.fed), now, loadTime, eff);
    PutPut(d, db, k, None, e);
    PutPut(r, db, k, None, e');
  }

  lemma SingleAgree(d: Dbs, r: Dbs, db: nat, c: Cmd, t: int, now: int, loadTime: int, eff: Effect)
    requires Agree(d, r, t) && now <= t && db < |d| && SingleKey(c) && !Rejected(c) && Safe(d, r, db, c, now, t, eff)
    ensures var o := Exec(d, db, c, Env(now, false), eff);
            Agree(o.dbs, ReplayFeeds(r, o.feeds, now, loadTime, eff), t)
  {
    hide *;
    var e, e' := SingleReplayed(d, r, db, c, t, now, loadTime, eff);
    AgreePutBoth(d, r, db, KeyOf(c), e, e', t);
  }

  /** The exact condition: a command on one key keeps agreement from the horizon on if and only if
      it is safe, or a RESTORE loaded at the very time it ran. But for the expire commands, what it
      breaks stays broken. */
  lemma CareNeeded(d: Dbs, r: Dbs, db: nat, c: Cmd, t: int, now: int, later: int, loadTime: int, eff: Effect)
    requires Agree(d, r, t) && now <= t && db < |d| && SingleKey(c) && !Rejected(c)
    ensures var o := Exec(d, db, c, Env(now, false), eff);
            var r' := ReplayFeeds(r, o.feeds, now, loadTime, eff);
            && (Agree(o.dbs, r', t) <==> Safe(d, r, db, c, now, t, eff) || SameTime(c, now, loadTime))
            && (!Agree(o.dbs, r', t) && !IsExpire(c) ==> !Agree(o.dbs, r', later))
  {
    var e, e' := SingleReplayed(d, r, db, c, t, now, loadTime, eff);
    var k := KeyOf(c);
    hide Exec, ReplayFeeds, Safe, SameTime, IsExpire;
    if Follows(e, e', t) {
      AgreePutBoth(d, r, db, k, e, e', t);
    } else {
      PutApart(d, r, db, k, e, e', t);
    }
    if Apart(e, e') { PutApart(d, r, db, k, e, e', later); }
  }

  lemma DifferAt(d: Dbs, r: Dbs, db: nat, k: Key, t: int)
    requires db < |d| == |r| && !Follows(Get(d, db, k), Get(r, db, k), t)
    ensures !Agree(d, r, t)
  {
    assert !AgreeDb(d[db], r[db], t);
  }

  lemma PutApart(d: Dbs, r: Dbs, db: nat, k: Key, e: Option<Entry>, e': Option<Entry>, t: int)
    requires db < |d| == |r| && !Follows(e, e', t)
    ensures !Agree(Put(d, db, k, e), Put(r, db, k, e'), t)
  {
    DifferAt(Put(d, db, k, e), Put(r, db, k, e'), db, k, t);
  }

  /** Replaying what a single-key command fed rewrites the entry at its key. */
  lemma FedReplay(r: Dbs, db: nat, k: Key, c: Cmd, e: Option<Entry>, now: int, loadTime: int, eff: Effect)
    requires db < |r| && SingleKey(c) && !Rejected(c)
    requires OneKeyLog(TranslateAll(KeyUpdate(c, e, Env(now, false), eff).fed, now), k)
    ensures var fed := KeyUpdate(c, e, Env(now, false), eff).fed;
            ReplayFeeds(r, FeedsIn(db, fed), now, loadTime, eff)
            == Put(r, db, k, LoadEntry(TranslateAll(fed, now), Get(r, db, k), loadTime, eff))
  {
    hide KeyUpdate;
    var fed := KeyUpdate(c, e, Env(now, false), eff).fed;
    ReplayOneKey(r, db, k, TranslateAll(fed, now), loadTime, eff);
    if fed == [] {
      PutGet(r, db, k);
    } else {
      FedAtMostOne(c, e, Env(now, false), eff);
      assert FeedsIn(db, fed) == [Feed(db, fed[0])] by { assert FeedsIn(db, fed[1..]) == []; }
      ReplayFeedOne(r, Feed(db, fed[0]), now, loadTime, eff);
      TranslateAllOne(fed[0], now);
    }
  }

  lemma PutElsewhere(dbs: Dbs, db: nat, k: Key, e: Option<Entry>, db': nat, k': Key)
    requires db < |dbs| && db' < |dbs| && (db != db' || k != k')
    ensures Get(Put(dbs, db, k, e), db', k') == Get(dbs, db', k')
  {
  }

  /** Two touches in a row, each followed on the replay side by the DEL it may have fed. */
  lemma TouchTwice(d: Dbs, r: Dbs, db: nat, k: Key, db': nat, k': Key, t: int, now: int, loadTime: int, eff: Effect)
    requires Agree(d, r, t) && now <= t && db < |d| && db' < |d| && (db != db' || k != k')
    ensures var t1 := Touch(d, db, k, Env(now, false));
            var t2 := Touch(t1.dbs, db', k', Env(now, false));
            var r' := ReplayFeeds(r, t1.feeds + t2.feeds, now, loadTime, eff);
            && Agree(t2.dbs, r', t)
            && Get(t2.dbs, db, k) == Get(t1.dbs, db, k)
            && Get(r', db, k) == (if Alive(d, db, k, now) then Get(r, db, k) else None)
            && Get(r', db', k') == (if Alive(d, db', k', now) then Get(r, db', k') else None)
  {
    AgreeGet(d, r, db, k, t);
    AgreeGet(d, r, db', k', t);
    hide Agree, Put, Missing;
    var t1 := Touch(d, db, k, Env(now, false));
    var t2 := Touch(t1.dbs, db', k', Env(now, false));
    TouchAgree(d, r, db, k, t, now, loadTime, eff);
    var r1 := ReplayFeeds(r, t1.feeds, now, loadTime, eff);
    TouchAgree(t1.dbs, r1, db', k', t, now, loadTime, eff);
    ReplayFeedsConcat(r, t1.feeds, t2.feeds, now, loadTime, eff);
    PutElsewhere(r1, db', k', None, db, k);
    PutElsewhere(t1.dbs, db', k', None, db, k);
    PutElsewhere(r, db, k, None, db', k');
    PutElsewhere(d, db, k, None, db', k');
    PutPut(r1, db', k', None, None);
  }

  /** RENAME keeps agreement exactly when it is safe; RENAMENX always is. */
  lemma RenameAgree(d: Dbs, r: Dbs, db: nat, c: Cmd, t: int, now: int, loadTime: int, eff: Effect)
    requires Agree(d, r, t) && now <= t && db < |d| && c.Rename?
    ensures var o := ExecRename(d, db, c, Env(now, false));
            Agree(o.dbs, ReplayFeeds(r, o.feeds, now, loadTime, eff), t) <==> Safe(d, r, db, c, now, t, eff)
  {
    TouchAgree(d, r, db, c.src, t, now, loadTime, eff);
    AgreeGet(d, r, db, c.src, t);
    AgreeGet(d, r, db, c.dst, t);
    var t1 := Touch(d, db, c.src, Env(now, false));
    var e := Get(t1.dbs, db, c.src);
    if e.Some? && c.src != c.dst {
      var t2 := Touch(t1.dbs, db, c.dst, Env(now, false));
      TouchTwice(d, r, db, c.src, db, c.dst, t, now, loadTime, eff);
      var r2 := ReplayFeeds(r, t1.feeds + t2.feeds, now, loadTime, eff);
      if !(c.nx && c.dst in t2.dbs[db]) {
        ReplayFeedsConcat(r, t1.feeds + t2.feeds, [Feed(db, c)], now, loadTime, eff);
        RenameReplayed(t2.dbs, r2, db, c, e, t, now, loadTime, eff);
      }
    }
  }

  /** The replay has the source too, or nothing at the target, or already what comes there. */
  lemma RenameReplayed(d: Dbs, r: Dbs, db: nat, c: Cmd, e: Option<Entry>, t: int, now: int, loadTime: int, eff: Effect)
    requires Agree(d, r, t) && db < |d| && c.Rename? && c.src != c.dst && e.Some? && Get(d, db, c.src) == e
    requires c.nx ==> Get(d, db, c.dst) == None
    ensures Agree(Put(Put(d, db, c.dst, e), db, c.src, None), ReplayFeeds(r, [Feed(db, c)], now, loadTime, eff), t)
            <==> Get(r, db, c.src) == e || Get(r, db, c.dst) in {None, e}
  {
    AgreeGet(d, r, db, c.src, t);
    AgreeGet(d, r, db, c.dst, t);
    ReplayPlain(r, Feed(db, c), now, loadTime, eff);
    var e' := if Get(r, db, c.src) == e then e else Get(r, db, c.dst);
    assert Exec(r, db, c, Env(loadTime, true), eff).dbs == Put(Put(r, db, c.dst, e'), db, c.src, None) by {
      if Get(r, db, c.src) != e { PutGet(r, db, c.dst); PutGet(r, db, c.src); }
    }
    hide Agree, Put, Get, Exec, ReplayFeeds;
    var d1, r1 := Put(d, db, c.dst, e), Put(r, db, c.dst, e');
    if Follows(e, e', t) {
      AgreePutBoth(d, r, db, c.dst, e, e', t);
      AgreePutBoth(d1, r1, db, c.src, None, None, t);
    } else {
      PutElsewhere(d1, db, c.src, None, db, c.dst);
      PutElsewhere(r1, db, c.src, None, db, c.dst);
      PutPut(d, db, c.dst, e, e);
      PutPut(r, db, c.dst, e', e');
      DifferAt(Put(d1, db, c.src, None), Put(r1, db, c.src, None), db, c.dst, t);
    }
  }

  /** MOVE needs no care: an entry the replay lacks moves to a place where the replay lacks it too. */
  lemma MoveAgree(d: Dbs, r: Dbs, db: nat, c: Cmd, t: int, now: int, loadTime: int, eff: Effect)
    requires Agree(d, r, t) && now <= t && db < |d| && c.Move?
    ensures var o := ExecMove(d, db, c, Env(now, false));
            Agree(o.dbs, ReplayFeeds(r, o.feeds, now, loadTime, eff), t)
  {
    if 0 <= c.id < |d| && c.id != db {
      TouchAgree(d, r, db, c.key, t, now, loadTime, eff);
      var t1 := Touch(d, db, c.key, Env(now, false));
      var e := Get(t1.dbs, db, c.key);
      if e.Some? {
        var t2 := Touch(t1.dbs, c.id, c.key, Env(now, false));
        TouchTwice(d, r, db, c.key, c.id, c.key, t, now, loadTime, eff);
        if c.key !in t2.dbs[c.id] {
          var r2 := ReplayFeeds(r, t1.feeds + t2.feeds, now, loadTime, eff);
          ReplayFeedsConcat(r, t1.feeds + t2.feeds, [Feed(db, c)], now, loadTime, eff);
          MoveReplayed(t2.dbs, r2, db, c, e, t, now, loadTime, eff);
        }
      }
    }
  }

  lemma MoveReplayed(d: Dbs, r: Dbs, db: nat, c: Cmd, e: Option<Entry>, t: int, now: int, loadTime: int, eff: Effect)
    requires Agree(d, r, t) && db < |d| && c.Move? && 0 <= c.id < |d| && c.id != db
    requires e.Some? && Get(d, db, c.key) == e && Get(d, c.id, c.key) == None
    ensures Agree(Put(Put(d, c.id, c.key, e), db, c.key, None), ReplayFeeds(r, [Feed(db, c)], now, loadTime, eff), t)
  {
    AgreeGet(d, r, db, c.key, t);
    AgreeGet(d, r, c.id, c.key, t);
    hide Agree, Put, Get, Exec;
    var e' := Get(r, db, c.key);
    ReplayPlain(r, Feed(db, c), now, loadTime, eff);
    AgreePutBoth(d, r, c.id, c.key, e, e', t);
    if e'.None? {
      PutGet(r, c.id, c.key);
      PutGet(r, db, c.key);
    }
  }

  function Without(dbs: Dbs, db: nat, ks: set<Key>): (r: Dbs)
    requires db < |dbs|
    ensures |r| == |dbs|
  {
    dbs[db := dbs[db] - ks]
  }

  lemma WithoutTwice(dbs: Dbs, db: nat, a: set<Key>, b: set<Key>)
    requires db < |dbs|
    ensures Without(Without(dbs, db, a), db, b) == Without(dbs, db, a + b)
  {
    assert dbs[db] - a - b == dbs[db] - (a + b);
  }

  lemma TouchThenRemove(dbs: Dbs, db: nat, k: Key, env: Env)
    requires db < |dbs|
    ensures Put(Touch(dbs, db, k, env).dbs, db, k, None) == Without(dbs, db, {k})
  {
    assert Put(Touch(dbs, db, k, env).dbs, db, k, None)[db] == dbs[db] - {k};
  }

  /** DEL removes its keys, expired or not. */
  lemma {:induction false} DelKeysRemoves(dbs: Dbs, db: nat, keys: seq<Key>, env: Env)
    requires db < |dbs|
    ensures DelKeys(dbs, db, keys, env).0.dbs == Without(dbs, db, ElementsOf(keys))
    decreases |keys|
  {
    if keys == [] {
      assert ElementsOf(keys) == {} && dbs[db] - {} == dbs[db];
    } else {
      TouchThenRemove(dbs, db, keys[0], env);
      DelKeysRemoves(Without(dbs, db, {keys[0]}), db, keys[1..], env);
      WithoutTwice(dbs, db, {keys[0]}, ElementsOf(keys[1..]));
      assert ElementsOf(keys) == {keys[0]} + ElementsOf(keys[1..]);
    }
  }

  /** The DELs fed on the way are for keys among its own (`early`); when it counts no deletion,
      those were all there was to delete. */
  lemma {:induction false} DelKeysFeeds(dbs: Dbs, r: Dbs, db: nat, keys: seq<Key>, env: Env, loadTime: int, eff: Effect)
    returns (early: set<Key>)
    requires db < |dbs| == |r|
    ensures early <= ElementsOf(keys)
    ensures ReplayFeeds(r, DelKeys(dbs, db, keys, env).0.feeds, env.now, loadTime, eff) == Without(r, db, early)
    ensures !DelKeys(dbs, db, keys, env).1 ==> forall k :: k in keys && k in dbs[db] ==> k in early
    decreases |keys|
  {
    if keys == [] {
      early := {};
      assert r[db] - {} == r[db];
      return;
    }
    var k := keys[0];
    var t := Touch(dbs, db, k, env);
    TouchThenRemove(dbs, db, k, env);
    var dbs1 := Without(dbs, db, {k});
    var first := if t.feeds == [] then {} else {k};
    var r1 := Without(r, db, first);
    assert ReplayFeeds(r, t.feeds, env.now, loadTime, eff) == r1 by {
      if t.feeds == [] {
        assert r[db] - {} == r[db];
      } else {
        ReplayPlain(r, Feed(db, Del([k])), env.now, loadTime, eff);
      }
    }
    var early1 := DelKeysFeeds(dbs1, r1, db, keys[1..], env, loadTime, eff);
    ReplayFeedsConcat(r, t.feeds, DelKeys(dbs1, db, keys[1..], env).0.feeds, env.now, loadTime, eff);
    early := first + early1;
    WithoutTwice(r, db, first, early1);
  }

  lemma DelAgree(d: Dbs, r: Dbs, db: nat, c: Cmd, t: int, now: int, loadTime: int, eff: Effect)
    requires Agree(d, r, t) && db < |d| && ((c.Del? && !SingleKey(c)) || c.Unlink?)
    ensures var o := Exec(d, db, c, Env(now, false), eff);
            Agree(o.dbs, ReplayFeeds(r, o.feeds, now, loadTime, eff), t)
  {
    hide KeyUpdate, Looked, ExecRename, ExecMove, ExecMany, KeyOf;
    var ks := ElementsOf(c.keys);
    var (o, deleted) := DelKeys(d, db, c.keys, Env(now, false));
    DelKeysRemoves(d, db, c.keys, Env(now, false));
    var early := DelKeysFeeds(d, r, db, c.keys, Env(now, false), loadTime, eff);
    if deleted {
      var r1 := Without(r, db, early);
      ReplayFeedsConcat(r, o.feeds, [Feed(db, c)], now, loadTime, eff);
      ReplayPlain(r1, Feed(db, c), now, loadTime, eff);
      DelKeysRemoves(r1, db, c.keys, Env(loadTime, true));
      WithoutTwice(r, db, early, ks);
      assert early + ks == ks;
    } else {
      assert AgreeDb(d[db], r[db], t);
      assert r[db] - early == r[db] - ks;
    }
    AgreeWithout(d, r, db, ks, t);
  }

  lemma AgreeWithout(d: Dbs, r: Dbs, db: nat, ks: set<Key>, t: int)
    requires Agree(d, r, t) && db < |d|
    ensures Agree(Without(d, db, ks), Without(r, db, ks), t)
  {
    forall j | 0 <= j < |d| ensures AgreeDb(Without(d, db, ks)[j], Without(r, db, ks)[j], t) {
      assert AgreeDb(d[j], r[j], t);
    }
  }

  // ---- Commands on several keys ----

  /** Looking up a list of keys, some of them expired, keeps agreement; a load that looks the same
      keys up afterwards finds the same entries and goes on as far. */
  lemma {:induction false} LookUpAgree(d: Dbs, r: Dbs, db: nat, keys: seq<Key>, seen: seq<Option<Entry>>, argv: Argv,
                                       t: int, now: int, loadTime: int, eff: Effect)
    requires Agree(d, r, t) && now <= t && db < |d|
    requires forall i :: 0 <= i < |keys| ==> !Missing(d, r, db, keys[i], now)
    ensures var (o, found) := LookUp(d, db, keys, seen, argv, Env(now, false), eff);
            var r' := ReplayFeeds(r, o.feeds, now, loadTime, eff);
            && Agree(o.dbs, r', t)
            && LookUp(r', db, keys, seen, argv, Env(loadTime, true), eff) == (Outcome(r', []), found)
            && forall k :: k !in d[db] || !Expired(d[db][k], now) ==> Get(r', db, k) == Get(r, db, k)
    decreases |keys|
  {
    if keys != [] && eff.goesOn(argv, seen) {
      var k, rest, env := keys[0], keys[1..], Env(now, false);
      var o := Touch(d, db, k, env);
      TouchAgree(d, r, db, k, t, now, loadTime, eff);
      var r1 := ReplayFeeds(r, o.feeds, now, loadTime, eff);
      forall i | 0 <= i < |rest| ensures !Missing(o.dbs, r1, db, rest[i], now) {
        assert rest[i] == keys[i + 1];
      }
      var seen' := seen + [Get(o.dbs, db, k)];
      LookUpAgree(o.dbs, r1, db, rest, seen', argv, t, now, loadTime, eff);
      var (more, found) := LookUp(o.dbs, db, rest, seen', argv, env, eff);
      ReplayFeedsConcat(r, o.feeds, more.feeds, now, loadTime, eff);
      LookUpFirst(ReplayFeeds(r1, more.feeds, now, loadTime, eff), db, keys, seen, found, argv, loadTime, eff);
    }
  }

  lemma LookUpFirst(r: Dbs, db: nat, keys: seq<Key>, seen: seq<Option<Entry>>, found: seq<Option<Entry>>, argv: Argv,
                    loadTime: int, eff: Effect)
    requires db < |r| && keys != [] && eff.goesOn(argv, seen)
    requires LookUp(r, db, keys[1..], seen + [Get(r, db, keys[0])], argv, Env(loadTime, true), eff)
             == (Outcome(r, []), found)
    ensures LookUp(r, db, keys, seen, argv, Env(loadTime, true), eff) == (Outcome(r, []), found)
  {
    var env := Env(loadTime, true);
    var t := Touch(r, db, keys[0], env);
    var (o, f) := LookUp(t.dbs, db, keys[1..], seen + [Get(t.dbs, db, keys[0])], argv, env, eff);
    assert t == Outcome(r, []) && o == Outcome(r, []) && f == found;
    assert LookUp(r, db, keys, seen, argv, env, eff) == (Outcome(o.dbs, t.feeds + o.feeds), f);
    assert t.feeds + o.feeds == [];
  }

  lemma {:induction false} AgreePutAll(d: Dbs, r: Dbs, db: nat, keys: seq<Key>, outs: seq<NewEntry>,
                                       found: seq<Option<Entry>>, t: int)
    requires Agree(d, r, t) && db < |d|
    ensures Agree(PutAll(d, db, keys, outs, found), PutAll(r, db, keys, outs, found), t)
    decreases |keys|
  {
    if keys != [] && outs != [] {
      var n := outs[0];
      if n.Gone? {
        AgreePutBoth(d, r, db, keys[0], None, None, t);
      } else if n.New? {
        var e := if EmptyContainer(n.value) then None else Some(Entry(n.value, ExpiryAt(found, n.expiryOf)));
        AgreePutBoth(d, r, db, keys[0], e, e, t);
      }
      AgreePutAll(PutNew(d, db, keys[0], n, found), PutNew(r, db, keys[0], n, found), db, keys[1..], outs[1..], found,
                  t);
    }
  }

  lemma {:induction false} LookUpLoading(d: Dbs, db: nat, keys: seq<Key>, seen: seq<Option<Entry>>, argv: Argv, t1: int,
                                         t2: int, eff: Effect)
    requires db < |d|
    ensures LookUp(d, db, keys, seen, argv, Env(t1, true), eff) == LookUp(d, db, keys, seen, argv, Env(t2, true), eff)
    decreases |keys|
  {
    if keys != [] && eff.goesOn(argv, seen) {
      LookUpLoading(d, db, keys[1..], seen + [Get(d, db, keys[0])], argv, t1, t2, eff);
    }
  }

  /** Any command that looks up keys of one database and writes any of its keys. */
  lemma ManyAgree(d: Dbs, r: Dbs, db: nat, argv: Argv, t: int, now: int, loadTime: int, eff: Effect)
    requires Agree(d, r, t) && now <= t && db < |d| && Safe(d, r, db, Many(argv), now, t, eff)
    ensures var o := ExecMany(d, db, argv, Env(now, false), eff);
            Agree(o.dbs, ReplayFeeds(r, o.feeds, now, loadTime, eff), t)
  {
    assert |d| == |r|;
    hide Agree, LookUp, PutAll, ReplayFeeds, Missing;
    var keys, f := eff.looks(argv), Feed(db, Many(argv));
    LookUpAgree(d, r, db, keys, [], argv, t, now, loadTime, eff);
    var (looked, found) := LookUp(d, db, keys, [], argv, Env(now, false), eff);
    var r1 := ReplayFeeds(r, looked.feeds, now, loadTime, eff);
    var (outs, counted) := eff.many(argv, found);
    AgreePutAll(looked.dbs, r1, db, eff.writes(argv), outs, found, t);
    if PutAll(looked.dbs, db, eff.writes(argv), outs, found) != looked.dbs || counted {
      ReplayFeedsConcat(r, looked.feeds, [f], now, loadTime, eff);
      ReplayPlain(r1, f, now, loadTime, eff);
    } else {
      assert looked.feeds + [] == looked.feeds;
    }
  }

  /** Whatever command runs at `now`, loading what it fed keeps the replayed data set equal to
      the live one but for keys past their expiry, at whatever time the load takes place; and it
      does so from the horizon `t` on when the command does not build on keys the replay lacks. */
  lemma ExecAgree(d: Dbs, r: Dbs, db: nat, c: Cmd, t: int, now: int, loadTime: int, eff: Effect)
    requires Agree(d, r, t) && now <= t && db < |d| && Safe(d, r, db, c, now, t, eff)
    ensures var o := Exec(d, db, c, Env(now, false), eff);
            Agree(o.dbs, ReplayFeeds(r, o.feeds, now, loadTime, eff), t)
  {
    if Rejected(c) {
    } else if SingleKey(c) {
      SingleAgree(d, r, db, c, t, now, loadTime, eff);
    } else {
      match c
      case Del(_) => DelAgree(d, r, db, c, t, now, loadTime, eff);
      case Unlink(_) => DelAgree(d, r, db, c, t, now, loadTime, eff);
      case Rename(_, _, _) => RenameAgree(d, r, db, c, t, now, loadTime, eff);
      case Move(_, _) => MoveAgree(d, r, db, c, t, now, loadTime, eff);
      case Many(argv) => ManyAgree(d, r, db, argv, t, now, loadTime, eff);
      case FlushDb =>
        ReplayPlain(r, Feed(db, c), now, loadTime, eff);
        assert AgreeDb(d[db], r[db], t);
      case FlushAll => ReplayPlain(r, Feed(db, c), now, loadTime, eff);
      case SwapDb(_, _) => ReplayPlain(r, Feed(db, c), now, loadTime, eff);
      case Select(_) =>
      case _ =>
    }
  }

  // What a caller can check, of the data set alone

  /** Still alive at `now`, but past its expiry at `t`. */
  predicate InBetween(d: Dbs, db: nat, k: Key, now: int, t: int) {
    db < |d| && k in d[db] && Expired(d[db][k], t) && !Expired(d[db][k], now)
  }

  /** Safe whatever keys a replay that agrees at `t` may lack. */
  predicate Careful(d: Dbs, db: nat, c: Cmd, now: int, t: int, eff: Effect) {
    && Lossless(d, db, c, now, eff)
    && (SingleKey(c) && InBetween(d, db, KeyOf(c), now, t) ==> !Builds(c, d[db][KeyOf(c)], now, t, eff))
    && match c
       case Rename(src, dst, nx) => !nx && src != dst && InBetween(d, db, src, now, t) ==>
         dst !in d[db] || Expired(d[db][dst], now) || d[db][dst] == d[db][src]
       case Many(argv) => forall i :: 0 <= i < |eff.looks(argv)| ==> !InBetween(d, db, eff.looks(argv)[i], now, t)
       case _ => true
  }

  lemma CarefulSafe(d: Dbs, r: Dbs, db: nat, c: Cmd, now: int, t: int, eff: Effect)
    requires Agree(d, r, t) && now <= t && db < |d| && Careful(d, db, c, now, t, eff)
    ensures Safe(d, r, db, c, now, t, eff)
  {
    assert AgreeDb(d[db], r[db], t);
    hide Builds, Lossless;
  }

  /** The key on account of which a command that loses nothing by itself is not careful. */
  ghost function Culprit(d: Dbs, db: nat, c: Cmd, now: int, t: int, eff: Effect): Key
    requires !Careful(d, db, c, now, t, eff) && Lossless(d, db, c, now, eff)
  {
    if SingleKey(c) then KeyOf(c)
    else if c.Rename? then c.src
    else
      var i :| 0 <= i < |eff.looks(c.argv)| && InBetween(d, db, eff.looks(c.argv)[i], now, t);
      eff.looks(c.argv)[i]
  }

  /** Being careful is exactly being safe for every replay that agrees: for a command that is not,
      the data set without one key is a replay that agrees and for which it is not safe. */
  lemma CarefulIff(d: Dbs, db: nat, c: Cmd, now: int, t: int, eff: Effect)
    requires now <= t && db < |d|
    ensures Careful(d, db, c, now, t, eff) <==> forall r: Dbs :: Agree(d, r, t) ==> Safe(d, r, db, c, now, t, eff)
  {
    if Careful(d, db, c, now, t, eff) {
      forall r: Dbs | Agree(d, r, t) ensures Safe(d, r, db, c, now, t, eff) { CarefulSafe(d, r, db, c, now, t, eff); }
    } else {
      var r := if Lossless(d, db, c, now, eff) then Put(d, db, Culprit(d, db, c, now, t, eff), None) else d;
      hide Builds, Lossless;
      assert Agree(d, r, t) && !Safe(d, r, db, c, now, t, eff);
    }
  }

  /** Agreement after the command and the load of what it fed. */
  predicate Kept(d: Dbs, r: Dbs, db: nat, c: Cmd, t: int, now: int, loadTime: int, eff: Effect)
    requires db < |d| == |r|
  {
    var o := Exec(d, db, c, Env(now, false), eff);
    Agree(o.dbs, ReplayFeeds(r, o.feeds, now, loadTime, eff), t)
  }

  lemma UnsafeBreaks(d: Dbs, r: Dbs, db: nat, c: Cmd, t: int, now: int, eff: Effect)
    requires Agree(d, r, t) && now <= t && db < |d| && !c.Many? && !Safe(d, r, db, c, now, t, eff)
    ensures !Kept(d, r, db, c, t, now, now + 1, eff)
  {
    if SingleKey(c) {
      CareNeeded(d, r, db, c, t, now, t, now + 1, eff);
    } else {
      RenameAgree(d, r, db, c, t, now, now + 1, eff);
    }
  }

  /** The condition a caller can check is exact: a command is careful if and only if, whatever
      agreeing replay there is and whenever the load takes place, agreement is kept. */
  lemma CarefulExact(d: Dbs, db: nat, c: Cmd, now: int, t: int, eff: Effect)
    requires now <= t && db < |d| && !c.Many?
    ensures Careful(d, db, c, now, t, eff)
            <==> forall r: Dbs, loadTime: int :: Agree(d, r, t) ==> Kept(d, r, db, c, t, now, loadTime, eff)
  {
    CarefulIff(d, db, c, now, t, eff);
    hide Careful, Safe, Kept, Agree;
    if Careful(d, db, c, now, t, eff) {
      forall r: Dbs, loadTime: int | Agree(d, r, t) ensures Kept(d, r, db, c, t, now, loadTime, eff) {
        KeptWhenSafe(d, r, db, c, t, now, loadTime, eff);
      }
    } else {
      var r: Dbs :| Agree(d, r, t) && !Safe(d, r, db, c, now, t, eff);
      UnsafeBreaks(d, r, db, c, t, now, eff);
    }
  }

  lemma KeptWhenSafe(d: Dbs, r: Dbs, db: nat, c: Cmd, t: int, now: int, loadTime: int, eff: Effect)
    requires Agree(d, r, t) && now <= t && db < |d| && Safe(d, r, db, c, now, t, eff)
    ensures Kept(d, r, db, c, t, now, loadTime, eff)
  {
    hide Safe;
    ExecAgree(d, r, db, c, t, now, loadTime, eff);
  }

  /** When the horizon is the present there is nothing in between, and all the care to take is that
      the command feeds what it did. */
  lemma CarefulNow(d: Dbs, db: nat, c: Cmd, now: int, eff: Effect)
    ensures Careful(d, db, c, now, now, eff) <==> Lossless(d, db, c, now, eff)
  {
    hide Builds, Lossless;
  }

  // ---- Two commands whose feed does not do what they did ----

  /** After INCRBYFLOAT on a key both sides have, they agree, at whatever time, if and only if the
      key had no expiry or was no number. */
  lemma IncrByFloatIff(d: Dbs, r: Dbs, db: nat, c: Cmd, t: int, now: int, later: int, loadTime: int, eff: Effect)
    requires Agree(d, r, t) && now <= t <= later && db < |d| && c.IncrByFloat?
    requires c.key in r[db] && !Expired(d[db][c.key], now)
    ensures var e := d[db][c.key];
            var lossless := c.sum.None? || !e.value.Str? || e.expire.None?;
            Kept(d, r, db, c, t, now, loadTime, eff) == Kept(d, r, db, c, later, now, loadTime, eff) == lossless
  {
    CareNeeded(d, r, db, c, t, now, later, loadTime, eff);
    assert AgreeDb(d[db], r[db], t);
    if Kept(d, r, db, c, t, now, loadTime, eff) {
      var o := Exec(d, db, c, Env(now, false), eff);
      AgreeLater(o.dbs, ReplayFeeds(r, o.feeds, now, loadTime, eff), t, later);
    }
  }

  /** SET k 1 PX 100, then INCRBYFLOAT k 1: the loaded file has the key without its expiry. */
  lemma IncrByFloatLosesExpiry(t: int, loadTime: int, eff: Effect)
    ensures var d := [map["k" := Entry(Str("1"), Some(100))]];
            !Kept(d, d, 0, IncrByFloat("k", "1", Some("2")), t, 0, loadTime, eff)
  {
    var d, c := [map["k" := Entry(Str("1"), Some(100))]], IncrByFloat("k", "1", Some("2"));
    CareNeeded(d, d, 0, c, 0, 0, t, loadTime, eff);
    assert !Lossless(d, 0, c, 0, eff);
  }

  /** RESTORE keeps agreement if and only if it is refused, has no time to live, or is loaded at the
      millisecond it ran. */
  lemma RestoreIff(d: Dbs, r: Dbs, db: nat, c: Cmd, t: int, now: int, loadTime: int, eff: Effect)
    requires Agree(d, r, t) && now <= t && db < |d| && c.Restore?
    ensures Kept(d, r, db, c, t, now, loadTime, eff)
            <==> || c.ttl <= 0 || Payload(c.payload, eff).None? || loadTime == now
                 || (!c.replace && Alive(d, db, c.key, now))
  {
    CareNeeded(d, r, db, c, t, now, t, loadTime, eff);
  }
}

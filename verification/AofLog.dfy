/** The log as argument vectors: what feedAppendOnlyFile appends for a command, and what the
    loader's fake client makes of it. */
module AofLog {
  import opened Common
  import opened Resp
  import opened Dataset

  // ---- Commands as argument vectors ----

  /** The commands with a case of their own. */
  const SPECIAL: set<Bytes> :=
    {"SET", "SETEX", "PSETEX", "EXPIRE", "PEXPIRE", "EXPIREAT", "PEXPIREAT", "PERSIST", "DEL", "UNLINK",
     "RENAME", "RENAMENX", "MOVE", "FLUSHDB", "FLUSHALL", "SWAPDB", "SELECT", "GETSET", "INCRBYFLOAT", "RESTORE"}

  /** The other writes on one key: they keep its expiry and are logged as they were sent. */
  const SINGLE: set<Bytes> :=
    {"SETNX", "APPEND", "SETRANGE", "SETBIT", "BITFIELD", "INCR", "DECR", "INCRBY", "DECRBY",
     "RPUSH", "LPUSH", "RPUSHX", "LPUSHX", "LINSERT", "RPOP", "LPOP", "LSET", "LTRIM", "LREM",
     "SADD", "SREM", "ZADD", "ZINCRBY", "ZREM", "ZREMRANGEBYSCORE", "ZREMRANGEBYRANK", "ZREMRANGEBYLEX",
     "HSET", "HSETNX", "HMSET", "HINCRBY", "HDEL"}

  /** The other writes on several keys of one database. */
  const MULTI: set<Bytes> :=
    {"MSET", "MSETNX", "RPOPLPUSH", "SMOVE", "SINTERSTORE", "SUNIONSTORE", "SDIFFSTORE", "ZUNIONSTORE",
     "ZINTERSTORE", "BITOP"}

  /** The writes that run, and are logged, as another one on the same key. */
  const REWRITTEN: map<Bytes, Bytes> := map["HINCRBYFLOAT" := "HSET", "SPOP" := "SREM", "GEOADD" := "ZADD"]

  predicate IsSingle(name: Bytes) { name in SINGLE }

  predicate IsUpdateName(name: Bytes) { name !in SPECIAL && name !in MULTI && IsSingle(name) }

  predicate Shaped(c: Cmd) {
    match c
    case Del(keys) => keys != []
    case Unlink(keys) => keys != []
    case Update(argv) => |argv| >= 2 && IsUpdateName(argv[0])
    case Rewritten(argv, form) =>
      |argv| >= 2 && argv[0] in REWRITTEN && |form| >= 2 && form[0] == REWRITTEN[argv[0]] && form[1] == argv[1]
    case Many(argv) => |argv| >= 2 && argv[0] in MULTI
    case _ => true
  }

  /** The number of arguments, for the updates whose effect is spelled out; ZADD without options. */
  predicate GoodArgs(argv: Argv) {
    |argv| >= 3 && (argv[0] in {"ZADD", "HMSET"} ==> |argv| % 2 == 0)
    && (argv[0] == "ZADD" ==> argv[2] !in {"NX", "XX", "CH", "INCR"})
  }

  /** A command as a client can send it. */
  predicate Sendable(c: Cmd) {
    && Shaped(c)
    && (c.Update? && c.argv[0] in {"RPUSH", "SADD", "ZADD", "HMSET"} ==> GoodArgs(c.argv))
    && (c.Rewritten? && c.form[0] == "ZADD" ==> GoodArgs(c.form))
  }

  /** A command as it is handed to feedAppendOnlyFile. */
  predicate Feedable(c: Cmd) { Shaped(c) && !Rejected(c) && !c.IncrByFloat? && !c.Rewritten? && !c.Select? }

  function OptArgs(opts: seq<SetOpt>): Argv {
    if opts == [] then []
    else
      (match opts[0]
       case NX => ["NX"]
       case XX => ["XX"]
       case EX(n) => ["EX", DecInt(n)]
       case PX(n) => ["PX", DecInt(n)])
      + OptArgs(opts[1..])
  }

  function ArgvOf(c: Cmd): Argv {
    match c
    case SetCmd(k, v, opts) => ["SET", k, v] + OptArgs(opts)
    case SetEx(k, n, v) => ["SETEX", k, DecInt(n), v]
    case PSetEx(k, n, v) => ["PSETEX", k, DecInt(n), v]
    case Expire(k, n) => ["EXPIRE", k, DecInt(n)]
    case PExpire(k, n) => ["PEXPIRE", k, DecInt(n)]
    case ExpireAt(k, n) => ["EXPIREAT", k, DecInt(n)]
    case PExpireAt(k, n) => ["PEXPIREAT", k, DecInt(n)]
    case Persist(k) => ["PERSIST", k]
    case Del(keys) => ["DEL"] + keys
    case Unlink(keys) => ["UNLINK"] + keys
    case Rename(s, d, nx) => [if nx then "RENAMENX" else "RENAME", s, d]
    case Move(k, id) => ["MOVE", k, DecInt(id)]
    case FlushDb => ["FLUSHDB"]
    case FlushAll => ["FLUSHALL"]
    case SwapDb(a, b) => ["SWAPDB", DecInt(a), DecInt(b)]
    case Select(id) => ["SELECT", DecInt(id)]
    case GetSet(k, v) => ["GETSET", k, v]
    case IncrByFloat(k, incr, _) => ["INCRBYFLOAT", k, incr]
    case Restore(k, ttl, p, replace) => ["RESTORE", k, DecInt(ttl), p] + if replace then ["REPLACE"] else []
    case Update(argv) => argv
    case Rewritten(argv, _) => argv
    case Many(argv) => argv
  }

  function ParseOpts(args: Argv): Option<seq<SetOpt>> {
    if args == [] then Some([])
    else
      var two := args[0] == "EX" || args[0] == "PX";
      if two && |args| == 1 then None
      else
        var rest := ParseOpts(args[if two then 2 else 1..]);
        if rest.None? then None
        else if args[0] == "NX" then Some([NX] + rest.value)
        else if args[0] == "XX" then Some([XX] + rest.value)
        else if args[0] == "EX" then Some([EX(StrToLL(args[1]))] + rest.value)
        else if args[0] == "PX" then Some([PX(StrToLL(args[1]))] + rest.value)
        else None
  }

  /** The command an argument vector stands for, by name and arity. */
  function Parse(argv: Argv): Option<Cmd> {
    if argv == [] then None
    else
      var name, n := argv[0], |argv|;
      if name == "SET" && n >= 3 then
        var opts := ParseOpts(argv[3..]);
        if opts.None? then None else Some(SetCmd(argv[1], argv[2], opts.value))
      else if name == "SETEX" && n == 4 then Some(SetEx(argv[1], StrToLL(argv[2]), argv[3]))
      else if name == "PSETEX" && n == 4 then Some(PSetEx(argv[1], StrToLL(argv[2]), argv[3]))
      else if name == "EXPIRE" && n == 3 then Some(Expire(argv[1], StrToLL(argv[2])))
      else if name == "PEXPIRE" && n == 3 then Some(PExpire(argv[1], StrToLL(argv[2])))
      else if name == "EXPIREAT" && n == 3 then Some(ExpireAt(argv[1], StrToLL(argv[2])))
      else if name == "PEXPIREAT" && n == 3 then Some(PExpireAt(argv[1], StrToLL(argv[2])))
      else if name == "PERSIST" && n == 2 then Some(Persist(argv[1]))
      else if name == "DEL" && n >= 2 then Some(Del(argv[1..]))
      else if name == "UNLINK" && n >= 2 then Some(Unlink(argv[1..]))
      else if name == "RENAME" && n == 3 then Some(Rename(argv[1], argv[2], false))
      else if name == "RENAMENX" && n == 3 then Some(Rename(argv[1], argv[2], true))
      else if name == "MOVE" && n == 3 then Some(Move(argv[1], StrToLL(argv[2])))
      else if name == "FLUSHDB" && n == 1 then Some(FlushDb)
      else if name == "FLUSHALL" && n == 1 then Some(FlushAll)
      else if name == "SWAPDB" && n == 3 then Some(SwapDb(StrToLL(argv[1]), StrToLL(argv[2])))
      else if name == "SELECT" && n == 2 then Some(Select(StrToLL(argv[1])))
      else if name == "GETSET" && n == 3 then Some(GetSet(argv[1], argv[2]))
      else if name == "RESTORE" && (n == 4 || (n == 5 && argv[4] == "REPLACE")) then
        Some(Restore(argv[1], StrToLL(argv[2]), argv[3], n == 5))
      else if name in MULTI && n >= 2 then Some(Many(argv))
      else if IsUpdateName(name) && n >= 2 then Some(Update(argv))
      else None
  }

  /** The commands that reach the log: relative and combined forms are translated away. */
  predicate Loggable(c: Cmd) {
    && Shaped(c) && !c.IncrByFloat? && !c.Rewritten?
    && !c.SetEx? && !c.PSetEx? && !c.Expire? && !c.PExpire? && !c.ExpireAt?
    && (c.SetCmd? ==> c.opts == [])
  }

  lemma StrToLLExact(n: int)
    ensures StrToLL(DecInt(n)) == n
  {
    assert DecInt(n) + [] == DecInt(n);
    StrToLLDecInt(n, []);
  }

  lemma MultiNotSpecial(name: Bytes)
    ensures name in MULTI ==> name !in SPECIAL
  {
  }

  lemma NoOpts()
    ensures ParseOpts([]) == Some([]) && OptArgs([]) == []
  {
  }

  lemma ParseArgvOf(c: Cmd)
    requires Loggable(c)
    ensures Parse(ArgvOf(c)) == Some(c)
  {
    hide IsSingle, StrToLL, DecInt, ParseOpts;
    match c
    case Many(argv) => MultiNotSpecial(argv[0]);
    case SetCmd(k, v, _) => assert ParseOpts([]) == Some([]) by { NoOpts(); }
      assert ArgvOf(c)[3..] == [];
    case PExpireAt(_, n) => StrToLLExact(n);
    case Move(_, id) => StrToLLExact(id);
    case SwapDb(a, b) => StrToLLExact(a); StrToLLExact(b);
    case Select(id) => StrToLLExact(id);
    case Restore(_, ttl, _, _) => StrToLLExact(ttl);
    case Del(keys) => assert (["DEL"] + keys)[1..] == keys;
    case Unlink(keys) => assert (["UNLINK"] + keys)[1..] == keys;
    case _ =>
  }

  lemma {:induction false} OptsParse(opts: seq<SetOpt>)
    ensures ParseOpts(OptArgs(opts)) == Some(opts)
  {
    hide StrToLL, DecInt;
    if opts != [] {
      var args, rest := OptArgs(opts), OptArgs(opts[1..]);
      OptsParse(opts[1..]);
      assert args[if opts[0].EX? || opts[0].PX? then 2 else 1..] == rest;
      assert opts == [opts[0]] + opts[1..];
      match opts[0]
      case EX(n) =>
        StrToLLExact(n);
        assert args[0] == "EX" && args[1] == DecInt(n);
      case PX(n) =>
        StrToLLExact(n);
        assert args[0] == "PX" && args[1] == DecInt(n);
      case _ =>
    }
  }

  /** The forms that are not logged are read back too, when a client or a file sends them. */
  lemma ParseSent(c: Cmd)
    requires IsSet(c) || IsExpire(c)
    ensures Parse(ArgvOf(c)) == Some(c)
  {
    hide StrToLL, DecInt, ParseOpts, OptArgs;
    match c
    case SetCmd(k, v, opts) =>
      OptsParse(opts);
      assert ArgvOf(c)[3..] == OptArgs(opts);
    case _ => StrToLLExact(c.n);
  }

  /** No other name is taken for a command, and a plain update stands for itself. */
  lemma ParseKnown(argv: Argv)
    requires Parse(argv).Some?
    ensures argv[0] in SPECIAL || argv[0] in MULTI || argv[0] in SINGLE
    ensures argv[0] in SINGLE && argv[0] !in SPECIAL && argv[0] !in MULTI ==> Parse(argv).value == Update(argv)
    ensures argv[0] in MULTI ==> Parse(argv).value == Many(argv)
  {
    hide StrToLL, ParseOpts;
    MultiNotSpecial(argv[0]);
  }

  // ---- Loading ----

  /** The fake client that runs a log: the data set and the database it has selected. */
  datatype Replayer = Replayer(dbs: Dbs, sel: nat)

  predicate Ok(st: Replayer) { st.sel < |st.dbs| }

  function LoadOne(st: Replayer, argv: Argv, loadTime: int, eff: Effect): (r: Replayer)
    requires Ok(st)
    ensures Ok(r) && |r.dbs| == |st.dbs|
  {
    match Parse(argv)
    case None => st
    case Some(c) =>
      if c.Select? then (if 0 <= c.id < |st.dbs| then st.(sel := c.id) else st)
      else st.(dbs := Exec(st.dbs, st.sel, c, Env(loadTime, true), eff).dbs)
  }

  function LoadLog(st: Replayer, log: seq<Argv>, loadTime: int, eff: Effect): (r: Replayer)
    requires Ok(st)
    ensures Ok(r) && |r.dbs| == |st.dbs|
    decreases |log|
  {
    if log == [] then st else LoadLog(LoadOne(st, log[0], loadTime, eff), log[1..], loadTime, eff)
  }

  function Start(n: nat): (st: Replayer)
    requires n > 0
    ensures Ok(st) && |st.dbs| == n
  {
    Replayer(Empty(n), 0)
  }

  lemma {:induction false} LoadLogConcat(st: Replayer, a: seq<Argv>, b: seq<Argv>, loadTime: int, eff: Effect)
    requires Ok(st)
    ensures LoadLog(st, a + b, loadTime, eff) == LoadLog(LoadLog(st, a, loadTime, eff), b, loadTime, eff)
    decreases |a|
  {
    if a == [] {
      assert a + b == b;
    } else {
      assert (a + b)[1..] == a[1..] + b;
      LoadLogConcat(LoadOne(st, a[0], loadTime, eff), a[1..], b, loadTime, eff);
    }
  }

  // ---- Feeding ----

  function ArgvsOf(cmds: seq<Cmd>): seq<Argv> {
    if cmds == [] then [] else [ArgvOf(cmds[0])] + ArgvsOf(cmds[1..])
  }

  /** What one call of feedAppendOnlyFile appends. `sel` is aof_selected_db, -1 for none. */
  function FeedArgvs(sel: int, f: Feed, now: int): seq<Argv> {
    (if f.db != sel then [ArgvOf(Select(f.db))] else []) + ArgvsOf(Translate(f.cmd, now))
  }

  /** A command may feed several times: an expired key's DEL, then itself. */
  function FeedAll(sel: int, feeds: seq<Feed>, now: int): seq<Argv>
    decreases |feeds|
  {
    if feeds == [] then []
    else FeedArgvs(sel, feeds[0], now) + FeedAll(feeds[0].db, feeds[1..], now)
  }

  function SelAfter(sel: int, feeds: seq<Feed>): int {
    if feeds == [] then sel else feeds[|feeds| - 1].db
  }

  predicate AllFeedable(feeds: seq<Feed>) { forall i :: 0 <= i < |feeds| ==> Feedable(feeds[i].cmd) }

  lemma {:induction false} LoadArgvs(st: Replayer, cmds: seq<Cmd>, loadTime: int, eff: Effect)
    requires Ok(st) && forall c :: c in cmds ==> Loggable(c) && !c.Select?
    ensures LoadLog(st, ArgvsOf(cmds), loadTime, eff)
            == Replayer(ReplayCmds(st.dbs, st.sel, cmds, loadTime, eff), st.sel)
    decreases |cmds|
  {
    if cmds != [] {
      ParseArgvOf(cmds[0]);
      LoadArgvs(LoadOne(st, ArgvOf(cmds[0]), loadTime, eff), cmds[1..], loadTime, eff);
    }
  }

  /** One feed is replayed in the database it targeted, whatever was selected before, because
      a SELECT precedes it whenever aof_selected_db differs. */
  lemma LoadFeed(st: Replayer, sel: int, f: Feed, now: int, loadTime: int, eff: Effect)
    requires Ok(st) && (sel == -1 || sel == st.sel)
    requires f.db < |st.dbs| && Feedable(f.cmd)
    ensures LoadLog(st, FeedArgvs(sel, f, now), loadTime, eff)
            == Replayer(ReplayCmds(st.dbs, f.db, Translate(f.cmd, now), loadTime, eff), f.db)
  {
    var cmds := Translate(f.cmd, now);
    if f.db != sel {
      var select := ArgvOf(Select(f.db));
      ParseArgvOf(Select(f.db));
      assert LoadLog(st, [select], loadTime, eff) == LoadOne(st, select, loadTime, eff) by {
        assert [select][1..] == [];
      }
      LoadLogConcat(st, [select], ArgvsOf(cmds), loadTime, eff);
    } else {
      assert FeedArgvs(sel, f, now) == ArgvsOf(cmds);
    }
    LoadArgvs(st.(sel := f.db), cmds, loadTime, eff);
  }

  lemma {:induction false} LoadFeeds(st: Replayer, sel: int, feeds: seq<Feed>, now: int, loadTime: int, eff: Effect)
    requires Ok(st) && (sel == -1 || sel == st.sel)
    requires InRange(feeds, |st.dbs|) && AllFeedable(feeds)
    ensures var r := LoadLog(st, FeedAll(sel, feeds, now), loadTime, eff);
            && r.dbs == ReplayFeeds(st.dbs, feeds, now, loadTime, eff)
            && (SelAfter(sel, feeds) == -1 || r.sel == SelAfter(sel, feeds))
    decreases |feeds|
  {
    if feeds != [] {
      LoadFeed(st, sel, feeds[0], now, loadTime, eff);
      var st' := LoadLog(st, FeedArgvs(sel, feeds[0], now), loadTime, eff);
      LoadFeeds(st', feeds[0].db, feeds[1..], now, loadTime, eff);
      LoadLogConcat(st, FeedArgvs(sel, feeds[0], now), FeedAll(feeds[0].db, feeds[1..], now), loadTime, eff);
    }
  }

  lemma KeyFeedable(c: Cmd, e: Option<Entry>, env: Env, eff: Effect)
    requires SingleKey(c) && !Rejected(c) && Shaped(c)
    ensures var fed := KeyUpdate(c, e, env, eff).fed;
            fed == [] || (fed == [fed[0]] && Feedable(fed[0]))
  {
    FedAtMostOne(c, e, env, eff);
    hide NewValue, Payload, IsSingle, Rejected;
    if c.Rewritten? { RewrittenNames(c.argv[0]); }
  }

  lemma RewrittenNames(name: Bytes)
    requires name in REWRITTEN
    ensures IsUpdateName(REWRITTEN[name])
  {
  }

  lemma ExecFeedable(dbs: Dbs, db: nat, c: Cmd, env: Env, eff: Effect)
    requires db < |dbs| && Shaped(c)
    ensures AllFeedable(Exec(dbs, db, c, env, eff).feeds)
  {
    hide DelKeys, LookUp, PutAll, Put, Expired, IsUpdateName, Conflict, TtlFrom;
    if !Rejected(c) && SingleKey(c) {
      hide KeyUpdate;
      var e := Get(Looked(dbs, db, c, env).dbs, db, KeyOf(c));
      KeyFeedable(c, e, env, eff);
      var fed := KeyUpdate(c, e, env, eff).fed;
      if fed != [] { assert FeedsIn(db, fed[1..]) == []; }
    } else if c.Del? || c.Unlink? {
      DelFeedable(dbs, db, c.keys, env);
    } else if c.Many? {
      LookUpFeedable(dbs, db, eff.looks(c.argv), [], c.argv, env, eff);
    }
  }

  lemma {:induction false} LookUpFeedable(dbs: Dbs, db: nat, keys: seq<Key>, seen: seq<Option<Entry>>, argv: Argv,
                                          env: Env, eff: Effect)
    requires db < |dbs|
    ensures var feeds := LookUp(dbs, db, keys, seen, argv, env, eff).0.feeds;
            AllFeedable(feeds) && AllTimeless(feeds, env.now)
    decreases |keys|
  {
    if keys != [] && eff.goesOn(argv, seen) {
      PlainTimeless(Del([keys[0]]), env.now);
      var t := Touch(dbs, db, keys[0], env);
      LookUpFeedable(t.dbs, db, keys[1..], seen + [Get(t.dbs, db, keys[0])], argv, env, eff);
    }
  }

  lemma {:induction false} DelFeedable(dbs: Dbs, db: nat, keys: seq<Key>, env: Env)
    requires db < |dbs|
    ensures AllFeedable(DelKeys(dbs, db, keys, env).0.feeds)
    decreases |keys|
  {
    if keys != [] {
      DelFeedable(Put(Touch(dbs, db, keys[0], env).dbs, db, keys[0], None), db, keys[1..], env);
    }
  }

  /** A safe command that runs at `now` and is fed keeps the log replaying to the data set, up
      to keys past their expiry at `t`, and keeps aof_selected_db in step with the loader. */
  lemma CommandKeepsReplay(d: Dbs, st: Replayer, sel: int, db: nat, c: Cmd, t: int, now: int, loadTime: int,
                           eff: Effect)
    requires Ok(st) && (sel == -1 || sel == st.sel)
    requires Agree(d, st.dbs, t) && now <= t && db < |d| && Shaped(c)
    requires Safe(d, st.dbs, db, c, now, t, eff)
    ensures var o := Exec(d, db, c, Env(now, false), eff);
            var r := LoadLog(st, FeedAll(sel, o.feeds, now), loadTime, eff);
            && Agree(o.dbs, r.dbs, t)
            && (SelAfter(sel, o.feeds) == -1 || r.sel == SelAfter(sel, o.feeds))
  {
    ExecFeedable(d, db, c, Env(now, false), eff);
    ExecAgree(d, st.dbs, db, c, t, now, loadTime, eff);
    LoadFeeds(st, sel, Exec(d, db, c, Env(now, false), eff).feeds, now, loadTime, eff);
  }

  // ---- When a log is loaded does not matter ----

  /** A logged time is absolute and not negative; only RESTORE is logged with a relative one. */
  predicate Timeless(c: Cmd) { NotNegative(c) && (c.Restore? ==> c.ttl <= 0) }

  predicate NotNegative(c: Cmd) { c.PExpireAt? ==> c.n >= 0 }

  /** A command whose effect on loading does not depend on the time of the load. */
  predicate Fixed(argv: Argv) {
    Parse(argv).Some? ==> Loggable(Parse(argv).value) && Timeless(Parse(argv).value)
  }

  predicate FixedLog(log: seq<Argv>) { forall i :: 0 <= i < |log| ==> Fixed(log[i]) }

  /** Loading a logged command at two times gives the same if and only if it is no RESTORE that
      succeeds with a time to live. */
  lemma LoadTwiceIff(dbs: Dbs, db: nat, c: Cmd, t1: int, t2: int, eff: Effect)
    requires db < |dbs| && Loggable(c) && t1 != t2
    ensures Exec(dbs, db, c, Env(t1, true), eff).dbs == Exec(dbs, db, c, Env(t2, true), eff).dbs
            <==> (c.Restore? && c.ttl > 0 ==> RestoreFails(c, Get(dbs, db, c.key), eff))
  {
    hide UpdateOf, Payload, Rejected, IsUpdateName;
    if (c.Del? && !SingleKey(c)) || c.Unlink? {
      DelKeysRemoves(dbs, db, c.keys, Env(t1, true));
      DelKeysRemoves(dbs, db, c.keys, Env(t2, true));
    } else if c.Many? {
      LookUpLoading(dbs, db, eff.looks(c.argv), [], c.argv, t1, t2, eff);
    } else if c.Restore? {
      RestoreTwice(dbs, db, c, t1, t2, eff);
    }
  }

  lemma RestoreTwice(dbs: Dbs, db: nat, c: Cmd, t1: int, t2: int, eff: Effect)
    requires db < |dbs| && c.Restore? && t1 != t2
    ensures Exec(dbs, db, c, Env(t1, true), eff).dbs == Exec(dbs, db, c, Env(t2, true), eff).dbs
            <==> c.ttl == 0 || RestoreFails(c, Get(dbs, db, c.key), eff)
  {
    hide Payload;
    var r1, r2 := Exec(dbs, db, c, Env(t1, true), eff).dbs, Exec(dbs, db, c, Env(t2, true), eff).dbs;
    assert !RestoreFails(c, Get(dbs, db, c.key), eff) && c.ttl != 0 ==>
      ExpiryOf(Get(r1, db, c.key)) == Some(t1 + c.ttl) && ExpiryOf(Get(r2, db, c.key)) == Some(t2 + c.ttl);
  }

  /** RESTORE k 1000 p, loaded at 0 and at 5, expires at 1000 and at 1005. */
  lemma RestoreExample(eff: Effect)
    requires eff.restore("p") == Some(Str("v"))
    ensures var log, st := [["RESTORE", "k", "1000", "p"]], Start(1);
            && LoadLog(st, log, 0, eff).dbs == [map["k" := Entry(Str("v"), Some(1000))]]
            && LoadLog(st, log, 5, eff).dbs == [map["k" := Entry(Str("v"), Some(1005))]]
  {
    var c, st := Restore("k", 1000, "p", false), Start(1);
    assert ArgvOf(c) == ["RESTORE", "k", "1000", "p"] by { assert Dec(1000) == "1000"; }
    ParseArgvOf(c);
    assert [ArgvOf(c)][1..] == [];
    hide Parse, ArgvOf;
  }

  /** Loading a log of fed commands gives the same values and the same absolute expiry times
      at any two times. */
  lemma {:induction false} LoadAnyTime(st: Replayer, log: seq<Argv>, t1: int, t2: int, eff: Effect)
    requires Ok(st) && FixedLog(log)
    ensures LoadLog(st, log, t1, eff) == LoadLog(st, log, t2, eff)
    decreases |log|
  {
    if log != [] {
      if t1 != t2 && Parse(log[0]).Some? { LoadTwiceIff(st.dbs, st.sel, Parse(log[0]).value, t1, t2, eff); }
      LoadAnyTime(LoadOne(st, log[0], t1, eff), log[1..], t1, t2, eff);
    }
  }

  lemma {:induction false} ArgvsFixed(cmds: seq<Cmd>)
    requires forall c :: c in cmds ==> Loggable(c) && Timeless(c)
    ensures FixedLog(ArgvsOf(cmds))
  {
    if cmds != [] {
      ParseArgvOf(cmds[0]);
      ArgvsFixed(cmds[1..]);
    }
  }

  predicate AllTimeless(feeds: seq<Feed>, now: int) {
    forall i :: 0 <= i < |feeds| ==> FeedTimeless(feeds[i].cmd, now)
  }

  predicate FeedTimeless(c: Cmd, now: int) { forall t :: t in Translate(c, now) ==> Timeless(t) }

  predicate FeedNotNegative(c: Cmd, now: int) { forall t :: t in Translate(c, now) ==> NotNegative(t) }

  lemma KeyFeedNotNegative(c: Cmd, e: Option<Entry>, now: int, eff: Effect)
    requires SingleKey(c) && !Rejected(c) && now >= 0
    ensures var fed := KeyUpdate(c, e, Env(now, false), eff).fed;
            fed == [] || (fed == [fed[0]] && FeedNotNegative(fed[0], now))
  {
    hide NewValue, Conflict, Payload;
    var u := KeyUpdate(c, e, Env(now, false), eff);
    if u.fed != [] {
      if c.SetCmd? { assert SetTtl(c.opts).Some? ==> SetTtl(c.opts).value > 0; }
      forall t | t in Translate(u.fed[0], now) ensures NotNegative(t) {}
    }
  }

  lemma KeyFeedTimeless(c: Cmd, e: Option<Entry>, now: int, eff: Effect)
    requires SingleKey(c) && !Rejected(c) && now >= 0 && Reproduced(c, e, now, now + 1, eff)
    ensures var fed := KeyUpdate(c, e, Env(now, false), eff).fed;
            fed == [] || (fed == [fed[0]] && FeedTimeless(fed[0], now))
  {
    KeyFeedNotNegative(c, e, now, eff);
    hide NewValue, Payload, NotNegative, When;
  }

  lemma PlainTimeless(c: Cmd, now: int)
    ensures c.Del? || c.Unlink? || c.Many? || c.Rename? || c.Move? || c.FlushDb? || c.FlushAll? || c.SwapDb? ==>
            FeedTimeless(c, now)
    ensures forall k :: FeedTimeless(Del([k]), now)
  {
  }

  /** An expiry time reaches the log only when it lies in the future (expire.c), and a relative one
      only from a RESTORE that is not lossless. */
  lemma ExecTimeless(dbs: Dbs, db: nat, c: Cmd, now: int, eff: Effect)
    requires db < |dbs| && now >= 0 && Lossless(dbs, db, c, now, eff)
    ensures AllTimeless(Exec(dbs, db, c, Env(now, false), eff).feeds, now)
  {
    hide FeedTimeless, Translate, DelKeys, LookUp, PutAll, Lossless, Reproduced;
    PlainTimeless(c, now);
    if !Rejected(c) && SingleKey(c) {
      hide KeyUpdate;
      var e := Get(Looked(dbs, db, c, Env(now, false)).dbs, db, KeyOf(c));
      LosslessEntry(dbs, db, c, now, now + 1, eff);
      KeyFeedTimeless(c, e, now, eff);
      var fed := KeyUpdate(c, e, Env(now, false), eff).fed;
      if fed != [] { assert FeedsIn(db, fed[1..]) == []; }
    } else if c.Del? || c.Unlink? {
      DelTimeless(dbs, db, c.keys, Env(now, false));
    } else if c.Many? {
      LookUpFeedable(dbs, db, eff.looks(c.argv), [], c.argv, Env(now, false), eff);
    }
  }

  lemma {:induction false} DelTimeless(dbs: Dbs, db: nat, keys: seq<Key>, env: Env)
    requires db < |dbs|
    ensures AllTimeless(DelKeys(dbs, db, keys, env).0.feeds, env.now)
    decreases |keys|
  {
    if keys != [] {
      DelTimeless(Put(Touch(dbs, db, keys[0], env).dbs, db, keys[0], None), db, keys[1..], env);
    }
  }

  lemma {:induction false} FeedsFixed(sel: int, feeds: seq<Feed>, now: int)
    requires AllFeedable(feeds) && AllTimeless(feeds, now)
    ensures FixedLog(FeedAll(sel, feeds, now))
    decreases |feeds|
  {
    if feeds != [] {
      var f := feeds[0];
      ArgvsFixed(Translate(f.cmd, now));
      ParseArgvOf(Select(f.db));
      FeedsFixed(f.db, feeds[1..], now);
    }
  }

  // ---- The data set stays valid ----

  /** What a valid data set may hold at a key. */
  predicate ValidAt(e: Option<Entry>) {
    e.Some? ==> !EmptyContainer(e.value.value) && (e.value.expire.Some? ==> e.value.expire.value >= 0)
  }

  lemma PutValid(dbs: Dbs, db: nat, k: Key, e: Option<Entry>)
    requires Valid(dbs) && db < |dbs| && ValidAt(e)
    ensures Valid(Put(dbs, db, k, e))
  {
  }

  lemma TouchValid(dbs: Dbs, db: nat, k: Key, env: Env)
    requires Valid(dbs) && db < |dbs|
    ensures Valid(Touch(dbs, db, k, env).dbs)
  {
  }

  predicate AllValidAt(es: seq<Option<Entry>>) { forall i :: 0 <= i < |es| ==> ValidAt(es[i]) }

  lemma {:induction false} LookUpValid(dbs: Dbs, db: nat, keys: seq<Key>, seen: seq<Option<Entry>>, argv: Argv,
                                       env: Env, eff: Effect)
    requires Valid(dbs) && db < |dbs| && AllValidAt(seen)
    ensures var (o, found) := LookUp(dbs, db, keys, seen, argv, env, eff);
            Valid(o.dbs) && AllValidAt(found)
    decreases |keys|
  {
    if keys != [] && eff.goesOn(argv, seen) {
      var t := Touch(dbs, db, keys[0], env);
      TouchValid(dbs, db, keys[0], env);
      LookUpValid(t.dbs, db, keys[1..], seen + [Get(t.dbs, db, keys[0])], argv, env, eff);
    }
  }

  lemma {:induction false} PutAllValid(dbs: Dbs, db: nat, keys: seq<Key>, outs: seq<NewEntry>,
                                       found: seq<Option<Entry>>)
    requires Valid(dbs) && db < |dbs| && AllValidAt(found)
    ensures Valid(PutAll(dbs, db, keys, outs, found))
    decreases |keys|
  {
    if keys != [] && outs != [] {
      PutAllValid(PutNew(dbs, db, keys[0], outs[0], found), db, keys[1..], outs[1..], found);
    }
  }

  lemma ExecManyValid(dbs: Dbs, db: nat, argv: Argv, env: Env, eff: Effect)
    requires Valid(dbs) && db < |dbs|
    ensures Valid(ExecMany(dbs, db, argv, env, eff).dbs)
  {
    hide Valid;
    LookUpValid(dbs, db, eff.looks(argv), [], argv, env, eff);
    var (t, found) := LookUp(dbs, db, eff.looks(argv), [], argv, env, eff);
    PutAllValid(t.dbs, db, eff.writes(argv), eff.many(argv, found).0, found);
  }

  lemma KeyUpdateValid(c: Cmd, e: Option<Entry>, env: Env, eff: Effect)
    requires SingleKey(c) && !Rejected(c) && ValidAt(e)
    requires if env.loading then Loggable(c) && Timeless(c) else env.now >= 0
    ensures ValidAt(KeyUpdate(c, e, env, eff).entry)
  {
    hide IsUpdateName;
  }

  /** No command leaves an empty container or a negative expiry time behind. */
  lemma ExecValid(dbs: Dbs, db: nat, c: Cmd, env: Env, eff: Effect)
    requires Valid(dbs) && db < |dbs|
    requires if env.loading then Loggable(c) && Timeless(c) else env.now >= 0
    ensures Valid(Exec(dbs, db, c, env, eff).dbs)
  {
    hide Valid, IsUpdateName, ExecRename, ExecMove, ExecMany, Put;
    if Rejected(c) {
    } else if SingleKey(c) {
      hide KeyUpdate, Rejected;
      LookedValid(dbs, db, c, env);
      var t := Looked(dbs, db, c, env);
      var e := Get(t.dbs, db, KeyOf(c));
      KeyUpdateValid(c, e, env, eff);
      PutValid(t.dbs, db, KeyOf(c), KeyUpdate(c, e, env, eff).entry);
    } else if c.Many? {
      ExecManyValid(dbs, db, c.argv, env, eff);
    } else if c.Rename? {
      RenameValid(dbs, db, c, env);
    } else if c.Move? {
      MoveValid(dbs, db, c, env);
    } else {
      OtherValid(dbs, db, c, env, eff);
    }
  }

  lemma LookedValid(dbs: Dbs, db: nat, c: Cmd, env: Env)
    requires Valid(dbs) && db < |dbs| && SingleKey(c)
    ensures var t := Looked(dbs, db, c, env).dbs; Valid(t) && ValidAt(Get(t, db, KeyOf(c)))
  {
    TouchValid(dbs, db, KeyOf(c), env);
  }

  lemma RenameValid(dbs: Dbs, db: nat, c: Cmd, env: Env)
    requires Valid(dbs) && db < |dbs| && c.Rename?
    ensures Valid(ExecRename(dbs, db, c, env).dbs)
  {
    TouchValid(dbs, db, c.src, env);
    var t := Touch(dbs, db, c.src, env).dbs;
    TouchValid(t, db, c.dst, env);
    var u := Touch(t, db, c.dst, env).dbs;
    var e := Get(t, db, c.src);
    assert ValidAt(e);
    hide Valid, Touch, Put;
    PutValid(u, db, c.dst, e);
    PutValid(Put(u, db, c.dst, e), db, c.src, None);
  }

  lemma MoveValid(dbs: Dbs, db: nat, c: Cmd, env: Env)
    requires Valid(dbs) && db < |dbs| && c.Move?
    ensures Valid(ExecMove(dbs, db, c, env).dbs)
  {
    if 0 <= c.id < |dbs| {
      TouchValid(dbs, db, c.key, env);
      var t := Touch(dbs, db, c.key, env).dbs;
      TouchValid(t, c.id, c.key, env);
      var u := Touch(t, c.id, c.key, env).dbs;
      var e := Get(t, db, c.key);
      assert ValidAt(e);
      hide Valid, Touch, Put;
      PutValid(u, c.id, c.key, e);
      PutValid(Put(u, c.id, c.key, e), db, c.key, None);
    }
  }

  lemma OtherValid(dbs: Dbs, db: nat, c: Cmd, env: Env, eff: Effect)
    requires Valid(dbs) && db < |dbs| && !SingleKey(c) && !Rejected(c) && !c.Many? && !c.Rename? && !c.Move?
    ensures Valid(Exec(dbs, db, c, env, eff).dbs)
  {
    hide KeyUpdate, Looked, ExecRename, ExecMove, ExecMany, DelKeys;
    if c.Del? || c.Unlink? { DelKeysRemoves(dbs, db, c.keys, env); }
  }

  lemma {:induction false} LoadValid(st: Replayer, log: seq<Argv>, loadTime: int, eff: Effect)
    requires Ok(st) && FixedLog(log) && Valid(st.dbs)
    ensures Valid(LoadLog(st, log, loadTime, eff).dbs)
    decreases |log|
  {
    if log != [] {
      if Parse(log[0]).Some? { ExecValid(st.dbs, st.sel, Parse(log[0]).value, Env(loadTime, true), eff); }
      LoadValid(LoadOne(st, log[0], loadTime, eff), log[1..], loadTime, eff);
    }
  }

  // ---- The bytes feedAppendOnlyFile builds ----

  /** Which command an expire argument belongs to (aof.c:490-498). */
  datatype ExpireProc = ExpireProc | PExpireProc | ExpireAtProc | SetExProc | PSetExProc

  function ProcWhen(proc: ExpireProc, n: int, now: int): int {
    (if proc.ExpireProc? || proc.SetExProc? || proc.ExpireAtProc? then n * 1000 else n)
    + (if proc.ExpireAtProc? then 0 else now)
  }

  /** catAppendOnlyExpireAtCommand. */
  method CatExpireAt(buf: Bytes, proc: ExpireProc, key: Bytes, arg: Bytes, now: int) returns (r: Bytes)
    ensures r == buf + Encode(ArgvOf(PExpireAt(key, ProcWhen(proc, StrToLL(arg), now))))
  {
    var when := StrToLL(arg);
    if proc.ExpireProc? || proc.SetExProc? || proc.ExpireAtProc? { when := when * 1000; }
    if proc.ExpireProc? || proc.PExpireProc? || proc.SetExProc? || proc.PSetExProc? { when := when + now; }
    r := CatGenericCommand(buf, ["PEXPIREAT", key, DecInt(when)]);
  }

  /** The argument after the last occurrence of `name`. */
  function LastAfter(args: Argv, name: Bytes, acc: Option<Bytes>): Option<Bytes> {
    if args == [] then acc
    else LastAfter(args[1..], name, if args[0] == name && |args| > 1 then Some(args[1]) else acc)
  }

  function LastArg(opts: seq<SetOpt>, ex: bool, acc: Option<Bytes>): Option<Bytes> {
    if opts == [] then acc
    else LastArg(opts[1..], ex, if (if ex then opts[0].EX? else opts[0].PX?) then Some(DecInt(opts[0].n)) else acc)
  }

  /** No operand of EX or PX can be mistaken for an option name. */
  lemma DecIntNotName(n: int)
    ensures DecInt(n) != "EX" && DecInt(n) != "PX"
  {
    DecShape(if n < 0 then -n else n);
  }

  lemma {:induction false} ScanOpts(opts: seq<SetOpt>, ex: bool, acc: Option<Bytes>)
    ensures LastAfter(OptArgs(opts), if ex then "EX" else "PX", acc) == LastArg(opts, ex, acc)
    decreases |opts|
  {
    if opts != [] {
      var args, tail := OptArgs(opts), OptArgs(opts[1..]);
      var acc' := if (if ex then opts[0].EX? else opts[0].PX?) then Some(DecInt(opts[0].n)) else acc;
      ScanOpts(opts[1..], ex, acc');
      if opts[0].EX? || opts[0].PX? {
        DecIntNotName(opts[0].n);
        assert args[1..] == [DecInt(opts[0].n)] + tail;
        assert args[1..][1..] == tail;
      } else {
        assert args[1..] == tail;
      }
    }
  }

  /** Without a conflict at most one of the two scans finds an argument, and it is the time to
      live that SET itself used. */
  lemma {:induction false} TtlIsScanned(opts: seq<SetOpt>, ex: Option<Bytes>, px: Option<Bytes>, ttl: Option<int>)
    requires forall i, j :: 0 <= i < |opts| && 0 <= j < |opts| ==> !(opts[i].EX? && opts[j].PX?)
    requires !(ex.Some? && px.Some?)
    requires ex.Some? ==> (forall i :: 0 <= i < |opts| ==> !opts[i].PX?) && ttl == Some(StrToLL(ex.value) * 1000)
    requires px.Some? ==> (forall i :: 0 <= i < |opts| ==> !opts[i].EX?) && ttl == Some(StrToLL(px.value))
    requires ex.None? && px.None? ==> ttl.None?
    ensures var ex', px' := LastArg(opts, true, ex), LastArg(opts, false, px);
            && !(ex'.Some? && px'.Some?)
            && TtlFrom(opts, ttl) == if ex'.Some? then Some(StrToLL(ex'.value) * 1000)
                                     else if px'.Some? then Some(StrToLL(px'.value)) else None
    decreases |opts|
  {
    if opts != [] {
      match opts[0]
      case EX(n) =>
        StrToLLExact(n);
        TtlIsScanned(opts[1..], Some(DecInt(n)), px, Some(n * 1000));
      case PX(n) =>
        StrToLLExact(n);
        TtlIsScanned(opts[1..], ex, Some(DecInt(n)), Some(n));
      case _ => TtlIsScanned(opts[1..], ex, px, ttl);
    }
  }

  method ScanSetOptions(argv: Argv) returns (exarg: Option<Bytes>, pxarg: Option<Bytes>)
    requires |argv| >= 3
    ensures exarg == LastAfter(argv[3..], "EX", None) && pxarg == LastAfter(argv[3..], "PX", None)
  {
    exarg, pxarg := None, None;
    var i := 3;
    while i < |argv|
      invariant 3 <= i <= |argv|
      invariant LastAfter(argv[3..], "EX", None) == LastAfter(argv[i..], "EX", exarg)
      invariant LastAfter(argv[3..], "PX", None) == LastAfter(argv[i..], "PX", pxarg)
    {
      assert argv[i..][1..] == argv[i + 1..];
      if argv[i] == "EX" && i + 1 < |argv| { exarg := Some(argv[i + 1]); }
      if argv[i] == "PX" && i + 1 < |argv| { pxarg := Some(argv[i + 1]); }
      i := i + 1;
    }
  }

  lemma CatOne(buf: Bytes, c: Cmd)
    ensures buf + Encode(ArgvOf(c)) == buf + EncodeAll(ArgvsOf([c]))
  {
    hide ArgvOf, Encode;
    assert ArgvsOf([c]) == [ArgvOf(c)] by { assert ArgvsOf([c][1..]) == []; }
  }

  lemma CatTwo(buf: Bytes, c: Cmd, d: Cmd)
    ensures buf + Encode(ArgvOf(c)) + Encode(ArgvOf(d)) == buf + EncodeAll(ArgvsOf([c, d]))
  {
    hide ArgvOf, Encode;
    var ac, ad := ArgvOf(c), ArgvOf(d);
    assert ArgvsOf([c, d]) == [ac, ad] by {
      assert [c, d][1..] == [d] && [d][1..] == [];
      assert ArgvsOf([d]) == [ad];
    }
    assert [ac, ad] == [ac] + [ad];
    EncodeAllConcat([ac], [ad]);
    Assoc(buf, Encode(ac), Encode(ad));
  }

  /** The translation part of feedAppendOnlyFile, on the argument vector of a command that ran. */
  method CatTranslated(buf: Bytes, c: Cmd, argv: Argv, now: int) returns (r: Bytes)
    requires Feedable(c) && argv == ArgvOf(c)
    ensures r == buf + EncodeAll(ArgvsOf(Translate(c, now)))
  {
    hide Encode, DecInt, Conflict, EncodeAll;
    if c.Expire? || c.PExpire? || c.ExpireAt? {
      var proc := if c.Expire? then ExpireProc else if c.PExpire? then PExpireProc else ExpireAtProc;
      StrToLLExact(c.n);
      r := CatExpireAt(buf, proc, argv[1], argv[2], now);
      CatOne(buf, PExpireAt(c.key, When(c, now)));
    } else if c.SetEx? || c.PSetEx? {
      StrToLLExact(c.n);
      r := CatGenericCommand(buf, ["SET", argv[1], argv[3]]);
      r := CatExpireAt(r, if c.SetEx? then SetExProc else PSetExProc, argv[1], argv[2], now);
      assert ArgvOf(SetCmd(c.key, c.val, [])) == ["SET", argv[1], argv[3]];
      CatTwo(buf, SetCmd(c.key, c.val, []), Translate(c, now)[1]);
    } else if c.SetCmd? && |argv| > 3 {
      r := CatSetWithOptions(buf, c, argv, now);
    } else {
      r := CatGenericCommand(buf, argv);
      if c.SetCmd? { assert |argv| == 3 + |OptArgs(c.opts)|; }
      CatOne(buf, c);
    }
  }

  lemma SetTranslation(c: Cmd, exarg: Option<Bytes>, pxarg: Option<Bytes>, now: int)
    requires c.SetCmd? && !Rejected(c)
    requires exarg == LastAfter(OptArgs(c.opts), "EX", None) && pxarg == LastAfter(OptArgs(c.opts), "PX", None)
    ensures exarg.None? || pxarg.None?
    ensures Translate(c, now)
            == [SetCmd(c.key, c.val, [])]
               + if exarg.Some? then [PExpireAt(c.key, ProcWhen(ExpireProc, StrToLL(exarg.value), now))]
                 else if pxarg.Some? then [PExpireAt(c.key, ProcWhen(PExpireProc, StrToLL(pxarg.value), now))]
                 else []
  {
    ScanOpts(c.opts, true, None);
    ScanOpts(c.opts, false, None);
    TtlIsScanned(c.opts, None, None, None);
  }

  method CatSetWithOptions(buf: Bytes, c: Cmd, argv: Argv, now: int) returns (r: Bytes)
    requires c.SetCmd? && !Rejected(c) && argv == ArgvOf(c)
    ensures r == buf + EncodeAll(ArgvsOf(Translate(c, now)))
  {
    hide Encode, Conflict, EncodeAll, LastAfter, StrToLL, TtlFrom;
    assert argv[..3] == ArgvOf(SetCmd(c.key, c.val, [])) && argv[3..] == OptArgs(c.opts);
    r := CatGenericCommand(buf, argv[..3]);
    var exarg, pxarg := ScanSetOptions(argv);
    SetTranslation(c, exarg, pxarg, now);
    ghost var t := Translate(c, now);
    if exarg.Some? { r := CatExpireAt(r, ExpireProc, argv[1], exarg.value, now); }
    if pxarg.Some? { r := CatExpireAt(r, PExpireProc, argv[1], pxarg.value, now); }
    if |t| == 1 { CatOne(buf, t[0]); } else { CatTwo(buf, t[0], t[1]); }
  }

  const SELECT_TEXT: Bytes := "*2\r\n$6\r\nSELECT\r\n"

  lemma SelectPrefix()
    ensures Header('*', 2) + Bulk("SELECT") == SELECT_TEXT
  {
    assert Dec(2) == "2" && Dec(6) == "6";
    assert Header('*', 2) == "*2\r\n";
    assert Header('$', 6) == "$6\r\n";
    assert Bulk("SELECT") == "$6\r\nSELECT\r\n";
  }

  /** The SELECT that feedAppendOnlyFile prints by hand is the encoding of the command. */
  lemma SelectText(dictid: nat)
    ensures SELECT_TEXT + Bulk(Dec(dictid)) == Encode(ArgvOf(Select(dictid)))
  {
    hide Bulk, Header;
    var argv := ArgvOf(Select(dictid));
    SelectPrefix();
    assert argv == [] + ["SELECT"] + [Dec(dictid)];
    BulksSnoc([] + ["SELECT"], Dec(dictid));
    BulksSnoc([], "SELECT");
    assert Bulks([]) + Bulk("SELECT") == Bulk("SELECT");
    Assoc(Header('*', 2), Bulk("SELECT"), Bulk(Dec(dictid)));
  }

  /** feedAppendOnlyFile up to the point where the bytes are appended to the buffers. */
  method BuildFeed(c: Cmd, argv: Argv, dictid: nat, selected: int, now: int) returns (buf: Bytes, selected': int)
    requires Feedable(c) && argv == ArgvOf(c)
    ensures buf == EncodeAll(FeedArgvs(selected, Feed(dictid, c), now))
    ensures selected' == dictid
  {
    buf, selected' := [], selected;
    if dictid != selected {
      var seldb := Dec(dictid);
      buf := SELECT_TEXT + (Header('$', |seldb|) + seldb + CRLF);
      SelectText(dictid);
      selected' := dictid;
    }
    ghost var sel := if dictid != selected then [ArgvOf(Select(dictid))] else [];
    EncodeAllConcat(sel, ArgvsOf(Translate(c, now)));
    buf := CatTranslated(buf, c, argv, now);
  }
}

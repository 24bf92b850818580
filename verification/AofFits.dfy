/** Commands the C types can hold are logged as argument vectors the loader accepts. */
module AofFits {
  import opened Common
  import opened Resp
  import opened Dataset
  import opened AofLog
  import opened RewriteFile

  /** A command whose arguments, keys and expiry time fit their types. */
  predicate CmdFits(c: Cmd, now: int, eff: Effect) {
    && WellFormed(ArgvOf(c))
    && match c
       case Expire(_, _) | PExpire(_, _) | ExpireAt(_, _) => When(c, now) <= LONG_MAX
       case SetEx(_, n, _) => n * 1000 + now <= LONG_MAX
       case PSetEx(_, n, _) => n + now <= LONG_MAX
       case SetCmd(_, _, opts) => SetTtl(opts).Some? ==> SetTtl(opts).value + now <= LONG_MAX
       case IncrByFloat(_, _, sum) => sum.Some? ==> Short(sum.value)
       case Rewritten(argv, form) => WellFormed(form)
       case Many(argv) => AllShort(eff.looks(argv))
       case _ => true
  }

  predicate AllShort(keys: seq<Key>) { forall i :: 0 <= i < |keys| ==> Short(keys[i]) }

  /** Everything a feed translates to is a well-formed argument vector. */
  predicate FeedsFit(feeds: seq<Feed>, now: int) {
    forall i :: 0 <= i < |feeds| ==> AllFit(Translate(feeds[i].cmd, now))
  }

  lemma DelFits(k: Key, now: int)
    requires Short(k)
    ensures AllFit(Translate(Del([k]), now))
  {
    assert ArgvOf(Del([k])) == ["DEL", k];
  }

  lemma SetLogFits(k: Key, v: Bytes, when: int)
    requires Short(k) && Short(v) && 0 <= when <= LONG_MAX
    ensures AllFit([SetCmd(k, v, []), PExpireAt(k, when)]) && AllFit([SetCmd(k, v, [])])
  {
    ShortNumber(when);
    assert ArgvOf(SetCmd(k, v, [])) == ["SET", k, v];
  }

  /** The translated form of a command that fits does too: it reuses the arguments and prints an
      expiry time in range. */
  lemma TranslateFits(c: Cmd, now: int, eff: Effect)
    requires CmdFits(c, now, eff) && FeedNotNegative(c, now)
    ensures AllFit(Translate(c, now))
  {
    hide Dec;
    var argv := ArgvOf(c);
    match c
    case SetCmd(k, v, opts) =>
      assert argv[1] == k && argv[2] == v;
      SetTimes(c, now);
      var when := if SetTtl(opts).Some? then SetTtl(opts).value + now else 0;
      SetLogFits(k, v, when);
      assert Translate(c, now) == [SetCmd(k, v, []), PExpireAt(k, when)] || Translate(c, now) == [SetCmd(k, v, [])];
    case SetEx(k, n, v) =>
      assert argv[1] == k && argv[3] == v;
      SetTimes(c, now);
      SetLogFits(k, v, n * 1000 + now);
    case PSetEx(k, n, v) =>
      assert argv[1] == k && argv[3] == v;
      SetTimes(c, now);
      SetLogFits(k, v, n + now);
    case Expire(k, _) => ExpireFits(c, now, eff);
    case PExpire(k, _) => ExpireFits(c, now, eff);
    case ExpireAt(k, _) => ExpireFits(c, now, eff);
    case _ =>
  }

  lemma SetTimes(c: Cmd, now: int)
    requires IsSet(c) && FeedNotNegative(c, now)
    ensures var log := Translate(c, now);
            |log| == 2 ==> log[1].PExpireAt? && log[1].n >= 0
  {
    var log := Translate(c, now);
    if |log| == 2 { assert log[1] in log; }
  }

  lemma ExpireFits(c: Cmd, now: int, eff: Effect)
    requires (c.Expire? || c.PExpire? || c.ExpireAt?) && CmdFits(c, now, eff) && FeedNotNegative(c, now)
    ensures AllFit(Translate(c, now))
  {
    hide Dec;
    assert PExpireAt(c.key, When(c, now)) in Translate(c, now);
    ShortNumber(When(c, now));
    assert ArgvOf(c)[1] == c.key;
  }

  lemma KeyShort(c: Cmd, now: int, eff: Effect)
    requires SingleKey(c) && CmdFits(c, now, eff)
    ensures Short(KeyOf(c))
  {
    if c.Rewritten? { assert c.form[1] == KeyOf(c); } else { assert ArgvOf(c)[1] == KeyOf(c); }
  }

  /** What a command on one key feeds: itself, a DEL of its key, or the form it is rewritten to. */
  lemma KeyFeedFits(c: Cmd, e: Option<Entry>, now: int, eff: Effect)
    requires SingleKey(c) && !Rejected(c) && now >= 0 && CmdFits(c, now, eff)
    ensures var fed := KeyUpdate(c, e, Env(now, false), eff).fed;
            fed == [] || (fed == [fed[0]] && AllFit(Translate(fed[0], now)))
  {
    hide NewValue, Payload, AllFit, Dec;
    KeyShort(c, now, eff);
    KeyFeedNotNegative(c, e, now, eff);
    DelFits(KeyOf(c), now);
    if c.IncrByFloat? && c.sum.Some? {
      SetLogFits(c.key, c.sum.value, 0);
      assert Translate(SetCmd(c.key, c.sum.value, []), now) == [SetCmd(c.key, c.sum.value, [])];
    } else if c.Rewritten? {
      UpdateFits(c.form, now);
    } else if KeyUpdate(c, e, Env(now, false), eff).fed == [c] {
      TranslateFits(c, now, eff);
    }
  }

  lemma UpdateFits(argv: Argv, now: int)
    requires WellFormed(argv)
    ensures AllFit(Translate(Update(argv), now))
  {
  }

  lemma TouchFits(dbs: Dbs, db: nat, k: Key, now: int)
    requires db < |dbs| && Short(k)
    ensures FeedsFit(Touch(dbs, db, k, Env(now, false)).feeds, now)
  {
    DelFits(k, now);
  }

  lemma {:induction false} LookUpFits(dbs: Dbs, db: nat, keys: seq<Key>, seen: seq<Option<Entry>>, argv: Argv, now: int,
                                      eff: Effect)
    requires db < |dbs| && AllShort(keys)
    ensures FeedsFit(LookUp(dbs, db, keys, seen, argv, Env(now, false), eff).0.feeds, now)
    decreases |keys|
  {
    if keys != [] && eff.goesOn(argv, seen) {
      var t := Touch(dbs, db, keys[0], Env(now, false));
      TouchFits(dbs, db, keys[0], now);
      LookUpFits(t.dbs, db, keys[1..], seen + [Get(t.dbs, db, keys[0])], argv, now, eff);
    }
  }

  lemma {:induction false} DelKeysFit(dbs: Dbs, db: nat, keys: seq<Key>, now: int)
    requires db < |dbs| && AllShort(keys)
    ensures FeedsFit(DelKeys(dbs, db, keys, Env(now, false)).0.feeds, now)
    decreases |keys|
  {
    if keys != [] {
      var t := Touch(dbs, db, keys[0], Env(now, false));
      TouchFits(dbs, db, keys[0], now);
      var d := Put(t.dbs, db, keys[0], None);
      DelKeysFit(d, db, keys[1..], now);
    }
  }

  lemma SingleFits(dbs: Dbs, db: nat, c: Cmd, now: int, eff: Effect)
    requires db < |dbs| && SingleKey(c) && !Rejected(c) && now >= 0 && CmdFits(c, now, eff)
    ensures FeedsFit(Exec(dbs, db, c, Env(now, false), eff).feeds, now)
  {
    hide KeyUpdate, Translate, AllFit, CmdFits;
    var k := KeyOf(c);
    KeyShort(c, now, eff);
    TouchFits(dbs, db, k, now);
    var e := Get(Looked(dbs, db, c, Env(now, false)).dbs, db, k);
    KeyFeedFits(c, e, now, eff);
    var fed := KeyUpdate(c, e, Env(now, false), eff).fed;
    if fed != [] { assert FeedsIn(db, fed[1..]) == []; }
  }

  /** Whatever a command that fits feeds, its expiries included, fits. */
  lemma ExecFits(dbs: Dbs, db: nat, c: Cmd, now: int, eff: Effect)
    requires db < |dbs| && now >= 0 && CmdFits(c, now, eff)
    ensures FeedsFit(Exec(dbs, db, c, Env(now, false), eff).feeds, now)
  {
    if Rejected(c) {
    } else if SingleKey(c) {
      SingleFits(dbs, db, c, now, eff);
    } else {
      OtherFits(dbs, db, c, now, eff);
    }
  }

  lemma DelsFit(dbs: Dbs, db: nat, c: Cmd, now: int, eff: Effect)
    requires db < |dbs| && CmdFits(c, now, eff) && (c.Del? || c.Unlink?)
    ensures FeedsFit(ExecDel(dbs, db, c, Env(now, false)).feeds, now)
  {
    hide DelKeys;
    var argv, keys := ArgvOf(c), c.keys;
    forall i | 0 <= i < |keys| ensures Short(keys[i]) { assert argv[i + 1] == keys[i]; }
    DelKeysFit(dbs, db, keys, now);
  }

  lemma RenameFits(dbs: Dbs, db: nat, c: Cmd, now: int, eff: Effect)
    requires db < |dbs| && CmdFits(c, now, eff) && c.Rename?
    ensures FeedsFit(ExecRename(dbs, db, c, Env(now, false)).feeds, now)
  {
    hide Touch, Put;
    assert ArgvOf(c)[1] == c.src && ArgvOf(c)[2] == c.dst;
    TouchFits(dbs, db, c.src, now);
    TouchFits(Touch(dbs, db, c.src, Env(now, false)).dbs, db, c.dst, now);
  }

  lemma MoveFits(dbs: Dbs, db: nat, c: Cmd, now: int, eff: Effect)
    requires db < |dbs| && CmdFits(c, now, eff) && c.Move?
    ensures FeedsFit(ExecMove(dbs, db, c, Env(now, false)).feeds, now)
  {
    hide Touch, Put, DecInt;
    assert ArgvOf(c)[1] == c.key;
    TouchFits(dbs, db, c.key, now);
    if 0 <= c.id < |dbs| { TouchFits(Touch(dbs, db, c.key, Env(now, false)).dbs, c.id, c.key, now); }
  }

  lemma OtherFits(dbs: Dbs, db: nat, c: Cmd, now: int, eff: Effect)
    requires db < |dbs| && CmdFits(c, now, eff) && !SingleKey(c) && !Rejected(c)
    ensures FeedsFit(Exec(dbs, db, c, Env(now, false), eff).feeds, now)
  {
    hide ExecDel, ExecRename, ExecMove, LookUp, PutAll, Looked, KeyUpdate, DecInt, Empty;
    match c
    case Del(_) => DelsFit(dbs, db, c, now, eff);
    case Unlink(_) => DelsFit(dbs, db, c, now, eff);
    case Many(argv) => LookUpFits(dbs, db, eff.looks(argv), [], argv, now, eff);
    case Rename(_, _, _) => RenameFits(dbs, db, c, now, eff);
    case Move(_, _) => MoveFits(dbs, db, c, now, eff);
    case _ =>
  }

  /** What feedAppendOnlyFile appends for feeds that fit, SELECTs included, the loader accepts. */
  lemma {:induction false} FeedAllFits(sel: int, feeds: seq<Feed>, now: int, n: nat)
    requires FeedsFit(feeds, now) && InRange(feeds, n) && n <= INT_MAX
    ensures AllWellFormed(FeedAll(sel, feeds, now))
    decreases |feeds|
  {
    hide Translate, AllFit, Dec, AllWellFormed;
    NoneWellFormed();
    if feeds != [] {
      var f := feeds[0];
      FeedAllFits(f.db, feeds[1..], now, n);
      ArgvsFit(Translate(f.cmd, now));
      SelectFits(f.db);
      var select := if f.db != sel then [ArgvOf(Select(f.db))] else [];
      WellFormedConcat(select, ArgvsOf(Translate(f.cmd, now)));
      WellFormedConcat(FeedArgvs(sel, f, now), FeedAll(f.db, feeds[1..], now));
    }
  }

  lemma SelectFits(db: nat)
    requires db <= INT_MAX
    ensures AllWellFormed([ArgvOf(Select(db))])
  {
    hide Dec;
    ShortNumber(db);
  }
}

/** The file a rewrite produces (rewriteAppendOnlyFileRio, aof.c:1065-1140) and what loading it
    gives. */
module RewriteFile {
  import opened Common
  import opened Resp
  import opened Dataset
  import opened AofLog
  import opened Rewriter

  predicate Short(b: Bytes) { |b| <= LONG_MAX }

  predicate ShortAll(items: seq<seq<Bytes>>) {
    forall i, j :: 0 <= i < |items| && 0 <= j < |items[i]| ==> Short(items[i][j])
  }

  predicate ValueFits(v: Value) {
    match v
    case Str(s) => Short(s)
    case List(l) => forall x :: x in l ==> Short(x)
    case Set(m) => forall x :: x in m ==> Short(x)
    case ZSet(m) => forall x :: x in m ==> Short(x) && Short(m[x])
    case Hash(m) => forall x :: x in m ==> Short(x) && Short(m[x])
  }

  predicate DbFits(d: Db) {
    forall k :: k in d ==>
      && Short(k) && ValueFits(d[k].value)
      && (d[k].expire.Some? ==> 0 <= d[k].expire.value <= LONG_MAX)
  }

  /** A data set C can hold: lengths and times fit their types, and so does the number of arguments
      of a full command. */
  predicate Fits(dbs: Dbs, limit: nat) {
    2 + 2 * limit <= INT_MAX && |dbs| <= INT_MAX && forall j :: 0 <= j < |dbs| ==> DbFits(dbs[j])
  }

  predicate AllFit(cmds: seq<Cmd>) { forall i :: 0 <= i < |cmds| ==> WellFormed(ArgvOf(cmds[i])) }

  lemma ShortNumber(n: nat)
    requires n <= LONG_MAX
    ensures Short(DecInt(n))
  {
    LongDigits();
    DecShort(n, LONG_MAX + 1, 19);
  }

  lemma {:induction false} FlatShort(items: seq<seq<Bytes>>)
    requires ShortAll(items)
    ensures forall i :: 0 <= i < |Flat(items)| ==> Short(Flat(items)[i])
  {
    if items != [] {
      forall i, j | 0 <= i < |items[1..]| && 0 <= j < |items[1..][i]| ensures Short(items[1..][i][j]) {
        assert items[1..][i] == items[i + 1];
      }
      FlatShort(items[1..]);
    }
  }

  lemma {:induction false} BatchesFit(name: Bytes, key: Key, items: seq<seq<Bytes>>, limit: nat)
    requires Batched(name) && limit > 0 && 2 + 2 * limit <= INT_MAX && Width(items, WidthOf(name)) && ShortAll(items)
             && Short(key)
    ensures AllFit(Batches(name, key, items, limit))
    decreases |items|
  {
    if items != [] {
      var n := Min(limit, |items|);
      var first, rest := items[..n], items[n..];
      assert ShortAll(first);
      forall i, j | 0 <= i < |rest| && 0 <= j < |rest[i]| ensures Short(rest[i][j]) { assert rest[i] == items[n + i]; }
      BatchesFit(name, key, rest, limit);
      FlatLength(first, WidthOf(name));
      FlatShort(first);
      assert WellFormed([name, key] + Flat(first));
    }
  }

  lemma {:induction false} SinglesShort(elems: seq<Bytes>)
    requires forall x :: x in elems ==> Short(x)
    ensures ShortAll(Singles(elems)) && Width(Singles(elems), 1)
  {
    if elems != [] { SinglesShort(elems[1..]); }
  }

  lemma {:induction false} PairsShort(elems: seq<Bytes>, m: map<Bytes, Bytes>, keyFirst: bool)
    requires forall x :: x in elems ==> x in m && Short(x) && Short(m[x])
    ensures ShortAll(Pairs(elems, m, keyFirst))
  {
    if elems != [] { PairsShort(elems[1..], m, keyFirst); }
  }

  lemma EntryFits(key: Key, elems: seq<Bytes>, e: Entry, limit: nat)
    requires limit > 0 && 2 + 2 * limit <= INT_MAX && PlanFor(elems, e.value) && Short(key) && ValueFits(e.value)
    requires e.expire.Some? ==> 0 <= e.expire.value <= LONG_MAX
    ensures AllFit(EntryCmds(key, elems, e, limit))
  {
    assert forall x :: x in elems ==> x in ElementsOf(elems);
    if e.expire.Some? { ShortNumber(e.expire.value); }
    hide Dec, Short;
    match e.value
    case Str(_) =>
    case List(_) => SinglesShort(elems); BatchesFit("RPUSH", key, Singles(elems), limit);
    case Set(_) => SinglesShort(elems); BatchesFit("SADD", key, Singles(elems), limit);
    case ZSet(m) =>
      PairsWidth(elems, m, false);
      PairsShort(elems, m, false);
      BatchesFit("ZADD", key, Pairs(elems, m, false), limit);
    case Hash(m) =>
      PairsWidth(elems, m, true);
      PairsShort(elems, m, true);
      BatchesFit("HMSET", key, Pairs(elems, m, true), limit);
  }

  lemma {:induction false} DbCmdsFit(plans: seq<KeyPlan>, d: Db, now: int, limit: nat)
    requires limit > 0 && 2 + 2 * limit <= INT_MAX && PlansFor(plans, d) && DbFits(d)
    ensures AllFit(DbCmds(plans, d, now, limit))
    decreases |plans|
  {
    if plans != [] {
      DbCmdsFit(plans[1..], d, now, limit);
      EntryFits(plans[0].key, plans[0].elems, d[plans[0].key], limit);
      hide EntryCmds, ValueFits, PlanFor;
    }
  }

  lemma {:induction false} ArgvsFit(cmds: seq<Cmd>)
    requires AllFit(cmds)
    ensures AllWellFormed(ArgvsOf(cmds))
    decreases |cmds|
  {
    if cmds != [] {
      assert forall i :: 0 <= i < |cmds[1..]| ==> cmds[1..][i] == cmds[i + 1];
      ArgvsFit(cmds[1..]);
    }
  }

  lemma WellFormedConcat(a: seq<Argv>, b: seq<Argv>)
    requires AllWellFormed(a) && AllWellFormed(b)
    ensures AllWellFormed(a + b)
  {
  }

  /** The log of a data set that fits is one the loader accepts. */
  lemma {:induction false} RewriteFits(plans: seq<seq<KeyPlan>>, dbs: Dbs, now: int, limit: nat, j: nat)
    requires limit > 0 && PlansUpTo(plans, dbs, j) && Fits(dbs, limit)
    ensures AllWellFormed(RewriteLog(plans, dbs, now, limit, j))
  {
    hide DbLog, DbPlan, DbFits, AllWellFormed;
    if j == 0 {
      NoneWellFormed();
    } else {
      RewriteFits(plans, dbs, now, limit, j - 1);
      DbLogFits(plans[j - 1], dbs[j - 1], j - 1, now, limit);
      WellFormedConcat(RewriteLog(plans, dbs, now, limit, j - 1), DbLog(plans[j - 1], dbs[j - 1], j - 1, now, limit));
    }
  }

  lemma DbLogFits(p: seq<KeyPlan>, d: Db, j: nat, now: int, limit: nat)
    requires limit > 0 && 2 + 2 * limit <= INT_MAX && DbPlan(p, d) && DbFits(d) && j <= INT_MAX
    ensures AllWellFormed(DbLog(p, d, j, now, limit))
  {
    hide AllWellFormed, DbCmds, Dec, AllFit, DbFits;
    NoneWellFormed();
    DbCmdsFit(p, d, now, limit);
    ArgvsFit(DbCmds(p, d, now, limit));
    ShortNumber(j);
    OneWellFormed(ArgvOf(Select(j)));
    WellFormedConcat([ArgvOf(Select(j))], ArgvsOf(DbCmds(p, d, now, limit)));
  }

  lemma OneWellFormed(argv: Argv)
    requires WellFormed(argv)
    ensures AllWellFormed([argv])
  {
  }

  lemma NoneWellFormed()
    ensures AllWellFormed([])
  {
  }

  /** rewriteAppendOnlyFileRio: the bytes are the encoding of a log that rebuilds the data set
      (RewriteRebuilds) in commands of at most `limit` items (RewriteWithin). */
  method RewriteAppendOnlyFile(dbs: Dbs, now: int, limit: nat) returns (out: Bytes, ghost plans: seq<seq<KeyPlan>>)
    requires limit > 0 && Valid(dbs)
    ensures PlansUpTo(plans, dbs, |dbs|)
    ensures out == EncodeAll(RewriteLog(plans, dbs, now, limit, |dbs|))
    ensures dbs != [] && Fits(dbs, limit) ==>
              && Loaded(out).end == Complete
              && forall loadTime: int, eff: Effect ::
                   LoadLog(Start(|dbs|), Loaded(out).run, loadTime, eff).dbs == LiveAt(dbs, now)
  {
    hide DbLog, DbPlan, ValidDb;
    out, plans := [], [];
    for j := 0 to |dbs|
      invariant |plans| == j && PlansUpTo(plans, dbs, j)
      invariant out == EncodeAll(RewriteLog(plans, dbs, now, limit, j))
    {
      ghost var p;
      out, p := RewriteOneDb(out, dbs[j], j, now, limit);
      PlansStep(plans, p, dbs, now, limit);
      plans := plans + [p];
    }
    if dbs != [] && Fits(dbs, limit) { FileRebuilds(plans, dbs, now, limit); }
  }

  lemma FileRebuilds(plans: seq<seq<KeyPlan>>, dbs: Dbs, now: int, limit: nat)
    requires limit > 0 && PlansUpTo(plans, dbs, |dbs|) && Valid(dbs) && dbs != [] && Fits(dbs, limit)
    ensures var out := EncodeAll(RewriteLog(plans, dbs, now, limit, |dbs|));
            && Loaded(out).end == Complete
            && forall loadTime: int, eff: Effect ::
                 LoadLog(Start(|dbs|), Loaded(out).run, loadTime, eff).dbs == LiveAt(dbs, now)
  {
    hide LoadLog, LiveAt, Fits, RewriteLog, Valid, PlansUpTo;
    RewriteFits(plans, dbs, now, limit, |dbs|);
    RewriteParses(plans, dbs, now, limit);
    var log := RewriteLog(plans, dbs, now, limit, |dbs|);
    forall loadTime: int, eff: Effect ensures LoadLog(Start(|dbs|), log, loadTime, eff).dbs == LiveAt(dbs, now) {
      RewriteRebuilds(plans, dbs, now, limit, loadTime, eff);
    }
  }

  /** The file a rewrite produces parses back into exactly the commands it was written as, so
      every argument count announced in it equals what follows. */
  lemma RewriteParses(plans: seq<seq<KeyPlan>>, dbs: Dbs, now: int, limit: nat)
    requires limit > 0 && PlansUpTo(plans, dbs, |dbs|)
    requires AllWellFormed(RewriteLog(plans, dbs, now, limit, |dbs|))
    ensures var log := RewriteLog(plans, dbs, now, limit, |dbs|);
            Loaded(EncodeAll(log)) == LoadResult(log, |EncodeAll(log)|, Complete)
  {
    LoadInvertsEncode(RewriteLog(plans, dbs, now, limit, |dbs|));
  }
}

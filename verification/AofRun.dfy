/** The server class runs the parent's side of the protocol: whatever sequence of its methods is
    called, its fields are those of a run of the protocol, so what is proved of runs holds of it. */
module AofRun {
  import opened Common
  import opened Resp
  import opened Dataset
  import opened AofLog
  import opened Rewriter
  import opened AofServer
  import opened AofProtocol

  /** The object holds the part of the protocol's state that belongs to the parent. */
  ghost predicate Shows(srv: Server, s: State)
    reads srv, srv.rewriteBuf
  {
    && srv.Valid() && srv.Abs() == s.aof
    && srv.childRunning == s.child.Child?
    && srv.rewriteBuf.Content() == s.pending
    && (srv.childRunning ==> srv.rewriteBuf.stop == s.stop)
  }

  /** One event of the parent: a step of the protocol that is not about the file or its rewrite, or
      a call of a method with the outcomes of the system calls it makes. */
  datatype Call =
    | Plain(a: Action)
    | FlushCall(force: bool, policy: FsyncPolicy, syncPending: bool, quiet: bool, unixtime: int, n: int,
                truncateOk: bool)
    | ForkCall(forkOk: bool, late: nat, plans: seq<seq<KeyPlan>>)
    | StartCall(openOk: bool, forkOk: bool, unixtime: int, late: nat, plans: seq<seq<KeyPlan>>)
    | StopCall(policy: FsyncPolicy, syncPending: bool, quiet: bool, unixtime: int, n: int, truncateOk: bool)
    | SendCall(outcomes: seq<int>)
    | AskCall(ackOk: bool)
    | ReapCall(openOk: bool, writes: seq<int>, renameOk: bool, policy: FsyncPolicy)

  /** Commands, expiry, the clock, an RDB child, and what the child of a rewrite does. */
  predicate IsPlain(a: Action) {
    match a
    case Tick(_) | Run(_, _) | ExpireKey(_, _) | RdbStart | RdbEnd => true
    case ChildReads(_) | ChildAsks | ChildReadsAck | ChildDrains | ChildExits(_) => true
    case _ => false
  }

  // ---- Feeding ----

  lemma {:induction false} FeedAllSnoc(sel: int, feeds: seq<Feed>, f: Feed, now: int)
    ensures FeedAll(sel, feeds + [f], now) == FeedAll(sel, feeds, now) + FeedArgvs(SelAfter(sel, feeds), f, now)
    decreases |feeds|
  {
    if feeds == [] {
      assert [f][1..] == [] && feeds + [f] == [f];
      assert FeedAll(f.db, [], now) == [];
    } else {
      assert (feeds + [f])[1..] == feeds[1..] + [f];
      FeedAllSnoc(feeds[0].db, feeds[1..], f, now);
    }
  }

  lemma NoFeeds(s: State)
    ensures FeedState(s, []) == s
  {
    assert FeedAll(s.aof.selected, [], s.now) == [] && EncodeAll([]) == [];
    assert s.aof.buf + [] == s.aof.buf && s.log + [] == s.log && s.pending + [] == s.pending;
  }

  lemma FeedBytes(sel: int, feeds: seq<Feed>, f: Feed, now: int, before: Bytes)
    ensures before + EncodeAll(FeedAll(sel, feeds + [f], now))
            == before + EncodeAll(FeedAll(sel, feeds, now)) + EncodeAll(FeedArgvs(SelAfter(sel, feeds), f, now))
  {
    hide EncodeAll, FeedAll, FeedArgvs;
    var fed, argvs := FeedAll(sel, feeds, now), FeedArgvs(SelAfter(sel, feeds), f, now);
    FeedAllSnoc(sel, feeds, f, now);
    EncodeAllConcat(fed, argvs);
    Assoc(before, EncodeAll(fed), EncodeAll(argvs));
  }

  lemma FeedIs(s: State, feeds: seq<Feed>)
    requires s.aof.state != Off
    ensures var t, bytes := FeedState(s, feeds), EncodeAll(FeedAll(s.aof.selected, feeds, s.now));
            && t.aof == s.aof.(selected := SelAfter(s.aof.selected, feeds),
                               buf := if s.aof.state == On then s.aof.buf + bytes else s.aof.buf)
            && t.pending == (if s.child.Child? then s.pending + bytes else s.pending)
            && t.child == s.child && t.stop == s.stop
  {
    hide EncodeAll, FeedAll, SelAfter;
  }

  /** What one more feed adds, in the state and in the object. */
  lemma FeedMore(s: State, feeds: seq<Feed>, f: Feed)
    requires s.aof.state != Off
    ensures var t, argvs := FeedState(s, feeds), FeedArgvs(SelAfter(s.aof.selected, feeds), f, s.now);
            var u := FeedState(s, feeds + [f]);
            && u.aof == t.aof.(selected := f.db, buf := t.aof.buf + if s.aof.state == On then EncodeAll(argvs) else [])
            && u.pending == t.pending + (if s.child.Child? then EncodeAll(argvs) else [])
            && u.child == t.child && u.stop == t.stop
  {
    hide EncodeAll, FeedAll, FeedArgvs, FeedState;
    FeedIs(s, feeds);
    FeedIs(s, feeds + [f]);
    FeedBytes(s.aof.selected, feeds, f, s.now, s.aof.buf);
    FeedBytes(s.aof.selected, feeds, f, s.now, s.pending);
  }

  /** propagate, for each feed of a command in turn. */
  method FeedMany(srv: Server, s: State, feeds: seq<Feed>)
    requires Shows(srv, s) && AllFeedable(feeds)
    modifies srv, srv.rewriteBuf
    ensures Shows(srv, FeedState(s, feeds))
  {
    hide FeedState, EncodeAll, FeedArgvs, ArgvOf;
    NoFeeds(s);
    if s.aof.state == Off {
      FeedOff(s, feeds);
      return;
    }
    for i := 0 to |feeds|
      invariant Shows(srv, FeedState(s, feeds[..i]))
    {
      assert feeds[..i + 1] == feeds[..i] + [feeds[i]];
      FeedMore(s, feeds[..i], feeds[i]);
      FeedSame(s, feeds[..i]);
      srv.Feed(feeds[i].cmd, ArgvOf(feeds[i].cmd), feeds[i].db, s.now);
    }
    assert feeds[..|feeds|] == feeds;
  }

  lemma FeedOff(s: State, feeds: seq<Feed>)
    requires s.aof.state == Off
    ensures FeedState(s, feeds) == s
  {
  }

  lemma FeedSame(s: State, feeds: seq<Feed>)
    requires s.aof.state != Off
    ensures var t := FeedState(s, feeds);
            t.child == s.child && t.aof.state == s.aof.state && t.aof.selected == SelAfter(s.aof.selected, feeds)
  {
  }

  // ---- One call ----

  method DoPlain(srv: Server, s: State, a: Action, limit: nat, eff: Effect) returns (s': State)
    requires Shows(srv, s) && limit > 0 && s.dbs != [] && IsPlain(a)
    modifies srv, srv.rewriteBuf
    ensures s' == Step(s, a, limit, eff) && Shows(srv, s')
  {
    s' := Step(s, a, limit, eff);
    if a.Run? && a.db < |s.dbs| && Sendable(a.cmd) {
      var o := Exec(s.dbs, a.db, a.cmd, Env(s.now, false), eff);
      ExecFeedable(s.dbs, a.db, a.cmd, Env(s.now, false), eff);
      hide Exec, FeedState;
      FeedMany(srv, s.(dbs := o.dbs), o.feeds);
    } else if a.ExpireKey? && a.db < |s.dbs| {
      var o := Touch(s.dbs, a.db, a.key, Env(s.now, false));
      hide FeedState;
      FeedMany(srv, s.(dbs := o.dbs), o.feeds);
    } else {
      PlainSame(s, a, limit, eff);
    }
  }

  lemma ChildSame(s: State, a: Action)
    requires IsPlain(a)
    ensures var t := ChannelStep(s, a);
            t.child.Child? == s.child.Child? && t.pending == s.pending && t.stop == s.stop
  {
  }

  lemma PlainSame(s: State, a: Action, limit: nat, eff: Effect)
    requires limit > 0 && s.dbs != [] && IsPlain(a)
    requires !(a.Run? && a.db < |s.dbs| && Sendable(a.cmd)) && !(a.ExpireKey? && a.db < |s.dbs|)
    ensures var t := Step(s, a, limit, eff);
            t.aof == s.aof && t.child.Child? == s.child.Child? && t.pending == s.pending && t.stop == s.stop
  {
    hide Exec, FeedState, Sendable, ChannelStep, FlushState, StopState, StartState, ReapState, CrashState, Forked;
    ChildSame(s, a);
  }

  lemma FlushStep(s: State, n: int, truncateOk: bool, limit: nat, eff: Effect)
    requires limit > 0 && s.dbs != [] && FlushOk(s, n)
    ensures Step(s, Flush(n, truncateOk), limit, eff) == s.(aof := Flushed(s.aof, n, truncateOk))
    ensures Step(s, Tick(0), limit, eff) == s
  {
    assert s.aof.file + [] == s.aof.file;
  }

  /** Switched off there is no descriptor, and a write fails. */
  predicate FlushOk(s: State, n: int) {
    -1 <= n <= |s.aof.buf| && (s.aof.state == Off ==> n == -1 || s.aof.buf == [])
  }

  method DoFlush(srv: Server, s: State, c: Call, limit: nat, eff: Effect) returns (s': State, a: Action, exits: bool)
    requires Shows(srv, s) && limit > 0 && s.dbs != [] && c.FlushCall? && FlushOk(s, c.n)
    modifies srv, srv.rewriteBuf
    ensures !exits ==> s' == Step(s, a, limit, eff) && Shows(srv, s')
  {
    hide Step, Flushed;
    FlushStep(s, c.n, c.truncateOk, limit, eff);
    a := if srv.PutOff(c.force, c.policy, c.syncPending, c.unixtime) then Tick(0) else Flush(c.n, c.truncateOk);
    s' := Step(s, a, limit, eff);
    var sync;
    exits, sync := srv.Flush(c.force, c.policy, c.syncPending, c.quiet, s.rdbChild, c.unixtime, c.n, c.truncateOk);
  }

  method DoStop(srv: Server, s: State, c: Call, limit: nat, eff: Effect) returns (s': State, a: Action, exits: bool)
    requires Shows(srv, s) && limit > 0 && s.dbs != [] && c.StopCall? && s.aof.state != Off && -1 <= c.n <= |s.aof.buf|
    modifies srv, srv.rewriteBuf
    ensures !exits ==> s' == Step(s, a, limit, eff) && Shows(srv, s')
  {
    a := StopAof(c.n, c.truncateOk);
    s' := Step(s, a, limit, eff);
    exits := srv.StopAppendOnly(c.policy, c.syncPending, c.quiet, s.rdbChild, c.unixtime, c.n, c.truncateOk);
  }

  method DoFork(srv: Server, s: State, c: Call, limit: nat, eff: Effect) returns (s': State, a: Action)
    requires Shows(srv, s) && ChannelInv(s) && limit > 0 && s.dbs != [] && c.ForkCall?
    requires PlansUpTo(c.plans, s.dbs, |s.dbs|)
    modifies srv, srv.rewriteBuf
    ensures s' == Step(s, a, limit, eff) && Shows(srv, s')
  {
    hide EncodeAll, RewriteLog, PlansUpTo;
    a := Fork(c.forkOk, c.late, c.plans);
    s' := Step(s, a, limit, eff);
    var forked := srv.Fork(s.rdbChild, c.forkOk);
  }

  method DoStart(srv: Server, s: State, c: Call, limit: nat, eff: Effect) returns (s': State, a: Action)
    requires Shows(srv, s) && ChannelInv(s) && limit > 0 && s.dbs != [] && c.StartCall? && s.aof.state == Off
    requires PlansUpTo(c.plans, s.dbs, |s.dbs|)
    modifies srv, srv.rewriteBuf
    ensures s' == Step(s, a, limit, eff) && Shows(srv, s')
  {
    hide EncodeAll, RewriteLog, PlansUpTo;
    a := StartAof(c.openOk, c.forkOk, c.late, c.plans);
    s' := Step(s, a, limit, eff);
    var ok := srv.StartAppendOnly(c.openOk, s.rdbChild, c.forkOk, c.unixtime);
  }

  method DoSend(srv: Server, s: State, c: Call, limit: nat, eff: Effect) returns (s': State, a: Action)
    requires Shows(srv, s) && limit > 0 && s.dbs != [] && c.SendCall?
    modifies srv, srv.rewriteBuf
    ensures s' == Step(s, a, limit, eff) && Shows(srv, s')
  {
    var sent := srv.SendDiff(c.outcomes);
    a := SendDiff(|sent|);
    s' := Step(s, a, limit, eff);
    assert s.pending == sent + srv.rewriteBuf.Content();
    assert s.pending[|sent|..] == srv.rewriteBuf.Content();
  }

  method DoAsk(srv: Server, s: State, c: Call, limit: nat, eff: Effect) returns (s': State, a: Action)
    requires Shows(srv, s) && limit > 0 && s.dbs != [] && c.AskCall? && s.child.Child? && s.asked
    modifies srv, srv.rewriteBuf
    ensures s' == Step(s, a, limit, eff) && Shows(srv, s')
  {
    a := ParentReadsAsk(c.ackOk);
    s' := Step(s, a, limit, eff);
    srv.ChildAsked();
  }

  lemma ReapStep(s: State, installOk: bool, limit: nat, eff: Effect)
    requires limit > 0 && s.dbs != [] && s.child.Child? && s.child.phase.Exited?
    ensures var t := Step(s, Reap(installOk), limit, eff);
            var file := EncodeAll(s.snapLog) + s.child.diff + s.pending;
            && t.aof == RewriteDone(s.aof, if s.child.phase == Exited(true) && installOk then Some(file) else None)
            && t.child.NoChild? && t.pending == []
  {
  }

  method DoReap(srv: Server, s: State, c: Call, limit: nat, eff: Effect) returns (s': State, a: Action)
    requires Shows(srv, s) && limit > 0 && s.dbs != [] && c.ReapCall? && s.child.Child? && s.child.phase.Exited?
    modifies srv, srv.rewriteBuf
    ensures s' == Step(s, a, limit, eff) && Shows(srv, s')
  {
    hide EncodeAll, Step, RewriteDone;
    ReapStep(s, c.openOk && srv.rewriteBuf.WritesAll(c.writes) && c.renameOk, limit, eff);
    a := Reap(c.openOk && srv.rewriteBuf.WritesAll(c.writes) && c.renameOk);
    s' := Step(s, a, limit, eff);
    var temp := EncodeAll(s.snapLog) + s.child.diff;
    ghost var installed;
    var sync;
    installed, sync :=
      srv.BackgroundRewriteDone(s.child.phase == Exited(true), temp, c.openOk, c.writes, c.renameOk, c.policy);
  }

  /** When the event loop makes the call: what the source asserts, and the events that happened. */
  predicate Enabled(s: State, c: Call) {
    match c
    case Plain(a) => IsPlain(a)
    case FlushCall(_, _, _, _, _, n, _) => FlushOk(s, n)
    case ForkCall(_, _, plans) => PlansUpTo(plans, s.dbs, |s.dbs|)
    case StartCall(_, _, _, _, plans) => s.aof.state == Off && PlansUpTo(plans, s.dbs, |s.dbs|)
    case StopCall(_, _, _, _, n, _) => s.aof.state != Off && -1 <= n <= |s.aof.buf|
    case SendCall(_) => true
    case AskCall(_) => s.child.Child? && s.asked
    case ReapCall(_, _, _, _) => s.child.Child? && s.child.phase.Exited?
  }

  /** Every method call is a step of the protocol, unless it makes the server exit. */
  method Do(srv: Server, s: State, c: Call, limit: nat, eff: Effect) returns (s': State, a: Action, exits: bool)
    requires Shows(srv, s) && ChannelInv(s) && limit > 0 && s.dbs != [] && Enabled(s, c)
    modifies srv, srv.rewriteBuf
    ensures !exits ==> s' == Step(s, a, limit, eff) && Shows(srv, s')
  {
    hide Step, Shows, ChannelInv, PlansUpTo;
    exits := false;
    match c {
      case Plain(action) =>
        a := action;
        s' := DoPlain(srv, s, action, limit, eff);
      case FlushCall(_, _, _, _, _, _, _) => s', a, exits := DoFlush(srv, s, c, limit, eff);
      case ForkCall(_, _, _) => s', a := DoFork(srv, s, c, limit, eff);
      case StartCall(_, _, _, _, _) => s', a := DoStart(srv, s, c, limit, eff);
      case StopCall(_, _, _, _, _, _) => s', a, exits := DoStop(srv, s, c, limit, eff);
      case SendCall(_) => s', a := DoSend(srv, s, c, limit, eff);
      case AskCall(_) => s', a := DoAsk(srv, s, c, limit, eff);
      case ReapCall(_, _, _, _) => s', a := DoReap(srv, s, c, limit, eff);
    }
  }

  // ---- Runs ----

  lemma {:induction false} RunAllSnoc(s: State, actions: seq<Action>, a: Action, limit: nat, eff: Effect)
    requires limit > 0 && s.dbs != []
    ensures RunAll(s, actions + [a], limit, eff) == Step(RunAll(s, actions, limit, eff), a, limit, eff)
    decreases |actions|
  {
    if actions == [] {
      StepSize(s, a, limit, eff);
      assert actions + [a] == [a] && [a][1..] == [];
    } else {
      StepSize(s, actions[0], limit, eff);
      assert (actions + [a])[1..] == actions[1..] + [a];
      hide Step;
      RunAllSnoc(Step(s, actions[0], limit, eff), actions[1..], a, limit, eff);
    }
  }

  /** A server that serves any calls, each as long as it is enabled, has at every moment the file and
      the buffers of a run of the protocol. */
  method Serve(srv: Server, n: nat, calls: seq<Call>, limit: nat, eff: Effect)
    returns (s: State, ghost actions: seq<Action>, exits: bool)
    requires n > 0 && limit > 0 && Shows(srv, Initial(n))
    modifies srv, srv.rewriteBuf
    ensures !exits ==> s == RunAll(Initial(n), actions, limit, eff) && Shows(srv, s)
  {
    hide Step, Shows, ChannelInv, BytesInv, Enabled;
    s, actions, exits := Initial(n), [], false;
    InitialStream(n);
    for i := 0 to |calls|
      invariant s.dbs != [] && s == RunAll(Initial(n), actions, limit, eff) && StreamInv(s) && Shows(srv, s)
    {
      if Enabled(s, calls[i]) {
        var a;
        var before := s;
        s, a, exits := Do(srv, s, calls[i], limit, eff);
        if exits { return; }
        StepStream(before, a, limit, eff);
        RunAllSnoc(Initial(n), actions, a, limit, eff);
        actions := actions + [a];
      }
    }
  }

  /** So the theorem about runs is one about the object: what it wrote and still holds, loaded at any
      time, gives the data set its commands made, up to keys past their expiry. */
  lemma ServedDurably(srv: Server, s: State, n: nat, actions: seq<Action>, limit: nat, loadTime: int, eff: Effect)
    requires n > 0 && limit > 0 && s == RunAll(Initial(n), actions, limit, eff) && Shows(srv, s)
    requires CarefulRun(Initial(n), actions, limit, eff) && AllWellFormed(s.log)
    ensures srv.aofState == On ==>
              var l := Loaded(srv.file + srv.aofBuf);
              l.end == Complete && Agree(s.dbs, LoadLog(Start(n), l.run, loadTime, eff).dbs, Later(s.now, s.fileFrom))
  {
    hide RunAll, CarefulRun, Loaded, LoadLog, Agree, AllWellFormed;
    Durable(n, actions, limit, loadTime, eff);
  }
}

/** The background rewrite as a protocol between the parent and the forked child, together with
    everything else the parent does meanwhile: commands, expiry, flushes, switching the file on
    and off, crashes. One step is one event-loop callback or one system call of the child; a run
    is any sequence of steps. */
module AofProtocol {
  import opened Common
  import opened Resp
  import opened Dataset
  import opened AofLog
  import opened Rewriter
  import opened RewriteFile
  import opened AofFits
  import opened AofServer

  /** Where the child is in rewriteAppendOnlyFile. */
  datatype Phase =
    | Snapshot        // writing the data set, reading differences from time to time
    | AskedStop       // wrote '!' to the parent
    | GotAck          // read '!' back
    | Drained         // read the final differences
    | Exited(ok: bool)

  datatype Child = NoChild | Child(phase: Phase, diff: Bytes)

  /** `pending` is the content of the rewrite block list, `pipe` the bytes in the data pipe,
      `asked` and `acked` the '!' in each control pipe. The last five fields are history: the
      commands in the file, in the child's snapshot and fed since the fork, and the clock readings
      of the child that wrote the file's snapshot and of the present one. */
  datatype State = State(
    dbs: Dbs, now: int, aof: Aof, rdbChild: bool,
    child: Child, pending: Bytes, pipe: Bytes, stop: bool, asked: bool, acked: bool,
    log: seq<Argv>, snapLog: seq<Argv>, diffLog: seq<Argv>, fileFrom: int, snapFrom: int)

  // ---- Steps ----

  datatype Action =
    | Tick(ms: nat)
    | Run(db: nat, cmd: Cmd)
    | ExpireKey(db: nat, key: Key)
    | Flush(n: int, truncateOk: bool)
    | RdbStart
    | RdbEnd
      /** `late` is how long after the fork the child reads its clock. */
    | Fork(ok: bool, late: nat, plans: seq<seq<KeyPlan>>)
    | StartAof(openOk: bool, forkOk: bool, late: nat, plans: seq<seq<KeyPlan>>)
    | StopAof(n: int, truncateOk: bool)
    | SendDiff(count: nat)
    | ParentReadsAsk(ackOk: bool)
    | ChildReads(count: nat)
    | ChildAsks
    | ChildReadsAck
    | ChildDrains
    | ChildExits(ok: bool)
    | Reap(installOk: bool)
    | Crash

  predicate SameTimes(s: State, r: State) { r.now == s.now && r.fileFrom == s.fileFrom && r.snapFrom == s.snapFrom }

  predicate SameLogs(s: State, r: State) { r.log == s.log && r.snapLog == s.snapLog && r.diffLog == s.diffLog }

  /** Everything a command feeds: nothing when the file is off; otherwise the selected database
      follows, and the bytes go to the buffers that are in use. */
  function FeedState(s: State, feeds: seq<Feed>): (r: State)
    ensures r.dbs == s.dbs && SameTimes(s, r)
  {
    if s.aof.state == Off then s
    else
      var argvs := FeedAll(s.aof.selected, feeds, s.now);
      var aof := s.aof.(selected := SelAfter(s.aof.selected, feeds));
      var t := if s.aof.state == On
               then s.(aof := aof.(buf := aof.buf + EncodeAll(argvs)), log := s.log + argvs)
               else s.(aof := aof);
      if s.child.NoChild? then t
      else t.(pending := t.pending + EncodeAll(argvs), diffLog := t.diffLog + argvs)
  }

  /** rewriteAppendOnlyFileBackground after a successful fork. The child has the data set as it is
      now and skips the keys that are expired by its own clock. */
  function Forked(s: State, late: nat, plans: seq<seq<KeyPlan>>, limit: nat): (r: State)
    requires limit > 0 && PlansUpTo(plans, s.dbs, |s.dbs|)
    ensures r.dbs == s.dbs
  {
    s.(child := Child(Snapshot, []), pipe := [], stop := false, asked := false, acked := false,
       aof := AofForked(s.aof), snapLog := RewriteLog(plans, s.dbs, s.now + late, limit, |s.dbs|), diffLog := [],
       snapFrom := s.now + late)
  }

  predicate CanFork(s: State, plans: seq<seq<KeyPlan>>) {
    s.child.NoChild? && !s.rdbChild && PlansUpTo(plans, s.dbs, |s.dbs|)
  }

  /** The child is gone: pipes closed, block list reset. */
  function NoMoreChild(s: State): (r: State)
    ensures r.dbs == s.dbs && SameTimes(s, r) && SameLogs(s, r)
  {
    s.(child := NoChild, pending := [], pipe := [], stop := false, asked := false, acked := false)
  }

  function FlushState(s: State, n: int, truncateOk: bool): (r: State)
    ensures r.dbs == s.dbs && SameTimes(s, r) && SameLogs(s, r)
  {
    if s.aof.state != Off && -1 <= n <= |s.aof.buf| then s.(aof := Flushed(s.aof, n, truncateOk)) else s
  }

  function StopState(s: State, n: int, truncateOk: bool): (r: State)
    requires -1 <= n <= |s.aof.buf|
    ensures r.dbs == s.dbs && SameTimes(s, r) && SameLogs(s, r)
  {
    NoMoreChild(s.(aof := AofStopped(s.aof, n, truncateOk)))
  }

  function StartState(s: State, openOk: bool, forkOk: bool, late: nat, plans: seq<seq<KeyPlan>>, limit: nat): (r: State)
    requires limit > 0
    ensures r.dbs == s.dbs
  {
    var forked := openOk && forkOk && CanFork(s, plans);
    var t := if forked then Forked(s, late, plans, limit) else s;
    t.(aof := AofStarted(s.aof, openOk, s.rdbChild, forked))
  }

  function ReapState(s: State, installOk: bool): (r: State)
    requires s.child.Child?
    ensures r.dbs == s.dbs
  {
    var done := s.child.phase == Exited(true) && installOk;
    var temp := EncodeAll(s.snapLog) + s.child.diff;
    var aof := RewriteDone(s.aof, if done then Some(temp + s.pending) else None);
    var t := NoMoreChild(s.(aof := aof));
    if done && s.aof.fd then t.(log := s.snapLog + s.diffLog, fileFrom := s.snapFrom) else t
  }

  /** The server dies and restarts on the file as it is: the loader runs the commands that lie
      wholly in it and cuts off the rest. */
  function CrashState(s: State, eff: Effect): (r: State)
    requires s.dbs != []
    ensures |r.dbs| == |s.dbs| && r.now == s.now
  {
    var l := Loaded(s.aof.file);
    var file := if l.validUpTo <= |s.aof.file| then s.aof.file[..l.validUpTo] else [];
    NoMoreChild(s.(dbs := LoadLog(Start(|s.dbs|), l.run, s.now, eff).dbs,
                   aof := Aof(On, true, file, [], |file|, -1, false),
                   rdbChild := false, log := l.run, fileFrom := 0))
  }

  /** The steps over the pipes between the parent and the child. */
  function ChannelStep(s: State, a: Action): (r: State)
    ensures r == s.(child := r.child, pending := r.pending, pipe := r.pipe, stop := r.stop, asked := r.asked,
                    acked := r.acked)
    ensures s.child.NoChild? ==> r == s
    ensures s.child.Child? ==> r.child.Child?
  {
    match a
    case SendDiff(n) =>
      if s.child.Child? && !s.stop && n <= |s.pending|
      then s.(pipe := s.pipe + s.pending[..n], pending := s.pending[n..]) else s
    case ParentReadsAsk(ackOk) =>
      if s.child.Child? && s.asked then s.(asked := false, stop := true, acked := s.acked || ackOk) else s
    case ChildReads(n) =>
      if s.child.Child? && s.child.phase == Snapshot && n <= |s.pipe|
      then s.(child := s.child.(diff := s.child.diff + s.pipe[..n]), pipe := s.pipe[n..]) else s
    case ChildAsks =>
      if s.child.Child? && s.child.phase == Snapshot
      then s.(child := s.child.(phase := AskedStop), asked := true) else s
    case ChildReadsAck =>
      if s.child.Child? && s.child.phase == AskedStop && s.acked
      then s.(child := s.child.(phase := GotAck), acked := false) else s
    case ChildDrains =>
      if s.child.Child? && s.child.phase == GotAck
      then s.(child := Child(Drained, s.child.diff + s.pipe), pipe := []) else s
    case ChildExits(ok) =>
      if s.child.Child? && !s.child.phase.Exited? && (ok ==> s.child.phase == Drained)
      then s.(child := s.child.(phase := Exited(ok))) else s
    case _ => s
  }

  /** A step; an action that is not enabled leaves the state as it is. */
  function Step(s: State, a: Action, limit: nat, eff: Effect): State
    requires limit > 0 && s.dbs != []
  {
    match a
    case Tick(ms) => s.(now := s.now + ms)
    case Run(db, cmd) =>
      if db < |s.dbs| && Sendable(cmd) then
        var o := Exec(s.dbs, db, cmd, Env(s.now, false), eff);
        FeedState(s.(dbs := o.dbs), o.feeds)
      else s
    case ExpireKey(db, key) =>
      if db < |s.dbs| then
        var o := Touch(s.dbs, db, key, Env(s.now, false));
        FeedState(s.(dbs := o.dbs), o.feeds)
      else s
    case Flush(n, truncateOk) => FlushState(s, n, truncateOk)
    case RdbStart => if s.child.NoChild? then s.(rdbChild := true) else s
    case RdbEnd => s.(rdbChild := false)
    case Fork(ok, late, plans) => if ok && CanFork(s, plans) then Forked(s, late, plans, limit) else s
    case StartAof(openOk, forkOk, late, plans) =>
      if s.aof.state == Off then StartState(s, openOk, forkOk, late, plans, limit) else s
    case StopAof(n, truncateOk) =>
      if s.aof.state != Off && -1 <= n <= |s.aof.buf| then StopState(s, n, truncateOk) else s
    case Reap(installOk) =>
      if s.child.Child? && s.child.phase.Exited? then ReapState(s, installOk) else s
    case Crash => if s.aof.state == On && AllWellFormed(s.log) then CrashState(s, eff) else s
    case _ => ChannelStep(s, a)
  }

  function RunAll(s: State, actions: seq<Action>, limit: nat, eff: Effect): (r: State)
    requires limit > 0 && s.dbs != []
    ensures |r.dbs| == |s.dbs|
    decreases |actions|
  {
    if actions == [] then s
    else
      StepSize(s, actions[0], limit, eff);
      RunAll(Step(s, actions[0], limit, eff), actions[1..], limit, eff)
  }

  lemma StepSize(s: State, a: Action, limit: nat, eff: Effect)
    requires limit > 0 && s.dbs != []
    ensures |Step(s, a, limit, eff).dbs| == |s.dbs|
  {
    hide Exec, Touch, FeedState, FlushState, StopState, Forked, StartState, ReapState, CrashState, ChannelStep, CanFork,
         AllWellFormed;
  }

  /** A fresh server with `n` empty databases and an empty file. */
  function Initial(n: nat): State {
    State(Empty(n), 0, Aof(On, true, [], [], 0, -1, false), false,
          NoChild, [], [], false, false, false, [], [], [], 0, 0)
  }

  // ---- The invariant ----

  /** What the child has, what is in the pipe and what the parent still holds are, in order, the
      bytes fed since the fork; the handshake has emptied the pipe before the child finishes. */
  predicate ChannelInv(s: State) {
    match s.child
    case NoChild => s.pending == []
    case Child(phase, diff) =>
      && diff + s.pipe + s.pending == EncodeAll(s.diffLog)
      && (s.acked ==> s.stop)
      && (phase == Snapshot ==> !s.asked && !s.acked)
      && (phase in {GotAck, Drained, Exited(true)} ==> s.stop)
      && (phase in {Drained, Exited(true)} ==> s.pipe == [])
  }

  /** With the file on, what is on disk and what is buffered are, in order, the encoded log. */
  predicate BytesInv(s: State) {
    && (s.aof.state != Off ==> s.aof.fd)
    && (s.aof.state == On ==> s.aof.file + s.aof.buf == EncodeAll(s.log) && s.aof.size == |s.aof.file|)
  }

  predicate StreamInv(s: State) { s.dbs != [] && ChannelInv(s) && BytesInv(s) }

  function Later(a: int, b: int): int { if a < b then b else a }

  /** Loading `log` gives the data set, up to keys past their expiry from `from` on, and leaves the
      loader in the database aof_selected_db names. */
  predicate Faithful(s: State, log: seq<Argv>, from: int, eff: Effect)
    requires s.dbs != []
  {
    var r := LoadLog(Start(|s.dbs|), log, 0, eff);
    && FixedLog(log)
    && Agree(s.dbs, r.dbs, Later(s.now, from))
    && (s.aof.selected == -1 || s.aof.selected == r.sel)
  }

  predicate FileInv(s: State, eff: Effect)
    requires s.dbs != []
  {
    s.aof.state == On ==> Faithful(s, s.log, s.fileFrom, eff)
  }

  predicate RewriteInv(s: State, eff: Effect)
    requires s.dbs != []
  {
    s.child.Child? && s.aof.state != Off ==> Faithful(s, s.snapLog + s.diffLog, s.snapFrom, eff)
  }

  predicate Inv(s: State, eff: Effect) {
    && s.dbs != [] && s.now >= 0 && Valid(s.dbs)
    && !(s.rdbChild && s.child.Child?)
    && FileInv(s, eff)
    && RewriteInv(s, eff)
  }

  // ---- What is asked of a run ----

  /** Every command that is fed does again, when loaded, what it did; and none builds on a key that a
      snapshot in use may have left out because it expires before the child read its clock. */
  predicate CarefulStep(s: State, a: Action, eff: Effect) {
    a.Run? ==>
      && (s.aof.state == On ==> Careful(s.dbs, a.db, a.cmd, s.now, Later(s.now, s.fileFrom), eff))
      && (s.aof.state != Off && s.child.Child? ==>
            Careful(s.dbs, a.db, a.cmd, s.now, Later(s.now, s.snapFrom), eff))
  }

  predicate CarefulRun(s: State, actions: seq<Action>, limit: nat, eff: Effect)
    requires limit > 0 && s.dbs != []
    decreases |actions|
  {
    if actions == [] then true
    else
      StepSize(s, actions[0], limit, eff);
      CarefulStep(s, actions[0], eff) && CarefulRun(Step(s, actions[0], limit, eff), actions[1..], limit, eff)
  }

  /** Commands, expired keys and, when a child is forked, the data set fit the C types. */
  predicate FittingStep(s: State, a: Action, limit: nat, eff: Effect) {
    match a
    case Run(_, cmd) => CmdFits(cmd, s.now, eff)
    case ExpireKey(_, key) => Short(key)
    case Fork(ok, _, plans) => ok && CanFork(s, plans) ==> Fits(s.dbs, limit)
    case StartAof(openOk, forkOk, _, plans) => openOk && forkOk && CanFork(s, plans) ==> Fits(s.dbs, limit)
    case _ => true
  }

  predicate FittingRun(s: State, actions: seq<Action>, limit: nat, eff: Effect)
    requires limit > 0 && s.dbs != []
    decreases |actions|
  {
    if actions == [] then true
    else
      StepSize(s, actions[0], limit, eff);
      FittingStep(s, actions[0], limit, eff) && FittingRun(Step(s, actions[0], limit, eff), actions[1..], limit, eff)
  }

  // ---- Every step keeps the bytes in order ----

  lemma FedChannel(diff: Bytes, pipe: Bytes, pending: Bytes, fedLog: seq<Argv>, argvs: seq<Argv>)
    requires diff + pipe + pending == EncodeAll(fedLog)
    ensures diff + pipe + (pending + EncodeAll(argvs)) == EncodeAll(fedLog + argvs)
  {
    hide EncodeAll;
    EncodeAllConcat(fedLog, argvs);
    Assoc(diff + pipe, pending, EncodeAll(argvs));
  }

  lemma FeedStream(s: State, o: Outcome)
    requires StreamInv(s) && |o.dbs| == |s.dbs|
    ensures StreamInv(FeedState(s.(dbs := o.dbs), o.feeds))
  {
    hide EncodeAll, FeedAll;
    var fed := FeedAll(s.aof.selected, o.feeds, s.now);
    if s.aof.state != Off && s.child.Child? { FedChannel(s.child.diff, s.pipe, s.pending, s.diffLog, fed); }
    if s.aof.state == On {
      EncodeAllConcat(s.log, fed);
      Assoc(s.aof.file, s.aof.buf, EncodeAll(fed));
    }
  }

  lemma ChannelStepKept(s: State, a: Action)
    requires ChannelInv(s)
    ensures ChannelInv(ChannelStep(s, a))
  {
    hide EncodeAll;
    match a
    case SendDiff(n) =>
    case ChildReads(n) =>
    case ChildDrains =>
      if s.child.Child? { assert s.child.diff + s.pipe + [] == s.child.diff + s.pipe; }
    case _ =>
  }

  /** The installed file is the snapshot followed by every byte fed since the fork. */
  lemma InstalledBytes(s: State)
    requires ChannelInv(s) && s.child.Child? && s.child.phase == Exited(true)
    ensures EncodeAll(s.snapLog) + s.child.diff + s.pending == EncodeAll(s.snapLog + s.diffLog)
  {
    EncodeAllConcat(s.snapLog, s.diffLog);
    assert s.child.diff + [] == s.child.diff;
    Assoc(EncodeAll(s.snapLog), s.child.diff, s.pending);
  }

  lemma PrefixBytes(log: seq<Argv>, k: nat, n: nat)
    requires k <= |log| && |EncodeAll(log[..k])| <= n <= |EncodeAll(log)|
    ensures EncodeAll(log)[..n][..|EncodeAll(log[..k])|] == EncodeAll(log[..k])
  {
    hide EncodeAll;
    assert log == log[..k] + log[k..];
    EncodeAllConcat(log[..k], log[k..]);
  }

  /** After a crash the server restarts from the commands that reached the file whole. */
  lemma CrashLoads(s: State) returns (k: nat)
    requires BytesInv(s) && s.aof.state == On && AllWellFormed(s.log)
    ensures LongestPrefix(s.log, |s.aof.file|, k)
    ensures Loaded(s.aof.file) == CutResult(s.log, |s.aof.file|, k)
    ensures s.aof.file[..|EncodeAll(s.log[..k])|] == EncodeAll(s.log[..k])
  {
    hide EncodeAll, Loaded;
    var n := |s.aof.file|;
    assert EncodeAll(s.log)[..n] == s.aof.file;
    k := LoadTruncated(s.log, n);
    PrefixBytes(s.log, k, n);
  }

  lemma FlushStream(s: State, n: int, truncateOk: bool)
    requires StreamInv(s)
    ensures StreamInv(FlushState(s, n, truncateOk))
  {
    if s.aof.state == On && -1 <= n <= |s.aof.buf| { FlushKeepsStream(s.aof, n, truncateOk); }
  }

  lemma ReapStream(s: State, installOk: bool)
    requires StreamInv(s) && s.child.Child?
    ensures StreamInv(ReapState(s, installOk))
  {
    hide EncodeAll;
    if s.child.phase == Exited(true) && installOk {
      InstalledBytes(s);
      var t := ReapState(s, installOk);
      assert t.aof.file + [] == t.aof.file;
    }
  }

  lemma CrashStream(s: State, eff: Effect)
    requires StreamInv(s) && s.aof.state == On && AllWellFormed(s.log)
    ensures StreamInv(CrashState(s, eff))
  {
    hide LoadLog, EncodeAll, Loaded;
    var k := CrashLoads(s);
    var t := CrashState(s, eff);
    assert t.aof.file + [] == t.aof.file;
  }

  lemma StepStream(s: State, a: Action, limit: nat, eff: Effect)
    requires StreamInv(s) && limit > 0
    ensures StreamInv(Step(s, a, limit, eff))
  {
    hide EncodeAll, Exec, Touch, FeedState, FlushState, ReapState, CrashState, ChannelStep, RewriteLog, AllWellFormed,
         Flushed, PlansUpTo;
    match a
    case Run(db, cmd) =>
      if db < |s.dbs| { FeedStream(s, Exec(s.dbs, db, cmd, Env(s.now, false), eff)); }
    case ExpireKey(db, key) =>
      if db < |s.dbs| { FeedStream(s, Touch(s.dbs, db, key, Env(s.now, false))); }
    case Tick(_) =>
    case Flush(n, truncateOk) => FlushStream(s, n, truncateOk);
    case RdbStart =>
    case RdbEnd =>
    case Fork(_, _, _) => NothingFed();
    case StartAof(_, _, _, _) => NothingFed();
    case StopAof(_, _) =>
    case Reap(installOk) => if s.child.Child? { ReapStream(s, installOk); }
    case Crash => if s.aof.state == On && AllWellFormed(s.log) { CrashStream(s, eff); }
    case _ => ChannelStepKept(s, a);
  }

  lemma NothingFed()
    ensures EncodeAll([]) == []
  {
  }

  lemma InitialStream(n: nat)
    requires n > 0
    ensures StreamInv(Initial(n))
  {
  }

  lemma {:induction false} RunAllStream(s: State, actions: seq<Action>, limit: nat, eff: Effect)
    requires StreamInv(s) && limit > 0
    ensures StreamInv(RunAll(s, actions, limit, eff))
    decreases |actions|
  {
    if actions != [] {
      StepStream(s, actions[0], limit, eff);
      hide ChannelInv, BytesInv, Step;
      RunAllStream(Step(s, actions[0], limit, eff), actions[1..], limit, eff);
    }
  }

  // ---- Every careful step keeps the file faithful ----

  /** A data-set change that, fed and replayed, keeps agreement at `t`. */
  ghost predicate FeedsAgree(s: State, o: Outcome, t: int, eff: Effect)
    requires InRange(o.feeds, |s.dbs|)
  {
    forall r: Dbs :: Agree(s.dbs, r, t) ==> Agree(o.dbs, ReplayFeeds(r, o.feeds, s.now, 0, eff), t)
  }

  /** A log that was faithful stays so when a command runs and is fed. */
  lemma FaithfulFeed(s: State, log: seq<Argv>, from: int, o: Outcome, t: State, eff: Effect)
    requires s.dbs != [] && s.now >= 0 && Faithful(s, log, from, eff)
    requires |o.dbs| == |s.dbs| && AllFeedable(o.feeds) && AllTimeless(o.feeds, s.now) && InRange(o.feeds, |s.dbs|)
    requires FeedsAgree(s, o, Later(s.now, from), eff)
    requires t.dbs == o.dbs && t.now == s.now && t.aof.selected == SelAfter(s.aof.selected, o.feeds)
    ensures Faithful(t, log + FeedAll(s.aof.selected, o.feeds, s.now), from, eff)
  {
    var fed := FeedAll(s.aof.selected, o.feeds, s.now);
    var r := LoadLog(Start(|s.dbs|), log, 0, eff);
    LoadFeeds(r, s.aof.selected, o.feeds, s.now, 0, eff);
    LoadLogConcat(Start(|s.dbs|), log, fed, 0, eff);
    FeedsFixed(s.aof.selected, o.feeds, s.now);
  }

  /** What a data-set change needs so that feeding it keeps the invariant. */
  ghost predicate GoodOutcome(s: State, o: Outcome, eff: Effect) {
    && |o.dbs| == |s.dbs| && Valid(o.dbs)
    && AllFeedable(o.feeds) && InRange(o.feeds, |s.dbs|)
    && (s.aof.state == On || (s.aof.state != Off && s.child.Child?) ==> AllTimeless(o.feeds, s.now))
    && (s.aof.state == On ==> FeedsAgree(s, o, Later(s.now, s.fileFrom), eff))
    && (s.aof.state != Off && s.child.Child? ==> FeedsAgree(s, o, Later(s.now, s.snapFrom), eff))
  }

  lemma FeedInv(s: State, o: Outcome, eff: Effect)
    requires Inv(s, eff) && GoodOutcome(s, o, eff)
    ensures Inv(FeedState(s.(dbs := o.dbs), o.feeds), eff)
  {
    hide FeedsAgree, Valid, Faithful, EncodeAll;
    var t := FeedState(s.(dbs := o.dbs), o.feeds);
    if s.aof.state == On { FaithfulFeed(s, s.log, s.fileFrom, o, t, eff); }
    if s.aof.state != Off && s.child.Child? {
      FaithfulFeed(s, s.snapLog + s.diffLog, s.snapFrom, o, t, eff);
      Assoc(s.snapLog, s.diffLog, FeedAll(s.aof.selected, o.feeds, s.now));
    }
  }

  lemma CarefulFeeds(s: State, db: nat, cmd: Cmd, t: int, eff: Effect)
    requires db < |s.dbs| && 0 <= s.now <= t && Careful(s.dbs, db, cmd, s.now, t, eff)
    ensures var o := Exec(s.dbs, db, cmd, Env(s.now, false), eff);
            FeedsAgree(s, o, t, eff) && AllTimeless(o.feeds, s.now)
  {
    var o := Exec(s.dbs, db, cmd, Env(s.now, false), eff);
    assert Lossless(s.dbs, db, cmd, s.now, eff);
    hide Agree, Exec, Careful, Safe, Lossless, AllTimeless;
    ExecTimeless(s.dbs, db, cmd, s.now, eff);
    forall r: Dbs | Agree(s.dbs, r, t) ensures Agree(o.dbs, ReplayFeeds(r, o.feeds, s.now, 0, eff), t) {
      CarefulSafe(s.dbs, r, db, cmd, s.now, t, eff);
      ExecAgree(s.dbs, r, db, cmd, t, s.now, 0, eff);
    }
  }

  lemma RunInv(s: State, db: nat, cmd: Cmd, limit: nat, eff: Effect)
    requires Inv(s, eff) && limit > 0 && CarefulStep(s, Run(db, cmd), eff)
    ensures Inv(Step(s, Run(db, cmd), limit, eff), eff)
  {
    hide FeedState, FeedsAgree, Careful, Exec, AllFeedable, AllTimeless, FileInv, RewriteInv, Valid;
    if db < |s.dbs| && Sendable(cmd) {
      var o := Exec(s.dbs, db, cmd, Env(s.now, false), eff);
      ExecFeedable(s.dbs, db, cmd, Env(s.now, false), eff);
      ExecValid(s.dbs, db, cmd, Env(s.now, false), eff);
      if s.aof.state == On { CarefulFeeds(s, db, cmd, Later(s.now, s.fileFrom), eff); }
      if s.aof.state != Off && s.child.Child? { CarefulFeeds(s, db, cmd, Later(s.now, s.snapFrom), eff); }
      FeedInv(s, o, eff);
    }
  }

  lemma TouchFeeds(s: State, db: nat, key: Key, t: int, eff: Effect)
    requires db < |s.dbs| && s.now <= t
    ensures FeedsAgree(s, Touch(s.dbs, db, key, Env(s.now, false)), t, eff)
  {
    var o := Touch(s.dbs, db, key, Env(s.now, false));
    hide Agree, Touch;
    forall r: Dbs | Agree(s.dbs, r, t) ensures Agree(o.dbs, ReplayFeeds(r, o.feeds, s.now, 0, eff), t) {
      TouchAgree(s.dbs, r, db, key, t, s.now, 0, eff);
    }
  }

  lemma ExpireInv(s: State, db: nat, key: Key, limit: nat, eff: Effect)
    requires Inv(s, eff) && limit > 0
    ensures Inv(Step(s, ExpireKey(db, key), limit, eff), eff)
  {
    hide FeedState, FeedsAgree, FileInv, RewriteInv, Valid;
    if db < |s.dbs| {
      var o := Touch(s.dbs, db, key, Env(s.now, false));
      TouchValid(s.dbs, db, key, Env(s.now, false));
      PlainTimeless(Del([key]), s.now);
      TouchFeeds(s, db, key, Later(s.now, s.fileFrom), eff);
      TouchFeeds(s, db, key, Later(s.now, s.snapFrom), eff);
      FeedInv(s, o, eff);
    }
  }

  lemma TickInv(s: State, ms: nat, eff: Effect)
    requires Inv(s, eff)
    ensures Inv(s.(now := s.now + ms), eff)
  {
    hide Agree, LoadLog, EncodeAll, FixedLog, Valid;
    if s.aof.state == On {
      AgreeLater(s.dbs, LoadLog(Start(|s.dbs|), s.log, 0, eff).dbs,
                 Later(s.now, s.fileFrom), Later(s.now + ms, s.fileFrom));
    }
    if s.child.Child? && s.aof.state != Off {
      AgreeLater(s.dbs, LoadLog(Start(|s.dbs|), s.snapLog + s.diffLog, 0, eff).dbs,
                 Later(s.now, s.snapFrom), Later(s.now + ms, s.snapFrom));
    }
  }

  lemma FlushInv(s: State, n: int, truncateOk: bool, eff: Effect)
    requires Inv(s, eff)
    ensures Inv(FlushState(s, n, truncateOk), eff)
  {
    hide Agree, LoadLog, FixedLog, Valid;
  }

  /** A snapshot that skips the keys expired at `childNow` agrees with the data set at `t` if and
      only if every such key is expired at `t`: always from `childNow` on, and at the fork itself
      only when no key expires in between. */
  lemma LateSnapshotAgrees(dbs: Dbs, childNow: int, t: int)
    ensures Agree(dbs, LiveAt(dbs, childNow), t)
            <==> forall j, k :: 0 <= j < |dbs| && k in dbs[j] && Expired(dbs[j][k], childNow) ==> Expired(dbs[j][k], t)
  {
    var r := LiveAt(dbs, childNow);
    if Agree(dbs, r, t) {
      forall j, k | 0 <= j < |dbs| && k in dbs[j] && Expired(dbs[j][k], childNow)
        ensures Expired(dbs[j][k], t)
      {
        assert AgreeDb(dbs[j], r[j], t);
        assert k !in r[j];
      }
    }
  }

  /** The child's snapshot is a faithful log from the time the child read its clock. */
  lemma SnapshotFaithful(s: State, late: nat, plans: seq<seq<KeyPlan>>, limit: nat, eff: Effect)
    requires s.dbs != [] && Valid(s.dbs) && limit > 0 && CanFork(s, plans)
    ensures var t := Forked(s, late, plans, limit);
            t.snapLog + t.diffLog == t.snapLog && Faithful(t, t.snapLog, t.snapFrom, eff)
  {
    hide Valid, LiveAt, Agree, LoadLog, RewriteLog, FixedLog;
    RewriteRebuilds(plans, s.dbs, s.now + late, limit, 0, eff);
    LateSnapshotAgrees(s.dbs, s.now + late, s.now + late);
    RewriteFixed(plans, s.dbs, s.now + late, limit, |s.dbs|);
  }

  lemma ForkInv(s: State, late: nat, plans: seq<seq<KeyPlan>>, limit: nat, eff: Effect)
    requires Inv(s, eff) && limit > 0 && CanFork(s, plans)
    ensures Inv(Forked(s, late, plans, limit), eff)
  {
    hide Agree, LoadLog, FixedLog, EncodeAll, RewriteLog, Valid, PlansUpTo;
    SnapshotFaithful(s, late, plans, limit, eff);
  }

  lemma StartInv(s: State, openOk: bool, forkOk: bool, late: nat, plans: seq<seq<KeyPlan>>, limit: nat, eff: Effect)
    requires Inv(s, eff) && limit > 0 && s.aof.state == Off
    ensures Inv(StartState(s, openOk, forkOk, late, plans, limit), eff)
  {
    hide Agree, LoadLog, FixedLog, EncodeAll, RewriteLog, Valid, PlansUpTo;
    if openOk && forkOk && CanFork(s, plans) {
      SnapshotFaithful(s, late, plans, limit, eff);
    }
  }

  lemma ChannelStepInv(s: State, a: Action, eff: Effect)
    requires Inv(s, eff)
    ensures Inv(ChannelStep(s, a), eff)
  {
    hide EncodeAll, LoadLog, FixedLog, Agree, Valid;
  }

  lemma ReapInv(s: State, installOk: bool, eff: Effect)
    requires Inv(s, eff) && BytesInv(s) && s.child.Child?
    ensures Inv(ReapState(s, installOk), eff)
  {
    hide EncodeAll, LoadLog, FixedLog, Agree, Valid;
  }

  lemma CrashInv(s: State, eff: Effect)
    requires Inv(s, eff) && BytesInv(s) && s.aof.state == On && AllWellFormed(s.log)
    ensures Inv(CrashState(s, eff), eff)
  {
    var k := CrashLoads(s);
    var t := CrashState(s, eff);
    LoadAnyTime(Start(|s.dbs|), s.log[..k], s.now, 0, eff);
    LoadValid(Start(|s.dbs|), s.log[..k], s.now, eff);
  }

  lemma StepInv(s: State, a: Action, limit: nat, eff: Effect)
    requires Inv(s, eff) && BytesInv(s) && limit > 0 && CarefulStep(s, a, eff)
    ensures Inv(Step(s, a, limit, eff), eff)
  {
    hide Faithful, BytesInv, ChannelStep, Forked, StartState, FlushState, ReapState, CrashState, FeedState, Exec, Touch,
         Valid, AllWellFormed, Careful;
    match a
    case Tick(ms) => TickInv(s, ms, eff);
    case Run(db, cmd) => RunInv(s, db, cmd, limit, eff);
    case ExpireKey(db, key) => ExpireInv(s, db, key, limit, eff);
    case Flush(n, truncateOk) => FlushInv(s, n, truncateOk, eff);
    case RdbStart => RdbInv(s, eff);
    case RdbEnd => RdbInv(s, eff);
    case Fork(ok, late, plans) => if ok && CanFork(s, plans) { ForkInv(s, late, plans, limit, eff); }
    case StartAof(openOk, forkOk, late, plans) =>
      if s.aof.state == Off { StartInv(s, openOk, forkOk, late, plans, limit, eff); }
    case StopAof(_, _) =>
    case Reap(installOk) =>
      if s.child.Child? && s.child.phase.Exited? { ReapInv(s, installOk, eff); }
    case Crash => if s.aof.state == On && AllWellFormed(s.log) { CrashInv(s, eff); }
    case _ => ChannelStepInv(s, a, eff);
  }

  lemma RdbInv(s: State, eff: Effect)
    requires Inv(s, eff)
    ensures s.child.NoChild? ==> Inv(s.(rdbChild := true), eff)
    ensures Inv(s.(rdbChild := false), eff)
  {
  }

  /** The file stays faithful through every careful run. */
  lemma {:induction false} RunAllInv(s: State, actions: seq<Action>, limit: nat, eff: Effect)
    requires Inv(s, eff) && StreamInv(s) && limit > 0 && CarefulRun(s, actions, limit, eff)
    ensures Inv(RunAll(s, actions, limit, eff), eff)
    decreases |actions|
  {
    if actions != [] {
      StepInv(s, actions[0], limit, eff);
      StepStream(s, actions[0], limit, eff);
      hide Inv, StreamInv, Step, CarefulStep;
      RunAllInv(Step(s, actions[0], limit, eff), actions[1..], limit, eff);
    }
  }

  // ---- Every fitting step keeps the log one the loader accepts ----

  predicate SizeInv(s: State) {
    |s.dbs| <= INT_MAX && AllWellFormed(s.log) && AllWellFormed(s.snapLog) && AllWellFormed(s.diffLog)
  }

  lemma FeedSize(s: State, o: Outcome)
    requires SizeInv(s) && |o.dbs| == |s.dbs| && InRange(o.feeds, |s.dbs|) && FeedsFit(o.feeds, s.now)
    ensures SizeInv(FeedState(s.(dbs := o.dbs), o.feeds))
  {
    hide AllWellFormed, FeedAll, EncodeAll, FeedsFit;
    var fed := FeedAll(s.aof.selected, o.feeds, s.now);
    FeedAllFits(s.aof.selected, o.feeds, s.now, |s.dbs|);
    WellFormedConcat(s.log, fed);
    WellFormedConcat(s.diffLog, fed);
  }

  lemma CrashSize(s: State, eff: Effect)
    requires StreamInv(s) && SizeInv(s) && s.aof.state == On
    ensures SizeInv(CrashState(s, eff))
  {
    var k := CrashLoads(s);
  }

  lemma StepSized(s: State, a: Action, limit: nat, eff: Effect)
    requires StreamInv(s) && SizeInv(s) && s.now >= 0 && limit > 0 && FittingStep(s, a, limit, eff)
    ensures Step(s, a, limit, eff).now >= 0 && SizeInv(Step(s, a, limit, eff))
  {
    hide FeedState, Exec, Touch, AllWellFormed, CrashState, EncodeAll, RewriteLog, FlushState, StopState, NoMoreChild,
         ChannelStep, ChannelInv, BytesInv, Fits, CmdFits, CanFork, Sendable;
    match a
    case Run(db, cmd) =>
      if db < |s.dbs| {
        ExecFits(s.dbs, db, cmd, s.now, eff);
        FeedSize(s, Exec(s.dbs, db, cmd, Env(s.now, false), eff));
      }
    case ExpireKey(db, key) =>
      if db < |s.dbs| {
        TouchFits(s.dbs, db, key, s.now);
        FeedSize(s, Touch(s.dbs, db, key, Env(s.now, false)));
      }
    case Fork(ok, late, plans) =>
      NoneWellFormed();
      if ok && CanFork(s, plans) { SnapshotSize(s, late, plans, limit); }
    case StartAof(openOk, forkOk, late, plans) =>
      NoneWellFormed();
      if openOk && forkOk && CanFork(s, plans) { SnapshotSize(s, late, plans, limit); }
    case Crash => if s.aof.state == On { CrashSize(s, eff); }
    case Reap(_) => WellFormedConcat(s.snapLog, s.diffLog);
    case _ =>
  }

  lemma SnapshotSize(s: State, late: nat, plans: seq<seq<KeyPlan>>, limit: nat)
    requires limit > 0 && CanFork(s, plans) && Fits(s.dbs, limit)
    ensures AllWellFormed(Forked(s, late, plans, limit).snapLog)
  {
    RewriteFits(plans, s.dbs, s.now + late, limit, |s.dbs|);
  }

  lemma {:induction false} RunAllSized(s: State, actions: seq<Action>, limit: nat, eff: Effect)
    requires StreamInv(s) && SizeInv(s) && s.now >= 0 && limit > 0 && FittingRun(s, actions, limit, eff)
    ensures SizeInv(RunAll(s, actions, limit, eff))
    decreases |actions|
  {
    if actions != [] {
      StepStream(s, actions[0], limit, eff);
      StepSized(s, actions[0], limit, eff);
      hide StreamInv, SizeInv, Step, FittingStep;
      RunAllSized(Step(s, actions[0], limit, eff), actions[1..], limit, eff);
    }
  }

  // ---- What it means, over every run ----

  /** Everything the log ever holds is a command the loader accepts, if the commands sent and the
      data sets forked fit the C types. */
  lemma LogAccepted(n: nat, actions: seq<Action>, limit: nat, eff: Effect)
    requires 0 < n <= INT_MAX && limit > 0
    requires FittingRun(Initial(n), actions, limit, eff)
    ensures AllWellFormed(RunAll(Initial(n), actions, limit, eff).log)
  {
    InitialStream(n);
    RunAllSized(Initial(n), actions, limit, eff);
  }

  /** With the file on, loading what is on disk followed by what is still buffered, at any time,
      gives the current data set up to keys past their expiry: at once, or from the time the child
      that wrote the file's snapshot read its clock if that is still to come. */
  lemma Durable(n: nat, actions: seq<Action>, limit: nat, loadTime: int, eff: Effect)
    requires n > 0 && limit > 0 && CarefulRun(Initial(n), actions, limit, eff)
    ensures var s := RunAll(Initial(n), actions, limit, eff);
            s.aof.state == On && AllWellFormed(s.log) ==>
              var l := Loaded(s.aof.file + s.aof.buf);
              && l.end == Complete
              && Agree(s.dbs, LoadLog(Start(n), l.run, loadTime, eff).dbs, Later(s.now, s.fileFrom))
  {
    var s := RunAll(Initial(n), actions, limit, eff);
    InitialStream(n);
    RunAllInv(Initial(n), actions, limit, eff);
    RunAllStream(Initial(n), actions, limit, eff);
    if s.aof.state == On && AllWellFormed(s.log) {
      LoadInvertsEncode(s.log);
      LoadAnyTime(Start(n), s.log, 0, loadTime, eff);
    }
  }

  /** Every child reads its clock at the fork. */
  predicate Prompt(a: Action) {
    match a
    case Fork(_, late, _) => late == 0
    case StartAof(_, _, late, _) => late == 0
    case _ => true
  }

  predicate AllPrompt(actions: seq<Action>) { forall i :: 0 <= i < |actions| ==> Prompt(actions[i]) }

  /** While commands are fed to the file or to a child, every one that runs is lossless. */
  predicate LosslessStep(s: State, a: Action, eff: Effect) {
    a.Run? && (s.aof.state == On || (s.aof.state != Off && s.child.Child?)) ==>
      Lossless(s.dbs, a.db, a.cmd, s.now, eff)
  }

  predicate LosslessRun(s: State, actions: seq<Action>, limit: nat, eff: Effect)
    requires limit > 0 && s.dbs != []
    decreases |actions|
  {
    if actions == [] then true
    else
      StepSize(s, actions[0], limit, eff);
      LosslessStep(s, actions[0], eff) && LosslessRun(Step(s, actions[0], limit, eff), actions[1..], limit, eff)
  }

  predicate NothingPending(s: State) { s.fileFrom <= s.now && s.snapFrom <= s.now }

  lemma PromptStep(s: State, a: Action, limit: nat, eff: Effect)
    requires limit > 0 && s.dbs != [] && s.now >= 0 && NothingPending(s) && Prompt(a) && LosslessStep(s, a, eff)
    ensures CarefulStep(s, a, eff)
    ensures var t := Step(s, a, limit, eff); t.now >= 0 && NothingPending(t)
  {
    hide Careful, Lossless, Exec, Touch, FeedState, FlushState, StopState, NoMoreChild, ChannelStep, EncodeAll,
         RewriteLog, CanFork, Loaded, LoadLog, AllWellFormed, Sendable;
    if a.Run? { CarefulNow(s.dbs, a.db, a.cmd, s.now, eff); }
  }

  /** Then a run is careful when its commands are lossless: nothing is asked about expiry times. */
  lemma {:induction false} PromptCareful(s: State, actions: seq<Action>, limit: nat, eff: Effect)
    requires limit > 0 && s.dbs != [] && s.now >= 0 && NothingPending(s) && AllPrompt(actions)
    requires LosslessRun(s, actions, limit, eff)
    ensures CarefulRun(s, actions, limit, eff) && NothingPending(RunAll(s, actions, limit, eff))
    decreases |actions|
  {
    if actions != [] {
      PromptStep(s, actions[0], limit, eff);
      StepSize(s, actions[0], limit, eff);
      hide Step, CarefulStep, NothingPending, Prompt, LosslessStep;
      PromptCareful(Step(s, actions[0], limit, eff), actions[1..], limit, eff);
    }
  }

  /** For children that read their clock at the fork: nothing is asked of the run but that its
      commands and data sets fit the C types, and that while there is a file INCRBYFLOAT does not
      run on a key with an expiry nor RESTORE with a time to live. */
  lemma DurablePrompt(n: nat, actions: seq<Action>, limit: nat, loadTime: int, eff: Effect)
    requires 0 < n <= INT_MAX && limit > 0
    requires AllPrompt(actions) && LosslessRun(Initial(n), actions, limit, eff)
    requires FittingRun(Initial(n), actions, limit, eff)
    ensures var s := RunAll(Initial(n), actions, limit, eff);
            s.aof.state == On ==>
              var l := Loaded(s.aof.file + s.aof.buf);
              && l.end == Complete
              && Agree(s.dbs, LoadLog(Start(n), l.run, loadTime, eff).dbs, s.now)
  {
    hide FittingRun, LosslessRun, CarefulRun, RunAll;
    PromptCareful(Initial(n), actions, limit, eff);
    LogAccepted(n, actions, limit, eff);
    Durable(n, actions, limit, loadTime, eff);
  }

  /** That cannot be dropped: with the file on, a command that is not lossless leaves a file that,
      loaded at another millisecond than it ran, disagrees with the data set at every later time. */
  lemma LossyBreaks(s: State, db: nat, cmd: Cmd, limit: nat, later: int, loadTime: int, eff: Effect)
    requires Inv(s, eff) && limit > 0 && s.aof.state == On && db < |s.dbs| && Sendable(cmd) && loadTime != s.now
    requires !Lossless(s.dbs, db, cmd, s.now, eff)
    ensures var t := Step(s, Run(db, cmd), limit, eff);
            |t.dbs| == |s.dbs| && !Agree(t.dbs, LoadLog(Start(|s.dbs|), t.log, loadTime, eff).dbs, later)
  {
    hide Agree, Exec, LoadLog, EncodeAll, Valid, RewriteInv, FixedLog, Lossless, Sendable;
    LossyKinds(s.dbs, db, cmd, s.now, eff);
    var o := Exec(s.dbs, db, cmd, Env(s.now, false), eff);
    var r := LoadLog(Start(|s.dbs|), s.log, loadTime, eff);
    LoadAnyTime(Start(|s.dbs|), s.log, loadTime, 0, eff);
    CareNeeded(s.dbs, r.dbs, db, cmd, Later(s.now, s.fileFrom), s.now, later, loadTime, eff);
    SendableShaped(cmd);
    ExecFeedable(s.dbs, db, cmd, Env(s.now, false), eff);
    LoadFeeds(r, s.aof.selected, o.feeds, s.now, loadTime, eff);
    LoadLogConcat(Start(|s.dbs|), s.log, FeedAll(s.aof.selected, o.feeds, s.now), loadTime, eff);
  }

  lemma LossyKinds(d: Dbs, db: nat, c: Cmd, now: int, eff: Effect)
    requires !Lossless(d, db, c, now, eff)
    ensures c.IncrByFloat? || (c.Restore? && c.ttl > 0)
  {
  }

  lemma SendableShaped(c: Cmd)
    requires Sendable(c)
    ensures Shaped(c)
  {
  }

  /** The file alone is always a prefix of the fed stream: a crash at any moment, even in the
      middle of a write, loses at most the commands that had not reached it whole. */
  lemma CrashSafe(n: nat, actions: seq<Action>, limit: nat, eff: Effect) returns (k: nat)
    requires n > 0 && limit > 0
    ensures var s := RunAll(Initial(n), actions, limit, eff);
            s.aof.state == On && AllWellFormed(s.log) ==>
              && s.aof.file <= EncodeAll(s.log)
              && LongestPrefix(s.log, |s.aof.file|, k)
              && Loaded(s.aof.file) == CutResult(s.log, |s.aof.file|, k)
  {
    var s := RunAll(Initial(n), actions, limit, eff);
    InitialStream(n);
    RunAllStream(Initial(n), actions, limit, eff);
    k := 0;
    if s.aof.state == On && AllWellFormed(s.log) { k := CrashLoads(s); }
  }

  /** In every interleaving of a rewrite, the bytes fed since the fork are split in order between
      the child, the pipe and the parent; and whenever a finished child is reaped successfully
      the new file is its snapshot followed by exactly those bytes. */
  lemma RewriteLosesNothing(n: nat, actions: seq<Action>, limit: nat, eff: Effect)
    requires n > 0 && limit > 0
    ensures var s := RunAll(Initial(n), actions, limit, eff);
            s.child.Child? ==>
              && s.child.diff + s.pipe + s.pending == EncodeAll(s.diffLog)
              && (s.child.phase in {Drained, Exited(true)} ==> s.pipe == [])
              && (s.child.phase == Exited(true) ==>
                    ReapState(s, true).aof.file == EncodeAll(s.snapLog) + EncodeAll(s.diffLog))
  {
    hide EncodeAll, RunAll;
    var s := RunAll(Initial(n), actions, limit, eff);
    InitialStream(n);
    RunAllStream(Initial(n), actions, limit, eff);
    if s.child.Child? && s.child.phase == Exited(true) {
      InstalledBytes(s);
      EncodeAllConcat(s.snapLog, s.diffLog);
    }
  }

  /** A successful rewrite switches the file on: reaping a child that exited well installs a file
      that loads completely, agrees with the data set and has nothing left to be written. */
  lemma RewriteSwitchesOn(n: nat, actions: seq<Action>, limit: nat, loadTime: int, eff: Effect)
    requires 0 < n <= INT_MAX && limit > 0
    requires CarefulRun(Initial(n), actions, limit, eff) && FittingRun(Initial(n), actions, limit, eff)
    ensures var s := RunAll(Initial(n), actions, limit, eff);
            s.aof.state != Off && s.child.Child? && s.child.phase == Exited(true) ==>
              var t := Step(s, Reap(true), limit, eff);
              var l := Loaded(t.aof.file);
              && t.aof.state == On && t.aof.fd && t.aof.buf == [] && t.aof.size == |t.aof.file|
              && t.child.NoChild? && t.dbs == s.dbs && l.end == Complete
              && Agree(t.dbs, LoadLog(Start(n), l.run, loadTime, eff).dbs, Later(t.now, s.snapFrom))
  {
    hide Inv, StreamInv, SizeInv, RunAll, CarefulRun, FittingRun, LoadLog, Agree, Loaded, Step;
    var s := RunAll(Initial(n), actions, limit, eff);
    RunAllGood(n, actions, limit, eff);
    if s.aof.state != Off && s.child.Child? && s.child.phase == Exited(true) {
      ReapSwitchesOn(s, limit, loadTime, eff);
    }
  }

  lemma RunAllGood(n: nat, actions: seq<Action>, limit: nat, eff: Effect)
    requires 0 < n <= INT_MAX && limit > 0
    requires CarefulRun(Initial(n), actions, limit, eff) && FittingRun(Initial(n), actions, limit, eff)
    ensures var s := RunAll(Initial(n), actions, limit, eff); Inv(s, eff) && StreamInv(s) && SizeInv(s)
  {
    InitialStream(n);
    RunAllInv(Initial(n), actions, limit, eff);
    RunAllStream(Initial(n), actions, limit, eff);
    RunAllSized(Initial(n), actions, limit, eff);
  }

  lemma ReapSwitchesOn(s: State, limit: nat, loadTime: int, eff: Effect)
    requires Inv(s, eff) && StreamInv(s) && SizeInv(s) && limit > 0
    requires s.aof.state != Off && s.child.Child? && s.child.phase == Exited(true)
    ensures var t := Step(s, Reap(true), limit, eff);
            var l := Loaded(t.aof.file);
            && t.aof.state == On && t.aof.fd && t.aof.buf == [] && t.aof.size == |t.aof.file|
            && t.child.NoChild? && t.dbs == s.dbs && l.end == Complete
            && Agree(t.dbs, LoadLog(Start(|s.dbs|), l.run, loadTime, eff).dbs, Later(t.now, s.snapFrom))
  {
    hide EncodeAll, LoadLog, Agree, FixedLog, Loaded, AllWellFormed;
    var t := ReapState(s, true);
    ReapInv(s, true, eff);
    ReapStream(s, true);
    WellFormedConcat(s.snapLog, s.diffLog);
    assert t.aof.file + [] == t.aof.file;
    LoadInvertsEncode(t.log);
    LoadAnyTime(Start(|s.dbs|), t.log, 0, loadTime, eff);
  }

  /** The steps of a rewrite that nothing disturbs, from the moment the child asks to stop. */
  function Finish(): seq<Action> {
    [ChildAsks, ParentReadsAsk(true), ChildReadsAck, ChildDrains, ChildExits(true), Reap(true)]
  }

  /** The handshake can always be completed while the child writes its snapshot, wherever the bytes
      fed since the fork are, and then the file is on and holds them all. */
  lemma RewriteCanFinish(s: State, limit: nat, eff: Effect)
    requires StreamInv(s) && limit > 0 && s.aof.state != Off && s.child.Child? && s.child.phase == Snapshot
    ensures var t := RunAll(s, Finish(), limit, eff);
            && t.aof.state == On && t.child.NoChild? && t.dbs == s.dbs && t.log == s.snapLog + s.diffLog
            && t.aof.file == EncodeAll(s.snapLog) + EncodeAll(s.diffLog) && t.aof.buf == []
  {
    hide EncodeAll, RunAll, Step;
    var e := Shaken(s);
    HandshakeEnds(s, limit, eff);
    ShakenStream(s);
    InstalledBytes(e);
    EncodeAllConcat(s.snapLog, s.diffLog);
    var t := ReapState(e, true);
    ReapStep(e, limit, eff);
    RunStep(e, [Reap(true)], t, limit, eff);
    assert [Reap(true)][1..] == [];
    RunNone(t, limit, eff);
  }

  /** After the handshake the child has all that was in the pipe. */
  function Shaken(s: State): State
    requires s.child.Child?
  {
    s.(child := Child(Exited(true), s.child.diff + s.pipe), pipe := [], stop := true, asked := false, acked := false)
  }

  lemma ShakenStream(s: State)
    requires StreamInv(s) && s.child.Child?
    ensures StreamInv(Shaken(s))
  {
    hide EncodeAll;
    assert s.child.diff + s.pipe + [] + s.pending == s.child.diff + s.pipe + s.pending;
  }

  lemma HandshakeEnds(s: State, limit: nat, eff: Effect)
    requires StreamInv(s) && limit > 0 && s.child.Child? && s.child.phase == Snapshot
    ensures RunAll(s, Finish(), limit, eff) == RunAll(Shaken(s), [Reap(true)], limit, eff)
  {
    hide EncodeAll, RunAll, Exec, Touch, FeedState, FlushState, StopState, StartState, Forked, ReapState, CrashState,
         CanFork, AllWellFormed, ChannelInv, BytesInv;
    var a := s.(child := Child(AskedStop, s.child.diff), asked := true);
    var b := a.(asked := false, stop := true, acked := true);
    var c := b.(child := Child(GotAck, s.child.diff), acked := false);
    var d := c.(child := Child(Drained, s.child.diff + s.pipe), pipe := []);
    var actions := Finish();
    RunStep(s, actions, a, limit, eff);
    RunStep(a, actions[1..], b, limit, eff);
    assert actions[1..][1..] == actions[2..];
    RunStep(b, actions[2..], c, limit, eff);
    assert actions[2..][1..] == actions[3..];
    RunStep(c, actions[3..], d, limit, eff);
    assert actions[3..][1..] == actions[4..];
    RunStep(d, actions[4..], Shaken(s), limit, eff);
    assert actions[4..][1..] == [Reap(true)];
  }

  lemma ReapStep(s: State, limit: nat, eff: Effect)
    requires limit > 0 && s.dbs != [] && s.child.Child? && s.child.phase.Exited?
    ensures Step(s, Reap(true), limit, eff) == ReapState(s, true)
  {
  }

  lemma RunStep(s: State, actions: seq<Action>, t: State, limit: nat, eff: Effect)
    requires limit > 0 && s.dbs != [] && actions != [] && t == Step(s, actions[0], limit, eff) && t.dbs != []
    ensures RunAll(s, actions, limit, eff) == RunAll(t, actions[1..], limit, eff)
  {
  }

  lemma RunNone(s: State, limit: nat, eff: Effect)
    requires limit > 0 && s.dbs != []
    ensures RunAll(s, [], limit, eff) == s
  {
  }

  /** Switching the file on with no other child about forks one, in the state RewriteCanFinish
      starts from. */
  lemma StartForks(s: State, late: nat, plans: seq<seq<KeyPlan>>, limit: nat, eff: Effect)
    requires StreamInv(s) && limit > 0 && s.aof.state == Off && s.child.NoChild? && !s.rdbChild
    requires PlansUpTo(plans, s.dbs, |s.dbs|)
    ensures var t := Step(s, StartAof(true, true, late, plans), limit, eff);
            && StreamInv(t) && t.aof.state == WaitRewrite && t.child == Child(Snapshot, []) && t.dbs == s.dbs
            && t.snapLog == RewriteLog(plans, s.dbs, s.now + late, limit, |s.dbs|) && t.diffLog == []
  {
    hide EncodeAll, RewriteLog, PlansUpTo;
    StepStream(s, StartAof(true, true, late, plans), limit, eff);
  }

  /** A child may fail at any time. Reaping it changes neither the file nor the log, whatever the
      parent can do, and a server that waits for the rewrite schedules another. */
  lemma FailedRewrite(s: State, installOk: bool, limit: nat, eff: Effect)
    requires limit > 0 && s.dbs != [] && s.child.Child? && !s.child.phase.Exited?
    ensures var t := Step(Step(s, ChildExits(false), limit, eff), Reap(installOk), limit, eff);
            && t.child.NoChild? && t.pending == [] && t.pipe == [] && t.dbs == s.dbs && t.log == s.log
            && t.aof == s.aof.(scheduled := s.aof.scheduled || s.aof.state == WaitRewrite)
  {
  }

  /** Everything queued can be sent until the child has asked to stop, and everything in the pipe
      read while it writes its snapshot. */
  lemma ChannelMoves(s: State, limit: nat, eff: Effect)
    requires limit > 0 && s.dbs != [] && s.child.Child?
    ensures !s.stop ==>
              Step(s, SendDiff(|s.pending|), limit, eff) == s.(pending := [], pipe := s.pipe + s.pending)
    ensures s.child.phase == Snapshot ==>
              Step(s, ChildReads(|s.pipe|), limit, eff)
              == s.(pipe := [], child := Child(Snapshot, s.child.diff + s.pipe))
  {
    assert s.pending[..|s.pending|] == s.pending && s.pending[|s.pending|..] == [];
    assert s.pipe[..|s.pipe|] == s.pipe && s.pipe[|s.pipe|..] == [];
  }

  /** While an RDB child runs no rewrite is forked: switching the file on waits for it. */
  lemma RdbChildFirst(s: State, late: nat, plans: seq<seq<KeyPlan>>, limit: nat, eff: Effect)
    requires limit > 0 && s.dbs != [] && s.child.NoChild?
    ensures var t := Step(s, RdbStart, limit, eff);
            && t == s.(rdbChild := true) && Step(t, RdbEnd, limit, eff) == s.(rdbChild := false)
            && Step(t, Fork(true, late, plans), limit, eff) == t
            && (s.aof.state == Off ==>
                  Step(t, StartAof(true, true, late, plans), limit, eff)
                  == t.(aof := s.aof.(fd := true, state := WaitRewrite, scheduled := true)))
  {
    hide PlansUpTo;
  }

  // ---- The child's clock ----

  /** Without care the loss can become permanent: here the parent makes the key persistent while it
      is still alive, and the loaded file lacks it at every later time. */
  lemma LateSnapshotLosesKey(t: int, loadTime: int, eff: Effect)
    ensures var dbs := [map["k" := Entry(Str("v"), Some(5))]];
            var o := Exec(dbs, 0, Persist("k"), Env(3, false), eff);
            && o.dbs == [map["k" := Entry(Str("v"), None)]]
            && !Agree(o.dbs, ReplayFeeds(LiveAt(dbs, 9), o.feeds, 3, loadTime, eff), t)
  {
    var dbs := [map["k" := Entry(Str("v"), Some(5))]];
    var o := Exec(dbs, 0, Persist("k"), Env(3, false), eff);
    var f := Feed(0, Persist("k"));
    assert o.dbs[0] == map["k" := Entry(Str("v"), None)];
    assert FeedsIn(0, [Persist("k")][1..]) == [];
    assert o.feeds == [f];
    var r := LiveAt(dbs, 9);
    assert "k" !in r[0];
    ReplayPlain(r, f, 3, loadTime, eff);
    var r' := ReplayFeeds(r, o.feeds, 3, loadTime, eff);
    assert "k" !in r'[0];
    assert !AgreeDb(o.dbs[0], r'[0], t);
  }
}

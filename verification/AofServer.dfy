/** The parent's side of the append-only file: feeding the buffers, flushing to disk and
    installing the file a child rewrote (aof.c:206-448, 512-576, 1337-1395, 1438-1585). */
module AofServer {
  import opened Common
  import opened Resp
  import opened Dataset
  import opened AofLog
  import RB = RewriteBuffer

  datatype AofState = Off | WaitRewrite | On

  /** What the steps below read and write. `fd` is aof_fd != -1, `file` the content of the file
      on disk, `size` aof_current_size, `selected` aof_selected_db. */
  datatype Aof = Aof(state: AofState, fd: bool, file: Bytes, buf: Bytes, size: nat, selected: int, scheduled: bool)

  // ---- Flushing ----

  /** ftruncate: cut, or extend with zero bytes. */
  function Truncate(f: Bytes, size: nat): Bytes {
    if size <= |f| then f[..size] else f + seq(size - |f|, _ => '\0')
  }

  /** flushAppendOnlyFile past the point where it decides to write; `n` is what write returned
      and `truncateOk` whether ftruncate works. */
  function Flushed(a: Aof, n: int, truncateOk: bool): Aof
    requires -1 <= n <= |a.buf|
  {
    if n == |a.buf| then a.(file := a.file + a.buf, size := a.size + n, buf := [])
    else if n == -1 then a
    else if truncateOk then a.(file := Truncate(a.file + a.buf[..n], a.size))
    else a.(file := a.file + a.buf[..n], size := a.size + n, buf := a.buf[n..])
  }

  /** Full, failed or short, undone or not: no byte is lost, repeated or reordered, and the
      recorded size stays the length of the file, which only grows. */
  lemma FlushKeepsStream(a: Aof, n: int, truncateOk: bool)
    requires -1 <= n <= |a.buf| && a.size == |a.file|
    ensures var b := Flushed(a, n, truncateOk);
            b.file + b.buf == a.file + a.buf && b.size == |b.file| && a.file <= b.file
    ensures Flushed(a, n, truncateOk).buf == if n == |a.buf| then [] else if n == -1 || truncateOk then a.buf
                                             else a.buf[n..]
    ensures Flushed(a, n, truncateOk).state == a.state && Flushed(a, n, truncateOk).fd == a.fd
            && Flushed(a, n, truncateOk).selected == a.selected
  {
    if n == -1 {
    } else if n == |a.buf| {
      assert a.file + a.buf + [] == a.file + a.buf;
    } else if truncateOk {
      assert (a.file + a.buf[..n])[..a.size] == a.file;
    } else {
      assert a.buf == a.buf[..n] + a.buf[n..];
      Assoc(a.file, a.buf[..n], a.buf[n..]);
    }
  }

  datatype FsyncPolicy = FsyncNo | FsyncAlways | FsyncEverysec

  /** What happened to the bytes written: synced before returning, handed to the background
      thread, or left to the system. */
  datatype Fsync = NotSynced | Synced | InBackground

  // ---- Installing a rewritten file ----

  /** backgroundRewriteDoneHandler: `installed` is the new content when the child succeeded and
      the temporary file could be opened, completed and renamed. */
  function RewriteDone(a: Aof, installed: Option<Bytes>): Aof {
    var b := match installed
      case None => a
      case Some(f) =>
        var c := if !a.fd then a.(file := f) else a.(file := f, size := |f|, selected := -1, buf := []);
        c.(state := if a.state == WaitRewrite then On else a.state);
    if b.state == WaitRewrite then b.(scheduled := true) else b
  }

  // ---- Forking, switching on and off ----

  /** rewriteAppendOnlyFileBackground, in the parent, after a successful fork. */
  function AofForked(a: Aof): Aof { a.(selected := -1, scheduled := false) }

  /** startAppendOnly: wait for a running RDB child, or fork now; when the fork is refused the
      file stays off although a descriptor was opened. */
  function AofStarted(a: Aof, openOk: bool, rdbChild: bool, forked: bool): Aof {
    var b := a.(fd := openOk);
    if !openOk then b
    else if rdbChild then b.(scheduled := true, state := WaitRewrite)
    else if forked then AofForked(b).(state := WaitRewrite)
    else b
  }

  /** stopAppendOnly: flush, close, off. */
  function AofStopped(a: Aof, n: int, truncateOk: bool): Aof
    requires -1 <= n <= |a.buf|
  {
    Flushed(a, n, truncateOk).(fd := false, selected := -1, state := Off)
  }

  class Server {
    var aofState: AofState
    var fd: bool
    var file: Bytes
    var aofBuf: Bytes
    var currentSize: nat
    var selectedDb: int
    var rewriteScheduled: bool
    var childRunning: bool
    var flushPostponedStart: int
    var lastWriteOk: bool
    var lastFsync: int
    const rewriteBuf: RB.Buffer

    ghost predicate Valid()
      reads this, rewriteBuf
    {
      rewriteBuf.Valid() && (!childRunning ==> rewriteBuf.blocks == [])
    }

    ghost function Abs(): Aof
      reads this
    {
      Aof(aofState, fd, file, aofBuf, currentSize, selectedDb, rewriteScheduled)
    }

    constructor (blockSize: nat)
      requires blockSize > 0
      ensures Valid() && !childRunning && Abs() == Aof(On, true, [], [], 0, -1, false)
      ensures fresh(rewriteBuf)
    {
      aofState, fd, file, aofBuf, currentSize, selectedDb := On, true, [], [], 0, -1;
      rewriteScheduled, childRunning, flushPostponedStart := false, false, 0;
      lastWriteOk, lastFsync := true, 0;
      rewriteBuf := new RB.Buffer(blockSize);
    }

    /** feedAppendOnlyFile. */
    method Feed(c: Cmd, argv: Argv, dictid: nat, now: int)
      requires Valid() && Feedable(c) && argv == ArgvOf(c)
      modifies this, rewriteBuf
      ensures Valid() && childRunning == old(childRunning) && rewriteBuf.stop == old(rewriteBuf.stop)
      ensures var bytes := EncodeAll(FeedArgvs(old(selectedDb), Dataset.Feed(dictid, c), now));
              && Abs() == old(Abs()).(selected := dictid, buf := old(aofBuf) + if aofState == On then bytes else [])
              && rewriteBuf.Content() == old(rewriteBuf.Content()) + if childRunning then bytes else []
    {
      var buf;
      buf, selectedDb := BuildFeed(c, argv, dictid, selectedDb, now);
      if aofState == On { aofBuf := aofBuf + buf; }
      if childRunning { rewriteBuf.Append(buf); }
    }

    /** The write waits for a pending background fsync, for less than two seconds. */
    predicate PutOff(force: bool, policy: FsyncPolicy, syncPending: bool, unixtime: int)
      reads this
    {
      && aofBuf != [] && policy == FsyncEverysec && !force && syncPending
      && (flushPostponedStart == 0 || unixtime - flushPostponedStart < 2)
    }

    /** The write in flushAppendOnlyFile and what becomes of a short or failed one. */
    method WriteBuffer(policy: FsyncPolicy, n: int, truncateOk: bool) returns (exits: bool)
      requires aofBuf != [] && -1 <= n <= |aofBuf|
      modifies this`file, this`aofBuf, this`currentSize, this`flushPostponedStart, this`lastWriteOk
      ensures exits <==> policy == FsyncAlways && n != |old(aofBuf)|
      ensures !exits ==> Abs() == Flushed(old(Abs()), n, truncateOk) && lastWriteOk == (n == |old(aofBuf)|)
      ensures n == |old(aofBuf)| ==> file == old(file) + old(aofBuf) && aofBuf == []
      ensures !exits && n == -1 ==> file == old(file) && aofBuf == old(aofBuf)
      ensures !exits && 0 <= n < |old(aofBuf)| ==>
                if truncateOk then aofBuf == old(aofBuf) && (old(currentSize) == |old(file)| ==> file == old(file))
                else file == old(file) + old(aofBuf)[..n] && aofBuf == old(aofBuf)[n..]
      ensures flushPostponedStart == 0
    {
      var written := n;
      file := file + if n > 0 then aofBuf[..n] else [];
      flushPostponedStart := 0;
      if written != |aofBuf| {
        if written != -1 {
          if truncateOk {
            file := Truncate(file, currentSize);
            written := -1;
          }
        }
        if policy == FsyncAlways { return true; }
        lastWriteOk := false;
        if written > 0 {
          currentSize := currentSize + written;
          aofBuf := aofBuf[written..];
        }
        return false;
      }
      lastWriteOk := true;
      currentSize := currentSize + written;
      aofBuf := [];
      exits := false;
    }

    /** The end of flushAppendOnlyFile, after a complete write; `quiet` is
        no-appendfsync-on-rewrite. */
    method SyncAfterWrite(policy: FsyncPolicy, syncPending: bool, quiet: bool, rdbChild: bool, unixtime: int)
      returns (sync: Fsync)
      modifies this`lastFsync
      ensures var idle := quiet && (childRunning || rdbChild);
              && (sync == Synced <==> policy == FsyncAlways && !idle)
              && (sync == InBackground <==>
                    policy == FsyncEverysec && !idle && !syncPending && unixtime > old(lastFsync))
              && (policy == FsyncEverysec && !idle ==> unixtime <= lastFsync)
              && lastFsync in {old(lastFsync), unixtime} && (sync != NotSynced ==> lastFsync == unixtime)
    {
      sync := NotSynced;
      if quiet && (childRunning || rdbChild) { return; }
      if policy == FsyncAlways {
        sync, lastFsync := Synced, unixtime;
      } else if policy == FsyncEverysec && unixtime > lastFsync {
        if !syncPending { sync := InBackground; }
        lastFsync := unixtime;
      }
    }

    /** flushAppendOnlyFile. With the everysec policy the write may be put off for up to two
        seconds while a background fsync is pending; with the always policy a write error makes
        the server exit, so that whatever was buffered is on disk when the call returns, unless
        syncing is switched off while a child runs. */
    method Flush(force: bool, policy: FsyncPolicy, syncPending: bool, quiet: bool, rdbChild: bool, unixtime: int,
                 n: int, truncateOk: bool)
      returns (exits: bool, sync: Fsync)
      requires Valid() && -1 <= n <= |aofBuf|
      modifies this
      ensures Valid() && childRunning == old(childRunning)
      ensures old(PutOff(force, policy, syncPending, unixtime)) ==>
                && Abs() == old(Abs()) && sync == NotSynced
                && flushPostponedStart == if old(flushPostponedStart) == 0 then unixtime else old(flushPostponedStart)
      ensures !exits && !old(PutOff(force, policy, syncPending, unixtime)) ==>
                Abs() == Flushed(old(Abs()), n, truncateOk)
      ensures exits <==> && !old(PutOff(force, policy, syncPending, unixtime)) && old(aofBuf) != []
                         && policy == FsyncAlways && n != |old(aofBuf)|
      ensures !exits && !old(PutOff(force, policy, syncPending, unixtime)) && old(aofBuf) != [] ==>
                lastWriteOk == (n == |old(aofBuf)|)
      ensures force || policy != FsyncEverysec || !syncPending
              || (old(flushPostponedStart) != 0 && unixtime >= old(flushPostponedStart) + 2) ==>
                (n == |old(aofBuf)| ==> file == old(file) + old(aofBuf) && aofBuf == [])
      ensures !force && policy == FsyncEverysec && syncPending
              && (old(flushPostponedStart) == 0 || unixtime < old(flushPostponedStart) + 2) ==>
                file == old(file) && aofBuf == old(aofBuf)
      ensures !exits && policy == FsyncAlways && old(aofBuf) != [] && !(quiet && (childRunning || rdbChild)) ==>
                aofBuf == [] && sync == Synced && lastFsync == unixtime
      ensures sync == InBackground ==>
                aofBuf == [] && !syncPending && old(lastFsync) < unixtime && lastFsync == unixtime
    {
      exits, sync := false, NotSynced;
      if |aofBuf| == 0 {
        assert old(Abs()) == Flushed(old(Abs()), n, truncateOk) by { assert file + aofBuf == file; }
        return;
      }
      if policy == FsyncEverysec && !force && syncPending {
        if flushPostponedStart == 0 {
          flushPostponedStart := unixtime;
          return;
        } else if unixtime - flushPostponedStart < 2 {
          return;
        }
      }
      var length := |aofBuf|;
      exits := WriteBuffer(policy, n, truncateOk);
      if exits || n != length { return; }
      sync := SyncAfterWrite(policy, syncPending, quiet, rdbChild, unixtime);
    }

    /** rewriteAppendOnlyFileBackground, in the parent. */
    method Fork(rdbChild: bool, forkOk: bool) returns (forked: bool)
      requires Valid()
      modifies `rewriteScheduled, `childRunning, `selectedDb, rewriteBuf
      ensures Valid() && rewriteBuf.Content() == old(rewriteBuf.Content())
      ensures rewriteBuf.stop == (old(childRunning || rdbChild) && old(rewriteBuf.stop))
      ensures forked <==> !old(childRunning) && !rdbChild && forkOk
      ensures childRunning == (old(childRunning) || forked)
      ensures Abs() == if forked then AofForked(old(Abs())) else old(Abs())
      ensures forked ==> selectedDb == -1 && !rewriteScheduled
    {
      forked := false;
      if childRunning || rdbChild { return; }
      rewriteBuf.OpenPipes();
      if !forkOk { return; }
      rewriteScheduled := false;
      childRunning := true;
      selectedDb := -1;
      forked := true;
    }

    /** startAppendOnly. */
    method StartAppendOnly(openOk: bool, rdbChild: bool, forkOk: bool, unixtime: int) returns (ok: bool)
      requires Valid() && aofState == Off
      modifies this, rewriteBuf
      ensures Valid() && rewriteBuf.Content() == old(rewriteBuf.Content())
      ensures rewriteBuf.stop == (old(childRunning || rdbChild || !openOk) && old(rewriteBuf.stop))
      ensures var forked := openOk && !old(childRunning) && !rdbChild && forkOk;
              && childRunning == (old(childRunning) || forked)
              && Abs() == AofStarted(old(Abs()), openOk, rdbChild, forked)
              && aofState == (if openOk && (rdbChild || forked) then WaitRewrite else Off)
              && rewriteScheduled == (if openOk && rdbChild then true else old(rewriteScheduled) && !forked)
              && (forked ==> selectedDb == -1)
      ensures fd == openOk && file == old(file) && aofBuf == old(aofBuf) && currentSize == old(currentSize)
      ensures (ok <==> aofState == WaitRewrite) && lastFsync == unixtime
    {
      lastFsync := unixtime;
      fd := openOk;
      if !fd { return false; }
      if rdbChild {
        rewriteScheduled := true;
      } else {
        var forked := Fork(rdbChild, forkOk);
        if !forked { return false; }
      }
      aofState := WaitRewrite;
      ok := true;
    }

    /** stopAppendOnly; a running child is killed and what it was to be sent is dropped. */
    method StopAppendOnly(policy: FsyncPolicy, syncPending: bool, quiet: bool, rdbChild: bool, unixtime: int,
                          n: int, truncateOk: bool)
      returns (exits: bool)
      requires Valid() && aofState != Off && -1 <= n <= |aofBuf|
      modifies this, rewriteBuf
      ensures exits <==> old(aofBuf) != [] && policy == FsyncAlways && n != |old(aofBuf)|
      ensures !exits ==> Valid() && !childRunning && Abs() == AofStopped(old(Abs()), n, truncateOk)
      ensures !exits ==> aofState == Off && !fd && selectedDb == -1
      ensures n == |old(aofBuf)| ==> file == old(file) + old(aofBuf) && aofBuf == []
    {
      var sync;
      exits, sync := Flush(true, policy, syncPending, quiet, rdbChild, unixtime, n, truncateOk);
      if exits { return; }
      fd := false;
      selectedDb := -1;
      aofState := Off;
      if childRunning {
        rewriteBuf.Reset();
        childRunning := false;
      }
    }

    /** aofChildWriteDiffData, when the pipe to the child can be written. */
    method SendDiff(outcomes: seq<int>) returns (sent: Bytes)
      requires Valid()
      modifies rewriteBuf
      ensures Valid() && rewriteBuf.stop == old(rewriteBuf.stop)
      ensures old(rewriteBuf.Content()) == sent + rewriteBuf.Content()
      ensures rewriteBuf.stop || !childRunning ==> sent == []
    {
      ghost var calls;
      sent, calls := rewriteBuf.SendDiff(outcomes);
    }

    /** aofChildPipeReadable, when the child asked to stop. */
    method ChildAsked()
      requires Valid()
      modifies rewriteBuf
      ensures Valid() && rewriteBuf.Content() == old(rewriteBuf.Content()) && rewriteBuf.stop
    {
      rewriteBuf.StopSending();
    }

    /** backgroundRewriteDoneHandler, with `temp` the file the child left behind. */
    method BackgroundRewriteDone(childOk: bool, temp: Bytes, openOk: bool, writes: seq<int>, renameOk: bool,
                                 policy: FsyncPolicy)
      returns (ghost installed: Option<Bytes>, sync: Fsync)
      requires Valid() && childRunning
      modifies this, rewriteBuf
      ensures Valid() && !childRunning
      ensures installed.Some? <==> childOk && openOk && old(rewriteBuf.WritesAll(writes)) && renameOk
      ensures installed.Some? ==> installed.value == temp + old(rewriteBuf.Content())
      ensures Abs() == RewriteDone(old(Abs()), installed)
      ensures aofState == if installed.Some? && old(aofState) == WaitRewrite then On else old(aofState)
      ensures rewriteScheduled == (old(rewriteScheduled) || aofState == WaitRewrite)
      ensures file == (if installed.Some? then installed.value else old(file)) && fd == old(fd)
      ensures if installed.Some? && fd then selectedDb == -1 && currentSize == |file| && aofBuf == []
              else selectedDb == old(selectedDb) && currentSize == old(currentSize) && aofBuf == old(aofBuf)
      ensures sync == if installed.None? || !fd || policy == FsyncNo then NotSynced
                      else if policy == FsyncAlways then Synced else InBackground
    {
      installed, sync := None, NotSynced;
      if childOk && openOk {
        var diff, ok := rewriteBuf.WriteAll(writes);
        if ok && renameOk {
          installed := Some(temp + diff);
          file := temp + diff;
          if fd {
            if policy == FsyncAlways { sync := Synced; } else if policy == FsyncEverysec { sync := InBackground; }
            selectedDb := -1;
            currentSize := |file|;
            aofBuf := [];
          }
          if aofState == WaitRewrite { aofState := On; }
        }
      }
      rewriteBuf.Reset();
      childRunning := false;
      if aofState == WaitRewrite { rewriteScheduled := true; }
    }
  }
}

/** Time events of the event loop (ae.c:190-335): a singly linked list that callbacks change while
    it is being walked. */
module Timers {

  const DELETED: int := -1
  const NO_MORE: int := -1

  datatype Time = Time(sec: int, ms: int)

  function Total(t: Time): int { 1000 * t.sec + t.ms }

  /** Seconds are compared first, then milliseconds. */
  predicate Reached(now: Time, when: Time) { now.sec > when.sec || (now.sec == when.sec && now.ms >= when.ms) }

  /** Normal form, which every clock reading has. */
  predicate Normal(t: Time) { 0 <= t.ms < 1000 }

  /** The comparison is exact for a time in normal form, and never early for one a negative delay put
      out of it, which is reached at its second. */
  lemma ReachedIsTotal(now: Time, when: Time)
    requires Normal(now) && -1000 < when.ms < 1000
    ensures Normal(when) ==> (Reached(now, when) <==> Total(now) >= Total(when))
    ensures !Normal(when) ==> (Reached(now, when) <==> now.sec >= when.sec)
    ensures Reached(now, when) ==> Total(now) >= Total(when)
  {
  }

  /** Quotient towards zero, as C divides. */
  function Quotient(a: int, b: nat): int
    requires b > 0
  {
    if a >= 0 then a / b else -((-a) / b)
  }

  /** aeAddMillisecondsToNow: exact for any number of milliseconds, in normal form for a delay. */
  method AddMillisecondsToNow(milliseconds: int, now: Time) returns (when: Time)
    ensures Total(when) == Total(now) + milliseconds
    ensures milliseconds >= 0 && Normal(now) ==> Normal(when)
    ensures Normal(now) ==> -1000 < when.ms < 1000
  {
    var q := Quotient(milliseconds, 1000);
    when := Time(now.sec + q, now.ms + (milliseconds - 1000 * q));
    if when.ms >= 1000 { when := Time(when.sec + 1, when.ms - 1000); }
  }

  class Timer {
    var id: int
    var when: Time
    var next: Timer?

    constructor (id: int, when: Time, next: Timer?)
      ensures this.id == id && this.when == when && this.next == next
    {
      this.id, this.when, this.next := id, when, next;
    }
  }

  // ---- The chain ----

  ghost predicate Distinct(ts: seq<Timer>) { forall i, j :: 0 <= i < j < |ts| ==> ts[i] != ts[j] }

  ghost function First(ts: seq<Timer>, otherwise: Timer?): Timer? { if ts == [] then otherwise else ts[0] }

  ghost predicate Chain(ts: seq<Timer>, after: Timer?)
    reads ts`next
    decreases |ts|
  {
    ts != [] ==> ts[0].next == First(ts[1..], after) && Chain(ts[1..], after)
  }

  lemma {:induction false} Splice(a: seq<Timer>, b: seq<Timer>, after: Timer?)
    ensures Chain(a + b, after) <==> Chain(a, First(b, after)) && Chain(b, after)
    decreases |a|
  {
    if a == [] {
      assert a + b == b;
    } else {
      assert (a + b)[1..] == a[1..] + b;
      Splice(a[1..], b, after);
    }
  }

  ghost function IdsOf(ts: seq<Timer>): (ids: seq<int>)
    reads ts`id
    ensures |ids| == |ts| && forall i :: 0 <= i < |ts| ==> ids[i] == ts[i].id
  {
    if ts == [] then [] else [ts[0].id] + IdsOf(ts[1..])
  }

  lemma IdsConcat(a: seq<Timer>, b: seq<Timer>)
    ensures IdsOf(a + b) == IdsOf(a) + IdsOf(b)
  {
  }

  /** Ids already given out, no two alive with the same. */
  predicate GoodIds(ids: seq<int>, nextId: int) {
    && (forall i :: 0 <= i < |ids| ==> DELETED <= ids[i] < nextId)
    && (forall i, j :: 0 <= i < j < |ids| && ids[i] != DELETED ==> ids[i] != ids[j])
  }

  /** The ids once those in `gone` have been deleted. */
  function Mark(ids: seq<int>, gone: set<int>): (r: seq<int>)
    ensures |r| == |ids| && forall i :: 0 <= i < |ids| ==> r[i] == if ids[i] in gone then DELETED else ids[i]
  {
    seq(|ids|, i requires 0 <= i < |ids| => if ids[i] in gone then DELETED else ids[i])
  }

  lemma MarkGood(ids: seq<int>, gone: set<int>, nextId: int)
    requires GoodIds(ids, nextId) && nextId >= 0
    ensures GoodIds(Mark(ids, gone), nextId)
  {
  }

  lemma MarkTwice(ids: seq<int>, a: set<int>, b: set<int>)
    ensures Mark(Mark(ids, a), b) == Mark(ids, a + b)
    ensures Mark(ids, {}) == ids
  {
  }

  lemma MarkConcat(x: seq<int>, y: seq<int>, gone: set<int>)
    ensures Mark(x + y, gone) == Mark(x, gone) + Mark(y, gone)
  {
  }

  datatype Action = Create(ms: int, at: Time) | Delete(id: int)

  predicate OnlyDeletes(actions: seq<Action>) { forall i :: 0 <= i < |actions| ==> actions[i].Delete? }

  /** The ids a callback deletes. */
  function DeletedIds(actions: seq<Action>): set<int> {
    set i | 0 <= i < |actions| && actions[i].Delete? :: actions[i].id
  }

  /** A delay that is not negative, from a clock reading. */
  predicate Regular(action: Action) { action.Create? ==> action.ms >= 0 && Normal(action.at) }

  predicate AllRegular(actions: seq<Action>) { forall i :: 0 <= i < |actions| ==> Regular(actions[i]) }

  ghost predicate AllNormal(ts: seq<Timer>)
    reads ts`when
  {
    forall k :: 0 <= k < |ts| ==> Normal(ts[k].when)
  }

  class EventLoop {
    var head: Timer?
    var nextId: int
    var lastTime: int
    ghost var timers: seq<Timer>
    /** Every delay so far was a regular one. */
    ghost var regular: bool

    ghost predicate Valid()
      reads this, timers
    {
      && nextId >= 0 && head == First(timers, null) && Distinct(timers) && Chain(timers, null)
      && GoodIds(IdsOf(timers), nextId) && (regular ==> AllNormal(timers))
    }

    constructor ()
      ensures Valid() && timers == [] && regular
    {
      head, nextId, lastTime, timers, regular := null, 0, 0, [], true;
    }

    /** aeCreateTimeEvent */
    method CreateTimeEvent(milliseconds: int, now: Time) returns (id: int)
      requires Valid()
      modifies this
      ensures Valid() && id == old(nextId) && nextId == id + 1 && lastTime == old(lastTime)
      ensures timers != [] && timers[1..] == old(timers) && fresh(timers[0]) && timers[0].id == id
      ensures Total(timers[0].when) == Total(now) + milliseconds
      ensures regular == (old(regular) && milliseconds >= 0 && Normal(now))
    {
      hide Normal, Total, AllNormal, Chain, Distinct, GoodIds, IdsOf;
      id := nextId;
      var when := AddMillisecondsToNow(milliseconds, now);
      var te := new Timer(id, when, head);
      Prepended(te, timers, id);
      ghost var all := [te] + timers;
      assert all[0] == te && all[1..] == timers;
      regular := regular && milliseconds >= 0 && Normal(now);
      nextId, head, timers := nextId + 1, te, all;
    }

    /** aeDeleteTimeEvent: marks the one live timer with that id. */
    method DeleteTimeEvent(id: int) returns (found: bool)
      requires Valid()
      modifies timers`id
      ensures Valid()
      ensures found <==> id in old(IdsOf(timers))
      ensures IdsOf(timers) == Mark(old(IdsOf(timers)), {id})
    {
      hide AllNormal, Chain, Distinct, GoodIds, IdsOf;
      MarkGood(IdsOf(timers), {id}, nextId);
      var te := head;
      ghost var k := 0;
      while te != null
        invariant Valid() && IdsOf(timers) == old(IdsOf(timers))
        invariant k <= |timers| && te == At(timers, k)
        invariant forall j :: 0 <= j < k ==> timers[j].id != id
        decreases |timers| - k
      {
        if te.id == id {
          OnlyOne(timers, k, nextId);
          te.id := DELETED;
          assert IdsOf(timers) == Mark(old(IdsOf(timers)), {id});
          return true;
        }
        NextOf(timers, k);
        te, k := te.next, k + 1;
      }
      assert IdsOf(timers) == Mark(IdsOf(timers), {id});
      return false;
    }

    /** aeSearchNearestTimer */
    method SearchNearestTimer() returns (nearest: Timer?)
      requires Valid()
      ensures nearest == null <==> timers == []
      ensures nearest != null ==>
                nearest in timers && forall k :: 0 <= k < |timers| ==> Reached(timers[k].when, nearest.when)
      ensures nearest != null && regular ==>
                forall k :: 0 <= k < |timers| ==> Total(nearest.when) <= Total(timers[k].when)
    {
      hide Chain, Distinct, GoodIds, IdsOf;
      var te := head;
      nearest := null;
      ghost var k := 0;
      while te != null
        invariant k <= |timers| && te == At(timers, k)
        invariant nearest == null <==> k == 0
        invariant nearest != null ==>
                    nearest in timers && forall j :: 0 <= j < k ==> Reached(timers[j].when, nearest.when)
        decreases |timers| - k
      {
        if nearest == null || te.when.sec < nearest.when.sec
           || (te.when.sec == nearest.when.sec && te.when.ms < nearest.when.ms) {
          nearest := te;
        }
        NextOf(timers, k);
        te, k := te.next, k + 1;
      }
    }

    method PerformOne(action: Action, ghost created: seq<Timer>, ghost base: seq<Timer>)
      returns (ghost more: seq<Timer>)
      requires Valid() && timers == created + base
      modifies this, timers`id
      ensures Valid() && timers == more + base && nextId >= old(nextId) && lastTime == old(lastTime)
      ensures forall k :: 0 <= k < |more| ==> fresh(more[k]) || more[k] in created
      ensures |more| == |created| + if action.Delete? then 0 else 1
      ensures regular == (old(regular) && Regular(action))
      ensures IdsOf(base) == Mark(old(IdsOf(base)), Deletes(action))
    {
      hide AllNormal, Chain, Distinct, GoodIds, IdsOf, Mark;
      more := created;
      match action {
        case Create(ms, at) =>
          MarkTwice(IdsOf(base), {}, {});
          var _ := CreateTimeEvent(ms, at);
          more := [timers[0]] + created;
        case Delete(id) =>
          IdsConcat(created, base);
          MarkConcat(IdsOf(created), IdsOf(base), {id});
          var _ := DeleteTimeEvent(id);
          IdsConcat(created, base);
          SameParts(IdsOf(created), IdsOf(base), Mark(old(IdsOf(created)), {id}), Mark(old(IdsOf(base)), {id}));
      }
    }

    /** What a callback does to the timers. */
    method Perform(actions: seq<Action>) returns (ghost created: seq<Timer>)
      requires Valid()
      modifies this, timers`id
      ensures Valid() && timers == created + old(timers) && fresh(created)
      ensures nextId >= old(nextId) && lastTime == old(lastTime)
      ensures created == [] <==> OnlyDeletes(actions)
      ensures old(regular) && AllRegular(actions) ==> regular
      ensures IdsOf(old(timers)) == Mark(old(IdsOf(timers)), DeletedIds(actions))
    {
      hide AllNormal, Chain, Distinct, GoodIds, IdsOf, Mark, DeletedIds, Deletes, OnlyDeletes;
      created := [];
      NoneDeleted(actions, IdsOf(timers));
      for i := 0 to |actions|
        invariant Valid() && timers == created + old(timers) && fresh(created)
        invariant nextId >= old(nextId) && lastTime == old(lastTime)
        invariant created == [] <==> OnlyDeletes(actions[..i])
        invariant old(regular) && AllRegular(actions) ==> regular
        invariant IdsOf(old(timers)) == Mark(old(IdsOf(timers)), DeletedIds(actions[..i]))
      {
        DeletedSnoc(actions, i);
        DeletesSnoc(actions, i);
        MarkTwice(old(IdsOf(timers)), DeletedIds(actions[..i]), Deletes(actions[i]));
        created := PerformOne(actions[i], created, old(timers));
      }
      assert actions[..|actions|] == actions;
    }

    // ---- One pass ----

    /** Where a pass stands after `i` visits. The timers created so far and not lost are in front. */
    ghost predicate Walking(ts: seq<Timer>, st: Start, env: Env, i: nat, created: seq<Timer>, prev: Timer?)
      reads this, timers, ts
      requires i <= |ts| == |st.ids| == |st.whens|
    {
      var kept := Kept(ts, st, env, i);
      && Valid() && timers == created + kept + ts[i..]
      && prev == Last(kept)
      && (forall j :: 0 <= j < |ts| ==> ts[j].id == IdAt(st, env, i, j))
      && (forall j :: 0 <= j < |ts| ==> WhenAt(st, env, i, j, ts[j].when))
    }

    /** The predecessor skips the timer; without one the head does, and loses what is in front. */
    method Unlink(prev: Timer?, te: Timer, ghost front: seq<Timer>, ghost rest: seq<Timer>)
      requires Valid() && timers == front + [te] + rest && (prev == null || prev == Last(front))
      modifies this`head, this`timers, (if front == [] then {} else {front[|front| - 1]})`next
      ensures Valid() && timers == if prev == null then rest else front + rest
    {
      hide AllNormal, Chain, Distinct, GoodIds, IdsOf;
      Parts(timers, front, te, rest, nextId);
      if prev == null {
        head := te.next;
        LastPart(front, rest, nextId);
        timers := rest;
      } else {
        SetNext(prev, te.next, front, te);
        Splice(front, rest, null);
        timers := front + rest;
      }
    }

    /** The same, seen from timers some of which may have left the list; those are dead. */
    method PerformOn(actions: seq<Action>, ghost ts: seq<Timer>) returns (ghost created: seq<Timer>)
      requires Valid() && forall j :: 0 <= j < |ts| ==> ts[j].id == DELETED || ts[j] in timers
      modifies this, timers`id
      ensures Valid() && timers == created + old(timers) && fresh(created)
      ensures nextId >= old(nextId) && lastTime == old(lastTime)
      ensures created == [] <==> OnlyDeletes(actions)
      ensures old(regular) && AllRegular(actions) ==> regular
      ensures forall j :: 0 <= j < |ts| ==> ts[j].id == MarkOne(old(ts[j].id), DeletedIds(actions))
    {
      hide AllNormal, Chain, Distinct, GoodIds, IdsOf, DeletedIds;
      created := Perform(actions);
      forall j | 0 <= j < |ts| ensures ts[j].id == MarkOne(old(ts[j].id), DeletedIds(actions)) {
        if ts[j] in old(timers) {
          var k :| 0 <= k < |old(timers)| && old(timers)[k] == ts[j];
          assert IdsOf(old(timers))[k] == ts[j].id;
        }
      }
    }

    /** ae.c:295-299 */
    method UnlinkDead(prev: Timer?, te: Timer, ghost ts: seq<Timer>, ghost st: Start, ghost env: Env, ghost i: nat,
                      ghost created: seq<Timer>)
      returns (next: Timer?, ghost left: seq<Timer>)
      requires i < |ts| == |st.ids| == |st.whens| && te == ts[i] && Walking(ts, st, env, i, created, prev)
      requires Dead(st.ids[i], Gone(st, env, i))
      modifies this`head, this`timers, timers`next
      ensures left == (if Kept(ts, st, env, i) == [] then [] else created)
      ensures Valid() && timers == left + Kept(ts, st, env, i + 1) + ts[i + 1..] && next == At(ts, i + 1)
      ensures Kept(ts, st, env, i + 1) == Kept(ts, st, env, i)
      ensures forall k :: 0 <= k < |timers| ==> timers[k] in old(timers)
    {
      hide AllNormal, Chain, Distinct, GoodIds, IdsOf, Kept, Gone, GoneAt, Fires, Finished, DeletedIds, IdAt, WhenAt;
      ghost var kept := Kept(ts, st, env, i);
      ghost var front, rest := created + kept, ts[i + 1..];
      SplitRest(created, kept, ts, i);
      Steps(ts, st, env, i);
      NextHere(timers, front, te, rest);
      next := te.next;
      assert front != [] ==> front[|front| - 1] == timers[|front| - 1];
      assert kept != [] ==> Last(front) == Last(kept);
      Unlink(prev, te, front, rest);
      left := if kept == [] then [] else created;
      assert kept == [] ==> [] + kept + rest == rest;
      ghost var shift := if kept == [] then |front| + 1 else 0;
      assert forall k :: 0 <= k < |timers| ==>
        timers[k] == old(timers)[if k + shift < |front| then k + shift else if kept == [] then k + shift else k + 1];
    }

    /** A dead timer is unlinked and finalized (ae.c:294-305). */
    method VisitDead(prev: Timer?, te: Timer, ghost ts: seq<Timer>, ghost st: Start, env: Env, i: nat,
                     ghost created: seq<Timer>)
      returns (next: Timer?, ghost more: seq<Timer>)
      requires i < |ts| == |st.ids| == |st.whens| && te == ts[i] && te.id == DELETED
      requires Walking(ts, st, env, i, created, prev) && Dead(st.ids[i], Gone(st, env, i))
      modifies this, timers
      ensures Walking(ts, st, env, i + 1, more, prev) && next == At(ts, i + 1)
      ensures Kept(ts, st, env, i + 1) == Kept(ts, st, env, i)
      ensures Kept(ts, st, env, i) == [] ==> (more == [] <==> OnlyDeletes(env.finals(i)))
      ensures fresh(set t | t in more && t !in created)
      ensures nextId >= old(nextId) && lastTime == old(lastTime)
      ensures old(regular) && RegularAt(env, i) ==> regular
    {
      hide AllNormal, Chain, Distinct, GoodIds, IdsOf, Kept, Gone, GoneAt, Fires, Finished, DeletedIds, IdAt, WhenAt;
      Steps(ts, st, env, i);
      ghost var left;
      next, left := UnlinkDead(prev, te, ts, st, env, i, created);
      forall j | 0 <= j < |ts| ensures ts[j].id == DELETED || ts[j] in timers {
        if ts[j].id != DELETED { StillListed(ts, st, env, i, j); }
      }
      ghost var added := PerformOn(env.finals(i), ts);
      more := added + left;
      MoreInFront(added, left, Kept(ts, st, env, i + 1), ts[i + 1..]);
      forall j | 0 <= j < |ts| ensures ts[j].id == IdAt(st, env, i + 1, j) && WhenAt(st, env, i + 1, j, ts[j].when) {
        AtStep(ts, st, env, i, j, ts[j].when);
      }
    }

    /** timeProc (ae.c:323): the callback may create and delete any timers. */
    method CallBack(ghost ts: seq<Timer>, ghost st: Start, env: Env, i: nat, ghost created: seq<Timer>,
                    ghost prev: Timer?)
      returns (ghost more: seq<Timer>)
      requires i < |ts| == |st.ids| == |st.whens| && Walking(ts, st, env, i, created, prev) && Fires(st, env, i)
      modifies this, timers`id
      ensures Valid() && timers == more + Kept(ts, st, env, i + 1) + ts[i + 1..] && nextId >= old(nextId)
              && lastTime == old(lastTime)
      ensures |Kept(ts, st, env, i + 1)| > 0
      ensures timers[|more| + |Kept(ts, st, env, i + 1)| - 1] == ts[i] == Last(Kept(ts, st, env, i + 1))
      ensures ts[i].next == At(ts, i + 1)
      ensures fresh(set t | t in more && t !in created)
      ensures forall j :: 0 <= j < |ts| ==> ts[j].id == MarkOne(IdAt(st, env, i, j), GoneAt(st, env, i))
      ensures old(regular) && RegularAt(env, i) ==> regular
    {
      hide AllNormal, Chain, Distinct, GoodIds, IdsOf, Kept, Gone, GoneAt, Fires, Finished, DeletedIds, IdAt, WhenAt;
      ghost var kept := Kept(ts, st, env, i);
      SplitRest(created, kept, ts, i);
      Steps(ts, st, env, i);
      forall j | 0 <= j < |ts| ensures ts[j].id == DELETED || ts[j] in timers {
        if ts[j].id != DELETED { StillListed(ts, st, env, i, j); }
      }
      NextHere(timers, created + kept, ts[i], ts[i + 1..]);
      ghost var added := PerformOn(env.actions(i), ts);
      more := added + created;
      Regroup(added, created, kept, ts, i);
    }

    /** A live timer that is due is called back, and rescheduled or marked (ae.c:316-332). */
    method VisitDue(te: Timer, ghost ts: seq<Timer>, ghost st: Start, env: Env, i: nat, ghost created: seq<Timer>,
                    ghost prev: Timer?)
      returns (next: Timer?, ghost more: seq<Timer>)
      requires i < |ts| == |st.ids| == |st.whens| && te == ts[i] && te.id != DELETED
      requires Walking(ts, st, env, i, created, prev) && Fires(st, env, i) && Distinct(ts)
      modifies this, timers
      ensures Walking(ts, st, env, i + 1, more, te) && next == At(ts, i + 1)
      ensures nextId >= old(nextId) && lastTime == old(lastTime)
      ensures fresh(set t | t in more && t !in created)
      ensures old(regular) && RegularAt(env, i) ==> regular
    {
      hide AllNormal, Chain, Distinct, GoodIds, IdsOf, Kept, Gone, GoneAt, Fires, Finished, DeletedIds, IdAt, WhenAt;
      Steps(ts, st, env, i);
      assert te in timers by { ListedNow(ts, st, env, i, created); }
      more := CallBack(ts, st, env, i, created, prev);
      if env.retval(i) != NO_MORE {
        Reschedule(te, env.retval(i), env.after(i), |more| + |Kept(ts, st, env, i + 1)| - 1);
      } else {
        Retire(te, |more| + |Kept(ts, st, env, i + 1)| - 1);
      }
      next := te.next;
      forall j | 0 <= j < |ts| ensures ts[j].id == IdAt(st, env, i + 1, j) && WhenAt(st, env, i + 1, j, ts[j].when) {
        AtStep(ts, st, env, i, j, ts[j].when);
        if j != i { Apart(ts, i, j); } else { AtSelf(st, env, i, te.when); }
      }
    }

    lemma ListedNow(ts: seq<Timer>, st: Start, env: Env, i: nat, created: seq<Timer>)
      requires i < |ts| == |st.ids| == |st.whens| && timers == created + Kept(ts, st, env, i) + ts[i..]
      ensures ts[i] in timers
    {
      hide Kept;
      assert ts[i] == ts[i..][0];
    }

    /** A live timer that is not due is passed over. */
    ghost method VisitWaiting(te: Timer, ts: seq<Timer>, st: Start, env: Env, i: nat, created: seq<Timer>, prev: Timer?)
      requires i < |ts| == |st.ids| == |st.whens| && te == ts[i] && te.id != DELETED
      requires Walking(ts, st, env, i, created, prev) && !Fires(st, env, i) && !Dead(st.ids[i], Gone(st, env, i))
      ensures Walking(ts, st, env, i + 1, created, te) && te.next == At(ts, i + 1)
    {
      hide AllNormal, Chain, Distinct, GoodIds, IdsOf, Kept, Gone, GoneAt, Fires, Finished, DeletedIds, IdAt, WhenAt;
      ghost var kept := Kept(ts, st, env, i);
      SplitRest(created, kept, ts, i);
      Steps(ts, st, env, i);
      NextHere(timers, created + kept, te, ts[i + 1..]);
      Regroup([], created, kept, ts, i);
      forall j | 0 <= j < |ts| ensures ts[j].id == IdAt(st, env, i + 1, j) && WhenAt(st, env, i + 1, j, ts[j].when) {
        AtStep(ts, st, env, i, j, ts[j].when);
      }
      assert timers == created + Kept(ts, st, env, i + 1) + ts[i + 1..];
    }

    /** The clock went back: every timer becomes due at once (ae.c:277-283). */
    method ResetTimes()
      requires Valid()
      modifies timers`when
      ensures Valid() && forall k :: 0 <= k < |timers| ==> timers[k].when == old(timers[k].when).(sec := 0)
    {
      hide Chain, GoodIds, IdsOf;
      var te := head;
      ghost var k := 0;
      while te != null
        invariant Valid() && k <= |timers| && te == At(timers, k)
        invariant forall j :: 0 <= j < |timers| ==>
                    timers[j].when == if j < k then old(timers[j].when).(sec := 0) else old(timers[j].when)
        decreases |timers| - k
      {
        te.when := te.when.(sec := 0);
        NextOf(timers, k);
        te, k := te.next, k + 1;
      }
    }

    /** processTimeEvents. The timers that fire are exactly those present at the start that are
        alive and due when their turn comes, each once and in order; the list keeps everything not
        found dead and gains what callbacks and finalizers created, but for `lost`. Something is
        lost exactly when a finalizer creates a timer and the next visit, with no live timer met
        so far, finds another dead one. */
    method ProcessTimeEvents(now: int, env: Env)
      returns (processed: nat, ghost fired: seq<Timer>, ghost created: seq<Timer>, ghost lost: seq<Timer>)
      requires Valid()
      modifies this, timers
      ensures Valid() && lastTime == now
      ensures var ts, st := old(timers), old(StartOf(timers, now < lastTime));
              var n := |ts|;
              && timers == created + Kept(ts, st, env, n) && fresh(created) && fresh(lost)
              && fired == Fired(ts, st, env, n) && processed == |fired|
              && (lost == [] <==> NoneLost(ts, st, env, n))
              && (old(regular) && RegularEnv(env) ==>
                    regular && forall j :: 0 <= j < n ==>
                      (ts[j] in fired <==>
                       !Dead(st.ids[j], Gone(st, env, j)) && Total(env.clock(j)) >= Total(st.whens[j])))
              && forall j :: 0 <= j < n ==> ts[j].id == IdAt(st, env, n, j) && WhenAt(st, env, n, j, ts[j].when)
    {
      hide Walking, Valid, Kept, Gone, GoneAt, Fires, Finished, Fired, IdAt, WhenAt, StartOf, NoneLost, OnlyDeletes;
      ghost var ts, st := timers, StartOf(timers, now < lastTime);
      var maxId := nextId - 1;
      var prev: Timer?, te: Timer?;
      RegularStart(now < lastTime);
      prev, te, created := Begin(now, env, ts, st);
      processed, fired, lost := 0, [], [];
      var i := 0;
      NothingYet(ts, st, env);
      while te != null
        invariant i <= |ts| && te == At(ts, i)
        invariant Walking(ts, st, env, i, created, prev) && fresh(created) && fresh(lost)
        invariant fired == Fired(ts, st, env, i) && processed == |fired|
        invariant Kept(ts, st, env, i) == [] ==> (created == [] <==> i == 0 || OnlyDeletes(env.finals(i - 1)))
        invariant lost == [] <==> NoneLost(ts, st, env, i)
        invariant lastTime == now && (old(regular) && RegularEnv(env) ==> regular)
        decreases |ts| - i
      {
        Steps(ts, st, env, i);
        LostStep(ts, st, env, i);
        Here(ts, st, env, i, created, prev);
        if te.id == DELETED {
          if Kept(ts, st, env, i) == [] { lost := lost + created; }
          te, created := VisitDead(prev, te, ts, st, env, i, created);
        } else if te.id > maxId {
          assert false;
        } else {
          var t := env.clock(i);
          if Reached(t, te.when) {
            fired := fired + [te];
            ghost var before := prev;
            prev := te;
            te, created := VisitDue(te, ts, st, env, i, created, before);
            processed := processed + 1;
          } else {
            VisitWaiting(te, ts, st, env, i, created, prev);
            prev := te;
            te := te.next;
          }
        }
        i := i + 1;
      }
      Done(ts, st, env, created, prev);
      if old(regular) && RegularEnv(env) { FiredWhenDue(ts, st, env); }
    }

    lemma RegularStart(skewed: bool)
      requires Valid()
      ensures regular ==> forall j :: 0 <= j < |timers| ==> Normal(StartOf(timers, skewed).whens[j])
    {
      hide Chain, Distinct, GoodIds, IdsOf;
    }

    /** ae.c:277-288 */
    method Begin(now: int, ghost env: Env, ghost ts: seq<Timer>, ghost st: Start)
      returns (prev: Timer?, te: Timer?, ghost created: seq<Timer>)
      requires Valid() && ts == timers && st == StartOf(timers, now < lastTime)
      modifies this`lastTime, timers`when
      ensures Walking(ts, st, env, 0, created, prev) && te == At(ts, 0) && created == [] && lastTime == now
              && nextId == old(nextId) && regular == old(regular)
      ensures Distinct(ts) && forall j :: 0 <= j < |ts| ==> st.ids[j] < nextId
    {
      hide AllNormal, Chain, Distinct, GoodIds, IdsOf, Kept, IdAt, WhenAt;
      Beginning(ts, st, env, nextId);
      if now < lastTime { ResetTimes(); }
      lastTime := now;
      prev, te, created := null, head, [];
      assert [] + [] + ts[0..] == ts;
    }

    lemma Here(ts: seq<Timer>, st: Start, env: Env, i: nat, created: seq<Timer>, prev: Timer?)
      requires i < |ts| == |st.ids| == |st.whens| && Walking(ts, st, env, i, created, prev)
      ensures ts[i].id == (if Dead(st.ids[i], Gone(st, env, i)) then DELETED else st.ids[i])
              && ts[i].when == st.whens[i]
      ensures forall k :: 0 <= k < |timers| ==> timers[k] in ts || timers[k] in created
    {
      hide Kept, Gone, IdAt, WhenAt;
      IdHere(st, env, i);
      assert ts[i].id == IdAt(st, env, i, i) && WhenAt(st, env, i, i, ts[i].when);
      forall k | 0 <= k < |timers| ensures timers[k] in ts || timers[k] in created {
        Member(created, ts, st, env, i, k);
      }
    }

    lemma Done(ts: seq<Timer>, st: Start, env: Env, created: seq<Timer>, prev: Timer?)
      requires |ts| == |st.ids| == |st.whens| && Walking(ts, st, env, |ts|, created, prev)
      ensures Valid() && timers == created + Kept(ts, st, env, |ts|)
      ensures forall j :: 0 <= j < |ts| ==> ts[j].id == IdAt(st, env, |ts|, j) && WhenAt(st, env, |ts|, j, ts[j].when)
    {
      assert ts[|ts|..] == [];
    }

    method Reschedule(te: Timer, milliseconds: int, now: Time, ghost k: nat)
      requires Valid() && k < |timers| && timers[k] == te
      modifies te`when, this`regular
      ensures Valid() && Total(te.when) == Total(now) + milliseconds
      ensures regular == (old(regular) && milliseconds >= 0 && Normal(now))
    {
      hide Chain, Distinct, GoodIds, IdsOf;
      te.when := AddMillisecondsToNow(milliseconds, now);
      regular := regular && milliseconds >= 0 && Normal(now);
    }

    method Retire(te: Timer, ghost k: nat)
      requires Valid() && k < |timers| && timers[k] == te
      modifies te`id
      ensures Valid() && te.id == DELETED
    {
      hide Chain;
      te.id := DELETED;
    }
  }

  /** The timers that fire: exactly those alive and due at their visit, each once. */
  lemma {:induction false} FiredOnce(ts: seq<Timer>, st: Start, env: Env, i: nat)
    requires i <= |ts| == |st.ids| == |st.whens| && Distinct(ts)
    ensures Distinct(Fired(ts, st, env, i))
    ensures forall j :: 0 <= j < |ts| && Normal(env.clock(j)) && Normal(st.whens[j]) ==>
              (ts[j] in Fired(ts, st, env, i) <==>
               j < i && !Dead(st.ids[j], Gone(st, env, j)) && Total(env.clock(j)) >= Total(st.whens[j]))
    ensures forall j :: 0 <= j < |ts| ==> (ts[j] in Fired(ts, st, env, i) <==> j < i && Fires(st, env, j))
  {
    hide Fires, Gone, Dead;
    if i > 0 {
      FiredOnce(ts, st, env, i - 1);
      assert forall j :: 0 <= j < |ts| && j != i - 1 ==> ts[j] != ts[i - 1];
    }
    forall j | 0 <= j < |ts| && Normal(env.clock(j)) && Normal(st.whens[j])
      ensures Fires(st, env, j) <==>
                !Dead(st.ids[j], Gone(st, env, j)) && Total(env.clock(j)) >= Total(st.whens[j])
    {
      FiresWhenDue(st, env, j);
    }
  }

  lemma FiresWhenDue(st: Start, env: Env, j: nat)
    requires j < |st.ids| == |st.whens| && Normal(env.clock(j)) && Normal(st.whens[j])
    ensures Fires(st, env, j) <==>
              !Dead(st.ids[j], Gone(st, env, j)) && Total(env.clock(j)) >= Total(st.whens[j])
  {
    hide Gone;
    ReachedIsTotal(env.clock(j), st.whens[j]);
  }

  lemma FiredWhenDue(ts: seq<Timer>, st: Start, env: Env)
    requires |ts| == |st.ids| == |st.whens| && Distinct(ts) && RegularEnv(env)
    requires forall j :: 0 <= j < |ts| ==> Normal(st.whens[j])
    ensures forall j :: 0 <= j < |ts| ==>
              (ts[j] in Fired(ts, st, env, |ts|) <==>
               !Dead(st.ids[j], Gone(st, env, j)) && Total(env.clock(j)) >= Total(st.whens[j]))
  {
    hide Fired, Gone, Dead;
    FiredOnce(ts, st, env, |ts|);
    assert forall j: nat :: RegularAt(env, j) ==> Normal(env.clock(j));
  }

  /** When the clock went back, every timer alive at its visit fires, whatever its time was. */
  lemma SkewFiresAll(ts: seq<Timer>, env: Env, j: nat)
    requires j < |ts| && env.clock(j).sec > 0
    ensures var st := StartOf(ts, true); Fires(st, env, j) <==> !Dead(st.ids[j], Gone(st, env, j))
  {
    hide Gone;
  }

  /** The timers kept: exactly those not dead at their visit, each once. */
  lemma {:induction false} KeptOnce(ts: seq<Timer>, st: Start, env: Env, i: nat)
    requires i <= |ts| == |st.ids| == |st.whens| && Distinct(ts)
    ensures Distinct(Kept(ts, st, env, i))
    ensures forall j :: 0 <= j < |ts| ==>
              (ts[j] in Kept(ts, st, env, i) <==> j < i && !Dead(st.ids[j], Gone(st, env, j)))
  {
    if i > 0 {
      hide Gone, Dead;
      KeptOnce(ts, st, env, i - 1);
      assert forall j :: 0 <= j < |ts| && j != i - 1 ==> ts[j] != ts[i - 1];
    }
  }

  ghost predicate AllDead(st: Start, env: Env, i: nat)
    requires i <= |st.ids| == |st.whens|
  {
    forall j :: 0 <= j < i ==> Dead(st.ids[j], Gone(st, env, j))
  }

  lemma {:induction false} KeptNone(ts: seq<Timer>, st: Start, env: Env, i: nat)
    requires i <= |ts| == |st.ids| == |st.whens|
    ensures Kept(ts, st, env, i) == [] <==> AllDead(st, env, i)
  {
    hide Gone, Dead;
    if i > 0 { KeptNone(ts, st, env, i - 1); }
  }

  /** Finalizer `m` creates timers, and everything visited up to the next timer is dead. */
  ghost predicate Loses(st: Start, env: Env, m: nat)
    requires |st.ids| == |st.whens|
  {
    m + 2 <= |st.ids| && AllDead(st, env, m + 2) && !OnlyDeletes(env.finals(m))
  }

  /** The exact condition, finalizer by finalizer. */
  lemma {:induction false} NoneLostMeans(ts: seq<Timer>, st: Start, env: Env, i: nat)
    requires i <= |ts| == |st.ids| == |st.whens|
    ensures NoneLost(ts, st, env, i)
            <==> forall m: nat :: m + 1 < i ==> !Loses(st, env, m)
  {
    if i > 0 {
      hide Gone, Dead, Kept, OnlyDeletes, Loses;
      NoneLostMeans(ts, st, env, i - 1);
      KeptNone(ts, st, env, i - 1);
      if i > 1 { LosesIs(st, env, i - 2); }
    }
  }

  lemma LosesIs(st: Start, env: Env, m: nat)
    requires m + 2 <= |st.ids| == |st.whens|
    ensures Loses(st, env, m)
            <==> AllDead(st, env, m + 1) && Dead(st.ids[m + 1], Gone(st, env, m + 1)) && !OnlyDeletes(env.finals(m))
  {
    hide Gone, Dead;
  }

  lemma Regroup(added: seq<Timer>, created: seq<Timer>, kept: seq<Timer>, ts: seq<Timer>, i: nat)
    requires i < |ts|
    ensures var all := added + (created + kept + ts[i..]);
            && all == (added + created) + (kept + [ts[i]]) + ts[i + 1..]
            && all[|added + created| + |kept|] == ts[i]
  {
    assert ts[i..] == [ts[i]] + ts[i + 1..];
  }

  lemma Apart(ts: seq<Timer>, i: nat, j: nat)
    requires Distinct(ts) && i < |ts| && j < |ts| && i != j
    ensures ts[i] != ts[j]
  {
  }

  lemma AtSelf(st: Start, env: Env, i: nat, when: Time)
    requires i < |st.ids| == |st.whens| && Fires(st, env, i)
    ensures WhenAt(st, env, i + 1, i, when) <==> if Finished(st, env, i) then when == st.whens[i]
                                                 else Total(when) == Total(env.after(i)) + env.retval(i)
    ensures WhenAt(st, env, i, i, when) <==> when == st.whens[i]
  {
  }

  lemma Beginning(ts: seq<Timer>, st: Start, env: Env, nextId: int)
    requires |ts| == |st.ids| == |st.whens| && GoodIds(st.ids, nextId)
    ensures Kept(ts, st, env, 0) == [] && Fired(ts, st, env, 0) == [] && ts[0..] == ts
    ensures forall j :: 0 <= j < |ts| ==> IdAt(st, env, 0, j) == st.ids[j] && DELETED <= st.ids[j] < nextId
    ensures forall j, when :: 0 <= j < |ts| ==> (WhenAt(st, env, 0, j, when) <==> when == st.whens[j])
  {
  }

  lemma {:induction false} KeptIn(ts: seq<Timer>, st: Start, env: Env, i: nat)
    requires i <= |ts| == |st.ids| == |st.whens|
    ensures forall k :: 0 <= k < |Kept(ts, st, env, i)| ==> Kept(ts, st, env, i)[k] in ts
  {
    if i > 0 { KeptIn(ts, st, env, i - 1); }
  }

  lemma Member(created: seq<Timer>, ts: seq<Timer>, st: Start, env: Env, i: nat, k: nat)
    requires i <= |ts| == |st.ids| == |st.whens| && k < |created + Kept(ts, st, env, i) + ts[i..]|
    ensures var t := (created + Kept(ts, st, env, i) + ts[i..])[k]; t in created || t in ts
  {
    hide Kept;
    KeptIn(ts, st, env, i);
  }

  lemma NothingYet(ts: seq<Timer>, st: Start, env: Env)
    requires |ts| == |st.ids| == |st.whens|
    ensures Fired(ts, st, env, 0) == [] && NoneLost(ts, st, env, 0)
  {
  }

  lemma LostStep(ts: seq<Timer>, st: Start, env: Env, i: nat)
    requires i < |ts| == |st.ids| == |st.whens|
    ensures NoneLost(ts, st, env, i + 1)
            <==> NoneLost(ts, st, env, i)
                 && !(i > 0 && Kept(ts, st, env, i) == [] && Dead(st.ids[i], Gone(st, env, i))
                      && !OnlyDeletes(env.finals(i - 1)))
  {
  }

  lemma IdHere(st: Start, env: Env, i: nat)
    requires i < |st.ids| == |st.whens|
    ensures IdAt(st, env, i, i) == if Dead(st.ids[i], Gone(st, env, i)) then DELETED else st.ids[i]
    ensures forall when :: WhenAt(st, env, i, i, when) <==> when == st.whens[i]
  {
  }

  /** A timer not marked yet is still in the list. */
  lemma {:induction false} StillListed(ts: seq<Timer>, st: Start, env: Env, i: nat, j: nat)
    requires i <= |ts| == |st.ids| == |st.whens| && j < |ts| && IdAt(st, env, i, j) != DELETED
    ensures if j < i then ts[j] in Kept(ts, st, env, i) else ts[j] in ts[i..]
  {
    if j >= i {
      assert ts[j] == ts[i..][j - i];
    } else if j == i - 1 {
      assert ts[j] in [ts[j]];
    } else {
      StillListed(ts, st, env, i - 1, j);
    }
  }

  /** What visit `i` makes of timer `j`. */
  lemma AtStep(ts: seq<Timer>, st: Start, env: Env, i: nat, j: nat, when: Time)
    requires i < |ts| == |st.ids| == |st.whens| && j < |ts|
    ensures IdAt(st, env, i + 1, j) == if j == i && Finished(st, env, i) then DELETED
                                       else MarkOne(IdAt(st, env, i, j), GoneAt(st, env, i))
    ensures WhenAt(st, env, i, j, when) && !(j == i && Fires(st, env, i) && !Finished(st, env, i))
            ==> WhenAt(st, env, i + 1, j, when)
  {
  }

  function MarkOne(id: int, gone: set<int>): int { if id in gone then DELETED else id }

  ghost function Last(ts: seq<Timer>): Timer? { if ts == [] then null else ts[|ts| - 1] }

  /** The last timer of a chain is made to point to `to`. */
  method SetNext(x: Timer, to: Timer?, ghost ts: seq<Timer>, ghost after: Timer?)
    requires ts != [] && x == ts[|ts| - 1] && Chain(ts, after) && Distinct(ts)
    modifies x`next
    ensures Chain(ts, to)
  {
    ghost var front := ts[..|ts| - 1];
    assert ts == front + [x];
    assert x !in front;
    Splice(front, [x], after);
    x.next := to;
    Splice(front, [x], to);
  }

  lemma Parts(ts: seq<Timer>, front: seq<Timer>, te: Timer, rest: seq<Timer>, nextId: int)
    requires ts == front + [te] + rest && Distinct(ts) && Chain(ts, null) && GoodIds(IdsOf(ts), nextId)
    ensures Chain(front, te) && Chain(rest, null) && te.next == First(rest, null)
    ensures Distinct(front) && Distinct(front + rest) && te !in front && te !in rest
    ensures front != [] ==> front[|front| - 1] !in rest
    ensures GoodIds(IdsOf(front + rest), nextId)
    ensures AllNormal(ts) ==> AllNormal(rest) && AllNormal(front + rest)
  {
    hide AllNormal, Chain, Distinct, GoodIds, IdsOf;
    if AllNormal(ts) { PartsNormal(front, te, rest); }
    PartsChain(front, te, rest);
    PartsDistinct(front, te, rest);
    PartsIds(front, te, rest, nextId);
  }

  lemma PartsChain(front: seq<Timer>, te: Timer, rest: seq<Timer>)
    requires Chain(front + [te] + rest, null)
    ensures Chain(front, te) && Chain(rest, null) && te.next == First(rest, null)
  {
    assert front + [te] + rest == front + ([te] + rest);
    Splice(front, [te] + rest, null);
    Splice([te], rest, null);
  }

  lemma PartsDistinct(front: seq<Timer>, te: Timer, rest: seq<Timer>)
    requires Distinct(front + [te] + rest)
    ensures Distinct(front) && Distinct(front + rest) && te !in front && te !in rest
    ensures front != [] ==> front[|front| - 1] !in rest
  {
    var ts, n := front + [te] + rest, |front|;
    forall i, j | 0 <= i < j < |front + rest| ensures (front + rest)[i] != (front + rest)[j] {
      assert (front + rest)[i] == ts[if i < n then i else i + 1] && (front + rest)[j] == ts[if j < n then j else j + 1];
    }
    forall i | 0 <= i < n ensures front[i] != te { assert ts[i] != ts[n]; }
    forall i | 0 <= i < |rest| ensures rest[i] != te { assert ts[n] != ts[n + 1 + i]; }
    forall i, j | 0 <= i < n && 0 <= j < |rest| ensures front[i] != rest[j] { assert ts[i] != ts[n + 1 + j]; }
    forall i, j | 0 <= i < j < n ensures front[i] != front[j] { assert ts[i] != ts[j]; }
  }

  lemma PartsNormal(front: seq<Timer>, te: Timer, rest: seq<Timer>)
    requires AllNormal(front + [te] + rest)
    ensures AllNormal(rest) && AllNormal(front + rest)
  {
    var ts, n := front + [te] + rest, |front|;
    forall i | 0 <= i < |front + rest| ensures Normal((front + rest)[i].when) {
      assert (front + rest)[i] == ts[if i < n then i else i + 1];
    }
    forall i | 0 <= i < |rest| ensures Normal(rest[i].when) { assert rest[i] == ts[n + 1 + i]; }
  }

  lemma PartsIds(front: seq<Timer>, te: Timer, rest: seq<Timer>, nextId: int)
    requires GoodIds(IdsOf(front + [te] + rest), nextId)
    ensures GoodIds(IdsOf(front + rest), nextId)
  {
    hide IdsOf;
    var all, some, n := IdsOf(front + [te] + rest), IdsOf(front + rest), |front|;
    forall i | 0 <= i < |some| ensures some[i] == all[if i < n then i else i + 1] { }
  }

  lemma MoreInFront(added: seq<Timer>, left: seq<Timer>, kept: seq<Timer>, rest: seq<Timer>)
    ensures added + (left + kept + rest) == (added + left) + kept + rest
  {
  }

  lemma LastPart(front: seq<Timer>, rest: seq<Timer>, nextId: int)
    requires Distinct(front + rest) && GoodIds(IdsOf(front + rest), nextId)
    ensures Distinct(rest) && GoodIds(IdsOf(rest), nextId)
  {
    hide IdsOf;
    var all, ids, n := front + rest, IdsOf(front + rest), |front|;
    forall i | 0 <= i < |rest| ensures rest[i] == all[n + i] && IdsOf(rest)[i] == ids[n + i] { }
  }

  lemma SplitRest(created: seq<Timer>, kept: seq<Timer>, ts: seq<Timer>, i: nat)
    requires i < |ts|
    ensures created + kept + ts[i..] == (created + kept) + [ts[i]] + ts[i + 1..]
  {
    assert ts[i..] == [ts[i]] + ts[i + 1..];
  }

  lemma NextHere(ts: seq<Timer>, front: seq<Timer>, te: Timer, rest: seq<Timer>)
    requires ts == front + [te] + rest && Chain(ts, null)
    ensures te.next == First(rest, null)
  {
    PartsChain(front, te, rest);
  }

  /** What visit `i` adds. */
  lemma Steps(ts: seq<Timer>, st: Start, env: Env, i: nat)
    requires i < |ts| == |st.ids| == |st.whens|
    ensures var dead, fires := Dead(st.ids[i], Gone(st, env, i)), Fires(st, env, i);
            && GoneAt(st, env, i) == (if dead then DeletedIds(env.finals(i))
                                      else if fires then DeletedIds(env.actions(i)) else {})
            && Kept(ts, st, env, i + 1) == Kept(ts, st, env, i) + (if dead then [] else [ts[i]])
            && Fired(ts, st, env, i + 1) == Fired(ts, st, env, i) + (if fires then [ts[i]] else [])
            && (fires <==> !dead && Reached(env.clock(i), st.whens[i]))
            && (Finished(st, env, i) <==> fires && env.retval(i) == NO_MORE)
  {
  }

  // ---- What a pass does, told from the start ----

  /** The world during a pass, by the number of the visit: the clock, what the callback does and
      returns, the clock when it returns, and what the finalizer does. */
  datatype Env = Env(clock: nat -> Time, actions: nat -> seq<Action>, retval: nat -> int, after: nat -> Time,
                     finals: nat -> seq<Action>)

  /** Visit `i` reads clocks and asks for no negative delay. */
  predicate RegularAt(env: Env, i: nat) {
    && Normal(env.clock(i)) && Normal(env.after(i)) && (env.retval(i) >= 0 || env.retval(i) == NO_MORE)
    && AllRegular(env.actions(i)) && AllRegular(env.finals(i))
  }

  ghost predicate RegularEnv(env: Env) { forall i: nat :: RegularAt(env, i) }

  /** The timers at the start: their ids and their times. */
  datatype Start = Start(ids: seq<int>, whens: seq<Time>)

  ghost function StartOf(ts: seq<Timer>, skewed: bool): (st: Start)
    reads ts
    ensures |st.ids| == |ts| == |st.whens|
  {
    Start(IdsOf(ts),
          seq(|ts|, i requires 0 <= i < |ts| reads ts => if skewed then ts[i].when.(sec := 0) else ts[i].when))
  }

  predicate Dead(id: int, gone: set<int>) { id == DELETED || id in gone }

  /** The ids deleted before visit `i`. */
  ghost function Gone(st: Start, env: Env, i: nat): set<int>
    requires i <= |st.ids| == |st.whens|
    decreases i, 0
  {
    if i == 0 then {} else Gone(st, env, i - 1) + GoneAt(st, env, i - 1)
  }

  /** The ids deleted by visit `i`: a dead timer is finalized, a due one called back. */
  ghost function GoneAt(st: Start, env: Env, i: nat): set<int>
    requires i < |st.ids| == |st.whens|
    decreases i, 1
  {
    if Dead(st.ids[i], Gone(st, env, i)) then DeletedIds(env.finals(i))
    else if Reached(env.clock(i), st.whens[i]) then DeletedIds(env.actions(i)) else {}
  }

  /** Timer `i` is alive when its turn comes, and due. */
  ghost predicate Fires(st: Start, env: Env, i: nat)
    requires i < |st.ids| == |st.whens|
  {
    !Dead(st.ids[i], Gone(st, env, i)) && Reached(env.clock(i), st.whens[i])
  }

  /** The timers that fire among the first `i`, in order. */
  ghost function Fired(ts: seq<Timer>, st: Start, env: Env, i: nat): seq<Timer>
    requires i <= |ts| == |st.ids| == |st.whens|
  {
    if i == 0 then [] else Fired(ts, st, env, i - 1) + if Fires(st, env, i - 1) then [ts[i - 1]] else []
  }

  /** The timers not found dead among the first `i`, in order. */
  ghost function Kept(ts: seq<Timer>, st: Start, env: Env, i: nat): seq<Timer>
    requires i <= |ts| == |st.ids| == |st.whens|
  {
    if i == 0 then []
    else Kept(ts, st, env, i - 1) + if Dead(st.ids[i - 1], Gone(st, env, i - 1)) then [] else [ts[i - 1]]
  }

  /** No visit among the first `i` finds a dead timer, with no live one met, right after a finalizer
      that created timers. */
  ghost predicate NoneLost(ts: seq<Timer>, st: Start, env: Env, i: nat)
    requires i <= |ts| == |st.ids| == |st.whens|
  {
    i == 0 || (NoneLost(ts, st, env, i - 1)
               && (i > 1 && Kept(ts, st, env, i - 1) == [] && Dead(st.ids[i - 1], Gone(st, env, i - 1)) ==>
                   OnlyDeletes(env.finals(i - 2))))
  }

  ghost predicate Finished(st: Start, env: Env, j: nat)
    requires j < |st.ids| == |st.whens|
  {
    Fires(st, env, j) && env.retval(j) == NO_MORE
  }

  /** The id of timer `j` after `i` visits. */
  ghost function IdAt(st: Start, env: Env, i: nat, j: nat): int
    requires i <= |st.ids| == |st.whens| && j < |st.ids|
  {
    if Dead(st.ids[j], Gone(st, env, i)) || (j < i && Finished(st, env, j)) then DELETED else st.ids[j]
  }

  /** The time of timer `j` after `i` visits: only its own firing moves it. */
  ghost predicate WhenAt(st: Start, env: Env, i: nat, j: nat, when: Time)
    requires i <= |st.ids| == |st.whens| && j < |st.ids|
  {
    if j < i && Fires(st, env, j) && !Finished(st, env, j) then Total(when) == Total(env.after(j)) + env.retval(j)
    else when == st.whens[j]
  }

  function Deletes(action: Action): set<int> { if action.Delete? then {action.id} else {} }

  lemma SameParts<T>(a: seq<T>, b: seq<T>, c: seq<T>, d: seq<T>)
    requires a + b == c + d && |a| == |c|
    ensures a == c && b == d
  {
    assert a == (a + b)[..|a|] && c == (c + d)[..|c|];
    assert b == (a + b)[|a|..] && d == (c + d)[|c|..];
  }

  lemma NoneDeleted(actions: seq<Action>, ids: seq<int>)
    ensures DeletedIds(actions[..0]) == {} && Mark(ids, {}) == ids && OnlyDeletes(actions[..0])
  {
  }

  lemma OnlyOne(ts: seq<Timer>, k: nat, nextId: int)
    requires Distinct(ts) && GoodIds(IdsOf(ts), nextId) && k < |ts|
    ensures forall j :: 0 <= j < |ts| && j != k ==> ts[j] != ts[k] && (ts[k].id != DELETED ==> ts[j].id != ts[k].id)
  {
  }

  lemma DeletesSnoc(actions: seq<Action>, i: nat)
    requires i < |actions|
    ensures OnlyDeletes(actions[..i + 1]) <==> OnlyDeletes(actions[..i]) && actions[i].Delete?
  {
    assert forall j :: 0 <= j < i ==> actions[..i + 1][j] == actions[..i][j];
    assert actions[..i + 1][i] == actions[i];
  }

  lemma DeletedSnoc(actions: seq<Action>, i: nat)
    requires i < |actions|
    ensures DeletedIds(actions[..i + 1]) == DeletedIds(actions[..i]) + Deletes(actions[i])
  {
    var a, b := DeletedIds(actions[..i]), DeletedIds(actions[..i + 1]);
    forall x | x in a ensures x in b {
      var j :| 0 <= j < i && actions[..i][j].Delete? && actions[..i][j].id == x;
      assert actions[..i + 1][j].Delete?;
    }
    if actions[i].Delete? { assert actions[..i + 1][i].id in b; }
  }

  ghost function At(ts: seq<Timer>, k: int): Timer? { if 0 <= k < |ts| then ts[k] else null }

  lemma NextOf(ts: seq<Timer>, k: nat)
    requires Chain(ts, null) && k < |ts|
    ensures ts[k].next == At(ts, k + 1)
  {
    assert ts == ts[..k] + ts[k..];
    Splice(ts[..k], ts[k..], null);
    assert ts[k..][1..] == ts[k + 1..];
  }

  lemma Prepended(te: Timer, ts: seq<Timer>, id: int)
    requires te !in ts && te.id == id >= 0 && te.next == First(ts, null)
    requires Distinct(ts) && Chain(ts, null) && GoodIds(IdsOf(ts), id)
    ensures Distinct([te] + ts) && Chain([te] + ts, null) && GoodIds(IdsOf([te] + ts), id + 1)
    ensures AllNormal(ts) && Normal(te.when) ==> AllNormal([te] + ts)
  {
    assert ([te] + ts)[1..] == ts;
  }
}

/** The life of an issue: periodic checks (app/algorithms/algorithms.py), alerts
    (app/event_handler/event_handler.py) and acknowledgement (app/controllers.py). The table of
    results is a sequence, and the primary key of a result is its position. */
module Issues {

  datatype Result = Result(
    asset: nat, algorithm: nat, passed: bool, active: bool, acknowledged: bool, occurances: int, recent: bool,
    priority: int, notes: string)

  predicate Unresolved(r: Result) { r.active || !r.acknowledged }

  predicate Same(r: Result, asset: nat, algorithm: nat) { r.asset == asset && r.algorithm == algorithm }

  /** The open record of an algorithm on an asset. */
  predicate Open(r: Result, asset: nat, algorithm: nat) { Same(r, asset, algorithm) && Unresolved(r) }

  predicate HasOpen(rs: seq<Result>, asset: nat, algorithm: nat) {
    exists i :: 0 <= i < |rs| && Open(rs[i], asset, algorithm)
  }

  /** At most one open record for each asset and algorithm. */
  predicate OneOpen(rs: seq<Result>) {
    forall i, j :: 0 <= i < j < |rs| && Unresolved(rs[i]) && Unresolved(rs[j]) ==>
      !Same(rs[j], rs[i].asset, rs[i].algorithm)
  }

  predicate Counted(rs: seq<Result>) { forall i :: 0 <= i < |rs| ==> rs[i].occurances >= 1 }

  /** The record of one check, new or continued. */
  function Checked(r: Result, passed: bool): Result {
    r.(passed := passed, active := !passed, occurances := r.occurances + 1, recent := true)
  }

  function Fresh(asset: nat, algorithm: nat, priority: int, passed: bool): Result {
    Result(asset, algorithm, passed, true, passed, 0, true, priority, "")
  }

  function MaxOf(a: int, b: int): int { if a >= b then a else b }

  /** The record `id` is the outcome of a check of (asset, algorithm) on the table `before`. */
  predicate SavedAs(before: seq<Result>, after: seq<Result>, asset: nat, algorithm: nat, priority: int, passed: bool,
                    id: nat) {
    if HasOpen(before, asset, algorithm) then
      && id < |before| && Open(before[id], asset, algorithm) && after == before[id := Checked(before[id], passed)]
    else
      id == |before| && after == before + [Checked(Fresh(asset, algorithm, priority, passed), passed)]
  }

  /** A check keeps the table in order and leaves the algorithm's open record active if it failed. */
  lemma SavedKeeps(before: seq<Result>, after: seq<Result>, asset: nat, algorithm: nat, priority: int, passed: bool,
                   id: nat)
    requires OneOpen(before) && Counted(before) && SavedAs(before, after, asset, algorithm, priority, passed, id)
    ensures OneOpen(after) && Counted(after) && |before| <= |after| && id < |after|
    ensures Same(after[id], asset, algorithm) && after[id].active == !passed && after[id].passed == passed
    ensures after[id].occurances == 1 <==> !HasOpen(before, asset, algorithm)
    ensures after[id].recent && after[id].occurances
                                == if id < |before| then before[id].occurances + 1 else 1
    ensures id < |before| ==> after[id].acknowledged == before[id].acknowledged && after[id].notes == before[id].notes
                              && after[id].priority == before[id].priority
    ensures id == |before| ==> after[id].acknowledged == passed && after[id].notes == ""
                               && after[id].priority == priority
    ensures forall i :: 0 <= i < |after| && i != id ==> i < |before| && after[i] == before[i]
    ensures forall i :: 0 <= i < |after| && i != id && after[i].active ==> !Same(after[i], asset, algorithm)
  {
    forall i | 0 <= i < |after| && i != id && after[i].active ensures !Same(after[i], asset, algorithm) {
      assert Same(after[i], asset, algorithm) ==> Open(before[i], asset, algorithm);
    }
    forall i, j | 0 <= i < j < |after| && Unresolved(after[i]) && Unresolved(after[j])
      ensures !Same(after[j], after[i].asset, after[i].algorithm)
    {
      if Same(after[j], after[i].asset, after[i].algorithm) {
        assert i < |before| && Unresolved(before[i]);
        assert j == |before| ==> Open(before[i], asset, algorithm);
      }
    }
  }

  // ---- A pass over an asset ----

  /** Where a pass stands: `rs` is the table, `done` the algorithms already run, `base` the table
      before the first of them. */
  predicate Progress(base: seq<Result>, rs: seq<Result>, asset: nat, outcomes: map<nat, bool>, done: set<nat>) {
    && OneOpen(rs) && Counted(rs) && |base| <= |rs|
    && (forall i :: 0 <= i < |base| && !(base[i].asset == asset && base[i].algorithm in done) ==> rs[i] == base[i])
    && (forall i :: 0 <= i < |base| ==> Same(rs[i], base[i].asset, base[i].algorithm))
    && (forall i :: |base| <= i < |rs| ==> rs[i].asset == asset && rs[i].algorithm in done)
    && done <= outcomes.Keys
    && (forall i :: 0 <= i < |rs| && rs[i].asset == asset && rs[i].algorithm in done && rs[i].active ==>
        !outcomes[rs[i].algorithm])
    && (forall a :: a in done && !outcomes[a] ==> HasActive(rs, asset, a))
  }

  predicate HasActive(rs: seq<Result>, asset: nat, algorithm: nat) {
    exists i :: 0 <= i < |rs| && Same(rs[i], asset, algorithm) && rs[i].active
  }

  /** The active records of the asset whose algorithm has not been run yet. */
  ghost predicate Remaining(base: seq<Result>, asset: nat, done: set<nat>, ids: set<nat>) {
    forall i: nat :: i in ids <==> i < |base| && base[i].asset == asset && base[i].active && base[i].algorithm !in done
  }

  lemma ProgressStep(base: seq<Result>, rs: seq<Result>, rs': seq<Result>, asset: nat, outcomes: map<nat, bool>,
                     done: set<nat>, a: nat, priority: int, id: nat)
    requires Progress(base, rs, asset, outcomes, done) && a in outcomes && a !in done
    requires SavedAs(rs, rs', asset, a, priority, outcomes[a], id)
    ensures Progress(base, rs', asset, outcomes, done + {a})
  {
    hide SavedAs, OneOpen, Counted, HasOpen, Unresolved;
    SavedKeeps(rs, rs', asset, a, priority, outcomes[a], id);
    SavedWhere(rs, rs', asset, a, priority, outcomes[a], id);
    forall b | b in done + {a} && !outcomes[b] ensures HasActive(rs', asset, b) {
      if b == a {
        assert Same(rs'[id], asset, a) && rs'[id].active;
      } else {
        var i :| 0 <= i < |rs| && Same(rs[i], asset, b) && rs[i].active;
        assert rs'[i] == rs[i];
      }
    }
  }

  lemma SavedWhere(rs: seq<Result>, rs': seq<Result>, asset: nat, a: nat, priority: int, passed: bool, id: nat)
    requires SavedAs(rs, rs', asset, a, priority, passed, id)
    ensures id < |rs'| && |rs| <= |rs'| && (id < |rs| ==> Same(rs[id], asset, a))
            && (id >= |rs| ==> id == |rs| && |rs'| == |rs| + 1)
    ensures id < |rs| ==> |rs'| == |rs|
  {
  }

  /** The record just saved is the only one of its algorithm that was still to be deactivated. */
  lemma RemainingStep(base: seq<Result>, rs: seq<Result>, rs': seq<Result>, asset: nat, outcomes: map<nat, bool>,
                      done: set<nat>, a: nat, priority: int, id: nat, ids: set<nat>)
    requires Progress(base, rs, asset, outcomes, done) && a in outcomes && a !in done
    requires SavedAs(rs, rs', asset, a, priority, outcomes[a], id) && Remaining(base, asset, done, ids)
    ensures Remaining(base, asset, done + {a}, ids - {id})
  {
    SavedWhere(rs, rs', asset, a, priority, outcomes[a], id);
    forall i: nat
      ensures i in ids - {id} <==>
                i < |base| && base[i].asset == asset && base[i].active && base[i].algorithm !in done + {a}
    {
      if i in ids && base[i].algorithm == a {
        assert Open(rs[i], asset, a);
        assert i == id;
      }
    }
  }

  class Tracker {
    const siteOf: nat -> nat
    const emailTrigger: nat -> int
    const cmmsTrigger: nat -> int
    var results: seq<Result>
    /** The results notified, in order. */
    var alerts: seq<nat>

    predicate Valid()
      reads this
    {
      OneOpen(results) && Counted(results)
    }

    constructor (siteOf: nat -> nat, emailTrigger: nat -> int, cmmsTrigger: nat -> int)
      ensures Valid() && results == [] && alerts == []
    {
      this.siteOf, this.emailTrigger, this.cmmsTrigger := siteOf, emailTrigger, cmmsTrigger;
      results, alerts := [], [];
    }

    /** test_priority, for a result of that asset and priority */
    predicate Urgent(asset: nat, priority: int) {
      priority < MaxOf(emailTrigger(siteOf(asset)), cmmsTrigger(siteOf(asset)))
    }

    /** The query of save_result: the first open record. */
    method FirstOpen(asset: nat, algorithm: nat) returns (found: bool, id: nat)
      ensures found <==> HasOpen(results, asset, algorithm)
      ensures found ==> id < |results| && Open(results[id], asset, algorithm)
    {
      found, id := false, 0;
      while id < |results|
        invariant id <= |results| && forall i :: 0 <= i < id ==> !Open(results[i], asset, algorithm)
      {
        if Open(results[id], asset, algorithm) { return true, id; }
        id := id + 1;
      }
    }

    /** save_result */
    method SaveResult(asset: nat, algorithm: nat, priority: int, passed: bool) returns (id: nat)
      modifies `results
      ensures SavedAs(old(results), results, asset, algorithm, priority, passed, id)
    {
      var found;
      found, id := FirstOpen(asset, algorithm);
      if !found {
        id := |results|;
        results := results + [Fresh(asset, algorithm, priority, passed)];
      }
      results := results[id := Checked(results[id], passed)];
    }

    /** handle_result and test_for_notification */
    method HandleResult(id: nat) returns (alert: bool)
      requires id < |results|
      modifies `alerts
      ensures alert <==>
                !results[id].passed && Urgent(results[id].asset, results[id].priority) && results[id].occurances == 1
      ensures alerts == old(alerts) + if alert then [id] else []
    {
      var r := results[id];
      alert := r.passed == false && Urgent(r.asset, r.priority) && r.occurances == 1;
      if alert { alerts := alerts + [id]; }
    }

    /** One algorithm on one asset: it alerts exactly when it failed, its priority suffices and
        nothing was open for it before. */
    method CheckOne(asset: nat, algorithm: nat, priority: int, passed: bool) returns (id: nat, alert: bool)
      requires Valid()
      modifies `results, `alerts
      ensures Valid() && SavedAs(old(results), results, asset, algorithm, priority, passed, id) && id < |results|
      ensures alert <==> !passed && Urgent(asset, priority) && !HasOpen(old(results), asset, algorithm)
      ensures alerts == old(alerts) + if alert then [id] else []
    {
      id := SaveResult(asset, algorithm, priority, passed);
      SavedKeeps(old(results), results, asset, algorithm, priority, passed, id);
      alert := HandleResult(id);
    }

    /** app/algorithms/algorithms.py:66-68 */
    method ClearRecent(asset: nat)
      requires Valid()
      modifies `results
      ensures Valid() && |results| == |old(results)|
      ensures forall i :: 0 <= i < |results| ==>
                results[i]
                == if old(results)[i].asset == asset then old(results)[i].(recent := false) else old(results)[i]
    {
      for k := 0 to |results|
        invariant |results| == |old(results)|
        invariant forall i :: 0 <= i < |results| ==>
                    results[i] == if i < k && old(results)[i].asset == asset then old(results)[i].(recent := false)
                                  else old(results)[i]
      {
        if results[k].asset == asset && results[k].recent { results := results[k := results[k].(recent := false)]; }
      }
    }

    /** app/algorithms/algorithms.py:103-105 */
    method Deactivate(ids: set<nat>)
      requires Valid() && forall i :: i in ids ==> i < |results|
      modifies `results
      ensures Valid() && |results| == |old(results)|
      ensures forall i :: 0 <= i < |results| ==>
                results[i] == if i in ids then old(results)[i].(active := false) else old(results)[i]
    {
      var todo := ids;
      while todo != {}
        invariant todo <= ids && |results| == |old(results)|
        invariant forall i :: 0 <= i < |results| ==>
                    results[i] == if i in ids - todo then old(results)[i].(active := false) else old(results)[i]
        decreases |todo|
      {
        var i :| i in todo;
        results := results[i := results[i].(active := false)];
        todo := todo - {i};
      }
    }

    /** The loop of check_asset. The algorithms come from a set, in no particular order. */
    method RunAlgorithms(asset: nat, priority: int, outcomes: map<nat, bool>, active: set<nat>)
      returns (left: set<nat>, ghost alerted: seq<nat>)
      requires Valid() && Remaining(results, asset, {}, active)
      modifies `results, `alerts
      ensures Progress(old(results), results, asset, outcomes, outcomes.Keys)
      ensures Remaining(old(results), asset, outcomes.Keys, left)
      ensures AlertsAre(alerts, old(alerts), alerted, results, asset)
              && AlertedAre(alerted, old(results), asset, priority, outcomes, outcomes.Keys)
    {
      left, alerted := active, [];
      var todo := outcomes.Keys;
      ghost var done := {};
      while todo != {}
        invariant todo <= outcomes.Keys && done == outcomes.Keys - todo
        invariant Progress(old(results), results, asset, outcomes, done) && Remaining(old(results), asset, done, left)
        invariant AlertsAre(alerts, old(alerts), alerted, results, asset)
        invariant AlertedAre(alerted, old(results), asset, priority, outcomes, done)
        decreases |todo|
      {
        hide Progress, Remaining, HasOpen, SavedAs, AlertsAre, AlertedAre, OneOpen, Counted;
        var algorithm :| algorithm in todo;
        ghost var before, earlier := results, alerts;
        InOrder(old(results), results, asset, outcomes, done);
        var id, alert := CheckOne(asset, algorithm, priority, outcomes[algorithm]);
        ProgressStep(old(results), before, results, asset, outcomes, done, algorithm, priority, id);
        RemainingStep(old(results), before, results, asset, outcomes, done, algorithm, priority, id, left);
        AlertsStep(earlier, old(alerts), alerted, before, results, asset, algorithm, priority, outcomes[algorithm], id,
                   alert);
        AlertedStep(alerted, old(results), asset, priority, outcomes, done, algorithm, alert);
        if alert { alerted := alerted + [algorithm]; }
        left := left - {id};
        todo, done := todo - {algorithm}, done + {algorithm};
      }
    }

    /** No algorithm twice, and exactly those that failed, matter enough and had nothing open. */
    ghost predicate AlertedAre(alerted: seq<nat>, rs: seq<Result>, asset: nat, priority: int, outcomes: map<nat, bool>,
                               done: set<nat>) {
      && done <= outcomes.Keys
      && (forall i, j :: 0 <= i < j < |alerted| ==> alerted[i] != alerted[j])
      && (forall a :: a in alerted <==> a in done && !outcomes[a] && Urgent(asset, priority) && !HasOpen(rs, asset, a))
    }

    lemma AlertedStep(alerted: seq<nat>, rs: seq<Result>, asset: nat, priority: int, outcomes: map<nat, bool>,
                      done: set<nat>,
                      a: nat, alert: bool)
      requires AlertedAre(alerted, rs, asset, priority, outcomes, done) && a in outcomes && a !in done
      requires alert <==> !outcomes[a] && Urgent(asset, priority) && !HasOpen(rs, asset, a)
      ensures AlertedAre(if alert then alerted + [a] else alerted, rs, asset, priority, outcomes, done + {a})
    {
      hide HasOpen;
    }

    /** check_asset, with what each algorithm that is run returns. */
    method CheckAsset(asset: nat, priority: int, outcomes: map<nat, bool>) returns (ghost alerted: seq<nat>)
      requires Valid()
      modifies `results, `alerts
      ensures Valid() && ActiveAre(results, asset, outcomes)
      ensures |old(results)| <= |results|
      ensures forall i :: 0 <= i < |old(results)| && old(results)[i].asset != asset ==> results[i] == old(results)[i]
      ensures AlertsAre(alerts, old(alerts), alerted, results, asset)
      ensures AlertedAre(alerted, old(results), asset, priority, outcomes, outcomes.Keys)
      ensures forall a :: a in alerted <==>
                && a in outcomes && !outcomes[a] && !HasOpen(old(results), asset, a)
                && (priority < emailTrigger(siteOf(asset)) || priority < cmmsTrigger(siteOf(asset)))
    {
      hide Progress, HasOpen, AlertsAre, OneOpen, Counted, ActiveAre;
      ClearRecent(asset);
      ghost var base := results;
      OpenKept(old(results), base);
      var previouslyActive: set<nat> := set i: nat | i < |results| && results[i].asset == asset && results[i].active;
      var left;
      left, alerted := RunAlgorithms(asset, priority, outcomes, previouslyActive);
      ghost var checked := results;
      InOrder(base, checked, asset, outcomes, outcomes.Keys);
      LongEnough(base, checked, asset, outcomes, outcomes.Keys);
      Deactivate(left);
      Settled(base, checked, results, asset, outcomes, left);
      AlertsKept(alerts, old(alerts), alerted, checked, results, asset);
    }

    // ---- Acknowledgement ----

    /** The submit handlers (app/controllers.py:240-256, 433-447, 463-477): the open results in
        scope are un-acknowledged and given their notes, then the chosen ids are acknowledged. A
        missing note, or an id that is not in the table, aborts the request before the commit. */
    method Submit(scope: nat -> bool, notes: map<nat, string>, chosen: seq<nat>) returns (ok: bool)
      requires Valid()
      modifies `results
      ensures Valid()
      ensures ok <==> && (forall i :: 0 <= i < |old(results)| ==>
                            scope(old(results)[i].asset) && Unresolved(old(results)[i]) ==> i in notes)
                      && (forall k :: 0 <= k < |chosen| ==> chosen[k] < |old(results)|)
      ensures !ok ==> results == old(results)
      ensures ok ==> && |results| == |old(results)|
                     && forall i :: 0 <= i < |results| ==>
                          results[i] == Submitted(old(results)[i], i, scope, notes, chosen)
      ensures ok ==> forall i :: 0 <= i < |results| ==>
                var r := old(results)[i];
                var asked := scope(r.asset) && (r.active || !r.acknowledged);
                && results[i] == r.(acknowledged := results[i].acknowledged, notes := results[i].notes)
                && results[i].acknowledged == (i in chosen || (!asked && r.acknowledged))
                && results[i].notes == if asked then notes[i] else r.notes
    {
      var rs := results;
      for i := 0 to |rs|
        invariant |rs| == |results|
        invariant forall j :: 0 <= j < i && scope(results[j].asset) && Unresolved(results[j]) ==> j in notes
        invariant forall j :: 0 <= j < |rs| ==>
                    rs[j] == if j < i then Reset(results[j], j, scope, notes) else results[j]
      {
        if scope(rs[i].asset) && Unresolved(rs[i]) {
          if i !in notes { return false; }
          rs := rs[i := rs[i].(acknowledged := false, notes := notes[i])];
        }
      }
      for k := 0 to |chosen|
        invariant |rs| == |results|
        invariant forall m :: 0 <= m < k ==> chosen[m] < |results|
        invariant forall j :: 0 <= j < |rs| ==>
                    rs[j] == if j in chosen[..k] then Reset(results[j], j, scope, notes).(acknowledged := true)
                             else Reset(results[j], j, scope, notes)
      {
        if chosen[k] >= |rs| { return false; }
        rs := rs[chosen[k] := rs[chosen[k]].(acknowledged := true)];
      }
      assert chosen[..|chosen|] == chosen;
      results := rs;
      return true;
    }

    // ---- Runs ----

    method Execute(e: Event)
      requires Valid()
      modifies `results, `alerts
      ensures Valid()
    {
      match e {
        case Check(asset, priority, outcomes) => ghost var _ := CheckAsset(asset, priority, outcomes);
        case Acknowledge(scope, notes, chosen) => var _ := Submit(scope, notes, chosen);
      }
    }

    /** Over any run of checks and acknowledgements there is at most one open record for each asset
        and algorithm. */
    method Run(events: seq<Event>)
      requires Valid()
      modifies `results, `alerts
      ensures OneOpen(results) && Counted(results)
    {
      for i := 0 to |events|
        invariant Valid()
      {
        Execute(events[i]);
      }
    }
  }

  datatype Event =
    | Check(asset: nat, priority: int, outcomes: map<nat, bool>)
    | Acknowledge(scope: nat -> bool, notes: map<nat, string>, chosen: seq<nat>)

  function Reset(r: Result, id: nat, scope: nat -> bool, notes: map<nat, string>): Result {
    if scope(r.asset) && Unresolved(r) && id in notes then r.(acknowledged := false, notes := notes[id]) else r
  }

  function Submitted(r: Result, id: nat, scope: nat -> bool, notes: map<nat, string>, chosen: seq<nat>): Result {
    if id in chosen then Reset(r, id, scope, notes).(acknowledged := true) else Reset(r, id, scope, notes)
  }

  /** Acknowledging opens nothing: a record is open afterwards only if it was before. */
  lemma SubmitOpensNothing(r: Result, id: nat, scope: nat -> bool, notes: map<nat, string>, chosen: seq<nat>)
    ensures Unresolved(Submitted(r, id, scope, notes, chosen)) ==> Unresolved(r)
    ensures r.active ==> Unresolved(Submitted(r, id, scope, notes, chosen))
  {
  }

  lemma LongEnough(base: seq<Result>, rs: seq<Result>, asset: nat, outcomes: map<nat, bool>, done: set<nat>)
    requires Progress(base, rs, asset, outcomes, done)
    ensures |base| <= |rs|
  {
  }

  /** The active records of the asset are exactly those whose algorithm ran and failed. */
  predicate ActiveAre(rs: seq<Result>, asset: nat, outcomes: map<nat, bool>) {
    && (forall i :: 0 <= i < |rs| && rs[i].asset == asset && rs[i].active ==>
        rs[i].algorithm in outcomes && !outcomes[rs[i].algorithm])
    && (forall a :: a in outcomes && !outcomes[a] ==> HasActive(rs, asset, a))
  }

  /** `alerts` adds to `before` one record of each algorithm of `alerted`. */
  ghost predicate AlertsAre(alerts: seq<nat>, before: seq<nat>, alerted: seq<nat>, rs: seq<Result>, asset: nat) {
    && |alerts| == |before| + |alerted| && alerts[..|before|] == before
    && forall k :: 0 <= k < |alerted| ==> IsRecord(rs, alerts[|before| + k], asset, alerted[k])
  }

  predicate IsRecord(rs: seq<Result>, id: nat, asset: nat, algorithm: nat) {
    id < |rs| && Same(rs[id], asset, algorithm)
  }

  lemma AlertsStep(earlier: seq<nat>, before: seq<nat>, alerted: seq<nat>, rs: seq<Result>, rs': seq<Result>,
                   asset: nat, a: nat,
                   priority: int, passed: bool, id: nat, alert: bool)
    requires SavedAs(rs, rs', asset, a, priority, passed, id) && AlertsAre(earlier, before, alerted, rs, asset)
    ensures AlertsAre(earlier + (if alert then [id] else []), before, if alert then alerted + [a] else alerted,
                      rs', asset)
  {
    SavedWhere(rs, rs', asset, a, priority, passed, id);
    assert forall i :: 0 <= i < |rs| ==> Same(rs'[i], rs[i].asset, rs[i].algorithm);
    assert id < |rs'| && Same(rs'[id], asset, a);
    var alerts: seq<nat> := earlier + (if alert then [id] else []);
    var more: seq<nat> := if alert then alerted + [a] else alerted;
    assert alerts[..|before|] == earlier[..|before|];
    forall k | 0 <= k < |more| ensures IsRecord(rs', alerts[|before| + k], asset, more[k]) {
      if k < |alerted| {
        assert more[k] == alerted[k] && alerts[|before| + k] == earlier[|before| + k];
      }
    }
  }

  lemma AlertsKept(alerts: seq<nat>, before: seq<nat>, alerted: seq<nat>, rs: seq<Result>, rs': seq<Result>, asset: nat)
    requires AlertsAre(alerts, before, alerted, rs, asset) && |rs'| == |rs|
    requires forall i :: 0 <= i < |rs| ==> Same(rs'[i], rs[i].asset, rs[i].algorithm)
    ensures AlertsAre(alerts, before, alerted, rs', asset)
  {
  }

  lemma InOrder(base: seq<Result>, rs: seq<Result>, asset: nat, outcomes: map<nat, bool>, done: set<nat>)
    requires Progress(base, rs, asset, outcomes, done)
    ensures OneOpen(rs) && Counted(rs)
  {
  }

  /** Clearing a flag that says nothing about being open changes nothing about it. */
  lemma OpenKept(rs: seq<Result>, rs': seq<Result>)
    requires |rs| == |rs'| && forall i :: 0 <= i < |rs| ==> rs'[i] == rs[i] || rs'[i] == rs[i].(recent := false)
    ensures forall asset, a :: HasOpen(rs', asset, a) <==> HasOpen(rs, asset, a)
  {
    forall asset, a ensures HasOpen(rs', asset, a) <==> HasOpen(rs, asset, a) {
      if HasOpen(rs, asset, a) {
        var i :| 0 <= i < |rs| && Open(rs[i], asset, a);
        assert Open(rs'[i], asset, a);
      }
      if HasOpen(rs', asset, a) {
        var i :| 0 <= i < |rs| && Open(rs'[i], asset, a);
        assert Open(rs[i], asset, a);
      }
    }
  }

  lemma Settled(base: seq<Result>, rs: seq<Result>, rs': seq<Result>, asset: nat, outcomes: map<nat, bool>,
                ids: set<nat>)
    requires Progress(base, rs, asset, outcomes, outcomes.Keys) && Remaining(base, asset, outcomes.Keys, ids)
    requires |rs'| == |rs|
    requires forall i :: 0 <= i < |rs| ==> rs'[i] == if i in ids then rs[i].(active := false) else rs[i]
    ensures ActiveAre(rs', asset, outcomes)
    ensures forall i :: 0 <= i < |base| && base[i].asset != asset ==> rs'[i] == base[i]
    ensures forall i :: 0 <= i < |rs| ==> Same(rs'[i], rs[i].asset, rs[i].algorithm)
  {
    forall a | a in outcomes && !outcomes[a] ensures HasActive(rs', asset, a) {
      var i :| 0 <= i < |rs| && Same(rs[i], asset, a) && rs[i].active;
      assert rs'[i] == rs[i];
    }
  }
}

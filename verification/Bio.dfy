/** The background jobs of one type (bio.c:131-225): producers and the worker share a list and a
    counter under one lock. Each step is what one thread does between two points where another may
    come in; a step that is not enabled changes nothing. */
module Bio {

  datatype Node<J> = Node(id: nat, job: J)

  datatype Holder = Free | ByWorker | ByProducer(p: nat)

  /** Outside: blocked on the lock or in pthread_cond_wait, from which it may wake at any time. */
  datatype WorkerPc<J> =
    | Outside
    | Top
    | Picked(ln: nat, job: J)
    | Unlocked(ln: nat, job: J)
    | Finished(ln: nat)
    | Relocked(ln: nat)
    | Unlinked

  datatype ProducerPc<J> = Wants(job: J) | Entered(job: J) | Added | Counted

  /** `created` and `ran` are the histories: jobs in the order they were queued and processed. */
  datatype State<J> = State(
    holder: Holder, queue: seq<Node<J>>, pending: int, worker: WorkerPc<J>, producers: map<nat, ProducerPc<J>>,
    nextNode: nat, created: seq<J>, ran: seq<J>)

  datatype Action<J> =
    | Call(p: nat, job: J)   // a thread calls bioCreateBackgroundJob
    | Produce(p: nat)        // and takes its next step
    | Work                   // the worker takes its next step

  function Initial<J>(): State<J> { State(Free, [], 0, Outside, map[], 0, [], []) }

  /** listDelNode: the node with that address, wherever it is. */
  function Delete<J>(queue: seq<Node<J>>, ln: nat): seq<Node<J>> {
    if queue == [] then [] else if queue[0].id == ln then queue[1..] else [queue[0]] + Delete(queue[1..], ln)
  }

  /** bioCreateBackgroundJob, step by step: lock, listAddNodeTail, bio_pending++, unlock. */
  function ProduceStep<J>(s: State<J>, p: nat): State<J>
    requires p in s.producers
  {
    match s.producers[p]
    case Wants(job) =>
      if s.holder.Free? then s.(holder := ByProducer(p), producers := s.producers[p := Entered(job)]) else s
    case Entered(job) =>
      s.(queue := s.queue + [Node(s.nextNode, job)], nextNode := s.nextNode + 1, created := s.created + [job],
         producers := s.producers[p := Added])
    case Added => s.(pending := s.pending + 1, producers := s.producers[p := Counted])
    case Counted => s.(holder := Free, producers := s.producers - {p})
  }

  /** bioProcessBackgroundJobs, step by step. */
  function WorkStep<J>(s: State<J>): State<J> {
    match s.worker
    case Outside => if s.holder.Free? then s.(holder := ByWorker, worker := Top) else s
    case Top => if s.queue == [] then s.(holder := Free, worker := Outside)
                else s.(worker := Picked(s.queue[0].id, s.queue[0].job))
    case Picked(ln, job) => s.(holder := Free, worker := Unlocked(ln, job))
    case Unlocked(ln, job) => s.(ran := s.ran + [job], worker := Finished(ln))
    case Finished(ln) => if s.holder.Free? then s.(holder := ByWorker, worker := Relocked(ln)) else s
    case Relocked(ln) => s.(queue := Delete(s.queue, ln), worker := Unlinked)
    case Unlinked => s.(pending := s.pending - 1, worker := Top)
  }

  function Step<J>(s: State<J>, a: Action<J>): State<J> {
    match a
    case Call(p, job) => if p in s.producers then s else s.(producers := s.producers[p := Wants(job)])
    case Produce(p) => if p in s.producers then ProduceStep(s, p) else s
    case Work => WorkStep(s)
  }

  function Run<J>(actions: seq<Action<J>>): State<J> {
    if actions == [] then Initial() else Step(Run(actions[..|actions| - 1]), actions[|actions| - 1])
  }

  // ---- What every step keeps ----

  predicate Inside<J>(pc: ProducerPc<J>) { !pc.Wants? }

  /** The lock is held exactly by the thread that is between locking and unlocking. */
  predicate Locking<J>(s: State<J>) {
    && (s.holder.ByWorker? <==> s.worker.Top? || s.worker.Picked? || s.worker.Relocked? || s.worker.Unlinked?)
    && (forall p :: p in s.producers ==> (Inside(s.producers[p]) <==> s.holder == ByProducer(p)))
    && (s.holder.ByProducer? ==> s.holder.p in s.producers)
  }

  /** How far the counter is from the length of the list: only inside the lock. */
  function Lag<J>(s: State<J>): int {
    if s.worker.Unlinked? then 1
    else if s.holder.ByProducer? && s.holder.p in s.producers && s.producers[s.holder.p].Added? then -1 else 0
  }

  predicate NodesDistinct<J>(s: State<J>) {
    && (forall i :: 0 <= i < |s.queue| ==> s.queue[i].id < s.nextNode)
    && (forall i, j :: 0 <= i < j < |s.queue| ==> s.queue[i].id != s.queue[j].id)
  }

  function Jobs<J>(queue: seq<Node<J>>): (js: seq<J>)
    ensures |js| == |queue| && forall i :: 0 <= i < |js| ==> js[i] == queue[i].job
  {
    seq(|queue|, i requires 0 <= i < |queue| => queue[i].job)
  }

  /** The job the worker has run but not unlinked yet, if any, is still first in the list. */
  function NotRun<J>(s: State<J>): seq<Node<J>> {
    if (s.worker.Finished? || s.worker.Relocked?) && s.queue != [] then s.queue[1..] else s.queue
  }

  ghost predicate FirstIs<J>(s: State<J>) {
    match s.worker
    case Picked(ln, job) => s.queue != [] && s.queue[0] == Node(ln, job)
    case Unlocked(ln, job) => s.queue != [] && s.queue[0] == Node(ln, job)
    case Finished(ln) => s.queue != [] && s.queue[0].id == ln && s.ran != [] && s.ran[|s.ran| - 1] == s.queue[0].job
    case Relocked(ln) => s.queue != [] && s.queue[0].id == ln && s.ran != [] && s.ran[|s.ran| - 1] == s.queue[0].job
    case _ => true
  }

  ghost predicate Inv<J>(s: State<J>) {
    && Locking(s) && NodesDistinct(s) && FirstIs(s)
    && s.pending == |s.queue| + Lag(s)
    && s.created == s.ran + Jobs(NotRun(s))
  }

  lemma DeleteFirst<J>(queue: seq<Node<J>>, ln: nat)
    requires queue != [] && queue[0].id == ln
    ensures Delete(queue, ln) == queue[1..]
  {
  }

  /** A producer's step keeps the history. */
  lemma ProduceHistory<J>(s: State<J>, p: nat)
    requires p in s.producers && FirstIs(s) && s.created == s.ran + Jobs(NotRun(s))
    ensures var t := ProduceStep(s, p); FirstIs(t) && t.created == t.ran + Jobs(NotRun(t))
  {
    hide Jobs;
    if s.producers[p].Entered? {
      var n := Node(s.nextNode, s.producers[p].job);
      assert NotRun(ProduceStep(s, p)) == NotRun(s) + [n];
    }
  }

  lemma ProduceInv<J>(s: State<J>, p: nat)
    requires Inv(s) && p in s.producers
    ensures Inv(ProduceStep(s, p))
  {
    hide Jobs, NotRun, FirstIs;
    ProduceHistory(s, p);
  }

  /** A step of the worker keeps the history: running a job moves it from one side to the other. */
  lemma WorkHistory<J>(s: State<J>)
    requires FirstIs(s) && s.created == s.ran + Jobs(NotRun(s))
    ensures var t := WorkStep(s); FirstIs(t) && t.created == t.ran + Jobs(NotRun(t))
  {
    hide Jobs, Delete;
    match s.worker {
      case Unlocked(ln, job) =>
      case Relocked(ln) => DeleteFirst(s.queue, ln);
      case _ =>
    }
  }

  lemma WorkInv<J>(s: State<J>)
    requires Inv(s)
    ensures Inv(WorkStep(s))
  {
    hide Jobs, NotRun, Delete;
    WorkHistory(s);
    if s.worker.Relocked? { DeleteFirst(s.queue, s.worker.ln); }
  }

  lemma StepInv<J>(s: State<J>, a: Action<J>)
    requires Inv(s)
    ensures Inv(Step(s, a))
  {
    match a {
      case Call(p, job) =>
      case Produce(p) => if p in s.producers { ProduceInv(s, p); }
      case Work => WorkInv(s);
    }
  }

  lemma {:induction false} RunInv<J>(actions: seq<Action<J>>)
    ensures Inv(Run(actions))
  {
    if actions != [] {
      RunInv(actions[..|actions| - 1]);
      StepInv(Run(actions[..|actions| - 1]), actions[|actions| - 1]);
    }
  }

  // ---- What that means for every interleaving ----

  /** Jobs run exactly once, in the order they were created. */
  lemma RunsInOrder<J>(actions: seq<Action<J>>)
    ensures var s := Run(actions); |s.ran| <= |s.created| && s.ran == s.created[..|s.ran|]
  {
    RunInv(actions);
  }

  /** The node unlinked after relocking is the one whose job was run last, and it is the first. */
  lemma UnlinksWhatItRan<J>(actions: seq<Action<J>>)
    requires Run(actions).worker.Relocked?
    ensures var s := Run(actions);
            && s.queue != [] && s.queue[0].id == s.worker.ln && s.ran != [] && s.queue[0].job == s.ran[|s.ran| - 1]
            && |s.ran| <= |s.created|
            && Step(s, Work).queue == s.queue[1..] && Jobs(s.queue[1..]) == s.created[|s.ran|..]
  {
    RunInv(actions);
    DeleteFirst(Run(actions).queue, Run(actions).worker.ln);
  }

  /** bioPendingJobsOfType reads under the lock: it sees the number of jobs in the list, and zero
      means that every job created so far has been run. */
  lemma PendingMeans<J>(actions: seq<Action<J>>)
    requires Run(actions).holder.Free?
    ensures var s := Run(actions);
            && s.pending == |s.queue|
            && |s.created| - |s.ran| <= s.pending <= |s.created| - |s.ran| + 1
            && (s.pending == 0 ==> s.ran == s.created)
  {
    RunInv(actions);
  }
}

/** The bounded-concurrency FIFO dispatcher inside `onchange()` in
    `src/index.ts`: the pending `Deque<Job>`, the `Set<Job>` of running jobs,
    and the `dequeue`/`enqueue`/completion transitions over them.

    JavaScript jobs are object identities; here every job gets a number from
    a counter (`nextId`), so ids also record enqueue order. The deque is the
    sequence of pending ids together with the map from those ids to their
    jobs; the running set is a map from ids to jobs. A `setTimeout` armed by
    a completion with a positive delay is counted in `timers`; each armed
    timer later fires one `dequeue`. */
module Scheduler {
  import opened Wrappers
  import opened Jobs

  type JobId = nat

  /** The normalised options the scheduler reads. */
  datatype Policy = Policy(jobs: nat, delay: nat, kill: bool, killSignal: string)

  datatype Sched = Sched(
    queue: seq<JobId>,          // pending job ids, front first
    pending: map<JobId, Job>,   // the pending jobs
    running: map<JobId, Job>,   // started jobs whose `onexit` has not run
    nextId: JobId,              // id of the next job to be created
    timers: nat)                // armed `setTimeout(dequeue, delay)` calls

  /** The state after a `dequeue`, and the job it started, if any. */
  datatype Dispatch = Dispatch(sched: Sched, started: Option<JobId>)

  /** A tree-kill request sent to a child of job `job`. */
  datatype Signal = Signal(job: JobId, request: KillRequest)

  /** The state after an `enqueue`, the new job's id, the job the trailing
      `dequeue` started (if any) and the kill requests sent before. */
  datatype Enqueued = Enqueued(sched: Sched, id: JobId, started: Option<JobId>, kills: set<Signal>)

  const Empty: Sched := Sched([], map[], map[], 0, 0)

  predicate Increasing(q: seq<JobId>) {
    forall i, k :: 0 <= i < k < |q| ==> q[i] < q[k]
  }

  /** How many pending jobs could start right now: the free capacity, capped
      by the length of the queue. */
  function Backlog(p: Policy, s: Sched): nat {
    if |s.running| >= p.jobs then 0
    else if p.jobs - |s.running| <= |s.queue| then p.jobs - |s.running|
    else |s.queue|
  }

  /** The bookkeeping every reachable state keeps: at most `jobs` running;
      pending ids in enqueue order, each with a job that is not yet started
      and not running; every id below `nextId`. */
  ghost predicate Shape(p: Policy, s: Sched) {
    && p.jobs >= 1
    && |s.running| <= p.jobs
    && Increasing(s.queue)
    && (forall i :: 0 <= i < |s.queue| ==> s.queue[i] in s.pending)
    && (forall id :: id in s.pending ==> id !in s.running && id < s.nextId && Unstarted(s.pending[id]))
    && (forall id :: id in s.running ==> id < s.nextId)
  }

  /** `Shape`, plus progress: whenever a pending job could start, a deferred
      `dequeue` is armed for it; with no delay no timer is ever armed. */
  ghost predicate Inv(p: Policy, s: Sched) {
    && Shape(p, s)
    && Backlog(p, s) <= s.timers
    && (p.delay == 0 ==> s.timers == 0)
  }

  lemma EmptyInv(p: Policy)
    requires p.jobs >= 1
    ensures Inv(p, Empty)
  {
  }

  /** `dequeue()`: nothing when the queue is empty or `running.size >= jobs`;
      otherwise the front job, and only it, leaves the queue, joins the
      running set and is started. */
  function Dequeue(p: Policy, s: Sched, sp: Spawn): (r: Dispatch)
    requires Shape(p, s)
    ensures Shape(p, r.sched)
    ensures Backlog(p, r.sched) == if Backlog(p, s) > 0 then Backlog(p, s) - 1 else 0
    ensures r.started.Some? <==> (|s.queue| > 0 && |s.running| < p.jobs)
    ensures r.started.None? ==> r.sched == s
    ensures r.started.Some? ==>
      && [r.started.value] + r.sched.queue == s.queue
      && r.started.value in s.pending && r.started.value !in s.running
      && r.sched.pending == s.pending - {r.started.value}
      && r.sched.running == s.running[r.started.value := Start(s.pending[r.started.value], sp)]
    ensures r.started.Some? ==> forall i :: 0 <= i < |r.sched.queue| ==> r.started.value < r.sched.queue[i]
    ensures r.sched.nextId == s.nextId && r.sched.timers == s.timers
  {
    if |s.queue| == 0 || |s.running| >= p.jobs then Dispatch(s, None)
    else
      var id := s.queue[0];
      assert [id] + s.queue[1..] == s.queue;
      var t := s.(queue := s.queue[1..], pending := s.pending - {id},
                  running := s.running[id := Start(s.pending[id], sp)]);
      IncreasingTail(s.queue);
      assert forall i :: 0 <= i < |t.queue| ==> t.queue[i] in s.pending && t.queue[i] != id;
      Dispatch(t, Some(id))
  }

  /** Dropping the front of an increasing sequence leaves an increasing
      sequence of larger elements. */
  lemma IncreasingTail(q: seq<JobId>)
    requires Increasing(q) && |q| > 0
    ensures Increasing(q[1..])
    ensures forall i :: 0 <= i < |q| - 1 ==> q[0] < q[1..][i] && q[1..][i] == q[i + 1]
  {
  }

  /** The tree-kill requests `running.forEach(child => child.kill(signal))`
      sends: every live child with a truthy pid of every running job gets
      `signal`, and nothing else is signalled. */
  function KillsOf(s: Sched, signal: string): (ks: set<Signal>)
    ensures forall g :: g in ks ==> g.job in s.running && g.request.signal == signal
    ensures forall id: JobId, role: Role, pid: nat :: Signal(id, KillRequest(role, pid, signal)) in ks <==>
      id in s.running && Target(s.running[id], role) == Some(pid)
  {
    set id, k | id in s.running && k in Kill(s.running[id], signal) :: Signal(id, k)
  }

  /** `queue.clear()`: every pending job is dropped; running jobs stay. */
  function ClearPending(p: Policy, s: Sched): (r: Sched)
    requires Inv(p, s)
    ensures Inv(p, r)
    ensures r.queue == [] && r.pending == map[] && r.running == s.running
    ensures r.nextId == s.nextId && r.timers == s.timers
  {
    s.(queue := [], pending := map[])
  }

  /** `queue.push(job)`: the job gets the next id and joins the back. */
  function Push(p: Policy, s: Sched, job: Job): (r: Sched)
    requires Shape(p, s) && Unstarted(job)
    ensures Shape(p, r)
    ensures r.queue == s.queue + [s.nextId] && r.running == s.running
    ensures r.pending == s.pending[s.nextId := job] && s.nextId !in s.pending && s.nextId !in s.running
    ensures r.nextId == s.nextId + 1 && r.timers == s.timers
    ensures Backlog(p, r) <= Backlog(p, s) + 1
  {
    var id := s.nextId;
    var r := s.(queue := s.queue + [id], pending := s.pending[id := job], nextId := id + 1);
    assert forall i :: 0 <= i < |s.queue| ==> r.queue[i] == s.queue[i] && s.queue[i] < id;
    r
  }

  /** The scheduler half of `enqueue(event, file)` for a freshly built `job`:
      with `kill`, first clear every pending job and signal every running one;
      then push the job at the back and try one `dequeue`. */
  function Enqueue(p: Policy, s: Sched, job: Job, sp: Spawn): (r: Enqueued)
    requires Inv(p, s) && Unstarted(job)
    ensures Inv(p, r.sched)
    ensures r.id == s.nextId && r.id !in s.pending && r.id !in s.running
    ensures r.sched.nextId == s.nextId + 1 && r.sched.timers == s.timers
    // The new job is started at once, or waits in the queue.
    ensures r.started == Some(r.id) ==>
      r.id in r.sched.running && r.sched.running[r.id] == Start(job, sp)
    ensures r.started != Some(r.id) ==>
      r.id in r.sched.pending && r.sched.pending[r.id] == job
    ensures r.started.None? ==> r.sched.running == s.running
    ensures r.started.Some? ==> r.started.value !in s.running
    ensures r.started == Some(r.id) ==> r.sched.running == s.running[r.id := Start(job, sp)]
    ensures r.started.Some? && r.started.value != r.id ==>
      && r.started.value in s.pending
      && r.sched.running == s.running[r.started.value := Start(s.pending[r.started.value], sp)]
    // Jobs that stay pending keep their job unchanged.
    ensures forall x :: x in s.pending && x in r.sched.pending ==> r.sched.pending[x] == s.pending[x]
    // Without `kill`: the new job joins the back of the queue, which keeps its order.
    ensures !p.kill ==> r.kills == {}
    ensures !p.kill ==>
      s.queue + [r.id] == (if r.started.Some? then [r.started.value] else []) + r.sched.queue
    ensures !p.kill ==> forall x :: x in r.sched.pending <==>
      ((x in s.pending || x == r.id) && r.started != Some(x))
    // With `kill`: the new job is the only pending job, or it has been started.
    ensures p.kill ==>
      (r.sched.queue == [r.id] && r.started.None?) || (r.sched.queue == [] && r.started == Some(r.id))
    ensures p.kill ==> forall x :: x in r.sched.pending ==> x == r.id
    ensures p.kill ==> r.kills == KillsOf(s, p.killSignal)
    // The new job is never signalled because of its own event.
    ensures forall g :: g in r.kills ==> g.job != r.id
    ensures r.started.Some? ==> forall i :: 0 <= i < |r.sched.queue| ==> r.started.value < r.sched.queue[i]
  {
    if p.kill then
      var kept := ClearPending(p, s);
      var d := Dequeue(p, Push(p, kept, job), sp);
      Enqueued(d.sched, s.nextId, d.started, KillsOf(s, p.killSignal))
    else
      var d := Dequeue(p, Push(p, s, job), sp);
      Enqueued(d.sched, s.nextId, d.started, {})
  }

  /** The exit handler of child `role` of job `id` and, when it calls
      `onexit`, the completion callback: drop the job from the running set,
      then `dequeue` at once (no delay) or arm a timer for it. */
  function Complete(p: Policy, s: Sched, id: JobId, role: Role, sp: Spawn): (r: Dispatch)
    requires Inv(p, s)
    requires id in s.running && IsLive(s.running[id], role)
    ensures Inv(p, r.sched)
    ensures r.sched.nextId == s.nextId
    ensures (id in r.sched.running) <==> !OnExit(s.running[id], role).onexit
    ensures !OnExit(s.running[id], role).onexit ==>
      && r.started.None? && r.sched.queue == s.queue && r.sched.pending == s.pending
      && r.sched.timers == s.timers && r.sched.running == s.running[id := OnExit(s.running[id], role).job]
    ensures OnExit(s.running[id], role).onexit && p.delay > 0 ==>
      && r.started.None? && r.sched.queue == s.queue && r.sched.pending == s.pending
      && r.sched.running == s.running - {id} && r.sched.timers == s.timers + 1
    ensures OnExit(s.running[id], role).onexit && p.delay == 0 ==>
      (r.started.Some? <==> |s.queue| > 0)
    ensures OnExit(s.running[id], role).onexit && p.delay == 0 && r.started.None? ==>
      && r.sched.queue == s.queue && r.sched.pending == s.pending
      && r.sched.running == s.running - {id} && r.sched.timers == s.timers
    ensures r.started.Some? ==>
      && [r.started.value] + r.sched.queue == s.queue
      && r.started.value in s.pending
      && r.sched.pending == s.pending - {r.started.value}
      && r.sched.running == (s.running - {id})[r.started.value := Start(s.pending[r.started.value], sp)]
    ensures r.started.Some? ==> forall i :: 0 <= i < |r.sched.queue| ==> r.started.value < r.sched.queue[i]
  {
    var e := OnExit(s.running[id], role);
    if !e.onexit then
      Dispatch(s.(running := s.running[id := e.job]), None)
    else
      var done := s.(running := s.running - {id});
      assert |done.running| == |s.running| - 1 by {
        assert done.running.Keys == s.running.Keys - {id};
      }
      if p.delay > 0 then Dispatch(done.(timers := done.timers + 1), None)
      else Dequeue(p, done, sp)
  }

  /** An armed timer fires: one deferred `dequeue`. */
  function TimerFires(p: Policy, s: Sched, sp: Spawn): (r: Dispatch)
    requires Inv(p, s) && s.timers > 0
    ensures Inv(p, r.sched)
    ensures p.delay > 0
    ensures r.sched.timers == s.timers - 1 && r.sched.nextId == s.nextId
    ensures r.started.Some? <==> (|s.queue| > 0 && |s.running| < p.jobs)
    ensures r.started.None? ==>
      r.sched.queue == s.queue && r.sched.pending == s.pending && r.sched.running == s.running
    ensures r.started.Some? ==>
      && [r.started.value] + r.sched.queue == s.queue
      && r.started.value in s.pending
      && r.sched.pending == s.pending - {r.started.value}
      && r.sched.running == s.running[r.started.value := Start(s.pending[r.started.value], sp)]
    ensures r.started.Some? ==> forall i :: 0 <= i < |r.sched.queue| ==> r.started.value < r.sched.queue[i]
  {
    Dequeue(p, s.(timers := s.timers - 1), sp)
  }

  /** With no delay the scheduler never idles while work is pending: a
      non-empty queue means every slot is taken. */
  lemma WorkConserving(p: Policy, s: Sched)
    requires Inv(p, s) && p.delay == 0 && |s.queue| > 0
    ensures |s.running| == p.jobs
  {
  }
}

/** The `onchange(options)` orchestrator of `src/index.ts`: option
    normalisation, the event-state record, job construction, the event
    filter, the initial run, and the whole system as a transition system
    driven by watcher events, child exits and timers.

    The template library and Node's `path` functions are not part of this
    model: they enter as the opaque functions of a `Platform`. */
module Onchange {
  import opened Wrappers
  import opened Text
  import opened Jobs
  import opened Scheduler

  /** The fields of the `Options` interface the core reads; watcher-only
      fields (`matches`, `exclude`, `poll`, ...) are forwarded and not modelled. */
  datatype Options = Options(
    command: Option<seq<string>>,
    outpipe: Option<string>,
    delay: Option<int>,
    jobs: Option<int>,
    kill: Option<bool>,
    killSignal: Option<string>,
    filter: Option<seq<string>>,
    initial: Option<bool>)

  /** The normalised configuration: the scheduling policy, the command and
      outpipe template sources, the event filter and the initial flag. */
  datatype Config = Config(policy: Policy, command: seq<string>, outpipe: Option<string>, filter: seq<string>, initial: bool)

  const TypeErrorMessage := "Expected \"command\" and/or \"outpipe\" to be specified"

  /** `n || d` for a numeric option: `undefined` and `0` give `d`. */
  function NumberOr(n: Option<int>, d: int): int {
    match n
    case Some(v) => if v != 0 then v else d
    case None => d
  }

  /** `Math.max(v, lo)`. */
  function AtLeast(v: int, lo: nat): nat {
    if v > lo then v else lo
  }

  /** `outpipe ? outpipeTemplate(outpipe) : undefined`, as template source. */
  function OutpipeOption(raw: Option<string>, execPath: string, echoPath: string): (r: Option<string>)
    ensures r.Some? <==> raw.Some? && raw.value != ""
    ensures r.Some? ==> r.value == OutpipeSource(raw.value, execPath, echoPath)
  {
    match raw
    case Some(v) => if v != "" then Some(OutpipeSource(v, execPath, echoPath)) else None
    case None => None
  }

  /** The body of `onchange` up to the `TypeError` check. */
  function Normalise(o: Options, execPath: string, echoPath: string): (r: Result<Config, string>)
    ensures r.Err? <==> (o.command.GetOr([]) == [] && (o.outpipe.None? || o.outpipe.value == ""))
    ensures r.Err? ==> r.error == TypeErrorMessage
    ensures r.Ok? ==> r.value.policy.jobs >= 1
    ensures r.Ok? && o.jobs.Some? && o.jobs.value >= 1 ==> r.value.policy.jobs == o.jobs.value
    ensures r.Ok? && (o.jobs.None? || o.jobs.value < 1) ==> r.value.policy.jobs == 1
    ensures r.Ok? && o.delay.Some? && o.delay.value > 0 ==> r.value.policy.delay == o.delay.value
    ensures r.Ok? && (o.delay.None? || o.delay.value <= 0) ==> r.value.policy.delay == 0
    ensures r.Ok? ==> (r.value.policy.kill <==> o.kill.Some? && o.kill.value)
    ensures r.Ok? ==> (r.value.policy.killSignal ==
      if o.killSignal.Some? && o.killSignal.value != "" then o.killSignal.value else "SIGTERM")
    ensures r.Ok? ==> r.value.command == o.command.GetOr([])
    ensures r.Ok? ==> (r.value.outpipe.Some? <==> (o.outpipe.Some? && o.outpipe.value != ""))
    ensures r.Ok? && r.value.outpipe.Some? ==> r.value.outpipe.value == OutpipeSource(o.outpipe.value, execPath, echoPath)
    ensures r.Ok? ==> r.value.filter == o.filter.GetOr([])
    ensures r.Ok? ==> (r.value.initial <==> o.initial.Some? && o.initial.value)
  {
    var delay := AtLeast(NumberOr(o.delay, 0), 0);
    var jobs := AtLeast(NumberOr(o.jobs, 0), 1);
    var killSignal := match o.killSignal case Some(k) => if k != "" then k else "SIGTERM" case None => "SIGTERM";
    var command := o.command.GetOr([]);
    var outpipe := OutpipeOption(o.outpipe, execPath, echoPath);
    if |command| == 0 && outpipe.None? then Err(TypeErrorMessage)
    else Ok(Config(Policy(jobs, delay, o.kill.GetOr(false), killSignal), command, outpipe,
                   o.filter.GetOr([]), o.initial.GetOr(false)))
  }

  // ------------------------------------------------------------------
  // Event state and job construction
  // ------------------------------------------------------------------

  /** The `State` record handed to every template. */
  datatype EventState = EventState(
    event: string, changed: string, file: string,
    fileExt: string, fileBase: string, fileBaseNoExt: string, fileDir: string)

  /** Collaborators whose code is not part of this model: Node's `extname`,
      `basename` (with and without a suffix) and `dirname`, and evaluation
      of a compiled template against a state. */
  datatype Platform = Platform(
    extname: string -> string,
    basename: string -> string,
    basenameWithout: (string, string) -> string,
    dirname: string -> string,
    render: (string, EventState) -> string)

  /** The state `enqueue(event, file)` builds; `changed` is the deprecated
      alias of `file`. */
  function MakeState(event: string, file: string, pf: Platform): (st: EventState)
    ensures st.event == event && st.file == file && st.changed == st.file
    ensures st.fileExt == pf.extname(file) && st.fileBase == pf.basename(file)
    ensures st.fileBaseNoExt == pf.basenameWithout(file, st.fileExt) && st.fileDir == pf.dirname(file)
  {
    var ext := pf.extname(file);
    EventState(event, file, file, ext, pf.basename(file), pf.basenameWithout(file, ext), pf.dirname(file))
  }

  /** `new Job(log, command.map(arg => arg(state)), outpipe?.(state))`: every
      template is resolved against the state when the job is created. */
  function MakeJob(c: Config, st: EventState, pf: Platform): (j: Job)
    ensures Unstarted(j)
    ensures |j.command| == |c.command|
    ensures forall i :: 0 <= i < |c.command| ==> j.command[i] == pf.render(c.command[i], st)
    ensures j.outpipe.Some? <==> c.outpipe.Some?
    ensures c.outpipe.Some? ==> j.outpipe.value == pf.render(c.outpipe.value, st)
  {
    var tokens := seq(|c.command|, i requires 0 <= i < |c.command| => pf.render(c.command[i], st));
    var out := match c.outpipe case Some(t) => Some(pf.render(t, st)) case None => None;
    Create(tokens, out)
  }

  /** `filter.length && filter.indexOf(event) === -1` drops the event. */
  predicate Admits(filter: seq<string>, kind: string) {
    |filter| == 0 || kind in filter
  }

  /** The watcher's `all` handler: a filtered event is dropped, any other one
      is enqueued as a job built from its state. */
  function OnWatcherEvent(c: Config, pf: Platform, s: Sched, kind: string, file: string, sp: Spawn): (r: Option<Enqueued>)
    requires Inv(c.policy, s)
    ensures r.None? <==> (|c.filter| > 0 && (forall i :: 0 <= i < |c.filter| ==> c.filter[i] != kind))
    ensures r.Some? ==> Inv(c.policy, r.value.sched) && r.value.id == s.nextId
    ensures r.Some? && r.value.started == Some(r.value.id) ==>
      && r.value.id in r.value.sched.running
      && r.value.sched.running[r.value.id] == Start(MakeJob(c, MakeState(kind, file, pf), pf), sp)
    ensures r.Some? && r.value.started != Some(r.value.id) ==>
      && r.value.id in r.value.sched.pending
      && r.value.sched.pending[r.value.id] == MakeJob(c, MakeState(kind, file, pf), pf)
  {
    if !Admits(c.filter, kind) then None
    else Some(Enqueue(c.policy, s, MakeJob(c, MakeState(kind, file, pf), pf), sp))
  }

  /** The state with which the initial run is enqueued. */
  function InitialState(pf: Platform): (st: EventState)
    ensures st.event == "" && st.file == "" && st.changed == ""
  {
    MakeState("", "", pf)
  }

  /** Construction: with `initial`, exactly one job, built from the empty
      event and file, is enqueued (and so started) before any watcher
      handler exists; otherwise nothing is. */
  function Boot(c: Config, pf: Platform, sp: Spawn): (s: Sched)
    requires c.policy.jobs >= 1
    ensures Inv(c.policy, s)
    ensures !c.initial ==> s == Empty
    ensures c.initial ==>
      && s.queue == [] && s.pending == map[] && s.nextId == 1 && s.timers == 0
      && s.running == map[0 := Start(MakeJob(c, InitialState(pf), pf), sp)]
  {
    EmptyInv(c.policy);
    if c.initial then
      var e := Enqueue(c.policy, Empty, MakeJob(c, InitialState(pf), pf), sp);
      assert e.started == Some(0);
      e.sched
    else Empty
  }

  // ------------------------------------------------------------------
  // The whole system as a transition system
  // ------------------------------------------------------------------

  /** What can happen next: a watcher event, the exit of one child of a job,
      or an armed timer firing. Each carries the pids a `dequeue` it causes
      would receive. */
  datatype Input =
    | Change(kind: string, file: string, spawn: Spawn)
    | ChildExit(job: JobId, role: Role, spawn: Spawn)
    | TimerFired(spawn: Spawn)

  datatype Outcome = Outcome(sched: Sched, started: Option<JobId>)

  /** Inputs the environment can deliver: an exit only for a live child, a
      timer only when one is armed. */
  predicate CanDeliver(s: Sched, e: Input) {
    match e
    case Change(_, _, _) => true
    case ChildExit(id, role, _) => id in s.running && IsLive(s.running[id], role)
    case TimerFired(_) => s.timers > 0
  }

  /** How one step may move the state on: ids only grow; every job running
      or pending afterwards was running or pending before, or is new; the
      job started, if any, was queued before or is the new one, and it
      precedes every job still queued. */
  ghost predicate Successor(s: Sched, r: Outcome) {
    && r.sched.nextId >= s.nextId
    && (forall x :: x in r.sched.running ==> x in s.running || x in s.pending || x >= s.nextId)
    && (forall x :: x in r.sched.pending ==> x in s.pending || x >= s.nextId)
    && (forall i :: 0 <= i < |r.sched.queue| ==> r.sched.queue[i] in s.queue || r.sched.queue[i] >= s.nextId)
    && (r.started.Some? ==> r.started.value in s.queue || r.started.value == s.nextId)
    && (r.started.Some? ==> r.started.value < r.sched.nextId)
    && (r.started.Some? ==> forall i :: 0 <= i < |r.sched.queue| ==> r.started.value < r.sched.queue[i])
  }

  /** A watcher event: dropped by the filter, or enqueued. */
  function ChangeStep(c: Config, pf: Platform, s: Sched, kind: string, file: string, sp: Spawn): (r: Outcome)
    requires Inv(c.policy, s)
    ensures Inv(c.policy, r.sched) && Successor(s, r)
    ensures !Admits(c.filter, kind) ==> r == Outcome(s, None)
    ensures Admits(c.filter, kind) ==> r.sched.nextId == s.nextId + 1
  {
    match OnWatcherEvent(c, pf, s, kind, file, sp)
    case None => Outcome(s, None)
    case Some(q) =>
      EnqueueSuccessor(c.policy, s, q);
      Outcome(q.sched, q.started)
  }

  /** The facts `Successor` needs about one `Enqueue`. */
  lemma EnqueueSuccessor(p: Policy, s: Sched, q: Enqueued)
    requires Inv(p, s) && q.id == s.nextId
    requires !p.kill ==>
      s.queue + [q.id] == (if q.started.Some? then [q.started.value] else []) + q.sched.queue
    requires p.kill ==>
      (q.sched.queue == [q.id] && q.started.None?) || (q.sched.queue == [] && q.started == Some(q.id))
    ensures q.started.Some? ==> q.started.value in s.queue || q.started.value == s.nextId
    ensures forall i :: 0 <= i < |q.sched.queue| ==> q.sched.queue[i] in s.queue || q.sched.queue[i] >= s.nextId
  {
    if !p.kill {
      var before := if q.started.Some? then [q.started.value] else [];
      if q.started.Some? {
        assert (s.queue + [q.id])[0] == q.started.value;
      }
      forall i | 0 <= i < |q.sched.queue|
        ensures q.sched.queue[i] in s.queue || q.sched.queue[i] >= s.nextId
      {
        assert q.sched.queue[i] == (s.queue + [q.id])[i + |before|];
      }
    }
  }

  /** The exit of a live child of a running job. */
  function ExitStep(c: Config, s: Sched, id: JobId, role: Role, sp: Spawn): (r: Outcome)
    requires Inv(c.policy, s)
    requires id in s.running && IsLive(s.running[id], role)
    ensures Inv(c.policy, r.sched) && Successor(s, r)
    ensures r.sched.nextId == s.nextId
    ensures r.started.Some? ==> r.started.value in s.queue
  {
    var d := Complete(c.policy, s, id, role, sp);
    assert d.started.Some? ==> d.started.value in s.queue by {
      if d.started.Some? {
        assert s.queue[0] == d.started.value;
      }
    }
    Outcome(d.sched, d.started)
  }

  /** An armed timer firing. */
  function TimerStep(c: Config, s: Sched, sp: Spawn): (r: Outcome)
    requires Inv(c.policy, s) && s.timers > 0
    ensures Inv(c.policy, r.sched) && Successor(s, r)
    ensures r.sched.nextId == s.nextId && r.sched.timers == s.timers - 1
    ensures r.started.Some? ==> r.started.value in s.queue
  {
    var d := TimerFires(c.policy, s, sp);
    assert d.started.Some? ==> d.started.value in s.queue by {
      if d.started.Some? {
        assert s.queue[0] == d.started.value;
      }
    }
    Outcome(d.sched, d.started)
  }

  /** One step; an input that cannot be delivered changes nothing. */
  function Step(c: Config, pf: Platform, s: Sched, e: Input): (r: Outcome)
    requires Inv(c.policy, s)
    ensures Inv(c.policy, r.sched)
    ensures !CanDeliver(s, e) ==> r == Outcome(s, None)
    ensures Successor(s, r)
  {
    if !CanDeliver(s, e) then Outcome(s, None)
    else match e
      case Change(kind, file, sp) => ChangeStep(c, pf, s, kind, file, sp)
      case ChildExit(id, role, sp) => ExitStep(c, s, id, role, sp)
      case TimerFired(sp) => TimerStep(c, s, sp)
  }

  /** A run: the final state and the jobs started, in order. */
  datatype Trace = Trace(sched: Sched, log: seq<JobId>)

  function Run(c: Config, pf: Platform, s: Sched, es: seq<Input>): (r: Trace)
    requires Inv(c.policy, s)
    ensures Inv(c.policy, r.sched)
    decreases |es|
  {
    if |es| == 0 then Trace(s, [])
    else
      var o := Step(c, pf, s, es[0]);
      var rest := Run(c, pf, o.sched, es[1..]);
      Trace(rest.sched, (if o.started.Some? then [o.started.value] else []) + rest.log)
  }

  /** Jobs start in the order they were enqueued: the start log of any run is
      strictly increasing in job id, and holds only jobs that were pending
      when the run began or were created during it. */
  lemma {:induction false} StartsInEnqueueOrder(c: Config, pf: Platform, s: Sched, es: seq<Input>)
    requires Inv(c.policy, s)
    ensures Increasing(Run(c, pf, s, es).log)
    ensures forall x :: x in Run(c, pf, s, es).log ==> x in s.queue || x >= s.nextId
    decreases |es|
  {
    if |es| > 0 {
      var o := Step(c, pf, s, es[0]);
      var rest := Run(c, pf, o.sched, es[1..]);
      StartsInEnqueueOrder(c, pf, o.sched, es[1..]);
      var log := Run(c, pf, s, es).log;
      var head := if o.started.Some? then [o.started.value] else [];
      assert log == head + rest.log;
      forall x | x in rest.log
        ensures x in s.queue || x >= s.nextId
      {
        if x in o.sched.queue {
          var i :| 0 <= i < |o.sched.queue| && o.sched.queue[i] == x;
        }
      }
      if o.started.Some? {
        var st := o.started.value;
        forall x | x in rest.log
          ensures st < x
        {
          if x in o.sched.queue {
            var i :| 0 <= i < |o.sched.queue| && o.sched.queue[i] == x;
          }
        }
        IncreasingCons(st, rest.log);
      }
    }
  }

  lemma IncreasingCons(x: JobId, l: seq<JobId>)
    requires Increasing(l)
    requires forall y :: y in l ==> x < y
    ensures Increasing([x] + l)
  {
    forall i, k | 0 <= i < k < |[x] + l|
      ensures ([x] + l)[i] < ([x] + l)[k]
    {
      assert ([x] + l)[k] == l[k - 1];
      assert l[k - 1] in l;
      if i > 0 {
        assert ([x] + l)[i] == l[i - 1];
      }
    }
  }

  /** Jobs that are gone (cleared from the queue, or completed) never start
      in the rest of a run: ids are never reused. */
  lemma {:induction false} GoneNeverStart(c: Config, pf: Platform, s: Sched, es: seq<Input>, gone: set<JobId>)
    requires Inv(c.policy, s)
    requires forall g :: g in gone ==> g !in s.pending && g !in s.running && g < s.nextId
    ensures forall g :: g in gone ==> g !in Run(c, pf, s, es).log
    decreases |es|
  {
    if |es| > 0 {
      var o := Step(c, pf, s, es[0]);
      GoneNeverStart(c, pf, o.sched, es[1..], gone);
    }
  }

  /** Kill-on-change: an admitted event with `kill` drops every pending job
      for good (none of them is started by this step or any later one) and
      signals only jobs that were already running, never the new one. */
  lemma KillSupersedesPending(c: Config, pf: Platform, s: Sched, kind: string, file: string, sp: Spawn, rest: seq<Input>)
    requires Inv(c.policy, s) && c.policy.kill && Admits(c.filter, kind)
    ensures var q := OnWatcherEvent(c, pf, s, kind, file, sp);
      && q.Some?
      && (forall g :: g in q.value.kills ==> g.job in s.running && g.job != q.value.id)
      && (forall x :: x in s.pending ==>
            q.value.started != Some(x) && x !in Run(c, pf, q.value.sched, rest).log)
  {
    var q := OnWatcherEvent(c, pf, s, kind, file, sp).value;
    GoneNeverStart(c, pf, q.sched, rest, s.pending.Keys);
  }
}

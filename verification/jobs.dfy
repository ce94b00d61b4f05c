/** One job of `src/index.ts` (class `Job`): an optional command process and
    an optional outpipe process, started together, chained when both exist,
    and reporting completion through a single `onexit` callback.

    Spawning, exit notifications and tree-kill are abstract: `Start` receives
    the pids the operating system handed out, an exit is delivered with
    `OnExit`, and `Kill` returns the tree-kill requests it would issue. */
module Jobs {
  import opened Wrappers

  /** Where the command child's standard output is connected. */
  datatype Sink = ParentStdout | OutpipeStdin

  /** A spawned child as the job sees it: its pid (absent when the spawn
      failed), whether its stdin has been ended, and where its stdout goes. */
  datatype Child = Child(pid: Option<nat>, stdinEnded: bool, stdout: Sink)

  /** One process slot. The source's `childCommand`/`childOutpipe` hold a
      handle exactly in the `Live` state; `Idle` (never spawned) and `Gone`
      (its exit was seen) are both `undefined` there. */
  datatype Slot = Idle | Live(child: Child) | Gone

  datatype Role = Command | Outpipe

  /** The pids the operating system assigns when the job is started. */
  datatype Spawn = Spawn(commandPid: Option<nat>, outpipePid: Option<nat>)

  /** One `treeKill(pid, signal)` call. */
  datatype KillRequest = KillRequest(role: Role, pid: nat, signal: string)

  datatype Job = Job(command: seq<string>, outpipe: Option<string>, commandSlot: Slot, outpipeSlot: Slot)

  /** What an exit handler leaves behind: the job, and whether it called `onexit`. */
  datatype Exit = Exit(job: Job, onexit: bool)

  /** `new Job(log, command, outpipe)`: nothing spawned yet. */
  function Create(command: seq<string>, outpipe: Option<string>): (j: Job)
    ensures Unstarted(j)
    ensures j.command == command && j.outpipe == outpipe
  {
    Job(command, outpipe, Idle, Idle)
  }

  predicate Unstarted(j: Job) {
    j.commandSlot.Idle? && j.outpipeSlot.Idle?
  }

  /** `if (this.outpipe)`: an outpipe string is present and not empty. */
  predicate HasOutpipe(j: Job) {
    j.outpipe.Some? && j.outpipe.value != ""
  }

  /** The job has something to spawn. */
  predicate Configured(j: Job) {
    |j.command| > 0 || HasOutpipe(j)
  }

  function SlotOf(j: Job, role: Role): Slot {
    match role
    case Command => j.commandSlot
    case Outpipe => j.outpipeSlot
  }

  function Other(role: Role): Role {
    match role
    case Command => Outpipe
    case Outpipe => Command
  }

  predicate IsLive(j: Job, role: Role) {
    SlotOf(j, role).Live?
  }

  predicate AnyLive(j: Job) {
    IsLive(j, Command) || IsLive(j, Outpipe)
  }

  /** Ends the stdin of a live outpipe (`childOutpipe?.stdin?.end()`). */
  function EndStdin(s: Slot): (r: Slot)
    ensures r.Live? <==> s.Live?
    ensures s.Live? ==> r.child.stdinEnded && r.child.pid == s.child.pid && r.child.stdout == s.child.stdout
    ensures !s.Live? ==> r == s
  {
    match s
    case Live(c) => Live(c.(stdinEnded := true))
    case _ => s
  }

  /** `job.start(...)`: spawn the outpipe (if any) first, then the command (if
      any) with its stdout fed into the outpipe; with no command the outpipe's
      stdin is ended at once. No exit is delivered synchronously. */
  function Start(j: Job, sp: Spawn): (r: Job)
    requires Unstarted(j)
    ensures r.command == j.command && r.outpipe == j.outpipe
    ensures IsLive(r, Outpipe) <==> HasOutpipe(j)
    ensures IsLive(r, Command) <==> |j.command| > 0
    ensures AnyLive(r) <==> Configured(j)
    ensures !r.commandSlot.Gone? && !r.outpipeSlot.Gone?
    ensures IsLive(r, Command) ==> r.commandSlot.child.pid == sp.commandPid
    ensures IsLive(r, Command) ==>
      (r.commandSlot.child.stdout == OutpipeStdin <==> HasOutpipe(j))
    ensures IsLive(r, Outpipe) ==> r.outpipeSlot.child.pid == sp.outpipePid
    ensures IsLive(r, Outpipe) ==> r.outpipeSlot.child.stdout == ParentStdout
    ensures IsLive(r, Outpipe) ==> (r.outpipeSlot.child.stdinEnded <==> |j.command| == 0)
  {
    var out := if HasOutpipe(j) then Live(Child(sp.outpipePid, false, ParentStdout)) else Idle;
    if |j.command| > 0 then
      var sink := if out.Live? then OutpipeStdin else ParentStdout;
      j.(commandSlot := Live(Child(sp.commandPid, false, sink)), outpipeSlot := out)
    else
      j.(outpipeSlot := EndStdin(out))
  }

  /** The exit handler of the child in `role`: clear its slot; call `onexit`
      unless the other child is still live, in which case a command exit ends
      the outpipe's stdin so it can finish on its own. */
  function OnExit(j: Job, role: Role): (r: Exit)
    requires IsLive(j, role)
    ensures SlotOf(r.job, role).Gone?
    ensures IsLive(r.job, Other(role)) <==> IsLive(j, Other(role))
    ensures r.onexit <==> !AnyLive(r.job)
    ensures r.job.command == j.command && r.job.outpipe == j.outpipe
    ensures role == Command && IsLive(j, Outpipe) ==> r.job.outpipeSlot.child.stdinEnded
    ensures role == Outpipe ==> r.job.commandSlot == j.commandSlot
    ensures role == Command ==> r.job.outpipeSlot == EndStdin(j.outpipeSlot)
  {
    match role
    case Outpipe =>
      var k := j.(outpipeSlot := Gone);
      Exit(k, !k.commandSlot.Live?)
    case Command =>
      var k := j.(commandSlot := Gone);
      if !k.outpipeSlot.Live? then Exit(k, true)
      else Exit(k.(outpipeSlot := EndStdin(k.outpipeSlot)), false)
  }

  /** The pid `kill` signals for `role`: only a live child whose pid is set
      and truthy (`childX?.pid`). */
  function Target(j: Job, role: Role): Option<nat> {
    match SlotOf(j, role)
    case Live(c) => if c.pid.Some? && c.pid.value != 0 then Some(c.pid.value) else None
    case _ => None
  }

  /** `job.kill(signal)`: tree-kill the outpipe, then the command, each only
      when it is live with a pid. The job itself is unchanged: its exit
      handlers still run when the children go away. */
  function Kill(j: Job, signal: string): (r: seq<KillRequest>)
    ensures forall k :: k in r ==> k.signal == signal && Target(j, k.role) == Some(k.pid)
    ensures forall role :: Target(j, role).Some? ==> KillRequest(role, Target(j, role).value, signal) in r
    ensures |r| <= 2
    ensures |r| == 2 ==> r[0].role == Outpipe && r[1].role == Command
  {
    var o := match Target(j, Outpipe) case Some(p) => [KillRequest(Outpipe, p, signal)] case None => [];
    var c := match Target(j, Command) case Some(p) => [KillRequest(Command, p, signal)] case None => [];
    o + c
  }

  /** A job that has not been started is never signalled. */
  lemma KillUnstartedIsSilent(j: Job, signal: string)
    requires Unstarted(j)
    ensures Kill(j, signal) == []
  {
  }

  // ------------------------------------------------------------------
  // Exit sequences: `onexit` fires exactly once, after the last child
  // ------------------------------------------------------------------

  /** Each exit in `rs` is for a child that is live at that moment: every
      process reports its exit once, and only after it was spawned. */
  predicate Deliverable(j: Job, rs: seq<Role>)
    decreases |rs|
  {
    |rs| == 0 || (IsLive(j, rs[0]) && Deliverable(OnExit(j, rs[0]).job, rs[1..]))
  }

  /** The job after the exits in `rs`. */
  function After(j: Job, rs: seq<Role>): Job
    requires Deliverable(j, rs)
    decreases |rs|
  {
    if |rs| == 0 then j else After(OnExit(j, rs[0]).job, rs[1..])
  }

  /** For each exit in `rs`, whether its handler called `onexit`: only the
      last exit can, and it does exactly when it leaves nothing live. */
  function Calls(j: Job, rs: seq<Role>): (r: seq<bool>)
    requires Deliverable(j, rs)
    ensures |r| == |rs|
    ensures forall i :: 0 <= i < |r| - 1 ==> !r[i]
    ensures |rs| > 0 ==> (r[|r| - 1] <==> !AnyLive(After(j, rs)))
    decreases |rs|
  {
    if |rs| == 0 then []
    else
      var e := OnExit(j, rs[0]);
      var r := [e.onexit] + Calls(e.job, rs[1..]);
      assert e.onexit ==> rs[1..] == [];
      r
  }

  function CountTrue(bs: seq<bool>): nat
    decreases |bs|
  {
    if |bs| == 0 then 0 else (if bs[0] then 1 else 0) + CountTrue(bs[1..])
  }

  /** Starting from a job with a live child, in any order in which the
      children exit, `onexit` is called by the last exit and by no other;
      so it is called once when every child has exited and not before. */
  lemma {:induction false} OnexitExactlyOnce(j: Job, rs: seq<Role>)
    requires AnyLive(j)
    requires Deliverable(j, rs)
    ensures forall i :: 0 <= i < |rs| ==> (Calls(j, rs)[i] <==> i == |rs| - 1 && !AnyLive(After(j, rs)))
    ensures CountTrue(Calls(j, rs)) == if AnyLive(After(j, rs)) then 0 else 1
    decreases |rs|
  {
    if |rs| > 0 {
      var e := OnExit(j, rs[0]);
      var tail := rs[1..];
      if e.onexit {
        // Nothing is live any more, so no further exit can be delivered.
        assert !AnyLive(e.job);
        assert tail == [];
        assert Calls(j, rs) == [true];
      } else {
        OnexitExactlyOnce(e.job, tail);
        assert Calls(j, rs) == [false] + Calls(e.job, tail);
        assert Calls(j, rs)[1..] == Calls(e.job, tail);
      }
    }
  }

  /** With both a command and an outpipe, either exit order is possible and
      `onexit` is called only by the second exit. */
  lemma BothExitOrders(j: Job, sp: Spawn)
    requires Unstarted(j) && |j.command| > 0 && HasOutpipe(j)
    ensures Deliverable(Start(j, sp), [Command, Outpipe])
    ensures Calls(Start(j, sp), [Command, Outpipe]) == [false, true]
    ensures Deliverable(Start(j, sp), [Outpipe, Command])
    ensures Calls(Start(j, sp), [Outpipe, Command]) == [false, true]
  {
    var s := Start(j, sp);
    var a := OnExit(s, Command).job;
    assert [Command, Outpipe][1..] == [Outpipe];
    assert [Outpipe, Command][1..] == [Command];
    assert Deliverable(OnExit(a, Outpipe).job, []);
    var b := OnExit(s, Outpipe).job;
    assert Deliverable(OnExit(b, Command).job, []);
  }

  /** A job whose command is empty and whose outpipe renders to the empty
      string spawns nothing, so no exit can ever be delivered for it and its
      `onexit` is never called. */
  lemma NothingSpawnedNeverCompletes(j: Job, sp: Spawn, rs: seq<Role>)
    requires Unstarted(j) && !Configured(j)
    requires Deliverable(Start(j, sp), rs)
    ensures rs == []
  {
  }
}

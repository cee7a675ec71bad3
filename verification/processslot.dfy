/// The process slot of one server: start, stop, kill and restart calls, child exits,
/// failed spawns and timeouts, in any interleaving JavaScript allows.
///
/// Code between two awaits is one step. A resolved promise resumes its awaiter as a
/// microtask: microtasks run first in, first out, and all of them before the next
/// timer, request or child event.
module ProcessSlot {
  import opened Prelude

  datatype Runtime = Offline | Starting | Running | Stopping

  /** A `ChildProcess` object; `exited` once its exit code is set. */
  datatype Handle = Handle(pid: nat, exited: bool)

  /** A call of `stop` or `kill` waiting for the exit of a child; calls are numbered as they are made. */
  datatype Waiter = Waiter(pid: nat, forKill: bool, inStop: bool, call: nat)

  /** What runs when a promise has resolved. A caller may go on with any operation. */
  datatype Task =
    | StopResumes(exited: bool, call: nat)
    | KillResumes(exited: bool, inStop: bool, call: nat)
    | StopReturns(call: nat)
    | CallerResumes(call: nat)

  /**
   * `alive`: children that have not exited; `failing`: spawns whose error event is
   * still to come; `graces`: calls of `start` inside their grace period.
   */
  datatype State = State(
    proc: Option<Handle>, stopping: bool, recorded: Runtime,
    alive: set<nat>, failing: set<nat>, nextPid: nat, nextCall: nat, graces: set<nat>,
    waiters: seq<Waiter>, tasks: seq<Task>)

  const INITIAL := State(None, false, Offline, {}, {}, 0, 0, {}, [], [])

  datatype Spawn = Refused | Throws | Fails | Succeeds

  datatype Operation = Start(spawn: Spawn) | Stop | Kill | Wait | Nothing

  function StateOf(s: State): Runtime {
    if s.proc.None? then (if s.recorded == Starting then Starting else Offline)
    else if s.stopping then Stopping
    else if !s.proc.value.exited then Running
    else Offline
  }

  // ----- the segments of each operation -----

  function Queue(s: State, t: Task): State {
    s.(tasks := s.tasks + [t])
  }

  function Finish(s: State): State {
    s.(proc := None, stopping := false, recorded := Offline)
  }

  /** `start` up to the wait for its grace period; a refusal or a throw returns to the caller. */
  function StartNow(s: State, call: nat, spawn: Spawn): State {
    if spawn.Refused? || StateOf(s) != Offline then Queue(s, CallerResumes(call))
    else
      var r := s.(recorded := Starting, stopping := false);
      match spawn
      case Refused => Queue(s, CallerResumes(call))
      case Throws => Queue(r.(recorded := Offline), CallerResumes(call))
      case Fails =>
        r.(proc := Some(Handle(s.nextPid, false)), failing := s.failing + {s.nextPid}, nextPid := s.nextPid + 1,
           graces := s.graces + {call})
      case Succeeds =>
        r.(proc := Some(Handle(s.nextPid, false)), alive := s.alive + {s.nextPid}, nextPid := s.nextPid + 1,
           graces := s.graces + {call})
  }

  function Resumed(w: Waiter, exited: bool): Task {
    if w.forKill then KillResumes(exited, w.inStop, w.call) else StopResumes(exited, w.call)
  }

  function WaitForExit(s: State, forKill: bool, inStop: bool, call: nat): State {
    if s.proc.None? then Queue(s, Resumed(Waiter(0, forKill, inStop, call), true))
    else
      var w := Waiter(s.proc.value.pid, forKill, inStop, call);
      if s.proc.value.exited then Queue(s, Resumed(w, true)) else s.(waiters := s.waiters + [w])
  }

  function Returned(inStop: bool, call: nat): Task {
    if inStop then StopReturns(call) else CallerResumes(call)
  }

  function StopNow(s: State, call: nat): State {
    if s.proc.None? then Queue(s, CallerResumes(call))
    else WaitForExit(s.(stopping := true, recorded := Stopping), false, false, call)
  }

  function KillNow(s: State, inStop: bool, call: nat): State {
    if s.proc.None? then Queue(s, Returned(inStop, call))
    else WaitForExit(s.(stopping := true), true, inStop, call)
  }

  function KillResumesNow(s: State, exited: bool, inStop: bool, call: nat): State {
    Queue(if exited then Finish(s) else s.(recorded := Stopping), Returned(inStop, call))
  }

  function Woken(waiters: seq<Waiter>, pid: nat): seq<Task> {
    if waiters == [] then []
    else Woken(Init(waiters), pid) + if Last(waiters).pid == pid then [Resumed(Last(waiters), true)] else []
  }

  function Others(waiters: seq<Waiter>, pid: nat): seq<Waiter> {
    if waiters == [] then []
    else Others(Init(waiters), pid) + if Last(waiters).pid == pid then [] else [Last(waiters)]
  }

  /** The exit event: the handler of `start` runs first, then the waiters' handlers, in order. */
  function Exited(s: State, pid: nat): State {
    Finish(s).(alive := s.alive - {pid}, waiters := Others(s.waiters, pid), tasks := s.tasks + Woken(s.waiters, pid))
  }

  /** The error event of a failed spawn; no exit event follows. */
  function Failed(s: State, pid: nat): State {
    Finish(s).(failing := s.failing - {pid})
  }

  function TimedOut(s: State, k: nat): State
    requires k < |s.waiters|
  {
    Queue(s.(waiters := s.waiters[..k] + s.waiters[k + 1..]), Resumed(s.waiters[k], false))
  }

  /** The end of the grace period of a call of `start`. */
  function GraceOver(s: State, call: nat, failed: bool): State {
    Queue((if !failed && StateOf(s) != Offline then s.(recorded := Running) else s).(graces := s.graces - {call}),
          CallerResumes(call))
  }

  /** A new call. */
  function Perform(s: State, op: Operation): State {
    var call, r := s.nextCall, s.(nextCall := s.nextCall + 1);
    match op
    case Start(spawn) => StartNow(r, call, spawn)
    case Stop => StopNow(r, call)
    case Kill => KillNow(r, false, call)
    case Wait => Queue(r, CallerResumes(call))
    case Nothing => s
  }

  /** One microtask; `op` is what a resuming caller goes on with. */
  function RunTask(s: State, t: Task, op: Operation): State {
    match t
    case StopResumes(exited, call) => if exited then Queue(s, CallerResumes(call)) else KillNow(s, true, call)
    case KillResumes(exited, inStop, call) => KillResumesNow(s, exited, inStop, call)
    case StopReturns(call) => Queue(s, CallerResumes(call))
    case CallerResumes(_) => Perform(s, op)
  }

  /** The engine's slot for one server, with the segments that run between awaits. */
  class Slot {
    var proc: Option<Handle>
    var stopping: bool
    var recorded: Runtime
    var alive: set<nat>
    var failing: set<nat>
    var nextPid: nat
    var nextCall: nat
    var graces: set<nat>
    var waiters: seq<Waiter>
    var tasks: seq<Task>

    function Contents(): State
      reads this
    {
      State(proc, stopping, recorded, alive, failing, nextPid, nextCall, graces, waiters, tasks)
    }

    constructor ()
      ensures Contents() == INITIAL
    {
      proc, stopping, recorded, alive, failing, nextPid := None, false, Offline, {}, {}, 0;
      nextCall, graces, waiters, tasks := 0, {}, [], [];
    }

    method FinishChild()
      modifies this
      ensures Contents() == Finish(old(Contents()))
    {
      proc := None;
      stopping := false;
      recorded := Offline;
    }

    method BeginStart(call: nat, spawn: Spawn)
      modifies this
      ensures Contents() == StartNow(old(Contents()), call, spawn)
    {
      if spawn.Refused? || StateOf(Contents()) != Offline {
        tasks := tasks + [CallerResumes(call)];
        return;
      }
      recorded := Starting;
      stopping := false;
      if spawn.Throws? {
        recorded := Offline;
        tasks := tasks + [CallerResumes(call)];
        return;
      }
      proc := Some(Handle(nextPid, false));
      if spawn.Succeeds? {
        alive := alive + {nextPid};
      } else {
        failing := failing + {nextPid};
      }
      nextPid := nextPid + 1;
      graces := graces + {call};
    }

    method AwaitExit(forKill: bool, inStop: bool, call: nat)
      modifies this
      ensures Contents() == WaitForExit(old(Contents()), forKill, inStop, call)
    {
      if proc.None? || proc.value.exited {
        tasks := tasks + [if forKill then KillResumes(true, inStop, call) else StopResumes(true, call)];
      } else {
        waiters := waiters + [Waiter(proc.value.pid, forKill, inStop, call)];
      }
    }

    method BeginStop(call: nat)
      modifies this
      ensures Contents() == StopNow(old(Contents()), call)
    {
      if proc.None? {
        tasks := tasks + [CallerResumes(call)];
        return;
      }
      stopping := true;
      recorded := Stopping;
      AwaitExit(false, false, call);
    }

    method BeginKill(inStop: bool, call: nat)
      modifies this
      ensures Contents() == KillNow(old(Contents()), inStop, call)
    {
      if proc.None? {
        tasks := tasks + [Returned(inStop, call)];
        return;
      }
      stopping := true;
      AwaitExit(true, inStop, call);
    }

    method ResumeKill(exited: bool, inStop: bool, call: nat)
      modifies this
      ensures Contents() == KillResumesNow(old(Contents()), exited, inStop, call)
    {
      if exited {
        FinishChild();
      } else {
        recorded := Stopping;
      }
      tasks := tasks + [Returned(inStop, call)];
    }

    method OnExit(pid: nat)
      modifies this
      ensures Contents() == Exited(old(Contents()), pid)
    {
      alive := alive - {pid};
      FinishChild();
      ghost var all, before := waiters, tasks;
      var rest: seq<Waiter> := [];
      var i := 0;
      while i < |waiters|
        invariant i <= |waiters| && waiters == all
        invariant tasks == before + Woken(all[..i], pid) && rest == Others(all[..i], pid)
        invariant proc == None && stopping == false && recorded == Offline
        invariant alive == old(alive) - {pid} && failing == old(failing) && nextPid == old(nextPid)
        invariant nextCall == old(nextCall) && graces == old(graces)
      {
        assert Init(all[..i + 1]) == all[..i];
        if waiters[i].pid == pid {
          tasks := tasks + [Resumed(waiters[i], true)];
        } else {
          rest := rest + [waiters[i]];
        }
        i := i + 1;
      }
      assert all[..i] == all;
      waiters := rest;
    }

    method OnError(pid: nat)
      modifies this
      ensures Contents() == Failed(old(Contents()), pid)
    {
      FinishChild();
      failing := failing - {pid};
    }
  }

  // ----- every interleaving -----

  datatype Event =
    | Microtask(op: Operation)
    | Request(op: Operation)
    | ChildExits(pid: nat)
    | SpawnErrors(pid: nat)
    | Timeout(k: nat)
    | Grace(call: nat, failed: bool)

  predicate Enabled(s: State, ev: Event) {
    if ev.Microtask? then s.tasks != []
    else
      && s.tasks == []
      && (ev.ChildExits? ==> ev.pid in s.alive)
      && (ev.SpawnErrors? ==> ev.pid in s.failing)
      && (ev.Timeout? ==> ev.k < |s.waiters|)
      && (ev.Grace? ==> ev.call in s.graces)
  }

  function Step(s: State, ev: Event): State
    requires Enabled(s, ev)
  {
    match ev
    case Microtask(op) => RunTask(s.(tasks := s.tasks[1..]), s.tasks[0], op)
    case Request(op) => Perform(s, op)
    case ChildExits(pid) => Exited(s, pid)
    case SpawnErrors(pid) => Failed(s, pid)
    case Timeout(k) => TimedOut(s, k)
    case Grace(call, failed) => GraceOver(s, call, failed)
  }

  predicate IsRun(evs: seq<Event>)
    decreases |evs|, 0
  {
    evs == [] || (IsRun(Init(evs)) && Enabled(After(Init(evs)), Last(evs)))
  }

  function After(evs: seq<Event>): State
    requires IsRun(evs)
    decreases |evs|, 1
  {
    if evs == [] then INITIAL else Step(After(Init(evs)), Last(evs))
  }

  // ----- one child, and the slot tracks it -----

  /** The slot holds exactly the child that is alive or about to fail. */
  predicate Tracks(s: State) {
    && (forall p | p in s.alive :: s.proc == Some(Handle(p, false)))
    && (forall p | p in s.failing :: s.proc == Some(Handle(p, false)) && p !in s.alive)
    && (s.proc.Some? ==> !s.proc.value.exited && (s.proc.value.pid in s.alive || s.proc.value.pid in s.failing))
  }

  predicate Finishes(t: Task) {
    t.KillResumes? && t.exited
  }

  /** Every pending `finish` of a kill runs before any caller resumes, and finds the slot empty. */
  predicate FinishesFirst(s: State) {
    && (forall i, j | 0 <= i < j < |s.tasks| && Finishes(s.tasks[j]) :: !s.tasks[i].CallerResumes?)
    && ((exists j | 0 <= j < |s.tasks| :: Finishes(s.tasks[j])) ==> s.proc.None?)
  }

  predicate Safe(s: State) {
    Tracks(s) && FinishesFirst(s) && (forall p | p in s.alive + s.failing :: p < s.nextPid)
  }

  lemma QueueIsSafe(s: State, t: Task)
    requires Safe(s) && !Finishes(t)
    ensures Safe(Queue(s, t))
  {
    var s' := Queue(s, t);
    assert forall j | 0 <= j < |s'.tasks| && Finishes(s'.tasks[j]) :: j < |s.tasks| && s'.tasks[j] == s.tasks[j];
  }

  /** Nothing that would finish the slot is pending. */
  predicate Settled(s: State) {
    forall j | 0 <= j < |s.tasks| :: !Finishes(s.tasks[j])
  }

  lemma StartIsSafe(s: State, call: nat, spawn: Spawn)
    requires Safe(s) && Settled(s)
    ensures Safe(StartNow(s, call, spawn))
  {
    if spawn.Refused? || StateOf(s) != Offline {
      QueueIsSafe(s, CallerResumes(call));
    } else if spawn.Throws? {
      QueueIsSafe(s.(recorded := Offline, stopping := false), CallerResumes(call));
    }
  }

  lemma KillIsSafe(s: State, inStop: bool, call: nat)
    requires Safe(s)
    ensures Safe(KillNow(s, inStop, call))
  {
    if s.proc.None? {
      QueueIsSafe(s, Returned(inStop, call));
    }
  }

  lemma StopIsSafe(s: State, call: nat)
    requires Safe(s)
    ensures Safe(StopNow(s, call))
  {
    if s.proc.None? {
      QueueIsSafe(s, CallerResumes(call));
    }
  }

  lemma StartCallIsSafe(s: State, spawn: Spawn)
    requires Safe(s) && Settled(s)
    ensures Safe(Perform(s, Start(spawn)))
  {
    var r := s.(nextCall := s.nextCall + 1);
    assert Safe(r) && Settled(r);
    StartIsSafe(r, s.nextCall, spawn);
  }

  lemma StopCallIsSafe(s: State, op: Operation)
    requires Safe(s) && (op.Stop? || op.Kill? || op.Wait?)
    ensures Safe(Perform(s, op))
  {
    var r := s.(nextCall := s.nextCall + 1);
    assert Safe(r);
    match op
    case Stop => StopIsSafe(r, s.nextCall);
    case Kill => KillIsSafe(r, false, s.nextCall);
    case Wait => QueueIsSafe(r, CallerResumes(s.nextCall));
    case _ =>
  }

  lemma PerformIsSafe(s: State, op: Operation)
    requires Safe(s) && Settled(s)
    ensures Safe(Perform(s, op))
  {
    match op
    case Start(spawn) => StartCallIsSafe(s, spawn);
    case Nothing =>
    case _ => StopCallIsSafe(s, op);
  }

  lemma TaskIsSafe(s: State, op: Operation)
    requires Safe(s) && s.tasks != []
    ensures Safe(Step(s, Microtask(op)))
  {
    var r, t := s.(tasks := s.tasks[1..]), s.tasks[0];
    assert forall j | 0 <= j < |r.tasks| :: r.tasks[j] == s.tasks[j + 1];
    assert Safe(r);
    match t
    case StopResumes(exited, call) =>
      if exited { QueueIsSafe(r, CallerResumes(call)); } else { KillIsSafe(r, true, call); }
    case KillResumes(exited, inStop, call) =>
      QueueIsSafe(if exited then Finish(r) else r.(recorded := Stopping), Returned(inStop, call));
    case StopReturns(call) => QueueIsSafe(r, CallerResumes(call));
    case CallerResumes(_) => PerformIsSafe(r, op);
  }

  lemma {:induction false} WokenAreResumed(waiters: seq<Waiter>, pid: nat, k: nat)
    requires k < |Woken(waiters, pid)|
    ensures !Woken(waiters, pid)[k].CallerResumes?
  {
    if k < |Woken(Init(waiters), pid)| {
      WokenAreResumed(Init(waiters), pid, k);
    }
  }

  lemma ExitIsSafe(s: State, pid: nat)
    requires Safe(s) && Enabled(s, ChildExits(pid))
    ensures Safe(Exited(s, pid))
  {
    forall k | 0 <= k < |Woken(s.waiters, pid)| ensures !Woken(s.waiters, pid)[k].CallerResumes? {
      WokenAreResumed(s.waiters, pid, k);
    }
  }

  lemma StepIsSafe(s: State, ev: Event)
    requires Safe(s) && Enabled(s, ev)
    ensures Safe(Step(s, ev))
  {
    match ev
    case Microtask(op) => TaskIsSafe(s, op);
    case Request(op) => PerformIsSafe(s, op);
    case ChildExits(pid) => ExitIsSafe(s, pid);
    case SpawnErrors(_) =>
    case Timeout(k) => QueueIsSafe(s.(waiters := s.waiters[..k] + s.waiters[k + 1..]), Resumed(s.waiters[k], false));
    case Grace(call, failed) =>
      var t := if !failed && StateOf(s) != Offline then s.(recorded := Running) else s;
      QueueIsSafe(t.(graces := s.graces - {call}), CallerResumes(call));
  }

  lemma {:induction false} RunsAreSafe(evs: seq<Event>)
    requires IsRun(evs)
    ensures Safe(After(evs))
  {
    if evs != [] {
      RunsAreSafe(Init(evs));
      StepIsSafe(After(Init(evs)), Last(evs));
    }
  }

  /**
   * In every interleaving a server has at most one live child, the slot holds it,
   * its state never reads as offline, and a start is refused without a second launch.
   */
  lemma {:induction false} OneTrackedChild(evs: seq<Event>, p: nat)
    requires IsRun(evs) && p in After(evs).alive
    ensures After(evs).alive == {p} && After(evs).proc == Some(Handle(p, false))
    ensures StateOf(After(evs)) == Running || StateOf(After(evs)) == Stopping
    ensures forall call, spawn :: StartNow(After(evs), call, spawn) == Queue(After(evs), CallerResumes(call))
  {
    RunsAreSafe(evs);
    var s := After(evs);
    assert forall q | q in s.alive :: s.proc == Some(Handle(q, false));
  }

  // ----- why the order of microtasks matters -----

  /**
   * If a start could run between a child's exit and the resumption of a kill that
   * waited for it, the new child would be forgotten and a second one launched.
   */
  lemma LateFinishOrphans(s: State, inStop: bool, call: nat, kill: nat)
    requires Safe(s) && s.proc.None? && s.recorded != Starting
    ensures var orphaned := KillResumesNow(StartNow(s, call, Succeeds), true, inStop, kill);
            var p := s.nextPid;
            && StateOf(orphaned) == Offline && p in orphaned.alive
            && StartNow(orphaned, call, Succeeds).alive == s.alive + {p, p + 1}
  {
    var orphaned := KillResumesNow(StartNow(s, call, Succeeds), true, inStop, kill);
    assert orphaned.alive == s.alive + {s.nextPid};
  }
}

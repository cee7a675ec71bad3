/// What becomes of the calls on a process slot: each is resumed once, and a stop only
/// when its child has exited or the kill behind its timeout has returned.
module ProcessCalls {
  import opened Prelude
  import opened ProcessSlot

  // ----- every call is pending once or has returned once -----

  function One(b: bool): nat {
    if b then 1 else 0
  }

  /** How many of the waiters belong to a call. */
  function WaitersOf(waiters: seq<Waiter>, call: nat): nat {
    if waiters == [] then 0 else WaitersOf(Init(waiters), call) + One(Last(waiters).call == call)
  }

  function TasksOf(tasks: seq<Task>, call: nat): nat {
    if tasks == [] then 0 else TasksOf(Init(tasks), call) + One(Last(tasks).call == call)
  }

  /** How often a call waits for an exit, for its microtask or for the end of its grace period. */
  function Pending(s: State, call: nat): nat {
    WaitersOf(s.waiters, call) + TasksOf(s.tasks, call) + One(call in s.graces)
  }

  /** The caller of this call goes on with this event. */
  predicate Resumes(s: State, ev: Event, call: nat) {
    ev.Microtask? && s.tasks != [] && s.tasks[0] == CallerResumes(call)
  }

  /** The operation a caller begins with this event. */
  function Begins(s: State, ev: Event): Option<Operation> {
    if ev.Request? || (ev.Microtask? && s.tasks != [] && s.tasks[0].CallerResumes?) then Some(ev.op) else None
  }

  predicate MakesCall(s: State, ev: Event) {
    Begins(s, ev).Some? && !Begins(s, ev).value.Nothing?
  }

  /** How often the caller of a call has gone on. */
  function Returned(evs: seq<Event>, call: nat): nat
    requires IsRun(evs)
  {
    if evs == [] then 0 else Returned(Init(evs), call) + One(Resumes(After(Init(evs)), Last(evs), call))
  }

  lemma {:induction false} TasksOfConcat(a: seq<Task>, b: seq<Task>, call: nat)
    ensures TasksOf(a + b, call) == TasksOf(a, call) + TasksOf(b, call)
  {
    if b == [] {
      assert a + b == a;
    } else {
      InitOfConcat(a, b);
      TasksOfConcat(a, Init(b), call);
    }
  }

  lemma {:induction false} WaitersOfConcat(a: seq<Waiter>, b: seq<Waiter>, call: nat)
    ensures WaitersOf(a + b, call) == WaitersOf(a, call) + WaitersOf(b, call)
  {
    if b == [] {
      assert a + b == a;
    } else {
      InitOfConcat(a, b);
      WaitersOfConcat(a, Init(b), call);
    }
  }

  lemma {:induction false} OneTask(tasks: seq<Task>, t: Task, call: nat)
    ensures TasksOf(tasks + [t], call) == TasksOf(tasks, call) + One(t.call == call)
  {
    assert Init(tasks + [t]) == tasks;
  }

  lemma {:induction false} OneWaiter(waiters: seq<Waiter>, w: Waiter, call: nat)
    ensures WaitersOf(waiters + [w], call) == WaitersOf(waiters, call) + One(w.call == call)
  {
    assert Init(waiters + [w]) == waiters;
  }

  lemma QueuePends(s: State, t: Task, call: nat)
    ensures Pending(Queue(s, t), call) == Pending(s, call) + One(t.call == call)
  {
    OneTask(s.tasks, t, call);
  }

  /** An exit turns waiters into tasks, one for one. */
  lemma {:induction false} WokenAndOthers(waiters: seq<Waiter>, pid: nat, call: nat)
    ensures WaitersOf(Others(waiters, pid), call) + TasksOf(Woken(waiters, pid), call) == WaitersOf(waiters, call)
  {
    if waiters != [] {
      var w, front := Last(waiters), Init(waiters);
      WokenAndOthers(front, pid, call);
      if w.pid == pid {
        OneTask(Woken(front, pid), Resumed(w, true), call);
        assert Others(front, pid) + [] == Others(front, pid);
      } else {
        OneWaiter(Others(front, pid), w, call);
        assert Woken(front, pid) + [] == Woken(front, pid);
      }
    }
  }

  lemma WaitPends(s: State, forKill: bool, inStop: bool, made: nat, call: nat)
    ensures Pending(WaitForExit(s, forKill, inStop, made), call) == Pending(s, call) + One(made == call)
  {
    if s.proc.None? {
      QueuePends(s, Resumed(Waiter(0, forKill, inStop, made), true), call);
    } else {
      var w := Waiter(s.proc.value.pid, forKill, inStop, made);
      QueuePends(s, Resumed(w, true), call);
      OneWaiter(s.waiters, w, call);
    }
  }

  lemma KillPends(s: State, inStop: bool, made: nat, call: nat)
    ensures Pending(KillNow(s, inStop, made), call) == Pending(s, call) + One(made == call)
  {
    if s.proc.None? {
      QueuePends(s, ProcessSlot.Returned(inStop, made), call);
    } else {
      WaitPends(s.(stopping := true), true, inStop, made, call);
    }
  }

  lemma StopPends(s: State, made: nat, call: nat)
    ensures Pending(StopNow(s, made), call) == Pending(s, call) + One(made == call)
  {
    if s.proc.None? {
      QueuePends(s, CallerResumes(made), call);
    } else {
      WaitPends(s.(stopping := true, recorded := Stopping), false, false, made, call);
    }
  }

  lemma NewCall(s: State, call: nat)
    ensures Pending(s.(nextCall := s.nextCall + 1), call) == Pending(s, call)
  {
  }

  /** A start either returns to its caller or enters its grace period. */
  lemma StartParts(s: State, spawn: Spawn)
    ensures var t := Perform(s, Start(spawn));
            && t.waiters == s.waiters
            && ((t.tasks == s.tasks + [CallerResumes(s.nextCall)] && t.graces == s.graces)
                || (t.tasks == s.tasks && t.graces == s.graces + {s.nextCall}))
  {
  }

  lemma StartCallPends(s: State, spawn: Spawn, call: nat)
    requires s.nextCall !in s.graces
    ensures Pending(Perform(s, Start(spawn)), call) == Pending(s, call) + One(s.nextCall == call)
  {
    StartParts(s, spawn);
    OneTask(s.tasks, CallerResumes(s.nextCall), call);
  }

  lemma StopCallPends(s: State, call: nat)
    ensures Pending(Perform(s, Stop), call) == Pending(s, call) + One(s.nextCall == call)
  {
    NewCall(s, call);
    StopPends(s.(nextCall := s.nextCall + 1), s.nextCall, call);
  }

  lemma KillCallPends(s: State, call: nat)
    ensures Pending(Perform(s, Kill), call) == Pending(s, call) + One(s.nextCall == call)
  {
    NewCall(s, call);
    KillPends(s.(nextCall := s.nextCall + 1), false, s.nextCall, call);
  }

  lemma WaitCallPends(s: State, call: nat)
    ensures Pending(Perform(s, Wait), call) == Pending(s, call) + One(s.nextCall == call)
  {
    NewCall(s, call);
    QueuePends(s.(nextCall := s.nextCall + 1), CallerResumes(s.nextCall), call);
  }

  lemma PerformPends(s: State, op: Operation, call: nat)
    requires s.nextCall !in s.graces
    ensures Pending(Perform(s, op), call) == Pending(s, call) + One(!op.Nothing? && s.nextCall == call)
  {
    match op
    case Start(spawn) => StartCallPends(s, spawn, call);
    case Stop => StopCallPends(s, call);
    case Kill => KillCallPends(s, call);
    case Wait => WaitCallPends(s, call);
    case Nothing =>
  }

  lemma PerformNumbers(s: State, op: Operation)
    ensures Perform(s, op).nextCall == s.nextCall + One(!op.Nothing?)
  {
  }

  lemma FirstTask(s: State, call: nat)
    requires s.tasks != []
    ensures Pending(s, call) == Pending(s.(tasks := s.tasks[1..]), call) + One(s.tasks[0].call == call)
  {
    assert s.tasks == [s.tasks[0]] + s.tasks[1..];
    TasksOfConcat([s.tasks[0]], s.tasks[1..], call);
    OneTask([], s.tasks[0], call);
    assert [] + [s.tasks[0]] == [s.tasks[0]];
  }

  lemma OwnTaskPends(s: State, t: Task, op: Operation, call: nat)
    requires !t.CallerResumes?
    ensures Pending(RunTask(s, t, op), call) == Pending(s, call) + One(t.call == call)
    ensures RunTask(s, t, op).nextCall == s.nextCall
  {
    match t
    case StopResumes(exited, c) =>
      if exited {
        QueuePends(s, CallerResumes(c), call);
      } else {
        KillPends(s, true, c, call);
      }
    case KillResumes(exited, inStop, c) =>
      QueuePends(if exited then Finish(s) else s.(recorded := Stopping), ProcessSlot.Returned(inStop, c), call);
    case StopReturns(c) => QueuePends(s, CallerResumes(c), call);
  }

  lemma TimeoutPends(s: State, k: nat, call: nat)
    requires k < |s.waiters|
    ensures Pending(TimedOut(s, k), call) == Pending(s, call)
  {
    var front, w, rest := s.waiters[..k], s.waiters[k], s.waiters[k + 1..];
    assert s.waiters == front + [w] + rest;
    WaitersOfConcat(front + [w], rest, call);
    OneWaiter(front, w, call);
    WaitersOfConcat(front, rest, call);
    QueuePends(s.(waiters := front + rest), Resumed(w, false), call);
  }

  lemma GracePends(s: State, over: nat, failed: bool, call: nat)
    requires over in s.graces
    ensures Pending(GraceOver(s, over, failed), call) == Pending(s, call)
  {
    var t := (if !failed && StateOf(s) != Offline then s.(recorded := Running) else s).(graces := s.graces - {over});
    QueuePends(t, CallerResumes(over), call);
  }

  /** A step resumes the caller it resumes, adds the call it makes, and moves the others along. */
  lemma StepPends(s: State, ev: Event, call: nat)
    requires Enabled(s, ev) && s.nextCall !in s.graces
    ensures Pending(Step(s, ev), call) + One(Resumes(s, ev, call))
         == Pending(s, call) + One(MakesCall(s, ev) && s.nextCall == call)
    ensures Step(s, ev).nextCall == s.nextCall + One(MakesCall(s, ev))
  {
    match ev
    case Microtask(op) =>
      var r := s.(tasks := s.tasks[1..]);
      FirstTask(s, call);
      if s.tasks[0].CallerResumes? {
        PerformPends(r, op, call);
        PerformNumbers(r, op);
      } else {
        OwnTaskPends(r, s.tasks[0], op, call);
      }
    case Request(op) =>
      PerformPends(s, op, call);
      PerformNumbers(s, op);
    case ChildExits(pid) =>
      WokenAndOthers(s.waiters, pid, call);
      TasksOfConcat(s.tasks, Woken(s.waiters, pid), call);
    case SpawnErrors(_) =>
    case Timeout(k) => TimeoutPends(s, k, call);
    case Grace(over, failed) => GracePends(s, over, failed, call);
  }

  /** In every run each call made is either pending, once, or has returned to its caller, once. */
  lemma {:induction false} EveryCallReturnsOnce(evs: seq<Event>, call: nat)
    requires IsRun(evs)
    ensures Pending(After(evs), call) + Returned(evs, call) == One(call < After(evs).nextCall)
  {
    if evs != [] {
      var s := After(Init(evs));
      EveryCallReturnsOnce(Init(evs), call);
      EveryCallReturnsOnce(Init(evs), s.nextCall);
      StepPends(s, Last(evs), call);
    }
  }

  // ----- what a stop and a kill do at once -----

  /** With a tracked child a stop marks the server as stopping and waits for that child. */
  lemma {:induction false} StopTakesHold(evs: seq<Event>, ev: Event)
    requires IsRun(evs) && Enabled(After(evs), ev) && Begins(After(evs), ev) == Some(Stop)
    requires After(evs).proc.Some?
    ensures var s, t := After(evs), Step(After(evs), ev);
            && StateOf(t) == Stopping && t.recorded == Stopping && t.proc == s.proc && t.alive == s.alive
            && t.waiters == s.waiters + [Waiter(s.proc.value.pid, false, false, s.nextCall)]
            && t.tasks == (if ev.Microtask? then s.tasks[1..] else s.tasks)
  {
    RunsAreSafe(evs);
  }

  /** So does a kill, for a caller of its own. */
  lemma {:induction false} KillTakesHold(evs: seq<Event>, ev: Event)
    requires IsRun(evs) && Enabled(After(evs), ev) && Begins(After(evs), ev) == Some(Kill)
    requires After(evs).proc.Some?
    ensures var s, t := After(evs), Step(After(evs), ev);
            && StateOf(t) == Stopping && t.proc == s.proc && t.alive == s.alive
            && t.waiters == s.waiters + [Waiter(s.proc.value.pid, true, false, s.nextCall)]
            && t.tasks == (if ev.Microtask? then s.tasks[1..] else s.tasks)
  {
    RunsAreSafe(evs);
  }

  /** Without a child both return, and nothing else changes. */
  lemma {:induction false} NothingToStop(evs: seq<Event>, ev: Event)
    requires IsRun(evs) && Enabled(After(evs), ev) && After(evs).proc.None?
    requires Begins(After(evs), ev) == Some(Stop) || Begins(After(evs), ev) == Some(Kill)
    ensures var s := After(evs);
            var rest := if ev.Microtask? then s.tasks[1..] else s.tasks;
            Step(s, ev) == s.(nextCall := s.nextCall + 1, tasks := rest + [CallerResumes(s.nextCall)])
  {
  }

  /** A start launches a child if and only if the server reads as offline and the spawn succeeds. */
  lemma {:induction false} StartLaunchesIff(evs: seq<Event>, ev: Event, spawn: Spawn)
    requires IsRun(evs) && Enabled(After(evs), ev) && Begins(After(evs), ev) == Some(Start(spawn))
    ensures var s, t := After(evs), Step(After(evs), ev);
            && (t.alive != s.alive <==> StateOf(s) == Offline && spawn.Succeeds?)
            && (t.alive != s.alive ==> t.alive == {s.nextPid} && StateOf(t) == Running && t.recorded == Starting)
            && (StateOf(s) == Offline && spawn.Throws? ==> StateOf(t) == Offline && t.recorded == Offline)
  {
    RunsAreSafe(evs);
    var s := After(evs);
    assert forall p | p in s.alive + s.failing :: p < s.nextPid;
    if StateOf(s) == Offline {
      assert forall p | p in s.alive :: s.proc == Some(Handle(p, false));
      assert s.alive == {};
    }
  }

  // ----- exits and timeouts -----

  /** What resumes a call when the child it waits for has exited. */
  predicate ResumesExited(t: Task, w: Waiter) {
    t == if w.forKill then KillResumes(true, w.inStop, w.call) else StopResumes(true, w.call)
  }

  lemma {:induction false} WokenIff(waiters: seq<Waiter>, pid: nat, t: Task)
    ensures t in Woken(waiters, pid) <==> exists w :: w in waiters && w.pid == pid && ResumesExited(t, w)
  {
    if waiters != [] {
      WokenIff(Init(waiters), pid, t);
      var last := Last(waiters);
      assert waiters == Init(waiters) + [last];
      if t in Woken(waiters, pid) {
        if t in Woken(Init(waiters), pid) {
          var w :| w in Init(waiters) && w.pid == pid && ResumesExited(t, w);
          assert w in waiters;
        } else {
          assert last in waiters && last.pid == pid && ResumesExited(t, last);
        }
      }
    }
  }

  lemma {:induction false} OthersIff(waiters: seq<Waiter>, pid: nat, w: Waiter)
    ensures w in Others(waiters, pid) <==> w in waiters && w.pid != pid
  {
    if waiters != [] {
      OthersIff(Init(waiters), pid, w);
      assert waiters == Init(waiters) + [Last(waiters)];
    }
  }

  /**
   * An exit leaves the slot empty and the server offline, resumes exactly the calls that
   * waited for this child, as calls whose child has exited, and leaves the others waiting.
   */
  lemma {:induction false} ExitResumesItsWaiters(evs: seq<Event>, pid: nat)
    requires IsRun(evs) && Enabled(After(evs), ChildExits(pid))
    ensures var s, t := After(evs), Step(After(evs), ChildExits(pid));
            && t.proc.None? && t.recorded == Offline && pid !in t.alive && StateOf(t) == Offline
            && (forall w :: w in t.waiters <==> w in s.waiters && w.pid != pid)
            && (forall task :: task in t.tasks <==>
                  exists w :: w in s.waiters && w.pid == pid && ResumesExited(task, w))
            && forall call :: Pending(t, call) == Pending(s, call)
  {
    var s, t := After(evs), Step(After(evs), ChildExits(pid));
    EveryCallReturnsOnce(evs, s.nextCall);
    forall call ensures Pending(t, call) == Pending(s, call) {
      StepPends(s, ChildExits(pid), call);
    }
    forall w ensures w in t.waiters <==> w in s.waiters && w.pid != pid {
      OthersIff(s.waiters, pid, w);
    }
    assert s.tasks + Woken(s.waiters, pid) == Woken(s.waiters, pid);
    forall task
      ensures task in t.tasks <==> exists w :: w in s.waiters && w.pid == pid && ResumesExited(task, w)
    {
      WokenIff(s.waiters, pid, task);
    }
  }

  /**
   * A stop that has timed out goes on as a kill, at once: with no child it returns, and
   * otherwise it waits for the child the slot holds. That is the child of the stop if and
   * only if this has neither exited nor failed.
   */
  lemma {:induction false} TimedOutStopKills(evs: seq<Event>, k: nat, op: Operation)
    requires IsRun(evs) && Enabled(After(evs), Timeout(k)) && !After(evs).waiters[k].forKill
    ensures Enabled(Step(After(evs), Timeout(k)), Microtask(op))
    ensures var s, t := After(evs), Step(Step(After(evs), Timeout(k)), Microtask(op));
            var w := s.waiters[k];
            match s.proc
            case None => t.tasks == [StopReturns(w.call)] && w.pid !in s.alive && w.pid !in s.failing
            case Some(h) =>
              && StateOf(t) == Stopping && t.tasks == []
              && t.waiters == s.waiters[..k] + s.waiters[k + 1..] + [Waiter(h.pid, true, true, w.call)]
              && (h.pid == w.pid <==> w.pid in s.alive || w.pid in s.failing)
  {
    RunsAreSafe(evs);
  }

  /**
   * A kill goes on when its child has exited, and leaves the server offline, or when it
   * gives up, and then the child stays tracked and is recorded as stopping.
   */
  lemma {:induction false} KillEnds(evs: seq<Event>, op: Operation, exited: bool, inStop: bool, call: nat)
    requires IsRun(evs) && After(evs).tasks != [] && After(evs).tasks[0] == KillResumes(exited, inStop, call)
    ensures var s, t := After(evs), Step(After(evs), Microtask(op));
            && t.tasks == s.tasks[1..] + [if inStop then StopReturns(call) else CallerResumes(call)]
            && t.alive == s.alive && t.waiters == s.waiters
            && (exited ==> s.alive == {} && StateOf(t) == Offline && t.recorded == Offline)
            && (!exited ==> t.proc == s.proc && t.stopping == s.stopping && t.recorded == Stopping)
  {
    RunsAreSafe(evs);
    var s := After(evs);
    assert Finishes(s.tasks[0]) ==> exited;
    assert forall p | p in s.alive :: s.proc == Some(Handle(p, false));
  }

  /** The grace period of a start ends with the server recorded as running unless its child has gone. */
  lemma {:induction false} GraceEnds(evs: seq<Event>, call: nat, failed: bool)
    requires IsRun(evs) && Enabled(After(evs), Grace(call, failed))
    ensures var s, t := After(evs), Step(After(evs), Grace(call, failed));
            && t.proc == s.proc && t.stopping == s.stopping && t.alive == s.alive && t.tasks == [CallerResumes(call)]
            && t.recorded == (if failed || StateOf(s) == Offline then s.recorded else Running)
            && call in s.graces && call !in t.graces
  {
    assert After(evs).tasks + [CallerResumes(call)] == [CallerResumes(call)];
  }

  // ----- when a stop returns -----

  predicate KillReturned(evs: seq<Event>, call: nat)
    requires IsRun(evs)
  {
    evs != [] && (KillReturned(Init(evs), call)
      || (Last(evs).Microtask? && After(Init(evs)).tasks[0] == StopReturns(call)))
  }

  predicate StopTimedOut(evs: seq<Event>, call: nat)
    requires IsRun(evs)
  {
    evs != [] && (StopTimedOut(Init(evs), call)
      || (Last(evs).Timeout? && !After(Init(evs)).waiters[Last(evs).k].forKill
          && After(Init(evs)).waiters[Last(evs).k].call == call))
  }

  /** What a waiter of the stop's call may be. */
  predicate WaiterOfStop(w: Waiter, pid: nat, timedOut: bool) {
    if w.forKill then w.inStop && timedOut else w.pid == pid && !w.inStop
  }

  /** What a microtask of the stop's call may be. */
  predicate TaskOfStop(t: Task, exited: bool, timedOut: bool, killed: bool) {
    match t
    case StopResumes(byExit, _) => if byExit then exited else timedOut
    case KillResumes(_, inStop, _) => inStop && timedOut
    case StopReturns(_) => timedOut
    case CallerResumes(_) => exited || (timedOut && killed)
  }

  predicate StopOnTrack(s: State, pid: nat, call: nat, exited: bool, timedOut: bool, killed: bool) {
    && call < s.nextCall && call !in s.graces
    && (forall k | 0 <= k < |s.waiters| && s.waiters[k].call == call :: WaiterOfStop(s.waiters[k], pid, timedOut))
    && (forall k | 0 <= k < |s.tasks| && s.tasks[k].call == call :: TaskOfStop(s.tasks[k], exited, timedOut, killed))
  }

  lemma QueueOnTrack(s: State, t: Task, pid: nat, call: nat, exited: bool, timedOut: bool, killed: bool)
    requires StopOnTrack(s, pid, call, exited, timedOut, killed)
    requires t.call == call ==> TaskOfStop(t, exited, timedOut, killed)
    ensures StopOnTrack(Queue(s, t), pid, call, exited, timedOut, killed)
  {
  }

  lemma LaterOnTrack(s: State, pid: nat, call: nat, exited: bool, timedOut: bool, killed: bool,
        exited': bool, timedOut': bool, killed': bool)
    requires StopOnTrack(s, pid, call, exited, timedOut, killed)
    requires (exited ==> exited') && (timedOut ==> timedOut') && (killed ==> killed')
    ensures StopOnTrack(s, pid, call, exited', timedOut', killed')
  {
  }

  /** Another call's operation. */
  lemma OtherOnTrack(s: State, op: Operation, pid: nat, call: nat, exited: bool, timedOut: bool, killed: bool)
    requires StopOnTrack(s, pid, call, exited, timedOut, killed)
    ensures StopOnTrack(Perform(s, op), pid, call, exited, timedOut, killed)
  {
  }

  lemma KillOnTrack(s: State, made: nat, pid: nat, call: nat, exited: bool, timedOut: bool, killed: bool)
    requires StopOnTrack(s, pid, call, exited, timedOut, killed) && (made == call ==> timedOut)
    ensures StopOnTrack(KillNow(s, true, made), pid, call, exited, timedOut, killed)
  {
    if s.proc.None? {
      QueueOnTrack(s, StopReturns(made), pid, call, exited, timedOut, killed);
    }
  }

  /** A microtask that is no caller's. */
  lemma OwnTaskOnTrack(
      s: State, t: Task, op: Operation, pid: nat, call: nat, exited: bool, timedOut: bool, killed: bool)
    requires StopOnTrack(s, pid, call, exited, timedOut, killed) && !t.CallerResumes?
    requires t.call == call ==> TaskOfStop(t, exited, timedOut, killed) && (t.StopReturns? ==> killed)
    ensures StopOnTrack(RunTask(s, t, op), pid, call, exited, timedOut, killed)
  {
    match t
    case StopResumes(byExit, c) =>
      if byExit {
        QueueOnTrack(s, CallerResumes(c), pid, call, exited, timedOut, killed);
      } else {
        KillOnTrack(s, c, pid, call, exited, timedOut, killed);
      }
    case KillResumes(byExit, inStop, c) =>
      var f := if byExit then Finish(s) else s.(recorded := Stopping);
      QueueOnTrack(f, ProcessSlot.Returned(inStop, c), pid, call, exited, timedOut, killed);
    case StopReturns(c) => QueueOnTrack(s, CallerResumes(c), pid, call, exited, timedOut, killed);
  }

  lemma WithoutFirstOnTrack(s: State, pid: nat, call: nat, exited: bool, timedOut: bool, killed: bool)
    requires StopOnTrack(s, pid, call, exited, timedOut, killed) && s.tasks != []
    ensures StopOnTrack(s.(tasks := s.tasks[1..]), pid, call, exited, timedOut, killed)
  {
    assert forall k | 0 <= k < |s.tasks[1..]| :: s.tasks[1..][k] == s.tasks[k + 1];
  }

  lemma MicrotaskOnTrack(s: State, op: Operation, pid: nat, call: nat, exited: bool, timedOut: bool, killed: bool)
    requires StopOnTrack(s, pid, call, exited, timedOut, killed) && s.tasks != []
    ensures StopOnTrack(
              Step(s, Microtask(op)), pid, call, exited, timedOut, killed || s.tasks[0] == StopReturns(call))
  {
    var r, killed' := s.(tasks := s.tasks[1..]), killed || s.tasks[0] == StopReturns(call);
    WithoutFirstOnTrack(s, pid, call, exited, timedOut, killed);
    LaterOnTrack(r, pid, call, exited, timedOut, killed, exited, timedOut, killed');
    if s.tasks[0].CallerResumes? {
      OtherOnTrack(r, op, pid, call, exited, timedOut, killed');
    } else {
      OwnTaskOnTrack(r, s.tasks[0], op, pid, call, exited, timedOut, killed');
    }
  }

  lemma ExitOnTrack(s: State, gone: nat, pid: nat, call: nat, exited: bool, timedOut: bool, killed: bool)
    requires StopOnTrack(s, pid, call, exited, timedOut, killed) && s.tasks == []
    ensures StopOnTrack(Exited(s, gone), pid, call, exited || gone == pid, timedOut, killed)
  {
    var t, exited' := Exited(s, gone), exited || gone == pid;
    forall k | 0 <= k < |t.waiters| && t.waiters[k].call == call ensures WaiterOfStop(t.waiters[k], pid, timedOut) {
      OthersIff(s.waiters, gone, t.waiters[k]);
      assert t.waiters[k] in s.waiters;
    }
    forall k | 0 <= k < |t.tasks| && t.tasks[k].call == call
      ensures TaskOfStop(t.tasks[k], exited', timedOut, killed)
    {
      WokenIff(s.waiters, gone, t.tasks[k]);
      assert t.tasks[k] in Woken(s.waiters, gone);
      var w :| w in s.waiters && w.pid == gone && t.tasks[k] == Resumed(w, true);
    }
  }

  lemma TimeoutOnTrack(s: State, k: nat, pid: nat, call: nat, exited: bool, timedOut: bool, killed: bool)
    requires StopOnTrack(s, pid, call, exited, timedOut, killed) && k < |s.waiters|
    ensures StopOnTrack(
              TimedOut(s, k), pid, call, exited,
              timedOut || (!s.waiters[k].forKill && s.waiters[k].call == call), killed)
  {
    var timedOut' := timedOut || (!s.waiters[k].forKill && s.waiters[k].call == call);
    var r := s.(waiters := s.waiters[..k] + s.waiters[k + 1..]);
    assert StopOnTrack(r, pid, call, exited, timedOut, killed);
    LaterOnTrack(r, pid, call, exited, timedOut, killed, exited, timedOut', killed);
    QueueOnTrack(r, Resumed(s.waiters[k], false), pid, call, exited, timedOut', killed);
  }

  /** The event at `k` is a stop of the tracked child, made as this call. */
  predicate StopsAt(evs: seq<Event>, k: nat, pid: nat, call: nat) {
    && k < |evs| && IsRun(evs[..k]) && Enabled(After(evs[..k]), evs[k])
    && Begins(After(evs[..k]), evs[k]) == Some(Stop)
    && After(evs[..k]).proc.Some? && After(evs[..k]).proc.value.pid == pid && After(evs[..k]).nextCall == call
  }

  /** The stop just made is the only thing pending under its number. */
  lemma {:induction false} NewStopOnTrack(evs: seq<Event>, ev: Event)
    requires IsRun(evs) && Enabled(After(evs), ev) && Begins(After(evs), ev) == Some(Stop) && After(evs).proc.Some?
    ensures var s := After(evs);
            StopOnTrack(Step(s, ev), s.proc.value.pid, s.nextCall, false, false, false)
  {
    var s, t := After(evs), Step(After(evs), ev);
    StopTakesHold(evs, ev);
    CallsAreNumbered(evs);
    assert forall k | 0 <= k < |t.tasks| :: t.tasks[k] in s.tasks;
    assert forall k | 0 <= k < |s.waiters| :: s.waiters[k] in s.waiters;
  }

  lemma {:induction false} CallsAreNumbered(evs: seq<Event>)
    requires IsRun(evs)
    ensures forall w | w in After(evs).waiters :: w.call < After(evs).nextCall
    ensures forall t | t in After(evs).tasks :: t.call < After(evs).nextCall
    ensures After(evs).nextCall !in After(evs).graces
  {
    var s := After(evs);
    forall w | w in s.waiters ensures w.call < s.nextCall {
      WaiterCounts(s.waiters, w);
      EveryCallReturnsOnce(evs, w.call);
    }
    forall t | t in s.tasks ensures t.call < s.nextCall {
      TaskCounts(s.tasks, t);
      EveryCallReturnsOnce(evs, t.call);
    }
    EveryCallReturnsOnce(evs, s.nextCall);
  }

  lemma {:induction false} WaiterCounts(waiters: seq<Waiter>, w: Waiter)
    requires w in waiters
    ensures WaitersOf(waiters, w.call) > 0
  {
    assert waiters == Init(waiters) + [Last(waiters)];
    if w in Init(waiters) {
      WaiterCounts(Init(waiters), w);
    }
  }

  lemma {:induction false} TaskCounts(tasks: seq<Task>, t: Task)
    requires t in tasks
    ensures TasksOf(tasks, t.call) > 0
  {
    assert tasks == Init(tasks) + [Last(tasks)];
    if t in Init(tasks) {
      TaskCounts(Init(tasks), t);
    }
  }

  lemma {:induction false} StepOnTrack(evs: seq<Event>, pid: nat, call: nat)
    requires evs != [] && IsRun(evs)
    requires StopOnTrack(After(Init(evs)), pid, call, ChildExits(pid) in Init(evs), StopTimedOut(Init(evs), call),
               KillReturned(Init(evs), call))
    ensures StopOnTrack(After(evs), pid, call, ChildExits(pid) in evs, StopTimedOut(evs, call), KillReturned(evs, call))
  {
    var s, ev := After(Init(evs)), Last(evs);
    var exited, timedOut, killed := ChildExits(pid) in Init(evs), StopTimedOut(Init(evs), call),
      KillReturned(Init(evs), call);
    assert evs == Init(evs) + [ev];
    match ev
    case Microtask(op) => MicrotaskOnTrack(s, op, pid, call, exited, timedOut, killed);
    case Request(op) => OtherOnTrack(s, op, pid, call, exited, timedOut, killed);
    case ChildExits(gone) => ExitOnTrack(s, gone, pid, call, exited, timedOut, killed);
    case SpawnErrors(_) =>
    case Timeout(k) => TimeoutOnTrack(s, k, pid, call, exited, timedOut, killed);
    case Grace(c, failed) =>
      var t := (if !failed && StateOf(s) != Offline then s.(recorded := Running) else s).(graces := s.graces - {c});
      assert StopOnTrack(t, pid, call, exited, timedOut, killed);
      QueueOnTrack(t, CallerResumes(c), pid, call, exited, timedOut, killed);
  }

  lemma {:induction false} StopStaysOnTrack(evs: seq<Event>, k: nat, pid: nat, call: nat)
    requires IsRun(evs) && StopsAt(evs, k, pid, call)
    ensures StopOnTrack(After(evs), pid, call, ChildExits(pid) in evs, StopTimedOut(evs, call), KillReturned(evs, call))
    decreases |evs|
  {
    if k == |evs| - 1 {
      assert evs[..k] == Init(evs);
      NewStopOnTrack(Init(evs), Last(evs));
      LaterOnTrack(After(evs), pid, call, false, false, false,
        ChildExits(pid) in evs, StopTimedOut(evs, call), KillReturned(evs, call));
    } else {
      assert Init(evs)[..k] == evs[..k];
      StopStaysOnTrack(Init(evs), k, pid, call);
      StepOnTrack(evs, pid, call);
    }
  }

  /**
   * In every run the caller of a stop goes on only after the child the stop was for has
   * exited, or after the kill behind the stop's timeout has returned.
   */
  lemma {:induction false} StopReturnsAfter(evs: seq<Event>, k: nat, pid: nat, call: nat)
    requires IsRun(evs) && StopsAt(evs, k, pid, call)
    requires After(evs).tasks != [] && After(evs).tasks[0] == CallerResumes(call)
    ensures ChildExits(pid) in evs || (StopTimedOut(evs, call) && KillReturned(evs, call))
  {
    StopStaysOnTrack(evs, k, pid, call);
  }
}

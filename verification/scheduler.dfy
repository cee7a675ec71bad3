/// The schedule table and its lease: claims by compare-and-set with an expiry,
/// any number of runners, crashes and edits.
///
/// Code between two awaits is one step. A runner reads the clock once when it
/// selects the due schedules, so the leases it writes later may start in the past.
module Scheduler {
  import opened Prelude

  type Id = string

  const LOCK_TTL := 15 * 60_000

  /** The next run of an expression after an instant, if it has one. */
  type Search = (string, int) -> Option<int>

  datatype Row = Row(cron: string, active: bool, processing: bool, lockUntil: int, next: Option<int>,
        lastRun: Option<int>)

  type Rows = map<Id, Row>

  datatype Patch = Patch(cron: Option<string>, active: Option<bool>)

  // ----- the statements on one row -----

  predicate LeaseFree(r: Row, now: int) {
    !r.processing || r.lockUntil <= now
  }

  predicate IsDue(r: Row, now: int) {
    r.active && r.next.Some? && r.next.value <= now && LeaseFree(r, now)
  }

  function Leased(r: Row, now: int): Row {
    r.(processing := true, lockUntil := now + LOCK_TTL)
  }

  function Released(r: Row, clock: int): Row {
    r.(processing := false, lockUntil := 0, lastRun := Some(clock))
  }

  function Finalized(search: Search, r: Row, clock: int): Row {
    Released(r, clock).(next := search(r.cron, clock))
  }

  function NewRow(search: Search, cron: string, clock: int): Row {
    Row(cron, true, false, 0, search(cron, clock), None)
  }

  function Patched(search: Search, r: Row, p: Patch, clock: int): Row {
    var r1 := if p.cron.Some? then r.(cron := p.cron.value, next := search(p.cron.value, clock)) else r;
    if p.active.Some? then r1.(active := p.active.value) else r1
  }

  // ----- the statements on the table -----

  function ClaimDueRows(rows: Rows, id: Id, now: int): Rows {
    if id in rows && IsDue(rows[id], now) then rows[id := Leased(rows[id], now)] else rows
  }

  function ClaimOnceRows(rows: Rows, id: Id, now: int): Rows {
    if id in rows && LeaseFree(rows[id], now) then rows[id := Leased(rows[id], now)] else rows
  }

  function FinalizeRows(search: Search, rows: Rows, id: Id, clock: int): Rows {
    if id in rows then rows[id := Finalized(search, rows[id], clock)] else rows
  }

  function ReleaseRows(rows: Rows, id: Id, clock: int): Rows {
    if id in rows then rows[id := Released(rows[id], clock)] else rows
  }

  /** An edit whose expression has no next run is refused and changes nothing. */
  function UpdateRows(search: Search, rows: Rows, id: Id, p: Patch, clock: int): Rows {
    if id in rows && (p.cron.Some? ==> search(p.cron.value, clock).Some?)
        then rows[id := Patched(search, rows[id], p, clock)]
    else rows
  }

  function CreateRows(search: Search, rows: Rows, id: Id, cron: string, clock: int): Rows {
    if search(cron, clock).Some? then rows[id := NewRow(search, cron, clock)] else rows
  }

  /** The schedules a tick selects, earliest first. */
  predicate IsSelection(rows: Rows, now: int, due: seq<Id>) {
    && (forall k | 0 <= k < |due| :: due[k] in rows && IsDue(rows[due[k]], now))
    && (forall j, k | 0 <= j < k < |due| :: due[j] != due[k])
    && (forall id | id in rows && IsDue(rows[id], now) :: id in due)
    && (forall j, k | 0 <= j < k < |due| && due[j] in rows && due[k] in rows && rows[due[j]].next.Some?
        && rows[due[k]].next.Some?
          :: rows[due[j]].next.value <= rows[due[k]].next.value)
  }

  // ----- runners as a state machine -----

  /** A schedule being executed; `lockUntil` is what its claim wrote. */
  datatype Execution = Execution(id: Id, lockUntil: int, manual: bool)

  /** A pass over the due schedules, or a manual run with nothing pending. */
  datatype Runner = Runner(now: int, pending: seq<Id>, running: Option<Execution>)

  /** A scheduled execution that began, the run time it consumed, and the expression in force. */
  datatype Firing = Firing(id: Id, due: int, cron: string)

  datatype State = State(search: Search, clock: int, rows: Rows, runners: map<nat, Runner>, used: set<Id>,
        fired: seq<Firing>)

  datatype Event =
    | Tick(to: int)
    | BeginRunDue(runner: nat, due: seq<Id>)
    | Claim(runner: nat)
    | RunOnce(runner: nat, id: Id)
    | Finish(runner: nat, threw: bool)
    | Crash(runner: nat)
    | Create(id: Id, cron: string)
    | Update(id: Id, patch: Patch)
    | Remove(id: Id)

  function Initial(search: Search): State {
    State(search, 0, map[], map[], {}, [])
  }

  predicate Busy(s: State, k: nat) {
    k in s.runners && s.runners[k].running.Some?
  }

  function ExecutionOf(s: State, k: nat): Execution
    requires Busy(s, k)
  {
    s.runners[k].running.value
  }

  predicate Enabled(s: State, ev: Event) {
    match ev
    case Tick(to) => s.clock <= to
    case BeginRunDue(k, due) => k !in s.runners && IsSelection(s.rows, s.clock, due)
    case Claim(k) => k in s.runners && s.runners[k].running.None? && s.runners[k].pending != []
    case RunOnce(k, id) => k !in s.runners
    case Finish(k, _) => Busy(s, k)
    case Crash(k) => k in s.runners
    case Create(id, _) => id !in s.used
    case Update(_, _) => true
    case Remove(_) => true
  }

  function Began(s: State, k: nat, now: int, pending: seq<Id>, e: Execution, rows: Rows): State {
    s.(rows := rows, runners := s.runners[k := Runner(now, pending, Some(e))])
  }

  function ClaimNext(s: State, k: nat): State
    requires k in s.runners && s.runners[k].pending != []
  {
    var r := s.runners[k];
    var id, rest := r.pending[0], r.pending[1..];
    if id in s.rows && IsDue(s.rows[id], r.now) then
      Began(s, k, r.now, rest, Execution(id, r.now + LOCK_TTL, false), ClaimDueRows(s.rows, id, r.now))
      .(fired := s.fired + [Firing(id, s.rows[id].next.value, s.rows[id].cron)])
    else s.(runners := s.runners[k := r.(pending := rest)])
  }

  function FinishRun(s: State, k: nat, threw: bool): State
    requires Busy(s, k)
  {
    var e, r := ExecutionOf(s, k), s.runners[k];
    s.(rows := if e.manual then ReleaseRows(s.rows, e.id, s.clock) else FinalizeRows(s.search, s.rows, e.id, s.clock),
       runners := s.runners[k := r.(running := None, pending := if threw then [] else r.pending)])
  }

  function Step(s: State, ev: Event): State
    requires Enabled(s, ev)
  {
    match ev
    case Tick(to) => s.(clock := to)
    case BeginRunDue(k, due) => s.(runners := s.runners[k := Runner(s.clock, due, None)])
    case Claim(k) => ClaimNext(s, k)
    case RunOnce(k, id) =>
      if id in s.rows && LeaseFree(s.rows[id], s.clock) then
        Began(s, k, s.clock, [], Execution(id, s.clock + LOCK_TTL, true), ClaimOnceRows(s.rows, id, s.clock))
      else s
    case Finish(k, threw) => FinishRun(s, k, threw)
    case Crash(k) => s.(runners := s.runners - {k})
    case Create(id, cron) => s.(rows := CreateRows(s.search, s.rows, id, cron, s.clock), used := s.used + {id})
    case Update(id, patch) => s.(rows := UpdateRows(s.search, s.rows, id, patch, s.clock))
    case Remove(id) => s.(rows := s.rows - {id})
  }

  /** Every execution under way is still inside the lease its claim wrote. */
  ghost predicate OnTime(s: State) {
    forall k | Busy(s, k) :: s.clock < ExecutionOf(s, k).lockUntil
  }

  /** A run from the empty table. */
  predicate IsRun(search: Search, evs: seq<Event>)
    decreases |evs|, 0
  {
    evs == [] || (IsRun(search, Init(evs)) && Enabled(After(search, Init(evs)), Last(evs)))
  }

  function After(search: Search, evs: seq<Event>): (s: State)
    requires IsRun(search, evs)
    ensures s.search == search
    decreases |evs|, 1
  {
    if evs == [] then Initial(search) else Step(After(search, Init(evs)), Last(evs))
  }

  /** A run in which every execution ends before its lease does. */
  ghost predicate IsTimelyRun(search: Search, evs: seq<Event>) {
    IsRun(search, evs) && OnTime(After(search, evs)) && (evs == [] || IsTimelyRun(search, Init(evs)))
  }

  // ----- mutual exclusion -----

  ghost predicate OneExecutionEach(s: State) {
    forall j, k | Busy(s, j) && Busy(s, k) && ExecutionOf(s, j).id == ExecutionOf(s, k).id :: j == k
  }

  /** The lease in the table is the one the running execution wrote. */
  ghost predicate LeasesHeld(s: State) {
    forall k | Busy(s, k) && ExecutionOf(s, k).id in s.rows ::
      s.rows[ExecutionOf(s, k).id].processing && s.rows[ExecutionOf(s, k).id].lockUntil == ExecutionOf(s, k).lockUntil
  }

  /** Deleted identifiers are not used again. */
  ghost predicate IdsUsed(s: State) {
    (forall id | id in s.rows :: id in s.used) && (forall k | Busy(s, k) :: ExecutionOf(s, k).id in s.used)
  }

  predicate ClocksBehind(s: State) {
    forall k | k in s.runners :: s.runners[k].now <= s.clock
  }

  ghost predicate Safe(s: State) {
    OneExecutionEach(s) && LeasesHeld(s) && IdsUsed(s) && ClocksBehind(s)
  }

  /** A claim is refused while an execution of the schedule holds a lease that has not expired. */
  lemma LeaseIsRespected(s: State, k: nat, now: int)
    requires LeasesHeld(s) && Busy(s, k) && ExecutionOf(s, k).id in s.rows
    ensures LeaseFree(s.rows[ExecutionOf(s, k).id], now) <==> ExecutionOf(s, k).lockUntil <= now
  {
  }

  lemma BeganIsSafe(s: State, k: nat, now: int, pending: seq<Id>, e: Execution)
    requires Safe(s) && OnTime(s) && !Busy(s, k) && now <= s.clock
    requires e.id in s.rows && LeaseFree(s.rows[e.id], now) && e.lockUntil == now + LOCK_TTL
    ensures Safe(Began(s, k, now, pending, e, s.rows[e.id := Leased(s.rows[e.id], now)]))
  {
    forall j | Busy(s, j) ensures ExecutionOf(s, j).id != e.id {
      if ExecutionOf(s, j).id == e.id {
        LeaseIsRespected(s, j, now);
      }
    }
    var s' := Began(s, k, now, pending, e, s.rows[e.id := Leased(s.rows[e.id], now)]);
    assert forall j | Busy(s', j) && j != k :: Busy(s, j) && ExecutionOf(s', j) == ExecutionOf(s, j);
  }

  lemma ClaimIsSafe(s: State, k: nat)
    requires Safe(s) && OnTime(s) && Enabled(s, Claim(k))
    ensures Safe(ClaimNext(s, k))
  {
    var r := s.runners[k];
    var id := r.pending[0];
    if id in s.rows && IsDue(s.rows[id], r.now) {
      BeganIsSafe(s, k, r.now, r.pending[1..], Execution(id, r.now + LOCK_TTL, false));
      var t := Began(s, k, r.now, r.pending[1..], Execution(id, r.now + LOCK_TTL, false), ClaimDueRows(s.rows, id,
          r.now));
      SameRunnersAreSafe(t, ClaimNext(s, k));
    } else {
      var s' := ClaimNext(s, k);
      assert forall j | Busy(s', j) :: Busy(s, j) && ExecutionOf(s', j) == ExecutionOf(s, j);
    }
  }

  lemma SameRunnersAreSafe(s: State, s': State)
    requires Safe(s) && s'.runners == s.runners && s'.rows == s.rows && s'.used == s.used && s'.clock >= s.clock
    ensures Safe(s')
  {
    assert forall j | Busy(s', j) :: Busy(s, j) && ExecutionOf(s', j) == ExecutionOf(s, j);
  }

  lemma FinishIsSafe(s: State, k: nat, threw: bool)
    requires Safe(s) && Busy(s, k)
    ensures Safe(FinishRun(s, k, threw))
  {
    var s' := FinishRun(s, k, threw);
    assert forall j | Busy(s', j) :: j != k && Busy(s, j) && ExecutionOf(s', j) == ExecutionOf(s, j);
  }

  /** Steps that neither claim nor release leave every lease in place. */
  lemma OtherStepIsSafe(s: State, ev: Event)
    requires Safe(s) && Enabled(s, ev) && !ev.Claim? && !ev.RunOnce? && !ev.Finish?
    ensures Safe(Step(s, ev))
  {
    var s' := Step(s, ev);
    assert forall j | Busy(s', j) :: Busy(s, j) && ExecutionOf(s', j) == ExecutionOf(s, j);
  }

  /** While every execution is inside its lease, no step breaks mutual exclusion. */
  lemma StepIsSafe(s: State, ev: Event)
    requires Safe(s) && OnTime(s) && Enabled(s, ev)
    ensures Safe(Step(s, ev))
  {
    match ev
    case Claim(k) => ClaimIsSafe(s, k);
    case RunOnce(k, id) =>
      if id in s.rows && LeaseFree(s.rows[id], s.clock) {
        BeganIsSafe(s, k, s.clock, [], Execution(id, s.clock + LOCK_TTL, true));
      }
    case Finish(k, threw) => FinishIsSafe(s, k, threw);
    case _ => OtherStepIsSafe(s, ev);
  }

  /**
   * In a run in which every execution ends before its lease does, no schedule
   * is executed twice at once, and a running execution owns the lease in the
   * table, so its release is a release of its own lease.
   */
  lemma {:induction false} TimelyRunsAreSafe(search: Search, evs: seq<Event>)
    requires IsTimelyRun(search, evs)
    ensures Safe(After(search, evs))
  {
    if evs != [] {
      TimelyRunsAreSafe(search, Init(evs));
      StepIsSafe(After(search, Init(evs)), Last(evs));
    }
  }

  /** The deadline is exact: a manual claim overlaps a running execution if and only if its lease has run out. */
  lemma OverlapIffExpired(s: State, j: nat, k: nat)
    requires Safe(s) && Busy(s, j) && k !in s.runners && ExecutionOf(s, j).id in s.rows
    ensures OneExecutionEach(Step(s, RunOnce(k, ExecutionOf(s, j).id))) <==> s.clock < ExecutionOf(s, j).lockUntil
  {
    var id := ExecutionOf(s, j).id;
    var s' := Step(s, RunOnce(k, id));
    LeaseIsRespected(s, j, s.clock);
    if LeaseFree(s.rows[id], s.clock) {
      assert Busy(s', j) && Busy(s', k) && ExecutionOf(s', j).id == ExecutionOf(s', k).id;
    }
  }

  /** Likewise for a scheduled claim, at the instant its runner read the clock. */
  lemma DueOverlapIffExpired(s: State, j: nat, k: nat)
    requires Safe(s) && Busy(s, j) && ExecutionOf(s, j).id in s.rows
    requires Enabled(s, Claim(k)) && s.runners[k].pending[0] == ExecutionOf(s, j).id
    ensures var r, now := s.rows[ExecutionOf(s, j).id], s.runners[k].now;
            var expired := r.active && r.next.Some? && r.next.value <= now && ExecutionOf(s, j).lockUntil <= now;
            OneExecutionEach(Step(s, Claim(k))) <==> !expired
  {
    var id, now := ExecutionOf(s, j).id, s.runners[k].now;
    var s' := Step(s, Claim(k));
    LeaseIsRespected(s, j, now);
    if IsDue(s.rows[id], now) {
      assert Busy(s', j) && Busy(s', k) && ExecutionOf(s', j).id == ExecutionOf(s', k).id;
    } else {
      assert forall i | Busy(s', i) :: Busy(s, i) && ExecutionOf(s', i) == ExecutionOf(s, i);
    }
  }

  // ----- leases expire -----

  ghost predicate LeasesBounded(s: State) {
    && ClocksBehind(s)
    && forall id | id in s.rows :: s.rows[id].lockUntil <= s.clock + LOCK_TTL
  }

  lemma StepBoundsLeases(s: State, ev: Event)
    requires LeasesBounded(s) && 0 <= s.clock && Enabled(s, ev)
    ensures LeasesBounded(Step(s, ev)) && 0 <= Step(s, ev).clock
  {
  }

  /** Whatever crashes, no lease reaches further than one period past the clock. */
  lemma {:induction false} LeasesAreBounded(search: Search, evs: seq<Event>)
    requires IsRun(search, evs)
    ensures LeasesBounded(After(search, evs)) && 0 <= After(search, evs).clock
  {
    if evs != [] {
      LeasesAreBounded(search, Init(evs));
      StepBoundsLeases(After(search, Init(evs)), Last(evs));
    }
  }

  /** So a due active schedule can be claimed again one period later, even if its runner crashed. */
  lemma {:induction false} ClaimableAfterOnePeriod(search: Search, evs: seq<Event>, id: Id, now: int)
    requires IsRun(search, evs) && id in After(search, evs).rows
    requires After(search, evs).clock + LOCK_TTL <= now
    ensures var r := After(search, evs).rows[id];
            LeaseFree(r, now) && (r.active && r.next.Some? && r.next.value <= now ==> IsDue(r, now))
  {
    LeasesAreBounded(search, evs);
  }

  predicate NoCrash(evs: seq<Event>) {
    forall i | 0 <= i < |evs| :: !evs[i].Crash?
  }

  predicate Executes(s: State, k: nat, id: Id) {
    Busy(s, k) && ExecutionOf(s, k).id == id
  }

  /** A row marked as processing has a runner at work on it. */
  ghost predicate Attended(s: State) {
    forall id | id in s.rows && s.rows[id].processing :: exists k :: Executes(s, k, id)
  }

  lemma StepIsAttended(s: State, ev: Event)
    requires Attended(s) && Enabled(s, ev) && !ev.Crash?
    ensures Attended(Step(s, ev))
  {
    var s' := Step(s, ev);
    forall id | id in s'.rows && s'.rows[id].processing ensures exists k :: Executes(s', k, id) {
      if id in s.rows && s.rows[id].processing {
        var k :| Executes(s, k, id);
        assert Executes(s', k, id);
      } else if ev.Claim? || ev.RunOnce? {
        assert Executes(s', ev.runner, id);
      }
    }
  }

  /** Without crashes every finished execution gives its lease back: what is marked is being worked on. */
  lemma {:induction false} MarkedIsAttended(search: Search, evs: seq<Event>)
    requires IsRun(search, evs) && NoCrash(evs)
    ensures Attended(After(search, evs))
  {
    if evs != [] {
      MarkedIsAttended(search, Init(evs));
      StepIsAttended(After(search, Init(evs)), Last(evs));
    }
  }

  // ----- a schedule fires once for each matching minute -----

  /** The next run of an expression lies after the instant it is asked for. */
  ghost predicate Forward(search: Search) {
    forall cron, clock :: search(cron, clock).Some? ==> clock < search(cron, clock).value
  }

  /** The search for the next run once returned `n` for this expression. */
  ghost predicate IsRunTime(search: Search, cron: string, n: int) {
    exists clock :: search(cron, clock) == Some(n)
  }

  ghost predicate RowNamed(search: Search, r: Row) {
    r.next.Some? ==> IsRunTime(search, r.cron, r.next.value)
  }

  ghost predicate RowsNamed(search: Search, rows: Rows) {
    forall id | id in rows :: RowNamed(search, rows[id])
  }

  ghost predicate FiredNamed(search: Search, fired: seq<Firing>) {
    forall i | 0 <= i < |fired| :: IsRunTime(search, fired[i].cron, fired[i].due)
  }

  ghost predicate Named(s: State) {
    RowsNamed(s.search, s.rows) && FiredNamed(s.search, s.fired)
  }

  /** A step keeps a row's expression and run time together, or computes the run time anew. */
  predicate RowFollows(s: State, r: Row, id: Id) {
    || (id in s.rows && r.cron == s.rows[id].cron && r.next == s.rows[id].next)
    || r.next == s.search(r.cron, s.clock)
  }

  lemma EditFollows(s: State, id: Id, edited: Id, p: Patch)
    requires id in UpdateRows(s.search, s.rows, edited, p, s.clock)
    ensures RowFollows(s, UpdateRows(s.search, s.rows, edited, p, s.clock)[id], id)
  {
  }

  lemma CreateFollows(s: State, id: Id, created: Id, cron: string)
    requires id in CreateRows(s.search, s.rows, created, cron, s.clock)
    ensures RowFollows(s, CreateRows(s.search, s.rows, created, cron, s.clock)[id], id)
  {
  }

  lemma FinalizeFollows(s: State, id: Id, done: Id)
    requires id in FinalizeRows(s.search, s.rows, done, s.clock)
    ensures RowFollows(s, FinalizeRows(s.search, s.rows, done, s.clock)[id], id)
  {
  }

  lemma StepFollows(s: State, ev: Event, id: Id)
    requires Enabled(s, ev) && id in Step(s, ev).rows
    ensures RowFollows(s, Step(s, ev).rows[id], id)
  {
    match ev
    case Update(edited, p) => EditFollows(s, id, edited, p);
    case Create(created, cron) => CreateFollows(s, id, created, cron);
    case Finish(k, _) => if !ExecutionOf(s, k).manual { FinalizeFollows(s, id, ExecutionOf(s, k).id); }
    case _ =>
  }

  lemma FollowedIsNamed(s: State, r: Row, id: Id)
    requires RowsNamed(s.search, s.rows) && RowFollows(s, r, id)
    ensures RowNamed(s.search, r)
  {
    if id in s.rows {
      assert RowNamed(s.search, s.rows[id]);
    }
  }

  lemma ClaimFires(s: State, k: nat)
    requires Named(s) && Enabled(s, Claim(k))
    ensures FiredNamed(s.search, ClaimNext(s, k).fired)
  {
    var id := s.runners[k].pending[0];
    if id in s.rows && IsDue(s.rows[id], s.runners[k].now) {
      var f := Firing(id, s.rows[id].next.value, s.rows[id].cron);
      assert RowNamed(s.search, s.rows[id]);
      assert IsRunTime(s.search, f.cron, f.due);
      assert ClaimNext(s, k).fired == s.fired + [f];
    }
  }

  lemma StepNamed(s: State, ev: Event)
    requires Named(s) && Enabled(s, ev)
    ensures Named(Step(s, ev))
  {
    var s' := Step(s, ev);
    forall id | id in s'.rows ensures RowNamed(s.search, s'.rows[id]) {
      StepFollows(s, ev, id);
      FollowedIsNamed(s, s'.rows[id], id);
    }
    if ev.Claim? {
      ClaimFires(s, ev.runner);
    } else {
      assert s'.fired == s.fired;
    }
  }

  predicate RunsFor(s: State, k: nat, id: Id) {
    Busy(s, k) && ExecutionOf(s, k).id == id && !ExecutionOf(s, k).manual
  }

  ghost predicate UnderWay(s: State, id: Id) {
    exists k :: RunsFor(s, k, id)
  }

  predicate FiringOk(s: State, f: Firing) {
    f.due <= s.clock && f.id in s.used
  }

  /** A run time once consumed lies behind the row, unless its execution is still under way. */
  ghost predicate Consumed(s: State, f: Firing) {
    f.id in s.rows && s.rows[f.id].next.Some? && !UnderWay(s, f.id) ==> f.due < s.rows[f.id].next.value
  }

  ghost predicate FiringsOk(s: State) {
    forall i | 0 <= i < |s.fired| :: FiringOk(s, s.fired[i]) && Consumed(s, s.fired[i])
  }

  predicate FiredInOrder(fired: seq<Firing>) {
    forall i, j | 0 <= i < j < |fired| && fired[i].id == fired[j].id :: fired[i].due < fired[j].due
  }

  lemma NotUnderWay(s: State, id: Id, now: int)
    requires Safe(s) && OnTime(s) && now <= s.clock && id in s.rows && LeaseFree(s.rows[id], now)
    ensures !UnderWay(s, id)
  {
    forall k | Busy(s, k) ensures ExecutionOf(s, k).id != id {
      if ExecutionOf(s, k).id == id {
        LeaseIsRespected(s, k, now);
      }
    }
  }

  lemma FinishEndsOnlyItsOwn(s: State, k: nat, threw: bool, id: Id)
    requires Safe(s) && Busy(s, k) && id != ExecutionOf(s, k).id
    ensures UnderWay(s, id) ==> UnderWay(FinishRun(s, k, threw), id)
  {
    var s' := FinishRun(s, k, threw);
    if UnderWay(s, id) {
      var j :| RunsFor(s, j, id);
      assert RunsFor(s', j, id);
    }
  }

  lemma FinishKeepsFirings(s: State, k: nat, threw: bool)
    requires Forward(s.search)
    requires Safe(s) && FiringsOk(s) && Busy(s, k)
    ensures FiringsOk(FinishRun(s, k, threw))
  {
    var s', e := FinishRun(s, k, threw), ExecutionOf(s, k);
    if e.id in s.rows {
      assert e.manual || s.search(s.rows[e.id].cron, s.clock) == s'.rows[e.id].next;
    }
    forall i | 0 <= i < |s.fired| ensures Consumed(s', s.fired[i]) {
      var f := s.fired[i];
      if f.id != e.id {
        FinishEndsOnlyItsOwn(s, k, threw, f.id);
      } else if e.manual {
        assert forall j | Busy(s, j) && ExecutionOf(s, j).id == e.id :: j == k;
      }
    }
  }

  /** Starting an execution leaves the others under way. */
  lemma BeganKeepsUnderWay(s: State, k: nat, now: int, pending: seq<Id>, e: Execution, rows: Rows, id: Id)
    requires !Busy(s, k)
    ensures UnderWay(s, id) ==> UnderWay(Began(s, k, now, pending, e, rows), id)
    ensures !e.manual ==> UnderWay(Began(s, k, now, pending, e, rows), e.id)
  {
    var s' := Began(s, k, now, pending, e, rows);
    assert Busy(s', k) && (!e.manual ==> RunsFor(s', k, e.id));
    if UnderWay(s, id) {
      var j :| RunsFor(s, j, id);
      assert RunsFor(s', j, id);
    }
  }

  lemma BeganKeepsFirings(s: State, k: nat, now: int, pending: seq<Id>, e: Execution)
    requires FiringsOk(s) && !Busy(s, k) && e.id in s.rows
    ensures FiringsOk(Began(s, k, now, pending, e, s.rows[e.id := Leased(s.rows[e.id], now)]))
  {
    var rows := s.rows[e.id := Leased(s.rows[e.id], now)];
    var s' := Began(s, k, now, pending, e, rows);
    forall i | 0 <= i < |s.fired| ensures Consumed(s', s.fired[i]) {
      BeganKeepsUnderWay(s, k, now, pending, e, rows, s.fired[i].id);
      assert Consumed(s, s.fired[i]);
    }
  }

  /** A scheduled execution consumes a run time later than every one consumed before. */
  lemma FiringAppends(s: State, t: State, f: Firing)
    requires FiringsOk(t) && t.fired == s.fired && FiredInOrder(s.fired)
    requires FiringOk(t, f) && Consumed(t, f)
    requires forall i | 0 <= i < |s.fired| && s.fired[i].id == f.id :: s.fired[i].due < f.due
    ensures FiringsOk(t.(fired := s.fired + [f])) && FiredInOrder(s.fired + [f])
  {
    var s' := t.(fired := s.fired + [f]);
    forall i | 0 <= i < |s'.fired| ensures FiringOk(s', s'.fired[i]) && Consumed(s', s'.fired[i]) {
      var g := s'.fired[i];
      assert FiringOk(t, g) && Consumed(t, g);
      assert UnderWay(t, g.id) ==> UnderWay(s', g.id) by {
        assert forall k :: RunsFor(t, k, g.id) ==> RunsFor(s', k, g.id);
      }
    }
  }

  lemma ClaimKeepsFirings(s: State, k: nat)
    requires Safe(s) && OnTime(s) && FiringsOk(s) && FiredInOrder(s.fired) && Enabled(s, Claim(k))
    ensures FiringsOk(ClaimNext(s, k)) && FiredInOrder(ClaimNext(s, k).fired)
  {
    var r := s.runners[k];
    var id, rest := r.pending[0], r.pending[1..];
    if id in s.rows && IsDue(s.rows[id], r.now) {
      var row, e := s.rows[id], Execution(id, r.now + LOCK_TTL, false);
      BeganKeepsFirings(s, k, r.now, rest, e);
      BeganKeepsUnderWay(s, k, r.now, rest, e, ClaimDueRows(s.rows, id, r.now), id);
      NotUnderWay(s, id, r.now);
      var t := Began(s, k, r.now, rest, e, ClaimDueRows(s.rows, id, r.now));
      var f := Firing(id, row.next.value, row.cron);
      assert FiringOk(t, f);
      forall i | 0 <= i < |s.fired| && s.fired[i].id == f.id ensures s.fired[i].due < f.due {
        assert Consumed(s, s.fired[i]);
      }
      FiringAppends(s, t, f);
    } else {
      OtherStepKeepsFirings(s, ClaimNext(s, k));
    }
  }

  /** Anything that keeps executions running, and moves a row's next run only past the clock. */
  lemma OtherStepKeepsFirings(s: State, s': State)
    requires FiringsOk(s) && FiredInOrder(s.fired) && s'.fired == s.fired && s.clock <= s'.clock && s.used <= s'.used
    requires forall k | Busy(s, k) :: Busy(s', k) && ExecutionOf(s', k) == ExecutionOf(s, k)
    requires forall id | id in s'.rows && id in s.used && s'.rows[id].next.Some? ::
               (id in s.rows && s'.rows[id].next == s.rows[id].next) || s.clock < s'.rows[id].next.value
    ensures FiringsOk(s') && FiredInOrder(s'.fired)
  {
    forall i | 0 <= i < |s.fired| ensures FiringOk(s', s.fired[i]) && Consumed(s', s.fired[i]) {
      var f := s.fired[i];
      assert FiringOk(s, f) && Consumed(s, f);
      assert UnderWay(s, f.id) ==> UnderWay(s', f.id) by {
        assert forall k :: RunsFor(s, k, f.id) ==> RunsFor(s', k, f.id);
      }
    }
  }

  lemma EditKeepsFirings(s: State, ev: Event)
    requires Forward(s.search)
    requires FiringsOk(s) && FiredInOrder(s.fired) && Enabled(s, ev)
    requires ev.Create? || ev.Update? || ev.Remove?
    ensures FiringsOk(Step(s, ev)) && FiredInOrder(s.fired)
  {
    OtherStepKeepsFirings(s, Step(s, ev));
  }

  lemma StepKeepsFirings(s: State, ev: Event)
    requires Forward(s.search)
    requires Safe(s) && OnTime(s) && FiringsOk(s) && FiredInOrder(s.fired) && Enabled(s, ev) && !ev.Crash?
    ensures FiringsOk(Step(s, ev)) && FiredInOrder(Step(s, ev).fired)
  {
    match ev
    case Claim(k) => ClaimKeepsFirings(s, k);
    case RunOnce(k, id) =>
      if id in s.rows && LeaseFree(s.rows[id], s.clock) {
        BeganKeepsFirings(s, k, s.clock, [], Execution(id, s.clock + LOCK_TTL, true));
      }
    case Finish(k, threw) => FinishKeepsFirings(s, k, threw);
    case Tick(_) => OtherStepKeepsFirings(s, Step(s, ev));
    case BeginRunDue(_, _) => OtherStepKeepsFirings(s, Step(s, ev));
    case _ => EditKeepsFirings(s, ev);
  }

  lemma {:induction false} RunsAreNamed(search: Search, evs: seq<Event>)
    requires IsRun(search, evs)
    ensures Named(After(search, evs))
  {
    if evs != [] {
      RunsAreNamed(search, Init(evs));
      StepNamed(After(search, Init(evs)), Last(evs));
    }
  }

  /** Whatever happens, schedules run only at times computed for the expression then in force. */
  lemma {:induction false} RunTimesAreComputed(search: Search, evs: seq<Event>, i: nat)
    requires IsRun(search, evs) && i < |After(search, evs).fired|
    ensures IsRunTime(search, After(search, evs).fired[i].cron, After(search, evs).fired[i].due)
  {
    RunsAreNamed(search, evs);
  }

  /**
   * Without crashes, and while executions end in time, the run times consumed by
   * the scheduled executions of one schedule ascend strictly, and none is consumed
   * before it is due. Edits, deletions and manual runs may happen at any time.
   */
  lemma {:induction false} FiresOncePerMinute(search: Search, evs: seq<Event>)
    requires Forward(search) && IsTimelyRun(search, evs) && NoCrash(evs)
    ensures FiredInOrder(After(search, evs).fired)
    ensures FiringsOk(After(search, evs))
  {
    if evs != [] {
      FiresOncePerMinute(search, Init(evs));
      TimelyRunsAreSafe(search, Init(evs));
      StepKeepsFirings(After(search, Init(evs)), Last(evs));
    }
  }

  // ----- what a claim and an edit do -----

  /** A scheduled claim fires exactly an active schedule that is due and whose lease is free, at the captured time. */
  lemma ClaimFiresIff(s: State, k: nat)
    requires Enabled(s, Claim(k))
    ensures var t, now, id := Step(s, Claim(k)), s.runners[k].now, s.runners[k].pending[0];
            var fires := && id in s.rows && s.rows[id].active && s.rows[id].next.Some? && s.rows[id].next.value <= now
                         && (!s.rows[id].processing || s.rows[id].lockUntil <= now);
            && t.runners[k].pending == s.runners[k].pending[1..]
            && t.fired == s.fired + (if fires then [Firing(id, s.rows[id].next.value, s.rows[id].cron)] else [])
            && t.runners[k].running == (if fires then Some(Execution(id, now + LOCK_TTL, false)) else None)
            && t.rows == (if fires then s.rows[id := s.rows[id].(processing := true, lockUntil := now + LOCK_TTL)]
                          else s.rows)
  {
  }

  /** A tick selects exactly the active schedules that are due with a free lease, each once and the earliest first. */
  lemma TickSelectsIff(s: State, k: nat, due: seq<Id>)
    requires Enabled(s, BeginRunDue(k, due))
    ensures Step(s, BeginRunDue(k, due)).runners[k] == Runner(s.clock, due, None)
    ensures forall id :: id in due <==>
              && id in s.rows && s.rows[id].active && s.rows[id].next.Some? && s.rows[id].next.value <= s.clock
              && (!s.rows[id].processing || s.rows[id].lockUntil <= s.clock)
    ensures forall i, j | 0 <= i < j < |due| :: due[i] != due[j] && due[i] in s.rows && due[j] in s.rows
              && s.rows[due[i]].next.Some? && s.rows[due[j]].next.Some?
              && s.rows[due[i]].next.value <= s.rows[due[j]].next.value
  {
    assert forall i | 0 <= i < |due| :: due[i] in s.rows && IsDue(s.rows[due[i]], s.clock);
  }

  /** A manual run needs the lease only: it begins for an inactive schedule as well, and consumes no run time. */
  lemma ManualRunIff(s: State, k: nat, id: Id)
    requires Enabled(s, RunOnce(k, id))
    ensures var t := Step(s, RunOnce(k, id));
            && t.fired == s.fired
            && (Busy(t, k) <==> id in s.rows && (!s.rows[id].processing || s.rows[id].lockUntil <= s.clock))
            && (Busy(t, k) ==>
                  && ExecutionOf(t, k) == Execution(id, s.clock + LOCK_TTL, true)
                  && t.rows == s.rows[id := s.rows[id].(processing := true, lockUntil := s.clock + LOCK_TTL)])
  {
  }

  /**
   * The end of an execution frees the lease and records the time; a scheduled one brings
   * the next run of the expression now in force, a manual one leaves the next run alone.
   * The runner goes on with what is pending, unless the execution threw.
   */
  lemma FinishLeaves(s: State, k: nat, threw: bool)
    requires Busy(s, k)
    ensures var t, e := Step(s, Finish(k, threw)), ExecutionOf(s, k);
            && t.fired == s.fired && t.rows.Keys == s.rows.Keys
            && (forall other | other in s.rows && other != e.id :: t.rows[other] == s.rows[other])
            && !Busy(t, k) && t.runners[k].pending == (if threw then [] else s.runners[k].pending)
            && (forall j | j in s.runners && j != k :: j in t.runners && t.runners[j] == s.runners[j])
            && (e.id in s.rows ==>
                  var r, r' := s.rows[e.id], t.rows[e.id];
                  && !r'.processing && r'.lockUntil == 0 && r'.lastRun == Some(s.clock)
                  && r'.active == r.active && r'.cron == r.cron
                  && r'.next == (if e.manual then r.next else s.search(r.cron, s.clock)))
  {
  }

  /** A new schedule is stored active and free, with its first run, if its expression has one. */
  lemma CreateLeaves(s: State, id: Id, cron: string)
    requires Enabled(s, Create(id, cron))
    ensures var t := Step(s, Create(id, cron));
            && (s.search(cron, s.clock).None? ==> t.rows == s.rows)
            && (s.search(cron, s.clock).Some? ==>
                  && t.rows.Keys == s.rows.Keys + {id}
                  && (forall other | other in s.rows && other != id :: t.rows[other] == s.rows[other])
                  && t.rows[id].active && t.rows[id].cron == cron && t.rows[id].next == s.search(cron, s.clock)
                  && !t.rows[id].processing && t.rows[id].lockUntil == 0 && t.rows[id].lastRun == None)
  {
  }

  /** The clock moves on; a crash takes the runner and leaves its lease; a removal takes the row alone. */
  lemma {:induction false} OtherEventsLeave(s: State, now: int, k: nat, id: Id)
    ensures s.clock <= now ==> Enabled(s, Tick(now)) && Step(s, Tick(now)) == s.(clock := now)
    ensures k in s.runners ==> Enabled(s, Crash(k)) && Step(s, Crash(k)) == s.(runners := s.runners - {k})
    ensures Enabled(s, Remove(id)) && Step(s, Remove(id)) == s.(rows := s.rows - {id})
  {
  }

  /** An edit is accepted unless it brings an expression without a next run. */
  predicate Accepted(s: State, id: Id, p: Patch) {
    id in s.rows && (p.cron.Some? ==> s.search(p.cron.value, s.clock).Some?)
  }

  function Submitted<T>(submitted: Option<T>, before: T): T {
    if submitted.Some? then submitted.value else before
  }

  /** An accepted edit leaves what was submitted and keeps the rest, also the lease; a refused one changes nothing. */
  lemma EditLeaves(s: State, id: Id, p: Patch)
    ensures var t := Step(s, Update(id, p));
            && t.rows.Keys == s.rows.Keys
            && (forall other | other in s.rows && other != id :: t.rows[other] == s.rows[other])
            && (!Accepted(s, id, p) ==> t.rows == s.rows)
            && (Accepted(s, id, p) ==>
                  var r, r' := s.rows[id], t.rows[id];
                  && r'.active == Submitted(p.active, r.active) && r'.cron == Submitted(p.cron, r.cron)
                  && r'.next == (if p.cron.Some? then s.search(p.cron.value, s.clock) else r.next)
                  && r'.processing == r.processing && r'.lockUntil == r.lockUntil && r'.lastRun == r.lastRun)
  {
  }

  /** The schedule exists or has existed, and is inactive. */
  ghost predicate Dormant(s: State, id: Id) {
    id in s.used && (id in s.rows ==> !s.rows[id].active) && forall other | other in s.rows :: other in s.used
  }

  lemma {:induction false} IdsAreUsed(search: Search, evs: seq<Event>)
    requires IsRun(search, evs)
    ensures forall id | id in After(search, evs).rows :: id in After(search, evs).used
  {
    if evs != [] {
      IdsAreUsed(search, Init(evs));
    }
  }

  predicate Wakes(ev: Event, id: Id) {
    ev.Update? && ev.id == id && ev.patch.active == Some(true)
  }

  lemma StaysDormant(s: State, ev: Event, id: Id)
    requires Dormant(s, id) && Enabled(s, ev) && !Wakes(ev, id)
    ensures Dormant(Step(s, ev), id)
    ensures s.fired <= Step(s, ev).fired
    ensures forall i | |s.fired| <= i < |Step(s, ev).fired| :: Step(s, ev).fired[i].id != id
  {
  }

  /** The event at `k` is an accepted edit to inactive. */
  ghost predicate PutsToSleep(search: Search, evs: seq<Event>, k: nat, id: Id) {
    && k < |evs| && IsRun(search, evs[..k])
    && evs[k].Update? && evs[k].id == id && evs[k].patch.active == Some(false)
    && Accepted(After(search, evs[..k]), id, evs[k].patch)
  }

  /**
   * In every run, after an edit to inactive no scheduled claim fires the schedule until
   * an edit to active, whatever else happens.
   */
  lemma {:induction false} InactiveNeverFires(search: Search, evs: seq<Event>, k: nat, id: Id)
    requires IsRun(search, evs) && PutsToSleep(search, evs, k, id)
    requires forall j | k < j < |evs| :: !Wakes(evs[j], id)
    ensures Dormant(After(search, evs), id) && After(search, evs[..k]).fired <= After(search, evs).fired
    ensures forall i | |After(search, evs[..k]).fired| <= i < |After(search, evs).fired| ::
              After(search, evs).fired[i].id != id
    decreases |evs|
  {
    if k == |evs| - 1 {
      assert evs[..k] == Init(evs);
      IdsAreUsed(search, Init(evs));
    } else {
      assert Init(evs)[..k] == evs[..k];
      InactiveNeverFires(search, Init(evs), k, id);
      StaysDormant(After(search, Init(evs)), Last(evs), id);
    }
  }
}

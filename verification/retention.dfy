/// The backups of one server: names reserved on disk, rows in the table, retention.
module Retention {
  import opened Prelude
  import opened Text

  type Id = string

  const RETAIN_UNLOCKED: nat := 10

  datatype Row = Row(name: string, locked: bool, purged: bool, createdAt: int)

  /** A backup being archived: its name is reserved, its row not yet written. */
  datatype Pending = Pending(name: string, createdAt: int)

  datatype Store = Store(rows: map<Id, Row>, pending: map<Id, Pending>, files: set<string>)

  // ----- reserving a name -----

  /** The names tried in turn: the stamp alone, then with -2, -3, … appended. */
  function Candidate(base: string, attempt: nat): string {
    (if attempt < 2 then base else base + ("-" + Decimal(attempt))) + ".tar.gz"
  }

  lemma CandidatesDiffer(base: string, a: nat, b: nat)
    requires 1 <= a < b
    ensures Candidate(base, a) != Candidate(base, b)
  {
    var tail := ".tar.gz";
    var x, y := if a < 2 then base else base + ("-" + Decimal(a)), base + ("-" + Decimal(b));
    if x + tail == y + tail {
      assert x == (x + tail)[..|x|] && y == (y + tail)[..|y|];
      assert x == y;
      if a >= 2 {
        assert ("-" + Decimal(a)) == x[|base|..] == ("-" + Decimal(b));
        assert Decimal(a) == ("-" + Decimal(a))[1..] == Decimal(b);
        DecimalInverse(a);
        DecimalInverse(b);
      }
    }
  }

  /** The names tried before an attempt. */
  function Tried(base: string, attempt: nat): set<string> {
    set a | 1 <= a < attempt :: Candidate(base, a)
  }

  predicate IsFirstFree(files: set<string>, base: string, name: string, attempt: nat) {
    attempt >= 1 && name == Candidate(base, attempt) && name !in files && Tried(base, attempt) <= files
  }

  /** Exclusive creation, retried under the next name while the file exists. */
  method ReserveName(files: set<string>, base: string) returns (name: string, ghost tries: nat)
    ensures name !in files
    ensures IsFirstFree(files, base, name, tries)
  {
    name := Candidate(base, 1);
    tries := 1;
    var attempt := 2;
    while name in files
      invariant attempt == tries + 1 >= 2
      invariant name == Candidate(base, tries) && Tried(base, tries) <= files
      invariant name !in Tried(base, tries)
      decreases |files - Tried(base, tries)|
    {
      assert files - Tried(base, tries + 1) == files - Tried(base, tries) - {name} by {
        assert Tried(base, tries + 1) == Tried(base, tries) + {name};
      }
      name := Candidate(base, attempt);
      attempt := attempt + 1;
      tries := tries + 1;
      forall a | 1 <= a < tries ensures Candidate(base, a) != name {
        CandidatesDiffer(base, a, tries);
      }
    }
  }

  // ----- the table and the disk -----

  predicate IsLive(s: Store, id: Id) {
    id in s.rows && !s.rows[id].purged
  }

  function Unlocked(rows: map<Id, Row>): set<Id> {
    set id | id in rows && !rows[id].purged && !rows[id].locked
  }

  /** The result of the retention query: the live unlocked rows, newest first. */
  predicate IsNewestFirst(rows: map<Id, Row>, order: seq<Id>) {
    && (forall k | 0 <= k < |order| :: order[k] in Unlocked(rows))
    && (forall id | id in Unlocked(rows) :: id in order)
    && (forall j, k | 0 <= j < k < |order| :: order[j] != order[k])
    && (forall j, k | 0 <= j < k < |order| && order[j] in rows && order[k] in rows ::
        rows[order[j]].createdAt >= rows[order[k]].createdAt)
  }

  function Excess(order: seq<Id>): seq<Id> {
    if |order| <= RETAIN_UNLOCKED then [] else order[RETAIN_UNLOCKED..]
  }

  function Names(rows: map<Id, Row>, ids: seq<Id>): set<string> {
    set k | 0 <= k < |ids| && ids[k] in rows :: rows[ids[k]].name
  }

  function Purged(s: Store, ids: seq<Id>): Store {
    s.(rows := map id | id in s.rows :: if id in ids then s.rows[id].(purged := true) else s.rows[id],
       files := s.files - Names(s.rows, ids))
  }

  function Inserted(s: Store, id: Id, locked: bool): Store
    requires id in s.pending
  {
    Store(s.rows[id := Row(s.pending[id].name, locked, false, s.pending[id].createdAt)], s.pending - {id}, s.files)
  }

  function Completed(s: Store, id: Id, locked: bool, order: seq<Id>): Store
    requires id in s.pending
  {
    Purged(Inserted(s, id, locked), Excess(order))
  }

  function Reserved(s: Store, id: Id, name: string, now: int): Store {
    Store(s.rows, s.pending[id := Pending(name, now)], s.files + {name})
  }

  /** The archive tool failed: its file and the reservation go. */
  function Abandoned(s: Store, id: Id): Store
    requires id in s.pending
  {
    Store(s.rows, s.pending - {id}, s.files - {s.pending[id].name})
  }

  function Removed(s: Store, id: Id): Store {
    if IsLive(s, id) && !s.rows[id].locked
    then Store(s.rows[id := s.rows[id].(purged := true)], s.pending, s.files - {s.rows[id].name})
    else s
  }

  function UnlockedRow(s: Store, id: Id): Store {
    if IsLive(s, id) && s.rows[id].locked then s.(rows := s.rows[id := s.rows[id].(locked := false)]) else s
  }

  class Backups {
    var rows: map<Id, Row>
    var pending: map<Id, Pending>
    var files: set<string>

    function Contents(): Store
      reads this
    {
      Store(rows, pending, files)
    }

    constructor ()
      ensures Contents() == Store(map[], map[], {})
    {
      rows, pending, files := map[], map[], {};
    }

    /** `create` up to the archive tool. */
    method BeginCreate(id: Id, base: string, now: int) returns (name: string, ghost tries: nat)
      modifies this
      ensures IsFirstFree(old(files), base, name, tries)
      ensures Contents() == Reserved(old(Contents()), id, name, now)
    {
      name, tries := ReserveName(files, base);
      files := files + {name};
      pending := pending[id := Pending(name, now)];
    }

    method FailCreate(id: Id)
      requires id in pending
      modifies this
      ensures Contents() == Abandoned(old(Contents()), id)
    {
      files := files - {pending[id].name};
      pending := pending - {id};
    }

    /** `create` after the archive tool; the result says whether the new backup outlived the retention it triggered. */
    method CompleteCreate(id: Id, locked: bool, order: seq<Id>) returns (found: bool)
      requires id in pending
      requires IsNewestFirst(Inserted(Contents(), id, locked).rows, order)
      modifies this
      ensures Contents() == Completed(old(Contents()), id, locked, order)
      ensures found <==> id !in Excess(order)
    {
      rows := rows[id := Row(pending[id].name, locked, false, pending[id].createdAt)];
      pending := pending - {id};
      EnforceRetention(order);
      found := id in rows && !rows[id].purged;
    }

    method EnforceRetention(order: seq<Id>)
      requires forall k | 0 <= k < |order| :: order[k] in rows
      modifies this`rows, this`files
      ensures Contents() == Purged(old(Contents()), Excess(order))
    {
      ghost var start, extras := Contents(), Excess(order);
      var i := RETAIN_UNLOCKED;
      assert Purged(start, []) == start;
      while i < |order|
        invariant RETAIN_UNLOCKED <= i
        invariant |order| <= RETAIN_UNLOCKED ==> Contents() == start
        invariant i <= |order| ==> Contents() == Purged(start, order[RETAIN_UNLOCKED..i])
        invariant i > |order| ==> |order| <= RETAIN_UNLOCKED
      {
        PurgeOneMore(start, order[RETAIN_UNLOCKED..i], order[i]);
        assert order[RETAIN_UNLOCKED..i + 1] == order[RETAIN_UNLOCKED..i] + [order[i]];
        rows := rows[order[i] := rows[order[i]].(purged := true)];
        files := files - {rows[order[i]].name};
        i := i + 1;
      }
      assert i == |order| ==> order[RETAIN_UNLOCKED..i] == extras;
    }

    method Remove(id: Id) returns (ok: bool)
      modifies this
      ensures Contents() == Removed(old(Contents()), id)
      ensures ok <==> IsLive(old(Contents()), id) && !old(rows)[id].locked
    {
      if id !in rows || rows[id].purged || rows[id].locked {
        return false;
      }
      files := files - {rows[id].name};
      rows := rows[id := rows[id].(purged := true)];
      return true;
    }

    method Unlock(id: Id) returns (changed: bool)
      modifies this
      ensures Contents() == UnlockedRow(old(Contents()), id)
      ensures changed <==> IsLive(old(Contents()), id) && old(rows)[id].locked
    {
      changed := id in rows && !rows[id].purged && rows[id].locked;
      if changed {
        rows := rows[id := rows[id].(locked := false)];
      }
    }
  }

  lemma PurgeOneMore(s: Store, ids: seq<Id>, id: Id)
    requires id in s.rows
    ensures var t := Purged(s, ids);
            id in t.rows && t.rows[id].name == s.rows[id].name
            && Purged(s, ids + [id]) == t.(rows := t.rows[id := t.rows[id].(purged := true)],
                files := t.files - {s.rows[id].name})
  {
    var more := ids + [id];
    assert forall x :: x in more <==> x in ids || x == id;
    assert Names(s.rows, more) == Names(s.rows, ids) + {s.rows[id].name} by {
      assert more[|ids|] == id;
      assert forall k | 0 <= k < |ids| :: more[k] == ids[k];
    }
  }

  // ----- every run -----

  datatype Event =
    | Begin(id: Id, base: string, name: string, tries: nat, now: int)
    | Fail(id: Id)
    | Complete(id: Id, locked: bool, order: seq<Id>)
    | Remove(id: Id)
    | Unlock(id: Id)
    | Restart
    | RemoveInterrupted(id: Id)
    | CompleteInterrupted(id: Id, locked: bool, order: seq<Id>, k: nat, marked: bool)

  predicate Enabled(s: Store, ev: Event) {
    match ev
    case Begin(id, base, name, tries, _) => id !in s.rows && id !in s.pending && IsFirstFree(s.files, base, name, tries)
    case Fail(id) => id in s.pending
    case Complete(id, locked, order) => id in s.pending && IsNewestFirst(Inserted(s, id, locked).rows, order)
    case RemoveInterrupted(id) => IsLive(s, id) && !s.rows[id].locked
    case CompleteInterrupted(id, locked, order, k, marked) =>
      && id in s.pending && IsNewestFirst(Inserted(s, id, locked).rows, order)
      && MarkedRows(k, marked) <= |Excess(order)|
    case _ => true
  }

  /** `remove` cut off between deleting the file and marking the row. */
  function HalfRemoved(s: Store, id: Id): Store
    requires id in s.rows
  {
    Store(s.rows, map[], s.files - {s.rows[id].name})
  }

  function MarkedRows(k: nat, marked: bool): nat {
    if marked then k + 1 else k
  }

  /**
   * Retention cut off after `k` purges, before the first or behind the last as well;
   * `marked`: the next row is marked already, but its file is still there.
   */
  function HalfPurged(s: Store, ids: seq<Id>, k: nat, marked: bool): Store
    requires MarkedRows(k, marked) <= |ids|
  {
    Store(Purged(s, ids[..MarkedRows(k, marked)]).rows, map[], Purged(s, ids[..k]).files)
  }

  /** A restart, like any crash, forgets the backups being archived; their files stay. */
  function Step(s: Store, ev: Event): Store
    requires Enabled(s, ev)
  {
    match ev
    case Begin(id, _, name, _, now) => Reserved(s, id, name, now)
    case Fail(id) => Abandoned(s, id)
    case Complete(id, locked, order) => Completed(s, id, locked, order)
    case Remove(id) => Removed(s, id)
    case Unlock(id) => UnlockedRow(s, id)
    case Restart => s.(pending := map[])
    case RemoveInterrupted(id) => HalfRemoved(s, id)
    case CompleteInterrupted(id, locked, order, k, marked) =>
      HalfPurged(Inserted(s, id, locked), Excess(order), k, marked)
  }

  predicate IsRun(evs: seq<Event>)
    decreases |evs|, 0
  {
    evs == [] || (IsRun(Init(evs)) && Enabled(After(Init(evs)), Last(evs)))
  }

  function After(evs: seq<Event>): Store
    requires IsRun(evs)
    decreases |evs|, 1
  {
    if evs == [] then Store(map[], map[], {}) else Step(After(Init(evs)), Last(evs))
  }

  /** A live backup or one being archived owns its file. */
  predicate Owns(s: Store, id: Id) {
    id in s.pending || IsLive(s, id)
  }

  function FileOf(s: Store, id: Id): string
    requires Owns(s, id)
  {
    if id in s.pending then s.pending[id].name else s.rows[id].name
  }

  /** No two live or unfinished backups share a file. */
  ghost predicate Distinct(s: Store) {
    forall i, j | Owns(s, i) && Owns(s, j) && i != j :: FileOf(s, i) != FileOf(s, j)
  }

  /** The rows whose removal was interrupted, so that their file is gone. */
  function Gone(evs: seq<Event>): set<Id> {
    if evs == [] then {}
    else Gone(Init(evs)) + if Last(evs).RemoveInterrupted? then {Last(evs).id} else {}
  }

  /** Every backup but those has its archive, and no two share one. */
  ghost predicate Safe(s: Store, gone: set<Id>) {
    && (forall id | id in s.pending :: id !in s.rows)
    && (forall id | Owns(s, id) && id !in gone :: FileOf(s, id) in s.files)
    && Distinct(s)
    && (forall id | id in s.rows && s.rows[id].purged :: !s.rows[id].locked)
    && (forall id | id in gone :: id in s.rows && !s.rows[id].locked)
  }

  /** A new backup takes the name of a live row whose file is gone. */
  predicate Takes(s: Store, gone: set<Id>, ev: Event) {
    ev.Begin? && exists id | id in gone :: IsLive(s, id) && s.rows[id].name == ev.name
  }

  lemma BeginIsSafe(s: Store, gone: set<Id>, id: Id, name: string, now: int)
    requires Safe(s, gone) && id !in s.rows && id !in s.pending && name !in s.files
    requires forall i | i in gone && IsLive(s, i) :: s.rows[i].name != name
    ensures Safe(Reserved(s, id, name, now), gone)
  {
    var s' := Reserved(s, id, name, now);
    assert forall i | Owns(s', i) && i != id :: Owns(s, i) && FileOf(s', i) == FileOf(s, i);
    forall i | Owns(s, i) ensures FileOf(s, i) != name {
      assert i in gone ==> i in s.rows && i !in s.pending;
    }
  }

  lemma FailIsSafe(s: Store, gone: set<Id>, id: Id)
    requires Safe(s, gone) && id in s.pending
    ensures Safe(Abandoned(s, id), gone)
  {
    var s' := Abandoned(s, id);
    assert Owns(s, id) && FileOf(s, id) == s.pending[id].name;
    forall i | Owns(s', i) ensures i != id && Owns(s, i) && FileOf(s', i) == FileOf(s, i) {
    }
  }

  lemma InsertIsSafe(s: Store, gone: set<Id>, id: Id, locked: bool)
    requires Safe(s, gone) && id in s.pending
    ensures Safe(Inserted(s, id, locked), gone)
  {
    var s' := Inserted(s, id, locked);
    assert forall i | Owns(s', i) :: Owns(s, i) && FileOf(s', i) == FileOf(s, i);
  }

  lemma PurgeIsSafe(s: Store, gone: set<Id>, ids: seq<Id>)
    requires Safe(s, gone) && forall k | 0 <= k < |ids| :: ids[k] in Unlocked(s.rows)
    ensures Safe(Purged(s, ids), gone)
  {
    var s' := Purged(s, ids);
    forall i | Owns(s', i)
      ensures Owns(s, i) && FileOf(s', i) == FileOf(s, i) && (i !in gone ==> FileOf(s', i) in s'.files)
    {
      forall k | 0 <= k < |ids| ensures s.rows[ids[k]].name != FileOf(s, i) {
        assert Owns(s, ids[k]) && FileOf(s, ids[k]) == s.rows[ids[k]].name;
      }
    }
  }

  /** More files and fewer backups under way leave a store safe. */
  lemma CrashIsSafe(s: Store, gone: set<Id>, files: set<string>)
    requires Safe(s, gone) && s.files <= files
    ensures Safe(Store(s.rows, map[], files), gone)
  {
    var s' := Store(s.rows, map[], files);
    assert forall i | Owns(s', i) :: Owns(s, i) && FileOf(s', i) == FileOf(s, i);
  }

  lemma HalfPurgeIsSafe(s: Store, gone: set<Id>, ids: seq<Id>, k: nat, marked: bool)
    requires Safe(s, gone) && MarkedRows(k, marked) <= |ids|
    requires forall j | 0 <= j < |ids| :: ids[j] in Unlocked(s.rows)
    ensures Safe(HalfPurged(s, ids, k, marked), gone)
  {
    var front := ids[..MarkedRows(k, marked)];
    assert forall j | 0 <= j < |front| :: front[j] == ids[j];
    PurgeIsSafe(s, gone, front);
    forall n | n in Names(s.rows, ids[..k]) ensures n in Names(s.rows, front) {
      var j :| 0 <= j < k && ids[j] in s.rows && s.rows[ids[j]].name == n;
      assert front[j] == ids[j];
    }
    CrashIsSafe(Purged(s, front), gone, Purged(s, ids[..k]).files);
  }

  lemma RemoveIsSafe(s: Store, gone: set<Id>, id: Id)
    requires Safe(s, gone)
    ensures Safe(Removed(s, id), gone)
  {
    var s' := Removed(s, id);
    assert forall i | Owns(s', i) :: Owns(s, i) && FileOf(s', i) == FileOf(s, i);
    if IsLive(s, id) && !s.rows[id].locked {
      assert Owns(s, id) && FileOf(s, id) == s.rows[id].name && !Owns(s', id);
    }
  }

  lemma HalfRemoveIsSafe(s: Store, gone: set<Id>, id: Id)
    requires Safe(s, gone) && IsLive(s, id) && !s.rows[id].locked
    ensures Safe(HalfRemoved(s, id), gone + {id})
  {
    var s' := HalfRemoved(s, id);
    assert Owns(s, id) && FileOf(s, id) == s.rows[id].name;
    assert forall i | Owns(s', i) :: Owns(s, i) && FileOf(s', i) == FileOf(s, i);
  }

  lemma UnlockIsSafe(s: Store, gone: set<Id>, id: Id)
    requires Safe(s, gone)
    ensures Safe(UnlockedRow(s, id), gone)
  {
    var s' := UnlockedRow(s, id);
    assert forall i | Owns(s', i) :: Owns(s, i) && FileOf(s', i) == FileOf(s, i);
  }

  lemma StepIsSafe(s: Store, gone: set<Id>, ev: Event)
    requires Safe(s, gone) && Enabled(s, ev) && !Takes(s, gone, ev)
    ensures Safe(Step(s, ev), gone + if ev.RemoveInterrupted? then {ev.id} else {})
  {
    match ev
    case Begin(id, _, name, _, now) => BeginIsSafe(s, gone, id, name, now);
    case Fail(id) => FailIsSafe(s, gone, id);
    case Complete(id, locked, order) =>
      InsertIsSafe(s, gone, id, locked);
      PurgeIsSafe(Inserted(s, id, locked), gone, Excess(order));
    case Remove(id) => RemoveIsSafe(s, gone, id);
    case Unlock(id) => UnlockIsSafe(s, gone, id);
    case Restart => CrashIsSafe(s, gone, s.files);
    case RemoveInterrupted(id) => HalfRemoveIsSafe(s, gone, id);
    case CompleteInterrupted(id, locked, order, k, marked) =>
      InsertIsSafe(s, gone, id, locked);
      HalfPurgeIsSafe(Inserted(s, id, locked), gone, Excess(order), k, marked);
  }

  lemma TakingCollides(s: Store, gone: set<Id>, ev: Event)
    requires Safe(s, gone) && Enabled(s, ev) && Takes(s, gone, ev)
    ensures !Distinct(Step(s, ev))
  {
    var t := Step(s, ev);
    var id :| id in gone && IsLive(s, id) && s.rows[id].name == ev.name;
    assert Owns(t, id) && Owns(t, ev.id) && id != ev.id && id !in s.pending;
    assert FileOf(t, id) == FileOf(t, ev.id);
  }

  /** No backup of the run takes the name of a live row whose file is gone. */
  predicate NoneTakes(evs: seq<Event>)
    requires IsRun(evs)
  {
    evs != [] ==> NoneTakes(Init(evs)) && !Takes(After(Init(evs)), Gone(Init(evs)), Last(evs))
  }

  ghost predicate AlwaysDistinct(evs: seq<Event>)
    requires IsRun(evs)
  {
    Distinct(After(evs)) && (evs != [] ==> AlwaysDistinct(Init(evs)))
  }

  /**
   * In every run in which no backup takes the name of a live row whose removal was
   * interrupted, each other live backup has its archive on disk, no two live or
   * unfinished ones share a file, and no purged backup was locked.
   */
  lemma {:induction false} RunsAreSafe(evs: seq<Event>)
    requires IsRun(evs) && NoneTakes(evs)
    ensures Safe(After(evs), Gone(evs))
  {
    if evs != [] {
      RunsAreSafe(Init(evs));
      StepIsSafe(After(Init(evs)), Gone(Init(evs)), Last(evs));
    }
  }

  lemma {:induction false} UninterruptedTakesNothing(evs: seq<Event>)
    requires IsRun(evs) && forall k | 0 <= k < |evs| :: !evs[k].RemoveInterrupted?
    ensures NoneTakes(evs) && Gone(evs) == {}
  {
    if evs != [] {
      UninterruptedTakesNothing(Init(evs));
    }
  }

  /** Without such an interruption that is every run, and every live backup has its archive. */
  lemma {:induction false} ArchivesArePresent(evs: seq<Event>, id: Id)
    requires IsRun(evs) && (forall k | 0 <= k < |evs| :: !evs[k].RemoveInterrupted?) && IsLive(After(evs), id)
    ensures After(evs).rows[id].name in After(evs).files && Distinct(After(evs))
  {
    UninterruptedTakesNothing(evs);
    RunsAreSafe(evs);
    assert Owns(After(evs), id) && FileOf(After(evs), id) == After(evs).rows[id].name;
  }

  /**
   * `remove` deletes the file before it marks the row. Cut off in between it leaves a
   * live row whose name is free: file names stay distinct throughout a run if and
   * only if no later backup takes such a name. Retention marks first, and its
   * interruptions do no harm.
   */
  lemma {:induction false} NamesStayDistinctIff(evs: seq<Event>)
    requires IsRun(evs)
    ensures AlwaysDistinct(evs) <==> NoneTakes(evs)
  {
    if evs != [] {
      var front := Init(evs);
      NamesStayDistinctIff(front);
      if NoneTakes(front) {
        RunsAreSafe(front);
        if Takes(After(front), Gone(front), Last(evs)) {
          TakingCollides(After(front), Gone(front), Last(evs));
        } else {
          RunsAreSafe(evs);
        }
      }
    }
  }

  /** No step purges a locked backup or takes its archive. */
  lemma {:induction false} LockedSurvives(evs: seq<Event>, ev: Event, id: Id)
    requires IsRun(evs) && NoneTakes(evs) && Enabled(After(evs), ev) && !Takes(After(evs), Gone(evs), ev)
    requires IsLive(After(evs), id) && After(evs).rows[id].locked
    ensures var s := Step(After(evs), ev);
            IsLive(s, id) && s.rows[id].name == After(evs).rows[id].name && s.rows[id].name in s.files
  {
    var s := After(evs);
    RunsAreSafe(evs);
    StepIsSafe(s, Gone(evs), ev);
    var t := Step(s, ev);
    LockedStaysLive(s, ev, id);
    assert Owns(t, id) && FileOf(t, id) == t.rows[id].name;
  }

  lemma LockedStaysLive(s: Store, ev: Event, id: Id)
    requires Enabled(s, ev) && IsLive(s, id) && s.rows[id].locked && forall i | i in s.pending :: i !in s.rows
    ensures IsLive(Step(s, ev), id) && Step(s, ev).rows[id].name == s.rows[id].name && id !in Step(s, ev).pending
  {
    match ev
    case CompleteInterrupted(other, locked, order, k, marked) =>
      var ids, n := Excess(order), MarkedRows(k, marked);
      assert forall j | 0 <= j < n :: ids[..n][j] == ids[j];
    case _ =>
  }

  lemma {:induction false} FewElements(order: seq<Id>, xs: set<Id>)
    requires forall x | x in xs :: x in order
    ensures |xs| <= |order|
  {
    if order == [] {
      assert xs == {};
    } else {
      var rest := xs - {Last(order)};
      FewElements(Init(order), rest);
      assert |xs| <= |rest| + 1;
    }
  }

  lemma {:induction false} ManyElements(order: seq<Id>, xs: set<Id>)
    requires forall k | 0 <= k < |order| :: order[k] in xs
    requires forall j, k | 0 <= j < k < |order| :: order[j] != order[k]
    ensures |order| <= |xs|
  {
    if order != [] {
      ManyElements(Init(order), xs - {Last(order)});
    }
  }

  lemma NoExcess(rows: map<Id, Row>, order: seq<Id>)
    requires IsNewestFirst(rows, order) && |Unlocked(rows)| <= RETAIN_UNLOCKED
    ensures Excess(order) == []
  {
    ManyElements(order, Unlocked(rows));
  }

  function Newest(order: seq<Id>): seq<Id> {
    if |order| <= RETAIN_UNLOCKED then order else order[..RETAIN_UNLOCKED]
  }

  lemma KeptIsNewest(s: Store, order: seq<Id>, id: Id)
    requires IsNewestFirst(s.rows, order) && id in Unlocked(Purged(s, Excess(order)).rows)
    ensures id in Newest(order) && id in Unlocked(s.rows)
  {
    assert id !in Excess(order) && id in Unlocked(s.rows);
    assert id in order;
    assert order == Newest(order) + Excess(order);
  }

  lemma DroppedIsExcess(s: Store, order: seq<Id>, id: Id)
    requires IsNewestFirst(s.rows, order) && id in Unlocked(s.rows) && id !in Unlocked(Purged(s, Excess(order)).rows)
    ensures id in Excess(order)
  {
  }

  lemma NewestIsNewer(rows: map<Id, Row>, order: seq<Id>, i: Id, j: Id)
    requires IsNewestFirst(rows, order) && i in Newest(order) && j in Excess(order)
    ensures i in rows && j in rows && rows[i].createdAt >= rows[j].createdAt
  {
    var a :| 0 <= a < |Newest(order)| && Newest(order)[a] == i;
    var b :| 0 <= b < |Excess(order)| && Excess(order)[b] == j;
    assert order[a] == i && order[RETAIN_UNLOCKED + b] == j;
  }

  /** As many stay as the query lists, up to ten. */
  lemma AllNewestStay(t: Store, order: seq<Id>)
    requires IsNewestFirst(t.rows, order)
    ensures |Newest(order)| <= |Unlocked(Purged(t, Excess(order)).rows)|
    ensures |order| == |Unlocked(t.rows)|
  {
    var kept := Unlocked(Purged(t, Excess(order)).rows);
    forall k | 0 <= k < |Newest(order)| ensures Newest(order)[k] in kept {
      assert Newest(order)[k] == order[k] && order[k] in Unlocked(t.rows) && order[k] in Newest(order);
      NewestOrExcess(t.rows, order, order[k]);
    }
    forall j, k | 0 <= j < k < |Newest(order)| ensures Newest(order)[j] != Newest(order)[k] {
      assert Newest(order)[j] == order[j] && Newest(order)[k] == order[k];
    }
    ManyElements(Newest(order), kept);
    ManyElements(order, Unlocked(t.rows));
    FewElements(order, Unlocked(t.rows));
  }

  lemma PurgeSparesOthers(s: Store, order: seq<Id>, id: Id)
    requires IsNewestFirst(s.rows, order) && id in s.rows && id !in Unlocked(s.rows)
    ensures id in Purged(s, Excess(order)).rows && Purged(s, Excess(order)).rows[id] == s.rows[id]
  {
  }

  /**
   * After each create exactly ten unlocked backups are live, or all of them if there
   * were fewer; none of those purged is newer than one that stays, and no other row
   * changes.
   */
  lemma CreateRetainsNewest(s: Store, id: Id, locked: bool, order: seq<Id>)
    requires Enabled(s, Complete(id, locked, order))
    ensures var before, kept := Inserted(s, id, locked).rows, Completed(s, id, locked, order).rows;
            var n := |Unlocked(before)|;
            && |Unlocked(kept)| == (if n < RETAIN_UNLOCKED then n else RETAIN_UNLOCKED)
            && Unlocked(kept) <= Unlocked(before)
            && (|Unlocked(before)| <= RETAIN_UNLOCKED ==> kept == before)
            && (forall i, j | i in Unlocked(kept) && j in Unlocked(before) - Unlocked(kept) ::
                before[i].createdAt >= before[j].createdAt)
            && (forall i | i in before && i !in Unlocked(before) :: i in kept && kept[i] == before[i])
  {
    var t, kept := Inserted(s, id, locked), Completed(s, id, locked, order).rows;
    forall i | i in Unlocked(kept) ensures i in Newest(order) && i in Unlocked(t.rows) {
      KeptIsNewest(t, order, i);
    }
    FewElements(Newest(order), Unlocked(kept));
    AllNewestStay(t, order);
    forall i, j | i in Unlocked(kept) && j in Unlocked(t.rows) - Unlocked(kept)
        ensures t.rows[i].createdAt >= t.rows[j].createdAt {
      DroppedIsExcess(t, order, j);
      NewestIsNewer(t.rows, order, i, j);
    }
    forall i | i in t.rows && i !in Unlocked(t.rows) ensures i in kept && kept[i] == t.rows[i] {
      PurgeSparesOthers(t, order, i);
    }
    if |Unlocked(t.rows)| <= RETAIN_UNLOCKED {
      NoExcess(t.rows, order);
      assert kept == t.rows;
    }
  }

  // ----- when a new backup is purged by its own create -----

  /** The live unlocked backups created after time `t`, and those created then or later. */
  function Newer(rows: map<Id, Row>, t: int): set<Id> {
    set i | i in Unlocked(rows) && rows[i].createdAt > t
  }

  function NotOlder(rows: map<Id, Row>, t: int): set<Id> {
    set i | i in Unlocked(rows) && rows[i].createdAt >= t
  }

  lemma NewestOrExcess(rows: map<Id, Row>, order: seq<Id>, id: Id)
    requires IsNewestFirst(rows, order) && id in Unlocked(rows)
    ensures id in Newest(order) <==> id !in Excess(order)
  {
    assert order == Newest(order) + Excess(order);
    forall a, b | 0 <= a < |Newest(order)| && 0 <= b < |Excess(order)| ensures Newest(order)[a] != Excess(order)[b] {
      assert order[a] == Newest(order)[a] && order[RETAIN_UNLOCKED + b] == Excess(order)[b];
    }
    assert id in order;
  }

  /** Ten newer ones stand before it. */
  lemma TenNewerPurge(rows: map<Id, Row>, order: seq<Id>, id: Id)
    requires IsNewestFirst(rows, order) && id in Unlocked(rows) && |Newer(rows, rows[id].createdAt)| >= RETAIN_UNLOCKED
    ensures id in Excess(order)
  {
    NewestOrExcess(rows, order, id);
    if id in Newest(order) {
      var a :| 0 <= a < |Newest(order)| && order[a] == id;
      var newer, front := Newer(rows, rows[id].createdAt), order[..a];
      forall x | x in newer ensures x in front {
        var j :| 0 <= j < |order| && order[j] == x;
        assert rows[order[a]].createdAt < rows[order[j]].createdAt;
        assert j < a;
        assert front[j] == x;
      }
      FewElements(front, newer);
    }
  }

  /** All that stand before it are not older, so fewer than ten of these keep it. */
  lemma FewNotOlderKeep(rows: map<Id, Row>, order: seq<Id>, id: Id)
    requires IsNewestFirst(rows, order) && id in Unlocked(rows)
    requires |NotOlder(rows, rows[id].createdAt) - {id}| < RETAIN_UNLOCKED
    ensures id in Newest(order)
  {
    NewestOrExcess(rows, order, id);
    if id in Excess(order) {
      var b :| 0 <= b < |Excess(order)| && Excess(order)[b] == id;
      var others, front := NotOlder(rows, rows[id].createdAt) - {id}, Newest(order);
      assert order[RETAIN_UNLOCKED + b] == id;
      forall k | 0 <= k < |front| ensures front[k] in others {
        assert front[k] == order[k] && rows[order[k]].createdAt >= rows[order[RETAIN_UNLOCKED + b]].createdAt;
      }
      forall j, k | 0 <= j < k < |front| ensures front[j] != front[k] {
        assert front[j] == order[j] && front[k] == order[k];
      }
      ManyElements(front, others);
    }
  }

  lemma IsKeptIff(t: Store, order: seq<Id>, id: Id)
    requires IsNewestFirst(t.rows, order) && id in Unlocked(t.rows)
    ensures IsLive(Purged(t, Excess(order)), id) <==> id in Newest(order)
  {
    NewestOrExcess(t.rows, order, id);
  }

  lemma OthersUnlocked(s: Store, id: Id)
    requires id in s.pending && id !in s.rows
    ensures var t := Inserted(s, id, false);
            && id in Unlocked(t.rows) && t.rows[id].createdAt == s.pending[id].createdAt
            && (forall c: int | s.pending[id].createdAt <= c :: Newer(t.rows, c) == Newer(s.rows, c))
            && NotOlder(t.rows, s.pending[id].createdAt) - {id} == NotOlder(s.rows, s.pending[id].createdAt)
  {
  }

  /**
   * A new unlocked backup is purged by its own create when ten live unlocked ones
   * are newer, and kept when fewer than ten are as new; if no other was created at
   * the same time, that decides it.
   */
  lemma NewBackupIsPurgedIff(s: Store, id: Id, order: seq<Id>)
    requires Enabled(s, Complete(id, false, order)) && id !in s.rows
    ensures var c := s.pending[id].createdAt;
            var kept := IsLive(Completed(s, id, false, order), id);
            && (|Newer(s.rows, c)| >= RETAIN_UNLOCKED ==> !kept)
            && (|NotOlder(s.rows, c)| < RETAIN_UNLOCKED ==> kept)
            && (Newer(s.rows, c) == NotOlder(s.rows, c) ==> (kept <==> |Newer(s.rows, c)| < RETAIN_UNLOCKED))
  {
    var t, c := Inserted(s, id, false), s.pending[id].createdAt;
    OthersUnlocked(s, id);
    IsKeptIff(t, order, id);
    NewestOrExcess(t.rows, order, id);
    if |Newer(s.rows, c)| >= RETAIN_UNLOCKED {
      TenNewerPurge(t.rows, order, id);
    }
    if |NotOlder(s.rows, c)| < RETAIN_UNLOCKED {
      FewNotOlderKeep(t.rows, order, id);
    }
  }

  // ----- what crashes leave -----

  /** A crash forgets the backups being archived, not their files; inside a removal it leaves a row without its file. */
  lemma CrashLeaves(s: Store, id: Id)
    ensures Step(s, Restart) == Store(s.rows, map[], s.files)
    ensures Enabled(s, RemoveInterrupted(id)) <==> id in s.rows && !s.rows[id].purged && !s.rows[id].locked
    ensures Enabled(s, RemoveInterrupted(id)) ==>
              Step(s, RemoveInterrupted(id)) == Store(s.rows, map[], s.files - {s.rows[id].name})
  {
  }

  // ----- failed creates -----

  /** A create whose archiving fails leaves the store as it was before it began. */
  lemma FailedCreateLeavesNothing(s: Store, id: Id, base: string, name: string, tries: nat, now: int)
    requires Enabled(s, Begin(id, base, name, tries, now))
    ensures var begun := Step(s, Begin(id, base, name, tries, now));
            && begun.files == s.files + {name} && begun.pending == s.pending[id := Pending(name, now)]
            && begun.rows == s.rows
            && Enabled(begun, Fail(id)) && Step(begun, Fail(id)) == s
  {
    assert (s.files + {name}) - {name} == s.files;
    assert s.pending[id := Pending(name, now)] - {id} == s.pending;
  }

  /** Whatever happened in between, its file goes and no other backup loses its own. */
  lemma {:induction false} FailedIsGone(evs: seq<Event>, id: Id)
    requires IsRun(evs) && NoneTakes(evs) && id in After(evs).pending
    ensures var s, t := After(evs), Step(After(evs), Fail(id));
            && !Owns(t, id) && s.pending[id].name !in t.files && t.rows == s.rows
            && forall other | other != id && Owns(s, other) && other !in Gone(evs) ::
                 Owns(t, other) && FileOf(t, other) == FileOf(s, other) && FileOf(t, other) in t.files
  {
    var s, t := After(evs), Step(After(evs), Fail(id));
    RunsAreSafe(evs);
    assert Owns(s, id) && FileOf(s, id) == s.pending[id].name;
  }

  // ----- removing and unlocking -----

  /**
   * In every safe run a removal takes effect exactly for a live backup that is not
   * locked: it is no longer live, its file is gone, and no other backup loses its own.
   */
  lemma {:induction false} RemovedIsGoneIff(evs: seq<Event>, id: Id)
    requires IsRun(evs) && NoneTakes(evs)
    ensures var s, t := After(evs), Step(After(evs), Remove(id));
            && (IsLive(s, id) && !IsLive(t, id) <==> IsLive(s, id) && !s.rows[id].locked)
            && (IsLive(s, id) && !s.rows[id].locked ==>
                  t.rows[id].purged && s.rows[id].name !in t.files && id !in Unlocked(t.rows))
            && (forall other | other != id && other in s.rows :: other in t.rows && t.rows[other] == s.rows[other])
            && (forall other | other != id && Owns(s, other) && other !in Gone(evs) ::
                  Owns(t, other) && FileOf(t, other) == FileOf(s, other) && FileOf(t, other) in t.files)
  {
    var s, t := After(evs), Step(After(evs), Remove(id));
    RunsAreSafe(evs);
    if IsLive(s, id) && !s.rows[id].locked {
      assert Owns(s, id) && FileOf(s, id) == s.rows[id].name by {
        assert id !in s.pending;
      }
    }
  }

  /** Unlocking makes exactly a live locked backup count for retention, and changes nothing else. */
  lemma UnlockedCountsIff(s: Store, id: Id)
    ensures var t := Step(s, Unlock(id));
            && (id in Unlocked(t.rows) <==> IsLive(s, id))
            && Unlocked(t.rows) == Unlocked(s.rows) + (if IsLive(s, id) then {id} else {})
            && t.files == s.files && t.pending == s.pending && t.rows.Keys == s.rows.Keys
            && (forall other | other in s.rows && other != id :: t.rows[other] == s.rows[other])
            && (id in s.rows ==>
                  && t.rows[id].name == s.rows[id].name && t.rows[id].purged == s.rows[id].purged
                  && t.rows[id].createdAt == s.rows[id].createdAt)
  {
  }
}

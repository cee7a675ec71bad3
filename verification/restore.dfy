/// Restoring a backup: extract beside the server directory, then swap by two renames.
/// A crash may fall between any two file-system operations, and the restore may be run again.
module Restore {
  import opened Prelude

  /** A directory tree, flattened to its files. */
  type Tree = map<string, string>

  type Dir = Option<Tree>

  /** The server directory, the `.restore-` directory and the `.pre-restore-` directory. */
  class Directories {
    var live: Dir
    var staging: Dir
    var displaced: Dir

    constructor (tree: Dir)
      ensures live == tree && staging == None && displaced == None
    {
      live, staging, displaced := tree, None, None;
    }

    method RemoveStaging()
      modifies this`staging
      ensures staging == None
    {
      while staging.Some? && staging.value != map[]
        decreases if staging.Some? then |staging.value| else 0
      {
        var name :| name in staging.value;
        staging := Some(staging.value - {name});
      }
      staging := None;
    }

    method RemoveDisplaced()
      modifies this`displaced
      ensures displaced == None
    {
      while displaced.Some? && displaced.value != map[]
        decreases if displaced.Some? then |displaced.value| else 0
      {
        var name :| name in displaced.value;
        displaced := Some(displaced.value - {name});
      }
      displaced := None;
    }

    /** `extracted` is what the archive tool left behind, and whether it succeeded. */
    method Run(checksumOk: bool, archive: Tree, extracted: Option<Tree>) returns (ok: bool)
      requires extracted.Some? ==> extracted.value == archive
      modifies this
      ensures ok <==> checksumOk && extracted.Some?
      ensures ok ==> live == Some(archive) && staging == None && displaced == None
      ensures !ok ==> live == old(live) && displaced == old(displaced)
      ensures !checksumOk ==> staging == old(staging)
      ensures checksumOk && !ok ==> staging == None
    {
      if !checksumOk {
        return false;
      }
      RemoveStaging();
      staging := Some(map[]);
      if extracted.None? {
        RemoveStaging();
        return false;
      }
      staging := extracted;
      RemoveDisplaced();
      if live.Some? {
        displaced := live;
        live := None;
      }
      live, staging := staging, None;
      RemoveDisplaced();
      return true;
    }
  }

  // ----- one file-system operation at a time -----

  datatype Stage = Idle | ClearStaging | Extract | Abandon | ClearDisplaced | MoveAside | MoveIn | DropOld

  /** `gaps` counts the crashes since the server directory last existed. */
  datatype State = State(live: Dir, staging: Dir, displaced: Dir, stage: Stage, gaps: nat)

  datatype Event = Begin | Remove(name: string) | Write(name: string, data: string) | Proceed | Fail | Crash

  function Initial(before: Tree): State {
    State(Some(before), None, None, Idle, 0)
  }

  predicate Cleared(d: Dir) {
    d.None? || d.value == map[]
  }

  predicate Enabled(s: State, archive: Tree, ev: Event) {
    match ev
    case Begin => s.stage.Idle?
    case Remove(name) =>
      if s.stage.ClearStaging? || s.stage.Abandon? then s.staging.Some? && name in s.staging.value
      else (s.stage.ClearDisplaced? || s.stage.DropOld?) && s.displaced.Some? && name in s.displaced.value
    case Write(name, _) => s.stage.Extract? && name in archive
    case Fail => s.stage.Extract?
    case Crash => !s.stage.Idle?
    case Proceed =>
      match s.stage
      case Idle => false
      case ClearStaging => Cleared(s.staging)
      case Abandon => Cleared(s.staging)
      case Extract => s.staging == Some(archive)
      case ClearDisplaced => Cleared(s.displaced)
      case DropOld => Cleared(s.displaced)
      case _ => true
  }

  function ProceedFrom(s: State): State {
    match s.stage
    case Idle => s
    case ClearStaging => s.(staging := Some(map[]), stage := Extract)
    case Abandon => s.(staging := None, stage := Idle)
    case Extract => s.(stage := ClearDisplaced)
    case ClearDisplaced => s.(displaced := None, stage := MoveAside)
    case MoveAside => if s.live.Some? then s.(displaced := s.live, live := None, stage := MoveIn)
        else s.(stage := MoveIn)
    case MoveIn => s.(live := s.staging, staging := None, stage := DropOld, gaps := 0)
    case DropOld => s.(displaced := None, stage := Idle)
  }

  function Step(s: State, archive: Tree, ev: Event): State
    requires Enabled(s, archive, ev)
  {
    match ev
    case Begin => s.(stage := ClearStaging)
    case Remove(name) =>
      if s.stage.ClearStaging? || s.stage.Abandon? then s.(staging := Some(s.staging.value - {name}))
      else s.(displaced := Some(s.displaced.value - {name}))
    case Write(name, data) => if s.staging.Some? then s.(staging := Some(s.staging.value[name := data])) else s
    case Fail => s.(stage := Abandon)
    case Crash => s.(stage := Idle, gaps := if s.live.None? then s.gaps + 1 else s.gaps)
    case Proceed => ProceedFrom(s)
  }

  predicate IsRun(before: Tree, archive: Tree, evs: seq<Event>)
    decreases |evs|, 0
  {
    evs == [] || (IsRun(before, archive, Init(evs)) && Enabled(After(before, archive, Init(evs)), archive, Last(evs)))
  }

  function After(before: Tree, archive: Tree, evs: seq<Event>): State
    requires IsRun(before, archive, evs)
    decreases |evs|, 1
  {
    if evs == [] then Initial(before) else Step(After(before, archive, Init(evs)), archive, Last(evs))
  }

  // ----- what survives -----

  predicate Whole(d: Dir, before: Tree, archive: Tree) {
    d == Some(before) || d == Some(archive)
  }

  predicate IsSwapping(stage: Stage) {
    stage.ClearDisplaced? || stage.MoveAside? || stage.MoveIn?
  }

  /** Where a complete tree is while the server directory is absent. */
  predicate Recoverable(s: State, before: Tree, archive: Tree) {
    if s.gaps == 0 then s.stage.MoveIn? && Whole(s.displaced, before, archive)
    else if s.gaps == 1 then (if IsSwapping(s.stage) then s.staging == Some(archive)
        else Whole(s.displaced, before, archive))
    else true
  }

  predicate Kept(s: State, before: Tree, archive: Tree) {
    && (IsSwapping(s.stage) ==> s.staging == Some(archive))
    && (s.live.Some? ==> Whole(s.live, before, archive) && s.gaps == 0 && !s.stage.MoveIn?)
    && (s.live.None? ==> Recoverable(s, before, archive) && !s.stage.DropOld?)
    && (s.stage.Extract? ==> s.staging.Some?)
    && (s.stage.MoveAside? ==> s.displaced.None?)
    && (s.stage.DropOld? ==> s.live == Some(archive) && s.staging.None?)
  }

  lemma StepKeeps(s: State, before: Tree, archive: Tree, ev: Event)
    requires Kept(s, before, archive) && Enabled(s, archive, ev)
    ensures Kept(Step(s, archive, ev), before, archive)
  {
  }

  lemma {:induction false} RunsKeep(before: Tree, archive: Tree, evs: seq<Event>)
    requires IsRun(before, archive, evs)
    ensures Kept(After(before, archive, evs), before, archive)
  {
    if evs != [] {
      RunsKeep(before, archive, Init(evs));
      StepKeeps(After(before, archive, Init(evs)), before, archive, Last(evs));
    }
  }

  /**
   * Before any crash has hit the gap between the two renames, the server
   * directory holds a complete tree, old or new; or it is absent, the complete
   * tree it held stands aside, and the complete new one waits to be moved in.
   */
  lemma {:induction false} SwapIsCrashConsistent(before: Tree, archive: Tree, evs: seq<Event>)
    requires IsRun(before, archive, evs) && After(before, archive, evs).gaps == 0
    ensures var s := After(before, archive, evs);
            || Whole(s.live, before, archive)
            || (s.live.None? && Whole(s.displaced, before, archive) && s.staging == Some(archive))
  {
    RunsKeep(before, archive, evs);
  }

  /** After one crash in the gap, and through the run that repairs it, some directory still holds a complete tree. */
  lemma {:induction false} OneGapLosesNothing(before: Tree, archive: Tree, evs: seq<Event>)
    requires IsRun(before, archive, evs) && After(before, archive, evs).gaps <= 1
    ensures var s := After(before, archive, evs);
            Whole(s.live, before, archive) || Whole(s.displaced, before, archive) || s.staging == Some(archive)
  {
    RunsKeep(before, archive, evs);
  }

  /**
   * A second crash can lose both: the repairing run deletes the tree that stands
   * aside before it moves the new one in, and the next run starts by deleting
   * the new one.
   */
  lemma SecondGapCanLoseBoth(before: Tree, archive: Tree, s: State, x: string, y: string)
    requires s.stage.ClearDisplaced? && s.live.None? && s.staging == Some(archive) && s.displaced == Some(before)
        && s.gaps == 1
    requires x in before && y in archive && before - {x} != archive && archive - {y} != before
    ensures Enabled(s, archive, Remove(x))
    ensures var s1 := Step(s, archive, Remove(x));
            Enabled(s1, archive, Crash) && Enabled(Step(s1, archive, Crash), archive, Begin)
    ensures var s3 := Step(Step(Step(s, archive, Remove(x)), archive, Crash), archive, Begin);
            Enabled(s3, archive, Remove(y))
            && var s4 := Step(s3, archive, Remove(y));
            s4.gaps == 2 && s4.live.None? && !Whole(s4.displaced, before, archive)
                && !Whole(s4.staging, before, archive)
  {
    assert x !in before - {x} && y !in archive - {y};
  }

  /** Whatever crashed before, a restore that reaches its end leaves exactly the new tree. */
  lemma {:induction false} FinishedIsNew(before: Tree, archive: Tree, evs: seq<Event>)
    requires IsRun(before, archive, evs) && After(before, archive, evs).stage.DropOld?
    requires Enabled(After(before, archive, evs), archive, Proceed)
    ensures var s := Step(After(before, archive, evs), archive, Proceed);
            s.stage.Idle? && s.live == Some(archive) && s.staging.None? && s.displaced.None?
  {
    RunsKeep(before, archive, evs);
  }

  // ----- exactly when everything is lost -----

  /** No directory holds a complete tree. */
  predicate Lost(s: State, before: Tree, archive: Tree) {
    !Whole(s.live, before, archive) && !Whole(s.displaced, before, archive) && !Whole(s.staging, before, archive)
  }

  /** Deleting or writing this one file leaves neither of the two trees. */
  predicate Ruins(ev: Event, d: Tree, before: Tree, archive: Tree) {
    match ev
    case Remove(name) => d - {name} != before && d - {name} != archive
    case Write(name, data) => d[name := data] != before && d[name := data] != archive
    case _ => false
  }

  /**
   * Two crashes have found the server directory absent, the tree that stood aside is
   * broken, and the next run deletes or overwrites the staged tree, complete until then.
   */
  predicate Loses(s: State, before: Tree, archive: Tree, ev: Event) {
    && s.gaps >= 2 && s.live.None? && !Whole(s.displaced, before, archive)
    && (s.stage.ClearStaging? || s.stage.Abandon? || s.stage.Extract?)
    && Whole(s.staging, before, archive) && Ruins(ev, s.staging.value, before, archive)
  }

  lemma StepLosesIff(s: State, before: Tree, archive: Tree, ev: Event)
    requires Kept(s, before, archive) && Enabled(s, archive, ev) && before != map[] && archive != map[]
    ensures !Lost(s, before, archive) && Lost(Step(s, archive, ev), before, archive) <==> Loses(s, before, archive, ev)
  {
  }

  /** At some point of the run no directory holds a complete tree. */
  predicate EverLost(before: Tree, archive: Tree, evs: seq<Event>)
    requires IsRun(before, archive, evs)
  {
    || Lost(After(before, archive, evs), before, archive)
    || (evs != [] && EverLost(before, archive, Init(evs)))
  }

  predicate SomeStepLoses(before: Tree, archive: Tree, evs: seq<Event>)
    requires IsRun(before, archive, evs)
  {
    && evs != []
    && (Loses(After(before, archive, Init(evs)), before, archive, Last(evs))
        || SomeStepLoses(before, archive, Init(evs)))
  }

  /**
   * There is exactly one way for a run to lose both trees: with the server directory
   * absent since two crashes and the tree that stood aside broken, a later attempt
   * deletes or overwrites a file of the complete staged tree.
   */
  lemma {:induction false} LostIff(before: Tree, archive: Tree, evs: seq<Event>)
    requires IsRun(before, archive, evs) && before != map[] && archive != map[]
    ensures EverLost(before, archive, evs) <==> SomeStepLoses(before, archive, evs)
  {
    if evs != [] {
      var s := After(before, archive, Init(evs));
      LostIff(before, archive, Init(evs));
      RunsKeep(before, archive, Init(evs));
      StepLosesIff(s, before, archive, Last(evs));
    }
  }

  // ----- a run that loses both -----

  lemma Extend(before: Tree, archive: Tree, evs: seq<Event>, ev: Event) returns (more: seq<Event>)
    requires IsRun(before, archive, evs) && Enabled(After(before, archive, evs), archive, ev)
    ensures IsRun(before, archive, more) && After(before, archive, more)
        == Step(After(before, archive, evs), archive, ev)
  {
    more := evs + [ev];
    assert Init(more) == evs;
  }

  /** Writes the archive's files one after the other. */
  lemma ExtractAll(before: Tree, archive: Tree, evs: seq<Event>, rest: set<string>) returns (more: seq<Event>)
    requires IsRun(before, archive, evs) && After(before, archive, evs).stage.Extract?
    requires var staging := After(before, archive, evs).staging;
             staging.Some? && rest <= archive.Keys && staging.value.Keys == archive.Keys - rest
             && forall n | n in staging.value :: staging.value[n] == archive[n]
    ensures IsRun(before, archive, more)
    ensures After(before, archive, more) == After(before, archive, evs).(staging := Some(archive))
    decreases |rest|
  {
    var s := After(before, archive, evs);
    if rest == {} {
      assert s.staging.value == archive;
      more := evs;
    } else {
      var n :| n in rest;
      more := Extend(before, archive, evs, Write(n, archive[n]));
      more := ExtractAll(before, archive, more, rest - {n});
    }
  }

  /** Deletes the staged files one after the other. */
  lemma RemoveStaged(before: Tree, archive: Tree, evs: seq<Event>) returns (more: seq<Event>)
    requires IsRun(before, archive, evs) && After(before, archive, evs).staging.Some?
    requires After(before, archive, evs).stage.ClearStaging? || After(before, archive, evs).stage.Abandon?
    ensures IsRun(before, archive, more)
    ensures After(before, archive, more) == After(before, archive, evs).(staging := Some(map[]))
    decreases |After(before, archive, evs).staging.value|
  {
    var s := After(before, archive, evs);
    if s.staging.value == map[] {
      more := evs;
    } else {
      var n :| n in s.staging.value;
      more := Extend(before, archive, evs, Remove(n));
      assert |s.staging.value - {n}| < |s.staging.value| by {
        assert (s.staging.value - {n}).Keys == s.staging.value.Keys - {n};
        assert |(s.staging.value - {n}).Keys| == |s.staging.value.Keys| - 1;
      }
      more := RemoveStaged(before, archive, more);
    }
  }

  lemma RemoveDisplacedFiles(before: Tree, archive: Tree, evs: seq<Event>) returns (more: seq<Event>)
    requires IsRun(before, archive, evs) && After(before, archive, evs).displaced.Some?
    requires After(before, archive, evs).stage.ClearDisplaced? || After(before, archive, evs).stage.DropOld?
    ensures IsRun(before, archive, more)
    ensures After(before, archive, more) == After(before, archive, evs).(displaced := Some(map[]))
    decreases |After(before, archive, evs).displaced.value|
  {
    var s := After(before, archive, evs);
    if s.displaced.value == map[] {
      more := evs;
    } else {
      var n :| n in s.displaced.value;
      more := Extend(before, archive, evs, Remove(n));
      assert |s.displaced.value - {n}| < |s.displaced.value| by {
        assert (s.displaced.value - {n}).Keys == s.displaced.value.Keys - {n};
        assert |(s.displaced.value - {n}).Keys| == |s.displaced.value.Keys| - 1;
      }
      more := RemoveDisplacedFiles(before, archive, more);
    }
  }

  /** From idle to the point where the new tree is staged and nothing else has been touched. */
  lemma StageNew(before: Tree, archive: Tree, evs: seq<Event>) returns (more: seq<Event>)
    requires IsRun(before, archive, evs) && After(before, archive, evs).stage.Idle?
    ensures IsRun(before, archive, more)
    ensures After(before, archive, more) == After(before, archive, evs).(staging := Some(archive),
        stage := ClearDisplaced)
  {
    more := Extend(before, archive, evs, Begin);
    if After(before, archive, more).staging.Some? {
      more := RemoveStaged(before, archive, more);
    }
    more := Extend(before, archive, more, Proceed);
    more := ExtractAll(before, archive, more, archive.Keys);
    more := Extend(before, archive, more, Proceed);
  }

  /** The state of `SecondGapCanLoseBoth` is reached by a run with one crash, between the two renames. */
  lemma GapIsReached(before: Tree, archive: Tree) returns (evs: seq<Event>)
    ensures IsRun(before, archive, evs)
    ensures After(before, archive, evs) == State(None, Some(archive), Some(before), ClearDisplaced, 1)
  {
    evs := StageNew(before, archive, []);
    evs := Extend(before, archive, evs, Proceed);
    evs := Extend(before, archive, evs, Proceed);
    evs := Extend(before, archive, evs, Crash);
    evs := StageNew(before, archive, evs);
  }

  /** For every server with files and every archive with files, two crashes can lose both trees. */
  lemma BothCanBeLost(before: Tree, archive: Tree) returns (evs: seq<Event>)
    requires before != map[] && archive != map[]
    ensures IsRun(before, archive, evs)
    ensures Lost(After(before, archive, evs), before, archive) && After(before, archive, evs).gaps == 2
  {
    evs := GapIsReached(before, archive);
    evs := RemoveDisplacedFiles(before, archive, evs);
    evs := Extend(before, archive, evs, Crash);
    evs := Extend(before, archive, evs, Begin);
    evs := RemoveStaged(before, archive, evs);
  }

  // ----- a restore that is left to run -----

  /** A stage that deletes the tree standing aside, up to its end. */
  lemma ClearAside(before: Tree, archive: Tree, evs: seq<Event>) returns (more: seq<Event>)
    requires IsRun(before, archive, evs)
    requires After(before, archive, evs).stage.ClearDisplaced? || After(before, archive, evs).stage.DropOld?
    ensures IsRun(before, archive, more)
    ensures After(before, archive, more) == ProceedFrom(After(before, archive, evs))
  {
    more := evs;
    if After(before, archive, evs).displaced.Some? {
      more := RemoveDisplacedFiles(before, archive, evs);
    }
    more := Extend(before, archive, more, Proceed);
  }

  /**
   * Whatever crashed before, from every idle state a further restore can run to its end,
   * and then the server directory is the archive's tree and nothing stands beside it.
   */
  lemma NextRestoreRepairs(before: Tree, archive: Tree, evs: seq<Event>) returns (more: seq<Event>)
    requires IsRun(before, archive, evs) && After(before, archive, evs).stage.Idle?
    ensures IsRun(before, archive, more)
    ensures After(before, archive, more) == State(Some(archive), None, None, Idle, 0)
  {
    more := StageNew(before, archive, evs);
    more := ClearAside(before, archive, more);
    more := Extend(before, archive, more, Proceed);
    more := Extend(before, archive, more, Proceed);
    more := ClearAside(before, archive, more);
  }

  /** A failed extraction ends with the staged tree deleted, and has touched neither of the other directories. */
  lemma FailedLeavesOld(before: Tree, archive: Tree, evs: seq<Event>) returns (more: seq<Event>)
    requires IsRun(before, archive, evs) && After(before, archive, evs).stage.Extract?
    ensures IsRun(before, archive, more)
    ensures After(before, archive, more) == After(before, archive, evs).(staging := None, stage := Idle)
  {
    more := Extend(before, archive, evs, Fail);
    if After(before, archive, more).staging.Some? {
      more := RemoveStaged(before, archive, more);
    }
    more := Extend(before, archive, more, Proceed);
  }
}

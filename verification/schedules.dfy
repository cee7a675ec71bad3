/// Schedules with cron expressions: the table's statements, and what the lease means for them.
module CronSchedules {
  import opened Prelude
  import opened Cron
  import opened CronExpression
  import opened Scheduler

  /** The run after `clock`, or nothing when the expression does not parse or never fires. */
  function NextFor(cron: string, clock: int): Option<int> {
    match CronOf(cron)
    case None => None
    case Some(f) => NextRun(f, clock)
  }

  method ComputeNext(cron: string, clock: int) returns (next: Option<int>)
    ensures next == NextFor(cron, clock)
  {
    var fields := ParseCron(cron);
    if fields.None? {
      return None;
    }
    next := FindNextRun(fields.value, clock);
  }

  method EditedRow(r: Row, p: Patch, clock: int) returns (edited: Option<Row>)
    ensures edited == if p.cron.Some? && NextFor(p.cron.value, clock).None? then None
        else Some(Patched(NextFor, r, p, clock))
  {
    var row := r;
    if p.cron.Some? {
      var next := ComputeNext(p.cron.value, clock);
      if next.None? {
        return None;
      }
      row := row.(cron := p.cron.value, next := next);
    }
    if p.active.Some? {
      row := row.(active := p.active.value);
    }
    edited := Some(row);
  }

  class Schedules {
    var rows: Rows

    constructor ()
      ensures rows == map[]
    {
      rows := map[];
    }

    method ClaimDue(id: Id, now: int) returns (changed: bool)
      modifies this
      ensures rows == ClaimDueRows(old(rows), id, now)
      ensures changed <==> id in old(rows) && IsDue(old(rows)[id], now)
    {
      changed := id in rows && IsDue(rows[id], now);
      if changed {
        rows := rows[id := rows[id].(processing := true, lockUntil := now + LOCK_TTL)];
      }
    }

    method ClaimOnce(id: Id, now: int) returns (changed: bool)
      modifies this
      ensures rows == ClaimOnceRows(old(rows), id, now)
      ensures changed <==> id in old(rows) && LeaseFree(old(rows)[id], now)
    {
      changed := id in rows && LeaseFree(rows[id], now);
      if changed {
        rows := rows[id := rows[id].(processing := true, lockUntil := now + LOCK_TTL)];
      }
    }

    method Release(id: Id, clock: int)
      modifies this
      ensures rows == ReleaseRows(old(rows), id, clock)
    {
      if id in rows {
        rows := rows[id := rows[id].(processing := false, lockUntil := 0, lastRun := Some(clock))];
      }
    }

    method Finalize(id: Id, clock: int)
      modifies this
      ensures rows == FinalizeRows(NextFor, old(rows), id, clock)
    {
      if id in rows {
        var current := rows[id];
        var next := ComputeNext(current.cron, clock);
        rows := rows[id := current.(processing := false, lockUntil := 0, lastRun := Some(clock), next := next)];
      }
    }

    method Create(id: Id, cron: string, clock: int) returns (ok: bool)
      modifies this
      ensures rows == CreateRows(NextFor, old(rows), id, cron, clock)
      ensures ok <==> NextFor(cron, clock).Some?
    {
      var next := ComputeNext(cron, clock);
      if next.None? {
        return false;
      }
      rows := rows[id := Row(cron, true, false, 0, next, None)];
      return true;
    }

    method Update(id: Id, p: Patch, clock: int)
      modifies this
      ensures rows == UpdateRows(NextFor, old(rows), id, p, clock)
    {
      if id in rows {
        var row := EditedRow(rows[id], p, clock);
        if row.Some? {
          rows := rows[id := row.value];
        }
      }
    }

    method Remove(id: Id)
      modifies this
      ensures rows == old(rows) - {id}
    {
      rows := rows - {id};
    }
  }

  // ----- what the runners do with cron expressions -----

  /** `n` is a minute the expression names. */
  predicate NamesMinute(cron: string, n: int) {
    WholeMinute(n) && CronOf(cron).Some? && Matches(CronOf(cron).value, n)
  }

  lemma NextForNames(cron: string, clock: int)
    ensures NextFor(cron, clock).Some? ==>
              NamesMinute(cron, NextFor(cron, clock).value) && clock < NextFor(cron, clock).value
  {
    if CronOf(cron).Some? {
      NextRunIsLeast(CronOf(cron).value, clock);
    }
  }

  lemma NextForIsForward()
    ensures Forward(NextFor)
  {
    forall cron, clock ensures NextFor(cron, clock).Some? ==> clock < NextFor(cron, clock).value {
      NextForNames(cron, clock);
    }
  }

  /** Whatever happens, schedules run only for minutes the expression then in force names. */
  lemma {:induction false} RunTimesAreNamed(evs: seq<Event>, i: nat)
    requires IsRun(NextFor, evs) && i < |After(NextFor, evs).fired|
    ensures NamesMinute(After(NextFor, evs).fired[i].cron, After(NextFor, evs).fired[i].due)
  {
    RunTimesAreComputed(NextFor, evs, i);
    var f := After(NextFor, evs).fired[i];
    var clock :| NextFor(f.cron, clock) == Some(f.due);
    NextForNames(f.cron, clock);
  }

  /** So a schedule fires at most once for each minute its expression names. */
  lemma {:induction false} NeverTwiceForAMinute(evs: seq<Event>, i: nat, j: nat)
    requires IsTimelyRun(NextFor, evs) && NoCrash(evs)
    requires i < j < |After(NextFor, evs).fired| && After(NextFor, evs).fired[i].id == After(NextFor, evs).fired[j].id
    ensures After(NextFor, evs).fired[i].due < After(NextFor, evs).fired[j].due
    ensures NamesMinute(After(NextFor, evs).fired[j].cron, After(NextFor, evs).fired[j].due)
  {
    NextForIsForward();
    FiresOncePerMinute(NextFor, evs);
    RunTimesAreNamed(evs, j);
  }
}

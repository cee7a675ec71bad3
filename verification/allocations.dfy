/// Port allocations: creating and deleting servers, swapping a server's port, releasing one.
/// Each operation is one database transaction; a failed one is rolled back.
module Allocations {
  import opened Prelude

  type Id = string

  const ANY_IP := "0.0.0.0"
  const FIRST_PORT := 25565
  const LAST_PORT := 26565
  const ATTEMPTS: nat := 5

  datatype Allocation = Allocation(server: Option<Id>, ip: string, port: int, released: bool)

  /** `servers` maps a server to whether it is deleted. */
  datatype Db = Db(servers: map<Id, bool>, allocs: map<Id, Allocation>)

  datatype Outcome =
    | Done(port: int)
    | UniqueFailed
    | CheckFailed
    | PortTaken
    | NoFreePort
    | NotFound
    | LastOne
    | BadPort

  predicate InUse(db: Db, a: Id) {
    a in db.allocs && !db.allocs[a].released
  }

  /** The unreleased allocations of a server. */
  function Held(db: Db, server: Id): set<Id> {
    set a | a in db.allocs && InUse(db, a) && db.allocs[a].server == Some(server)
  }

  function PortsOn(db: Db, ip: string): set<int> {
    set a | a in db.allocs && InUse(db, a) && db.allocs[a].ip == ip :: db.allocs[a].port
  }

  function PortsInUse(db: Db): set<int> {
    set a | a in db.allocs && InUse(db, a) :: db.allocs[a].port
  }

  predicate IsLeastFree(taken: set<int>, from: int, last: int, port: int) {
    from <= port <= last && port !in taken && forall p | from <= p < port :: p in taken
  }

  // ----- transactions -----

  predicate ValidPort(port: int) {
    1024 <= port <= 65535
  }

  predicate AddressInUse(db: Db, ip: string, port: int) {
    exists b | b in db.allocs :: InUse(db, b) && db.allocs[b].ip == ip && db.allocs[b].port == port
  }

  /** The INSERT: primary key, CHECK on the port, and the partial index on (ip, port). */
  function Insert(db: Db, a: Id, row: Allocation): Option<Db> {
    if a in db.allocs || !ValidPort(row.port) || AddressInUse(db, row.ip, row.port)
    then None
    else Some(db.(allocs := db.allocs[a := row]))
  }

  function Free(db: Db, server: Id): Db {
    db.(allocs := map a | a in db.allocs ::
          if InUse(db, a) && db.allocs[a].server == Some(server)
              then db.allocs[a].(server := None, released := true) else db.allocs[a])
  }

  /** Another server's allocation that the requested address would collide with. */
  predicate Clashes(db: Db, server: Id, ip: string, port: int) {
    exists a | a in db.allocs ::
      && InUse(db, a) && db.allocs[a].port == port && db.allocs[a].server != Some(server)
      && (ip == ANY_IP || db.allocs[a].ip == ip || db.allocs[a].ip == ANY_IP)
  }

  predicate IsServer(db: Db, server: Id) {
    server in db.servers && !db.servers[server]
  }

  class Database {
    var servers: map<Id, bool>
    var allocs: map<Id, Allocation>

    function Contents(): Db
      reads this
    {
      Db(servers, allocs)
    }

    constructor ()
      ensures Contents() == Db(map[], map[])
    {
      servers, allocs := map[], map[];
    }

    method ClaimFreePort(ip: string, from: int, last: int) returns (port: Option<int>)
      ensures port == FreePort(PortsOn(Contents(), ip), from, last)
    {
      var taken := PortsOn(Contents(), ip);
      var p := from;
      while p <= last
        invariant FreePort(taken, from, last) == FreePort(taken, p, last)
      {
        if p !in taken {
          return Some(p);
        }
        p := p + 1;
      }
      return None;
    }

    /** One attempt of the transaction. A preferred port of 0 counts as none. */
    method CreateOnce(id: Id, preferred: Option<int>, a: Id) returns (r: Outcome)
      modifies this
      ensures r == CreateOutcome(old(Contents()), id, preferred, a)
      ensures Contents() == if r.Done? then Created(old(Contents()), id, a, r.port) else old(Contents())
    {
      if id in servers {
        return UniqueFailed;
      }
      var port;
      if preferred.Some? && preferred.value != 0 {
        if preferred.value in PortsInUse(Contents()) {
          return PortTaken;
        }
        port := preferred.value;
      } else {
        var free := ClaimFreePort(ANY_IP, FIRST_PORT, LAST_PORT);
        if free.None? {
          return NoFreePort;
        }
        port := free.value;
      }
      if !ValidPort(port) {
        return CheckFailed;
      }
      var inserted := Insert(Contents(), a, Allocation(Some(id), ANY_IP, port, false));
      if inserted.None? {
        return UniqueFailed;
      }
      allocs := inserted.value.allocs;
      servers := servers[id := false];
      return Done(port);
    }

    /** Up to five attempts; only a broken uniqueness constraint is retried, each time with a new allocation id. */
    method Create(id: Id, preferred: Option<int>, ids: seq<Id>) returns (r: Outcome)
      requires |ids| == ATTEMPTS
      modifies this
      ensures r.Done? ==> IsCreated(old(Contents()), id, preferred, ids, r, Contents())
      ensures !r.Done? ==> Contents() == old(Contents())
      ensures r == UniqueFailed <==> forall k | 0 <= k < ATTEMPTS ::
          CreateOutcome(old(Contents()), id, preferred, ids[k]) == UniqueFailed
    {
      var attempt := 0;
      while attempt < ATTEMPTS
        invariant attempt <= ATTEMPTS && Contents() == old(Contents())
        invariant forall k | 0 <= k < attempt :: CreateOutcome(old(Contents()), id, preferred, ids[k]) == UniqueFailed
      {
        r := CreateOnce(id, preferred, ids[attempt]);
        if r != UniqueFailed {
          return;
        }
        attempt := attempt + 1;
      }
      return UniqueFailed;
    }

    method Assign(server: Id, ip: string, port: int, a: Id) returns (r: Outcome)
      modifies this
      ensures r == AssignOutcome(old(Contents()), server, ip, port, a)
      ensures Contents() == if r.Done? then Assigned(old(Contents()), server, ip, port, a) else old(Contents())
    {
      if !IsServer(Contents(), server) {
        return NotFound;
      }
      if !ValidPort(port) {
        return BadPort;
      }
      if Clashes(Contents(), server, ip, port) {
        return PortTaken;
      }
      var swapped := Insert(Free(Contents(), server), a, Allocation(Some(server), ip, port, false));
      if swapped.None? {
        return UniqueFailed;
      }
      allocs := swapped.value.allocs;
      return Done(port);
    }

    method Release(server: Id, a: Id) returns (r: Outcome)
      modifies this
      ensures r == ReleaseOutcome(old(Contents()), server, a)
      ensures Contents() == if r.Done? then Released(old(Contents()), a) else old(Contents())
    {
      if !IsServer(Contents(), server) || a !in Held(Contents(), server) {
        return NotFound;
      }
      if |Held(Contents(), server)| <= 1 {
        return LastOne;
      }
      r := Done(allocs[a].port);
      allocs := allocs[a := allocs[a].(server := None, released := true)];
    }

    method Remove(server: Id)
      modifies this
      ensures Contents() == Deleted(old(Contents()), server)
    {
      allocs := Free(Contents(), server).allocs;
      if server in servers {
        servers := servers[server := true];
      }
    }
  }

  /** The least free port on all interfaces, if the range has one. */
  function FreePort(taken: set<int>, from: int, last: int): Option<int>
    decreases last - from
  {
    if from > last then None else if from !in taken then Some(from) else FreePort(taken, from + 1, last)
  }

  function WantedPort(db: Db, preferred: Option<int>): Option<int> {
    if preferred.Some? && preferred.value != 0 then (if preferred.value in PortsInUse(db) then None else preferred)
    else FreePort(PortsOn(db, ANY_IP), FIRST_PORT, LAST_PORT)
  }

  function CreateOutcome(db: Db, id: Id, preferred: Option<int>, a: Id): Outcome {
    if id in db.servers then UniqueFailed
    else match WantedPort(db, preferred)
      case None => if preferred.Some? && preferred.value != 0 then PortTaken else NoFreePort
      case Some(port) =>
        if !ValidPort(port) then CheckFailed
        else if Insert(db, a, Allocation(Some(id), ANY_IP, port, false)).None? then UniqueFailed
        else Done(port)
  }

  function Created(db: Db, id: Id, a: Id, port: int): Db {
    Db(db.servers[id := false], db.allocs[a := Allocation(Some(id), ANY_IP, port, false)])
  }

  /** The table after a create that one of the allocation ids made possible. */
  predicate IsCreated(db: Db, id: Id, preferred: Option<int>, ids: seq<Id>, r: Outcome, db': Db) {
    exists k | 0 <= k < |ids| :: CreateOutcome(db, id, preferred, ids[k]) == r && r.Done?
        && db' == Created(db, id, ids[k], r.port)
  }

  function AssignOutcome(db: Db, server: Id, ip: string, port: int, a: Id): Outcome {
    if !IsServer(db, server) then NotFound
    else if !ValidPort(port) then BadPort
    else if Clashes(db, server, ip, port) then PortTaken
    else if Insert(Free(db, server), a, Allocation(Some(server), ip, port, false)).None? then UniqueFailed
    else Done(port)
  }

  function Assigned(db: Db, server: Id, ip: string, port: int, a: Id): Db {
    var freed := Free(db, server);
    freed.(allocs := freed.allocs[a := Allocation(Some(server), ip, port, false)])
  }

  function ReleaseOutcome(db: Db, server: Id, a: Id): Outcome {
    if !IsServer(db, server) || a !in Held(db, server) then NotFound
    else if |Held(db, server)| <= 1 then LastOne
    else Done(db.allocs[a].port)
  }

  function Released(db: Db, a: Id): Db {
    if a in db.allocs then db.(allocs := db.allocs[a := db.allocs[a].(server := None, released := true)]) else db
  }

  function Deleted(db: Db, server: Id): Db {
    var freed := Free(db, server);
    if server in db.servers then freed.(servers := db.servers[server := true]) else freed
  }

  // ----- every reachable table -----

  datatype Event =
    | Create(id: Id, preferred: Option<int>, a: Id)
    | Assign(server: Id, ip: string, port: int, a: Id)
    | Release(server: Id, a: Id)
    | Remove(server: Id)

  function Step(db: Db, ev: Event): Db {
    match ev
    case Create(id, preferred, a) =>
      var r := CreateOutcome(db, id, preferred, a);
      if r.Done? then Created(db, id, a, r.port) else db
    case Assign(server, ip, port, a) =>
      if AssignOutcome(db, server, ip, port, a).Done? then Assigned(db, server, ip, port, a) else db
    case Release(server, a) => if ReleaseOutcome(db, server, a).Done? then Released(db, a) else db
    case Remove(server) => Deleted(db, server)
  }

  function After(evs: seq<Event>): Db {
    if evs == [] then Db(map[], map[]) else Step(After(Init(evs)), Last(evs))
  }

  ghost predicate Valid(db: Db) {
    && (forall server | IsServer(db, server) :: exists a :: Held(db, server) == {a})
    && (forall a | InUse(db, a) ::
          db.allocs[a].server.Some? && IsServer(db, db.allocs[a].server.value) && ValidPort(db.allocs[a].port))
    && (forall a, b | InUse(db, a) && InUse(db, b) && a != b ::
          db.allocs[a].ip != db.allocs[b].ip || db.allocs[a].port != db.allocs[b].port)
  }

  /** Freeing a server's allocations leaves it none, and every other server its own. */
  lemma FreeHolds(db: Db, server: Id, other: Id)
    ensures Held(Free(db, server), other) == if other == server then {} else Held(db, other)
  {
    var freed := Free(db, server);
    assert forall a | a in db.allocs :: InUse(freed, a) <==> InUse(db, a) && db.allocs[a].server != Some(server);
  }

  lemma InsertHolds(db: Db, a: Id, row: Allocation, other: Id)
    requires a !in db.allocs && !row.released
    ensures Held(db.(allocs := db.allocs[a := row]), other)
         == if row.server == Some(other) then Held(db, other) + {a} else Held(db, other)
  {
    var more := db.(allocs := db.allocs[a := row]);
    assert forall b | b in db.allocs :: InUse(more, b) == InUse(db, b) && more.allocs[b] == db.allocs[b];
  }

  lemma CreateIsValid(db: Db, id: Id, a: Id, port: int)
    requires Valid(db) && id !in db.servers && ValidPort(port)
    requires Insert(db, a, Allocation(Some(id), ANY_IP, port, false)).Some?
    ensures Valid(Created(db, id, a, port))
  {
    var row := Allocation(Some(id), ANY_IP, port, false);
    var db' := Created(db, id, a, port);
    var more := db.(allocs := db.allocs[a := row]);
    forall server | IsServer(db', server) ensures exists b :: Held(db', server) == {b} {
      InsertHolds(db, a, row, server);
      assert Held(db', server) == Held(more, server);
      if server == id {
        assert Held(db, id) == {} by {
          assert forall b | InUse(db, b) :: db.allocs[b].server != Some(id);
        }
        assert Held(db', server) == {a};
      } else {
        assert IsServer(db, server);
      }
    }
    assert forall b | InUse(db', b) && b != a :: InUse(db, b) && db'.allocs[b] == db.allocs[b];
  }

  lemma AssignIsValid(db: Db, server: Id, ip: string, port: int, a: Id)
    requires Valid(db) && AssignOutcome(db, server, ip, port, a).Done?
    ensures Valid(Assigned(db, server, ip, port, a))
  {
    var row := Allocation(Some(server), ip, port, false);
    var freed, db' := Free(db, server), Assigned(db, server, ip, port, a);
    forall other | IsServer(db', other) ensures exists b :: Held(db', other) == {b} {
      FreeHolds(db, server, other);
      InsertHolds(freed, a, row, other);
      if other == server {
        assert Held(db', other) == {a};
      } else {
        assert IsServer(db, other);
      }
    }
    assert forall b | InUse(db', b) && b != a :: InUse(freed, b) && InUse(db, b) && db'.allocs[b] == db.allocs[b];
  }

  lemma RemoveIsValid(db: Db, server: Id)
    requires Valid(db)
    ensures Valid(Deleted(db, server)) && Held(Deleted(db, server), server) == {}
  {
    var freed, db' := Free(db, server), Deleted(db, server);
    forall other ensures Held(db', other) == if other == server then {} else Held(db, other) {
      FreeHolds(db, server, other);
      assert Held(db', other) == Held(freed, other);
    }
    assert forall b | InUse(db', b) ::
        InUse(db, b) && db'.allocs[b] == db.allocs[b] && db.allocs[b].server != Some(server);
    forall other | IsServer(db', other) ensures exists b :: Held(db', other) == {b} {
      assert IsServer(db, other);
    }
  }

  /** The release handler insists on a second allocation, which no server ever has. */
  lemma ReleaseIsRefused(db: Db, server: Id, a: Id)
    requires Valid(db)
    ensures ReleaseOutcome(db, server, a) == if IsServer(db, server) && a in Held(db, server) then LastOne else NotFound
  {
    if IsServer(db, server) {
      var b :| Held(db, server) == {b};
      assert |{b}| == 1;
    }
  }

  lemma StepIsValid(db: Db, ev: Event)
    requires Valid(db)
    ensures Valid(Step(db, ev))
  {
    match ev
    case Create(id, preferred, a) =>
      var r := CreateOutcome(db, id, preferred, a);
      if r.Done? {
        CreateIsValid(db, id, a, r.port);
      }
    case Assign(server, ip, port, a) =>
      if AssignOutcome(db, server, ip, port, a).Done? {
        AssignIsValid(db, server, ip, port, a);
      }
    case Release(server, a) => ReleaseIsRefused(db, server, a);
    case Remove(server) => RemoveIsValid(db, server);
  }

  /**
   * In every reachable state each server that is not deleted has exactly one
   * unreleased allocation, a deleted one has none, and no two unreleased
   * allocations share an address.
   */
  lemma {:induction false} ReachableIsValid(evs: seq<Event>)
    ensures Valid(After(evs))
    ensures forall server | !IsServer(After(evs), server) :: Held(After(evs), server) == {}
  {
    if evs != [] {
      ReachableIsValid(Init(evs));
      StepIsValid(After(Init(evs)), Last(evs));
    }
    forall server | !IsServer(After(evs), server) ensures Held(After(evs), server) == {} {
      assert forall a | InUse(After(evs), a) :: After(evs).allocs[a].server != Some(server);
    }
  }

  /** Releasing a port never succeeds. */
  lemma {:induction false} ReleaseNeverSucceeds(evs: seq<Event>, server: Id, a: Id)
    ensures !ReleaseOutcome(After(evs), server, a).Done?
  {
    ReachableIsValid(evs);
    ReleaseIsRefused(After(evs), server, a);
  }

  /** The address index never rejects what was checked before: a uniqueness failure is a repeated identifier. */
  lemma UniqueFailsIff(db: Db, id: Id, preferred: Option<int>, a: Id)
    requires WantedPort(db, preferred).Some? && ValidPort(WantedPort(db, preferred).value)
    ensures CreateOutcome(db, id, preferred, a) == UniqueFailed <==> id in db.servers || a in db.allocs
  {
    var taken, port := PortsOn(db, ANY_IP), WantedPort(db, preferred).value;
    if !(preferred.Some? && preferred.value != 0) {
      FreePortIsLeast(taken, FIRST_PORT, LAST_PORT);
    }
    forall b | b in db.allocs && InUse(db, b) && db.allocs[b].ip == ANY_IP ensures db.allocs[b].port != port {
      assert db.allocs[b].port in taken && db.allocs[b].port in PortsInUse(db);
    }
  }

  lemma {:induction false} FreePortIsLeast(taken: set<int>, from: int, last: int)
    ensures FreePort(taken, from, last).Some? ==> IsLeastFree(taken, from, last, FreePort(taken, from, last).value)
    ensures FreePort(taken, from, last).None? ==> forall p | from <= p <= last :: p in taken
    decreases last - from
  {
    if from <= last && from in taken {
      FreePortIsLeast(taken, from + 1, last);
    }
  }

  /**
   * A create takes the preferred port if no server uses it; without one, the least
   * port not taken on all interfaces.
   */
  lemma CreatedPort(db: Db, id: Id, preferred: Option<int>, a: Id)
    requires CreateOutcome(db, id, preferred, a).Done?
    ensures var port := CreateOutcome(db, id, preferred, a).port;
            if preferred.Some? && preferred.value != 0 then port == preferred.value && port !in PortsInUse(db)
            else IsLeastFree(PortsOn(db, ANY_IP), FIRST_PORT, LAST_PORT, port)
  {
    FreePortIsLeast(PortsOn(db, ANY_IP), FIRST_PORT, LAST_PORT);
  }

  /** Nothing changes for a server: whether it exists, what it holds, and at which addresses. */
  ghost predicate Untouched(db: Db, db': Db, server: Id) {
    && IsServer(db', server) == IsServer(db, server)
    && Held(db', server) == Held(db, server)
    && forall a | a in Held(db, server) :: a in db'.allocs && db'.allocs[a] == db.allocs[a]
  }

  /** A successful swap leaves exactly the new address; a refused one leaves the old. */
  lemma SwapIsAtomic(db: Db, server: Id, ip: string, port: int, a: Id)
    requires Valid(db) && IsServer(db, server)
    ensures var db' := Step(db, Event.Assign(server, ip, port, a));
            || db' == db
            || (Held(db', server) == {a} && db'.allocs[a] == Allocation(Some(server), ip, port, false)
                && forall other | other != server :: Untouched(db, db', other))
    ensures Step(db, Event.Assign(server, ip, port, a)) != db <==>
      ValidPort(port) && !Clashes(db, server, ip, port) && a !in db.allocs
  {
    var row := Allocation(Some(server), ip, port, false);
    var freed := Free(db, server);
    if ValidPort(port) && !Clashes(db, server, ip, port) && a !in db.allocs {
      forall b | b in freed.allocs && InUse(freed, b)
        ensures !(freed.allocs[b].ip == ip && freed.allocs[b].port == port)
      {
        assert freed.allocs[b] == db.allocs[b] && db.allocs[b].server != Some(server);
      }
      assert AssignOutcome(db, server, ip, port, a) == Done(port);
      forall other
        ensures Held(Assigned(db, server, ip, port, a), other) == if other == server then {a} else Held(db, other)
      {
        FreeHolds(db, server, other);
        InsertHolds(freed, a, row, other);
      }
      assert a in Assigned(db, server, ip, port, a).allocs;
    }
  }

  /** A create gives the new server one allocation and leaves every other server alone; a failed one changes nothing. */
  lemma CreateIsWhole(db: Db, id: Id, preferred: Option<int>, a: Id)
    requires Valid(db)
    ensures var r, db' := CreateOutcome(db, id, preferred, a), Step(db, Event.Create(id, preferred, a));
            && (!r.Done? ==> db' == db)
            && (r.Done? ==>
                  && !IsServer(db, id) && IsServer(db', id) && Held(db', id) == {a}
                  && db'.allocs[a] == Allocation(Some(id), ANY_IP, r.port, false)
                  && forall other | other != id :: Untouched(db, db', other))
  {
    var r := CreateOutcome(db, id, preferred, a);
    if r.Done? {
      var row := Allocation(Some(id), ANY_IP, r.port, false);
      var more := db.(allocs := db.allocs[a := row]);
      var db' := Created(db, id, a, r.port);
      assert Held(db, id) == {} by {
        assert forall b | InUse(db, b) :: db.allocs[b].server != Some(id);
      }
      forall other ensures Held(db', other) == if other == id then {a} else Held(db, other) {
        InsertHolds(db, a, row, other);
        assert Held(db', other) == Held(more, other);
      }
    }
  }

  /** A removal takes the server and what it held, and leaves every other server alone. */
  lemma RemoveIsWhole(db: Db, server: Id)
    ensures var db' := Step(db, Event.Remove(server));
            && !IsServer(db', server) && Held(db', server) == {}
            && db'.servers.Keys == db.servers.Keys
            && forall other | other != server :: Untouched(db, db', other)
  {
    var freed, db' := Free(db, server), Deleted(db, server);
    forall other ensures Held(db', other) == if other == server then {} else Held(db, other) {
      FreeHolds(db, server, other);
      assert Held(db', other) == Held(freed, other);
    }
  }

  // ----- what each request is answered -----

  predicate Prefers(preferred: Option<int>) {
    preferred.Some? && preferred.value != 0
  }

  /** The range holds no port that is free on all interfaces. */
  predicate RangeIsFull(db: Db) {
    forall p | FIRST_PORT <= p <= LAST_PORT :: p in PortsOn(db, ANY_IP)
  }

  lemma {:induction false} WantedPortIs(db: Db, preferred: Option<int>)
    ensures Prefers(preferred) ==>
              WantedPort(db, preferred) == if preferred.value in PortsInUse(db) then None else preferred
    ensures !Prefers(preferred) ==> (WantedPort(db, preferred).None? <==> RangeIsFull(db))
    ensures !Prefers(preferred) && WantedPort(db, preferred).Some? ==>
              FIRST_PORT <= WantedPort(db, preferred).value <= LAST_PORT
  {
    if !Prefers(preferred) {
      FreePortIsLeast(PortsOn(db, ANY_IP), FIRST_PORT, LAST_PORT);
    }
  }

  /** Each answer of a create, and exactly when it is given. */
  lemma {:induction false} CreateOutcomeIff(db: Db, id: Id, preferred: Option<int>, a: Id)
    ensures var r, unused := CreateOutcome(db, id, preferred, a), id !in db.servers;
            var taken := Prefers(preferred) && preferred.value in PortsInUse(db);
            var bad := Prefers(preferred) && !(1024 <= preferred.value <= 65535);
            && (r == PortTaken <==> unused && taken)
            && (r == NoFreePort <==> unused && !Prefers(preferred) && RangeIsFull(db))
            && (r == CheckFailed <==> unused && !taken && bad)
            && (r.Done? <==> unused && !taken && !bad && a !in db.allocs && (Prefers(preferred) || !RangeIsFull(db)))
            && (r.Done? || r == PortTaken || r == NoFreePort || r == CheckFailed || r == UniqueFailed)
  {
    WantedPortIs(db, preferred);
    if id !in db.servers && WantedPort(db, preferred).Some? && ValidPort(WantedPort(db, preferred).value) {
      UniqueFailsIff(db, id, preferred, a);
    }
  }

  /** Likewise for an assignment. */
  lemma {:induction false} AssignOutcomeIff(db: Db, server: Id, ip: string, port: int, a: Id)
    requires Valid(db)
    ensures var r := AssignOutcome(db, server, ip, port, a);
            && (r == NotFound <==> !IsServer(db, server))
            && (r == BadPort <==> IsServer(db, server) && !(1024 <= port <= 65535))
            && (r == PortTaken <==> IsServer(db, server) && ValidPort(port) && Clashes(db, server, ip, port))
            && (r == UniqueFailed <==>
                  IsServer(db, server) && ValidPort(port) && !Clashes(db, server, ip, port) && a in db.allocs)
            && (r.Done? ==> r == Done(port))
            && (r.Done? <==>
                  IsServer(db, server) && ValidPort(port) && !Clashes(db, server, ip, port) && a !in db.allocs)
  {
    var freed := Free(db, server);
    if IsServer(db, server) && ValidPort(port) && !Clashes(db, server, ip, port) {
      forall b | b in freed.allocs && InUse(freed, b)
        ensures !(freed.allocs[b].ip == ip && freed.allocs[b].port == port)
      {
        assert freed.allocs[b] == db.allocs[b] && db.allocs[b].server != Some(server);
      }
    }
  }

  // ----- addresses on all interfaces -----

  /** The same address, or one of them stands for all. */
  predicate Meet(ip: string, other: string) {
    ip == other || ip == ANY_IP || other == ANY_IP
  }

  predicate Overlap(x: Allocation, y: Allocation) {
    x.port == y.port && Meet(x.ip, y.ip)
  }

  /** No two servers could receive each other's packets. */
  ghost predicate NoOverlap(db: Db) {
    forall a, b | InUse(db, a) && InUse(db, b) && a != b :: !Overlap(db.allocs[a], db.allocs[b])
  }

  /** A create that takes the least port free on all interfaces although a server holds it on one. */
  predicate TakesHeldPort(db: Db, ev: Event) {
    && ev.Create? && CreateOutcome(db, ev.id, ev.preferred, ev.a).Done?
    && CreateOutcome(db, ev.id, ev.preferred, ev.a).port in PortsInUse(db)
  }

  /** An assignment is refused for exactly the ports another server holds at a meeting address. */
  lemma ClashesIff(db: Db, server: Id, ip: string, port: int)
    ensures Clashes(db, server, ip, port) <==>
              exists b :: InUse(db, b) && db.allocs[b].server != Some(server)
                && Overlap(db.allocs[b], Allocation(Some(server), ip, port, false))
  {
    if Clashes(db, server, ip, port) {
      var b :| b in db.allocs && InUse(db, b) && db.allocs[b].port == port && db.allocs[b].server != Some(server)
        && (ip == ANY_IP || db.allocs[b].ip == ip || db.allocs[b].ip == ANY_IP);
      assert Overlap(db.allocs[b], Allocation(Some(server), ip, port, false));
    }
  }

  /** One more row stays apart if and only if it overlaps with none. */
  lemma RowIsApartIff(db: Db, db': Db, a: Id, row: Allocation)
    requires NoOverlap(db) && a !in db.allocs && !row.released && db'.allocs == db.allocs[a := row]
    ensures NoOverlap(db') <==> forall b | InUse(db, b) :: !Overlap(db.allocs[b], row)
  {
    assert forall b | InUse(db', b) && b != a :: InUse(db, b) && db'.allocs[b] == db.allocs[b];
    if NoOverlap(db') {
      forall b | InUse(db, b) ensures !Overlap(db.allocs[b], row) {
        assert InUse(db', b) && InUse(db', a) && b != a && db'.allocs[b] == db.allocs[b];
      }
    }
  }

  lemma AssignKeepsApart(db: Db, server: Id, ip: string, port: int, a: Id)
    requires NoOverlap(db) && AssignOutcome(db, server, ip, port, a).Done?
    ensures NoOverlap(Assigned(db, server, ip, port, a))
  {
    var freed, row := Free(db, server), Allocation(Some(server), ip, port, false);
    ClashesIff(db, server, ip, port);
    forall b | InUse(freed, b)
      ensures InUse(db, b) && freed.allocs[b] == db.allocs[b] && !Overlap(freed.allocs[b], row)
    {
      assert db.allocs[b].server != Some(server);
    }
    RowIsApartIff(freed, Assigned(db, server, ip, port, a), a, row);
  }

  lemma HeldPortIff(db: Db, port: int)
    ensures port in PortsInUse(db) <==>
              exists b :: InUse(db, b) && Overlap(db.allocs[b], Allocation(None, ANY_IP, port, false))
  {
    if port in PortsInUse(db) {
      var b :| b in db.allocs && InUse(db, b) && db.allocs[b].port == port;
      assert Overlap(db.allocs[b], Allocation(None, ANY_IP, port, false));
    }
  }

  lemma CreateKeepsApartIff(db: Db, ev: Event)
    requires NoOverlap(db) && ev.Create? && CreateOutcome(db, ev.id, ev.preferred, ev.a).Done?
    ensures NoOverlap(Step(db, ev)) <==> !TakesHeldPort(db, ev)
  {
    var port := CreateOutcome(db, ev.id, ev.preferred, ev.a).port;
    var row := Allocation(Some(ev.id), ANY_IP, port, false);
    HeldPortIff(db, port);
    assert forall b | InUse(db, b) ::
        Overlap(db.allocs[b], row) == Overlap(db.allocs[b], Allocation(None, ANY_IP, port, false));
    RowIsApartIff(db, Created(db, ev.id, ev.a, port), ev.a, row);
  }

  /**
   * Every step keeps the addresses in use apart, an address on all interfaces counting
   * as all of them, except exactly a create that scans for a free port and finds one a
   * server holds on a single interface: the scan looks at its own address only.
   */
  lemma StepKeepsApartIff(db: Db, ev: Event)
    requires Valid(db) && NoOverlap(db)
    ensures NoOverlap(Step(db, ev)) <==> !TakesHeldPort(db, ev)
  {
    match ev
    case Create(id, preferred, a) =>
      if CreateOutcome(db, id, preferred, a).Done? {
        CreateKeepsApartIff(db, ev);
      }
    case Assign(server, ip, port, a) =>
      if AssignOutcome(db, server, ip, port, a).Done? {
        AssignKeepsApart(db, server, ip, port, a);
      }
    case Release(server, a) => ReleaseIsRefused(db, server, a);
    case Remove(server) =>
      assert forall b | InUse(Deleted(db, server), b) ::
          InUse(db, b) && Deleted(db, server).allocs[b] == db.allocs[b];
  }

  /** A preferred port is never such a port. */
  lemma PreferredIsApart(db: Db, ev: Event)
    requires ev.Create? && ev.preferred.Some? && ev.preferred.value != 0
    ensures !TakesHeldPort(db, ev)
  {
  }
}

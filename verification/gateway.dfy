/// The console gateway's subscriptions: which socket listens to which server's engine slot.
///
/// A listener stands for the callbacks one join registers with the engine.
module Gateway {
  import opened Prelude

  type SocketId = string
  type ServerId = string

  datatype Key = Key(socket: SocketId, server: ServerId)

  datatype Client = Client(user: string, apiKey: Option<string>, servers: set<ServerId>)

  type Listeners = map<nat, Key>

  /** The listeners that are not for these subscriptions. */
  function Without(listeners: Listeners, gone: set<Key>): Listeners {
    map l | l in listeners && listeners[l] !in gone :: listeners[l]
  }

  lemma WithoutMore(listeners: Listeners, gone: set<Key>, k: Key)
    ensures Without(Without(listeners, gone), {k}) == Without(listeners, gone + {k})
  {
  }

  /** What an emission on a server sends to a socket: one message for each listener. */
  function ListenersOf(listeners: Listeners, k: Key): set<nat> {
    set l | l in listeners && listeners[l] == k
  }

  datatype State = State(live: map<SocketId, Client>, unsubs: map<Key, nat>, listeners: Listeners, next: nat)

  /** Every listener is known to the socket it serves, under its server, and the other way round. */
  ghost predicate Valid(g: State) {
    && (forall k | k in g.unsubs :: k.socket in g.live && k.server in g.live[k.socket].servers)
    && (forall s, v | s in g.live && v in g.live[s].servers :: Key(s, v) in g.unsubs)
    && (forall k | k in g.unsubs :: g.unsubs[k] in g.listeners && g.listeners[g.unsubs[k]] == k)
    && (forall l | l in g.listeners :: l < g.next && g.listeners[l] in g.unsubs && g.unsubs[g.listeners[l]] == l)
  }

  function Parted(c: Client, server: ServerId): Client {
    c.(servers := c.servers - {server})
  }

  function Unsubscribed(g: State, k: Key): State {
    g.(listeners := if k in g.unsubs then g.listeners - {g.unsubs[k]} else g.listeners,
       unsubs := g.unsubs - {k},
       live := if k.socket in g.live then g.live[k.socket := Parted(g.live[k.socket], k.server)] else g.live)
  }

  function Subscribed(g: State, k: Key): State
    requires k.socket in g.live
  {
    State(g.live[k.socket := g.live[k.socket].(servers := g.live[k.socket].servers + {k.server})],
          g.unsubs[k := g.next], g.listeners[g.next := k], g.next + 1)
  }

  lemma ItsOnlyListener(g: State, k: Key)
    requires Valid(g)
    ensures Without(g.listeners, {k}) == if k in g.unsubs then g.listeners - {g.unsubs[k]} else g.listeners
  {
    forall l | l in g.listeners ensures g.listeners[l] == k <==> k in g.unsubs && l == g.unsubs[k] {
    }
  }

  lemma UnsubscribedIsValid(g: State, k: Key)
    requires Valid(g)
    ensures Valid(Unsubscribed(g, k)) && Unsubscribed(g, k).listeners == Without(g.listeners, {k})
  {
    ItsOnlyListener(g, k);
    var h := Unsubscribed(g, k);
    forall l | l in h.listeners ensures l in g.listeners && h.listeners[l] == g.listeners[l] && g.listeners[l] != k {
    }
  }

  lemma SubscribedIsValid(g: State, k: Key)
    requires Valid(g) && k.socket in g.live && k !in g.unsubs
    ensures Valid(Subscribed(g, k))
  {
  }

  /** An emission reaches a socket once if it is subscribed, and otherwise not at all. */
  lemma EmissionReachesOnce(g: State, k: Key)
    requires Valid(g)
    ensures ListenersOf(g.listeners, k)
         == if k.socket in g.live && k.server in g.live[k.socket].servers then {g.unsubs[k]} else {}
  {
    if k.socket in g.live && k.server in g.live[k.socket].servers {
      assert g.unsubs[k] in g.listeners;
    } else {
      assert k !in g.unsubs;
    }
  }

  /** The users and subscriptions of two states are the same but for these subscriptions. */
  ghost predicate Ended(before: State, after: State, gone: set<Key>) {
    && after.listeners == Without(before.listeners, gone)
    && after.live.Keys == before.live.Keys
    && (forall s | s in before.live ::
          after.live[s].user == before.live[s].user && after.live[s].apiKey == before.live[s].apiKey)
    && after.next == before.next
  }

  lemma EndOneMore(before: State, g: State, gone: set<Key>, k: Key)
    requires Valid(g) && Ended(before, g, gone)
    ensures Ended(before, Unsubscribed(g, k), gone + {k}) && Valid(Unsubscribed(g, k))
  {
    UnsubscribedIsValid(g, k);
    WithoutMore(before.listeners, gone, k);
  }

  /** `dropGrants` names a server, a user, both or neither. */
  predicate Names(filter: Option<string>, name: string) {
    filter.Some? ==> filter.value == name
  }

  /** The subscriptions a revocation is about. */
  function Revoked(g: State, server: Option<ServerId>, user: Option<string>): set<Key> {
    set k | k in g.unsubs && k.socket in g.live && Names(user, g.live[k.socket].user) && Names(server, k.server)
  }

  /** A revocation names exactly the subscriptions whose user and server it names, or does not restrict. */
  lemma RevokedIff(g: State, server: Option<ServerId>, user: Option<string>, k: Key)
    requires Valid(g) && k in g.unsubs
    ensures k in Revoked(g, server, user) <==>
              (server.None? || server == Some(k.server)) && (user.None? || user == Some(g.live[k.socket].user))
  {
  }

  /** Afterwards an emission reaches none of these sockets, and every other as before. */
  lemma RevokedHearNothing(g: State, after: State, server: Option<ServerId>, user: Option<string>, k: Key)
    requires Valid(g) && Ended(g, after, Revoked(g, server, user))
    ensures ListenersOf(after.listeners, k)
         == if k in Revoked(g, server, user) then {} else ListenersOf(g.listeners, k)
  {
    var now, before := ListenersOf(after.listeners, k), ListenersOf(g.listeners, k);
    if k !in Revoked(g, server, user) {
      assert forall l :: l in now <==> l in before;
    }
  }

  class ConsoleGateway {
    var live: map<SocketId, Client>
    var unsubs: map<Key, nat>
    var listeners: Listeners
    var nextListener: nat

    ghost function Contents(): State
      reads this
    {
      State(live, unsubs, listeners, nextListener)
    }

    constructor ()
      ensures Valid(Contents()) && Contents() == State(map[], map[], map[], 0)
    {
      live, unsubs, listeners, nextListener := map[], map[], map[], 0;
    }

    method Connect(socket: SocketId, user: string, apiKey: Option<string>)
      requires Valid(Contents()) && socket !in live
      modifies this
      ensures Valid(Contents()) && listeners == old(listeners)
      ensures live == old(live)[socket := Client(user, apiKey, {})]
    {
      live := live[socket := Client(user, apiKey, {})];
    }

    method Unsubscribe(socket: SocketId, server: ServerId)
      requires Valid(Contents())
      modifies this
      ensures Contents() == Unsubscribed(old(Contents()), Key(socket, server))
    {
      var k := Key(socket, server);
      if k in unsubs {
        listeners := listeners - {unsubs[k]};
      }
      unsubs := unsubs - {k};
      if socket in live {
        live := live[socket := live[socket].(servers := live[socket].servers - {server})];
      }
    }

    /** An allowed join gives up an earlier subscription of the same socket first. */
    method Join(socket: SocketId, server: ServerId, allowed: bool) returns (ok: bool)
      requires Valid(Contents()) && socket in live
      modifies this
      ensures Valid(Contents()) && ok == allowed && live.Keys == old(live).Keys
      ensures !allowed ==> Contents() == old(Contents())
      ensures allowed ==>
                listeners == Without(old(listeners), {Key(socket, server)})[old(nextListener) := Key(socket, server)]
    {
      if !allowed {
        return false;
      }
      UnsubscribedIsValid(Contents(), Key(socket, server));
      Unsubscribe(socket, server);
      SubscribedIsValid(Contents(), Key(socket, server));
      listeners := listeners[nextListener := Key(socket, server)];
      unsubs := unsubs[Key(socket, server) := nextListener];
      live := live[socket := live[socket].(servers := live[socket].servers + {server})];
      nextListener := nextListener + 1;
      return true;
    }

    /** Ends these subscriptions, one after the other. */
    method UnsubscribeAll(targets: set<Key>)
      requires Valid(Contents())
      modifies this
      ensures Valid(Contents()) && Ended(old(Contents()), Contents(), targets)
      ensures forall k | k in targets :: k !in unsubs
    {
      var rest := targets;
      ghost var gone: set<Key> := {};
      assert Without(listeners, gone) == listeners;
      while rest != {}
        invariant Valid(Contents()) && gone + rest == targets
        invariant Ended(old(Contents()), Contents(), gone)
        invariant forall k | k in gone :: k !in unsubs
      {
        var k :| k in rest;
        EndOneMore(old(Contents()), Contents(), gone, k);
        Unsubscribe(k.socket, k.server);
        rest := rest - {k};
        gone := gone + {k};
      }
      assert gone == targets;
    }

    /** The socket is gone: all its listeners go with it. */
    method Disconnect(socket: SocketId)
      requires Valid(Contents())
      modifies this
      ensures Valid(Contents()) && socket !in live && live.Keys == old(live).Keys - {socket}
      ensures forall l | l in listeners :: listeners[l].socket != socket
      ensures forall l | l in old(listeners) && old(listeners)[l].socket != socket ::
          l in listeners && listeners[l] == old(listeners)[l]
    {
      UnsubscribeAll(set k | k in unsubs && k.socket == socket);
      live := live - {socket};
    }

    /** Revocation: the subscriptions of the named user to the named server end, and no others. */
    method DropGrants(server: Option<ServerId>, user: Option<string>)
      requires Valid(Contents())
      modifies this
      ensures Valid(Contents()) && Ended(old(Contents()), Contents(), Revoked(old(Contents()), server, user))
    {
      var targets := set k | k in unsubs && k.socket in live && Names(user, live[k.socket].user)
          && Names(server, k.server);
      UnsubscribeAll(targets);
    }
  }

  /** A second join replaces the listener, so it does not double the lines. */
  lemma JoinLeavesOne(listeners: Listeners, k: Key, added: nat)
    requires added !in listeners
    ensures var after := Without(listeners, {k})[added := k];
            ListenersOf(after, k) == {added} && forall other | other != k ::
                ListenersOf(after, other) == ListenersOf(listeners, other)
  {
    var after := Without(listeners, {k})[added := k];
    forall other | other != k ensures ListenersOf(after, other) == ListenersOf(listeners, other) {
      assert forall l :: l in ListenersOf(after, other) <==> l in ListenersOf(listeners, other);
    }
  }
}

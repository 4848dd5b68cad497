/** The hub and its clients as objects, each call run alone; `HubProtocol` interleaves them. */
module RealtimeHub {
  import opened Common
  import opened HubProtocol

  type Message = nat

  datatype Snapshot = Snapshot(activeConnections: nat, connectionsAccepted: nat, connectionsClosed: nat,
                               messagesPublished: nat, messagesDropped: nat, backpressureCloses: nat)

  class Client {
    const scope: Scope
    const capacity: nat
    var send: seq<Message>
    var closed: bool
    var once: bool

    constructor (scope: Scope, buffer: int)
      ensures this.scope == scope && capacity == (if buffer <= 0 then DEFAULT_BUFFER else buffer)
      ensures send == [] && !closed && !once
    {
      this.scope := scope;
      capacity := if buffer <= 0 then DEFAULT_BUFFER else buffer;
      send, closed, once := [], false, false;
    }

    predicate HasRoom()
      reads this
    {
      !closed && |send| < capacity
    }

    method TrySend(message: Message) returns (sent: bool)
      modifies `send
      ensures sent == old(HasRoom())
      ensures send == if sent then old(send) + [message] else old(send)
    {
      if closed { return false; }
      if |send| >= capacity { return false; }
      send := send + [message];
      return true;
    }

    method Close()
      modifies `closed
      ensures closed
    {
      if closed { return; }
      closed := true;
    }
  }

  function Scoped(clients: map<Scope, set<Client>>, scope: Scope): set<Client> {
    if scope in clients then clients[scope] else {}
  }

  /** The map lists exactly `members`, each under its scope, and no scope is empty. */
  ghost predicate Filed(clients: map<Scope, set<Client>>, members: set<Client>) {
    && (forall s :: s in clients ==> clients[s] != {})
    && (forall s, c | s in clients && c in clients[s] :: c in members && c.scope == s)
    && (forall c | c in members :: c in Scoped(clients, c.scope))
  }

  function With(clients: map<Scope, set<Client>>, client: Client): map<Scope, set<Client>> {
    clients[client.scope := Scoped(clients, client.scope) + {client}]
  }

  function Without(clients: map<Scope, set<Client>>, client: Client): map<Scope, set<Client>> {
    var rest := Scoped(clients, client.scope) - {client};
    if rest == {} then clients - {client.scope} else clients[client.scope := rest]
  }

  lemma FiledWith(clients: map<Scope, set<Client>>, members: set<Client>, client: Client)
    requires Filed(clients, members)
    ensures Filed(With(clients, client), members + {client})
  {
  }

  lemma FiledWithout(clients: map<Scope, set<Client>>, members: set<Client>, client: Client)
    requires Filed(clients, members) && client in members
    ensures Filed(Without(clients, client), members - {client})
  {
  }

  /** Taking clients of one scope from the members takes them from that scope's entry and leaves the other entries alone. */
  lemma FiledLess(clients: map<Scope, set<Client>>, members: set<Client>, after: map<Scope, set<Client>>, scope: Scope, gone: set<Client>)
    requires Filed(clients, members) && Filed(after, members - gone) && gone <= Scoped(clients, scope)
    ensures forall s :: Scoped(after, s) == Scoped(clients, s) - (if s == scope then gone else {})
  {
    forall s ensures Scoped(after, s) == Scoped(clients, s) - (if s == scope then gone else {}) {
      assert forall c :: c in Scoped(clients, s) <==> c in members && c.scope == s;
      assert forall c :: c in Scoped(after, s) <==> c in members - gone && c.scope == s;
    }
  }

  class Hub {
    var clients: map<Scope, set<Client>>
    var accepted: nat
    var closed: nat
    var published: nat
    var dropped: nat
    var backpressure: nat

    /** The clients that the map lists, whatever their scope. */
    ghost var members: set<Client>

    /** Registered clients are open and filed under their scope, and accepted minus closed counts them. */
    ghost predicate Valid()
      reads this, members
    {
      && Filed(clients, members)
      && (forall c :: c in members ==> !c.closed && !c.once)
      && accepted == closed + |members|
    }

    constructor ()
      ensures Valid() && members == {}
    {
      clients := map[];
      accepted, closed, published, dropped, backpressure := 0, 0, 0, 0, 0;
      members := {};
    }

    /** Both under the hub's lock. */
    method Register(client: Client)
      requires Filed(clients, members)
      modifies `clients, `members
      ensures Filed(clients, members) && members == old(members) + {client}
      ensures clients == With(old(clients), client)
    {
      FiledWith(clients, members, client);
      clients := clients[client.scope := Scoped(clients, client.scope) + {client}];
      members := members + {client};
    }

    method Deregister(client: Client)
      requires Filed(clients, members) && client in members
      modifies `clients, `members
      ensures Filed(clients, members) && members == old(members) - {client}
      ensures clients == Without(old(clients), client)
    {
      FiledWithout(clients, members, client);
      if client.scope in clients {
        var scoped := clients[client.scope] - {client};
        clients := if scoped == {} then clients - {client.scope} else clients[client.scope := scoped];
      }
      members := members - {client};
    }

    method Subscribe(scope: Scope, buffer: int) returns (client: Client)
      requires Valid()
      modifies this
      ensures Valid() && fresh(client)
      ensures members == old(members) + {client} && clients == With(old(clients), client)
      ensures client.scope == scope && client.send == [] && client.capacity > 0 && accepted == old(accepted) + 1
      ensures published == old(published) && dropped == old(dropped) && backpressure == old(backpressure)
    {
      client := new Client(scope, buffer);
      assert client !in members;
      Register(client);
      accepted := accepted + 1;
    }

    /** The second call for a client does nothing. */
    method Unsubscribe(client: Client)
      requires Valid() && (client.once || client in members)
      modifies this, client
      ensures Valid() && client.once && client !in members
      ensures members == old(members) - {client}
      ensures old(client.once) || clients == Without(old(clients), client)
      ensures client.send == old(client.send) && (old(client.once) || client.closed) && accepted == old(accepted)
      ensures published == old(published) && dropped == old(dropped) && backpressure == old(backpressure)
    {
      if client.once { return; }
      Deregister(client);
      client.Close();
      closed := closed + 1;
      client.once := true;
    }

    /** One turn of the loop: the client gets the message, or is dropped and closed. */
    method Offer(client: Client, message: Message) returns (sent: bool)
      requires Valid() && client in members
      modifies this, client
      ensures Valid() && published == old(published) && accepted == old(accepted)
      ensures sent == old(client.HasRoom())
      ensures sent ==> !client.closed && client.send == old(client.send) + [message] && members == old(members)
      ensures !sent ==> client.closed && client.once && client.send == old(client.send) && members == old(members) - {client}
      ensures dropped == old(dropped) + (if sent then 0 else 1) && backpressure == old(backpressure) + (if sent then 0 else 1)
    {
      sent := client.TrySend(message);
      if !sent {
        dropped, backpressure := dropped + 1, backpressure + 1;
        Unsubscribe(client);
      }
    }

    ghost predicate Served(c: Client, before: seq<Message>, message: Message, sent: bool)
      reads c
    {
      if sent then !c.closed && c.send == before + [message] else c.closed && c.once && c.send == before
    }

    static ghost function Full(snapshot: set<Client>): set<Client>
      reads snapshot
    {
      set c | c in snapshot && !c.HasRoom()
    }

    /** Counts the message and walks the snapshot taken under the lock. */
    method Broadcast(snapshot: set<Client>, message: Message)
      requires Valid() && snapshot <= members
      modifies this, snapshot
      ensures Valid() && published == old(published) + 1 && accepted == old(accepted)
      ensures members == old(members) - old(Full(snapshot))
      ensures dropped == old(dropped) + |old(Full(snapshot))| && backpressure == old(backpressure) + |old(Full(snapshot))|
      ensures forall c | c in snapshot :: Served(c, old(c.send), message, old(c.HasRoom()))
    {
      published := published + 1;
      ghost var gone: set<Client> := {};
      var todo := snapshot;
      while todo != {}
        invariant Valid() && todo <= snapshot && todo <= members && published == old(published) + 1 && accepted == old(accepted)
        invariant members == old(members) - gone && gone <= snapshot
        invariant dropped == old(dropped) + |gone| && backpressure == old(backpressure) + |gone|
        invariant forall c | c in snapshot :: c in gone <==> c !in todo && !old(c.HasRoom())
        invariant forall c | c in snapshot ::
                    if c in todo then unchanged(c)
                    else Served(c, old(c.send), message, old(c.HasRoom()))
        decreases |todo|
      {
        var client :| client in todo;
        todo := todo - {client};
        var sent := Offer(client, message);
        if !sent { gone := gone + {client}; }
      }
      assert gone == old(Full(snapshot));
    }

    /** Every client of the scope with room gets the message, every other one is closed and counted as dropped; other scopes are left alone. */
    method Publish(scope: Scope, message: Message)
      requires Valid()
      modifies this, Scoped(clients, scope)
      ensures Valid() && published == old(published) + 1 && accepted == old(accepted)
      ensures members == old(members) - old(Full(Scoped(clients, scope)))
      ensures dropped == old(dropped) + |old(Full(Scoped(clients, scope)))|
      ensures backpressure == old(backpressure) + |old(Full(Scoped(clients, scope)))|
      ensures forall c | c in old(Scoped(clients, scope)) :: Served(c, old(c.send), message, old(c.HasRoom()))
      ensures forall c | c in old(members) && c.scope != scope :: unchanged(c)
      ensures forall s :: Scoped(clients, s) == old(Scoped(clients, s)) - (if s == scope then old(Full(Scoped(clients, scope))) else {})
    {
      var snapshot := Scoped(clients, scope);
      assert snapshot <= members;
      Broadcast(snapshot, message);
      FiledLess(old(clients), old(members), clients, scope, old(Full(Scoped(clients, scope))));
    }

    /** The sum over scopes counts every registered client once. */
    method MetricsSnapshot() returns (s: Snapshot)
      requires Valid()
      ensures s.activeConnections == |members| && s.activeConnections == s.connectionsAccepted - s.connectionsClosed
      ensures s == Snapshot(|members|, accepted, closed, published, dropped, backpressure)
    {
      var active := 0;
      var todo := clients.Keys;
      ghost var counted: set<Client> := {};
      while todo != {}
        invariant todo <= clients.Keys
        invariant counted == set c | c in members && c.scope !in todo
        invariant active == |counted|
        decreases |todo|
      {
        var scope :| scope in todo;
        active := active + |clients[scope]|;
        counted := counted + clients[scope];
        todo := todo - {scope};
      }
      assert counted == members;
      s := Snapshot(active, accepted, closed, published, dropped, backpressure);
    }
  }
}

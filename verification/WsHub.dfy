/**
 The hub and its clients as objects; every method does to the clients' values what
 `ClientNext` says, and `Server` ties whole sequences of calls to `WsModel.Run`.
 */
module WsHub {
  import opened Seqs
  import opened WsModel

  class WsClient {
    var topics: set<string>
    var noradFilter: Option<set<Option<string>>>
    var queue: seq<Frame>
    var dropped: nat
    ghost var attempts: seq<Attempt>
    ghost var taken: seq<Frame>

    ghost function Value(): Client
      reads this
    {
      Client(Subscription(topics, noradFilter), queue, dropped, attempts, taken)
    }

    constructor ()
      ensures Value() == NEW_CLIENT
    {
      topics, noradFilter, queue, dropped, attempts, taken := {}, None, [], 0, [], [];
    }

    method IsMatch(topic: string, payload: Payload) returns (b: bool)
      ensures b == Matches(Subscription(topics, noradFilter), topic, payload)
      ensures b <==> topic in topics && (noradFilter.None? || payload.norad in noradFilter.value)
    {
      if topic !in topics {
        return false;
      }
      if noradFilter.Some? {
        if payload.norad !in noradFilter.value {
          return false;
        }
      }
      return true;
    }

    /** `put_nowait`, counting a drop when the queue is full; the hub and the connection's tasks all use it. */
    method Offer(f: Frame)
      modifies this
      ensures Value() == Enqueue(old(Value()), f)
      ensures topics == old(topics) && noradFilter == old(noradFilter)
      ensures if |old(queue)| < 1024 then queue == old(queue) + [f] && dropped == old(dropped)
              else queue == old(queue) && dropped == old(dropped) + 1
    {
      attempts := attempts + [Attempt(f, Subscription(topics, noradFilter), |queue| < QUEUE_MAX)];
      if |queue| < QUEUE_MAX {
        queue := queue + [f];
      } else {
        dropped := dropped + 1;
      }
    }

    /** The receiver on a subscribe message; `badFilter` makes reading the filter fail after the topics are set. */
    method OnSubscribe(requested: set<string>, norads: set<Option<string>>, badFilter: bool) returns (alive: bool)
      modifies this
      ensures alive == !badFilter
      ensures Value() == ClientNext(old(Value()), if badFilter then BadFilter(requested) else Subscribe(requested, norads))
      ensures topics == requested * {"satellite.position", "passes", "alerts"}
      ensures noradFilter == if badFilter then old(noradFilter) else if norads == {} then None else Some(norads)
    {
      topics := requested * TOPICS;
      if badFilter {
        return false;
      }
      noradFilter := if norads != {} then Some(norads) else None;
      Offer(Subscribed(topics));
      return true;
    }

    method OnPing()
      modifies this
      ensures Value() == ClientNext(old(Value()), Ping)
    {
      Offer(PingFrame);
    }

    /** The sender: the oldest queued frame, when there is one. */
    method TakeNext() returns (f: Option<Frame>)
      modifies this
      ensures Value() == ClientNext(old(Value()), Take)
      ensures f == if old(queue) == [] then None else Some(old(queue)[0])
      ensures queue == if old(queue) == [] then [] else old(queue)[1..]
    {
      if queue == [] {
        return None;
      }
      f := Some(queue[0]);
      taken := taken + [queue[0]];
      queue := queue[1..];
    }
  }

  class WsHub {
    var clients: set<WsClient>

    constructor ()
      ensures clients == {}
    {
      clients := {};
    }

    method Register(c: WsClient)
      modifies this
      ensures clients == old(clients) + {c}
    {
      clients := clients + {c};
    }

    method Unregister(c: WsClient)
      modifies this
      ensures clients == old(clients) - {c}
    {
      clients := clients - {c};
    }

    /** The pump on one decoded message: offer it to every client it matches, in whatever order they are listed. */
    method Fan(topic: string, payload: Payload)
      modifies clients
      ensures forall c :: c in clients ==> c.Value() == ClientNext(old(c.Value()), Pumped(topic, payload))
      ensures forall c :: c in clients ==>
                var asked := topic in old(c.topics) && (old(c.noradFilter).None? || payload.norad in old(c.noradFilter).value);
                && c.topics == old(c.topics) && c.noradFilter == old(c.noradFilter)
                && c.queue == (if asked && |old(c.queue)| < 1024 then old(c.queue) + [Data(topic, payload)] else old(c.queue))
                && c.dropped == (if asked && |old(c.queue)| >= 1024 then old(c.dropped) + 1 else old(c.dropped))
    {
      var rest := clients;
      while rest != {}
        invariant rest <= clients
        invariant forall c :: c in rest ==> c.Value() == old(c.Value())
        invariant forall c :: c in clients - rest ==> c.Value() == ClientNext(old(c.Value()), Pumped(topic, payload))
        decreases |rest|
      {
        var c: WsClient :| c in rest;
        rest := rest - {c};
        var b := c.IsMatch(topic, payload);
        if b {
          c.Offer(Data(topic, payload));
        }
      }
    }
  }

  lemma Connected(es: seq<Event>, id: nat)
    requires id !in Run(es).clients
    ensures Run(es + [Connect(id)]) == Hub(Run(es).clients[id := NEW_CLIENT], Run(es).registered + {id})
  {
    assert Front(es + [Connect(id)]) == es;
  }

  lemma Fanned(es: seq<Event>, topic: string, payload: Payload)
    ensures var h, h' := Run(es), Run(es + [Event.Pump(topic, payload)]);
            && h'.registered == h.registered
            && forall id :: (id in h'.clients <==> id in h.clients) && (id in h.clients ==>
                 h'.clients[id] == if id in h.registered then ClientNext(h.clients[id], Pumped(topic, payload))
                                   else h.clients[id])
  {
    assert Front(es + [Event.Pump(topic, payload)]) == es;
  }

  lemma Acted(es: seq<Event>, id: nat, act: Act)
    requires id in Run(es).clients && id in Run(es).registered && !act.Pumped?
    ensures Run(es + [ClientAct(id, act)])
         == Hub(Run(es).clients[id := ClientNext(Run(es).clients[id], act)], Run(es).registered)
  {
    assert Front(es + [ClientAct(id, act)]) == es;
  }

  /**
   The hub with its connections and their tasks. Every method extends the ghost
   `trace` by the event it performs; `Valid` says that the objects are in the state
   of that run, so what is proved of all runs holds of them.
   */
  class Server {
    const hub: WsHub
    var connections: map<nat, WsClient>
    ghost var trace: seq<Event>

    /** The objects hold these values. */
    ghost predicate Mirrors(h: Hub)
      reads this, hub, connections.Values
    {
      && (forall id :: id in connections <==> id in h.clients)
      && (forall id :: id in h.registered ==> id in connections)
      && (forall i, j :: i in connections && j in connections && i != j ==> connections[i] != connections[j])
      && (forall id :: id in connections ==> connections[id].Value() == h.clients[id])
      && (forall id :: id in connections ==> (connections[id] in hub.clients <==> id in h.registered))
    }

    ghost predicate Valid()
      reads this, hub, connections.Values
    {
      Mirrors(Run(trace))
    }

    constructor ()
      ensures Valid() && trace == [] && fresh(hub)
    {
      hub := new WsHub();
      connections, trace := map[], [];
    }

    /** A new client, not yet known to the hub. */
    method Accept(id: nat, c: WsClient, ghost h: Hub)
      requires Mirrors(h) && id !in connections
      requires c.Value() == NEW_CLIENT && c !in connections.Values && c !in hub.clients
      modifies this`connections
      ensures connections == old(connections)[id := c]
      ensures Mirrors(h.(clients := h.clients[id := NEW_CLIENT]))
    {
      connections := connections[id := c];
      assert forall i :: i in old(connections) ==> connections[i] == old(connections)[i] != c;
    }

    /** The hub learns of an accepted client. */
    method Admit(id: nat, ghost h: Hub)
      requires Mirrors(h) && id in connections
      modifies hub
      ensures Mirrors(h.(registered := h.registered + {id}))
    {
      hub.Register(connections[id]);
    }

    /** A new connection registers its new client. */
    method Open(id: nat, c: WsClient)
      requires Valid() && id !in connections
      requires c.Value() == NEW_CLIENT && c !in connections.Values && c !in hub.clients
      modifies this`connections, this`trace, hub
      ensures Valid() && trace == old(trace) + [Connect(id)]
      ensures connections == old(connections)[id := c]
    {
      Connected(trace, id);
      ghost var h := Run(trace);
      Accept(id, c, h);
      Admit(id, h.(clients := h.clients[id := NEW_CLIENT]));
      trace := trace + [Connect(id)];
    }

    method Close(id: nat)
      requires Valid() && id in connections
      modifies this`trace, hub
      ensures Valid() && trace == old(trace) + [Disconnect(id)]
    {
      hub.Unregister(connections[id]);
      trace := trace + [Disconnect(id)];
      assert Front(trace) == old(trace);
    }

    method Pump(topic: string, payload: Payload)
      requires Valid()
      modifies this`trace, hub.clients
      ensures Valid() && trace == old(trace) + [Event.Pump(topic, payload)]
    {
      Fanned(trace, topic, payload);
      hub.Fan(topic, payload);
      trace := trace + [Event.Pump(topic, payload)];
      assert forall id :: id in connections && connections[id] !in hub.clients ==>
          connections[id].Value() == old(connections[id].Value());
    }

    /** The receiver of one connection on a subscribe message. */
    method Receive(id: nat, requested: set<string>, norads: set<Option<string>>, badFilter: bool) returns (alive: bool)
      requires Valid() && id in connections && connections[id] in hub.clients
      modifies this`trace, connections[id]
      ensures Valid() && alive == !badFilter
      ensures trace == old(trace)
                       + [ClientAct(id, if badFilter then BadFilter(requested) else Subscribe(requested, norads))]
    {
      ghost var act := if badFilter then BadFilter(requested) else Subscribe(requested, norads);
      alive := connections[id].OnSubscribe(requested, norads, badFilter);
      Acted(trace, id, act);
      trace := trace + [ClientAct(id, act)];
    }

    /** Its pinger. */
    method SendPing(id: nat)
      requires Valid() && id in connections && connections[id] in hub.clients
      modifies this`trace, connections[id]
      ensures Valid() && trace == old(trace) + [ClientAct(id, Ping)]
    {
      connections[id].OnPing();
      Acted(trace, id, Ping);
      trace := trace + [ClientAct(id, Ping)];
    }

    /** Its sender. */
    method SendNext(id: nat) returns (f: Option<Frame>)
      requires Valid() && id in connections && connections[id] in hub.clients
      modifies this`trace, connections[id]
      ensures Valid() && trace == old(trace) + [ClientAct(id, Take)]
      ensures var queue := old(Run(trace).clients[id].queue);
              f == if queue == [] then None else Some(queue[0])
    {
      f := connections[id].TakeNext();
      Acted(trace, id, Take);
      trace := trace + [ClientAct(id, Take)];
    }
  }
}

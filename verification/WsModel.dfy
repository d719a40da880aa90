/**
 The WebSocket fan-out: one hub, per-client bounded queues, and the tasks that
 touch them, each step between two awaits being one event.
 */
module WsModel {
  import opened Seqs

  const QUEUE_MAX: nat := 1024
  const TOPICS: set<string> := {"satellite.position", "passes", "alerts"}

  datatype Payload = Payload(norad: Option<string>, body: int)

  datatype Frame = Data(topic: string, payload: Payload) | Subscribed(topics: set<string>) | PingFrame

  /** A null in the id list of a filter matches payloads without an id. */
  datatype Subscription = Subscription(topics: set<string>, norads: Option<set<Option<string>>>)

  const UNSUBSCRIBED: Subscription := Subscription({}, None)

  predicate Matches(sub: Subscription, topic: string, payload: Payload) {
    && topic in sub.topics
    && (sub.norads.Some? ==> payload.norad in sub.norads.value)
  }

  /** One call of `put_nowait`: the frame, the subscription in force then, and whether there was room. */
  datatype Attempt = Attempt(frame: Frame, sub: Subscription, accepted: bool)

  /** `attempts` and `taken` are the client's history. */
  datatype Client = Client(sub: Subscription, queue: seq<Frame>, dropped: nat, attempts: seq<Attempt>, taken: seq<Frame>)

  const NEW_CLIENT: Client := Client(UNSUBSCRIBED, [], 0, [], [])

  /** Put without waiting: a full queue drops the new frame. */
  function Enqueue(c: Client, f: Frame): Client {
    if |c.queue| < QUEUE_MAX then
      c.(queue := c.queue + [f], attempts := c.attempts + [Attempt(f, c.sub, true)])
    else
      c.(dropped := c.dropped + 1, attempts := c.attempts + [Attempt(f, c.sub, false)])
  }

  /** An empty id list means no filter. */
  function FilterOf(norads: set<Option<string>>): Option<set<Option<string>>> {
    if norads == {} then None else Some(norads)
  }

  datatype Act =
    | Pumped(topic: string, payload: Payload)
    | Subscribe(requested: set<string>, norads: set<Option<string>>)
    | BadFilter(requested: set<string>)
    | Ping
    | Take

  function Resubscribe(c: Client, requested: set<string>, norads: set<Option<string>>): Client {
    c.(sub := Subscription(requested * TOPICS, FilterOf(norads)))
  }

  function ClientNext(c: Client, a: Act): Client {
    match a
    case Pumped(topic, payload) => if Matches(c.sub, topic, payload) then Enqueue(c, Data(topic, payload)) else c
    case Subscribe(requested, norads) =>
      Enqueue(Resubscribe(c, requested, norads), Subscribed(requested * TOPICS))
    case BadFilter(requested) => c.(sub := c.sub.(topics := requested * TOPICS))
    case Ping => Enqueue(c, PingFrame)
    case Take =>
      if c.queue == [] then c
      else c.(taken := c.taken + [c.queue[0]], queue := c.queue[1..])
  }

  function ClientRun(acts: seq<Act>): Client {
    if acts == [] then NEW_CLIENT else ClientNext(ClientRun(Front(acts)), Last(acts))
  }

  // ---- The hub ----

  datatype Event =
    | Connect(id: nat)
    | Disconnect(id: nat)
    | Pump(topic: string, payload: Payload)
    | ClientAct(id: nat, act: Act)

  datatype Hub = Hub(clients: map<nat, Client>, registered: set<nat>)

  const EMPTY_HUB: Hub := Hub(map[], {})

  /** What an event does to one client, if it does anything; only the pump addresses several clients. */
  function ActOn(h: Hub, e: Event, id: nat): Option<Act> {
    if id !in h.registered then None
    else
      match e
      case Pump(topic, payload) => Some(Pumped(topic, payload))
      case ClientAct(i, act) => if i == id && !act.Pumped? then Some(act) else None
      case _ => None
  }

  function Next(h: Hub, e: Event): Hub {
    match e
    case Connect(id) =>
      if id in h.clients then h else Hub(h.clients[id := NEW_CLIENT], h.registered + {id})
    case Disconnect(id) => h.(registered := h.registered - {id})
    case _ =>
      h.(clients := map id | id in h.clients ::
                      var a := ActOn(h, e, id);
                      if a.Some? then ClientNext(h.clients[id], a.value) else h.clients[id])
  }

  function Run(es: seq<Event>): Hub {
    if es == [] then EMPTY_HUB else Next(Run(Front(es)), Last(es))
  }
}

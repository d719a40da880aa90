/** What holds of every client in every interleaving of pump, receivers, senders and pingers. */
module WsTheorems {
  import opened Seqs
  import opened WsModel

  // ---- One client under any acts ----

  function AcceptedFrames(attempts: seq<Attempt>): seq<Frame> {
    if attempts == [] then []
    else AcceptedFrames(Front(attempts)) + (if Last(attempts).accepted then [Last(attempts).frame] else [])
  }

  function Frames(attempts: seq<Attempt>): (fs: seq<Frame>)
    ensures |fs| == |attempts|
  {
    if attempts == [] then [] else Frames(Front(attempts)) + [Last(attempts).frame]
  }

  ghost predicate DataMatched(attempts: seq<Attempt>) {
    forall i :: 0 <= i < |attempts| && attempts[i].frame.Data? ==>
      Matches(attempts[i].sub, attempts[i].frame.topic, attempts[i].frame.payload)
  }

  ghost predicate ClientInv(c: Client) {
    && |c.queue| <= QUEUE_MAX
    && |c.attempts| == |c.taken| + |c.queue| + c.dropped
    && c.taken + c.queue == AcceptedFrames(c.attempts)
    && DataMatched(c.attempts)
    && c.sub.topics <= TOPICS
    && (c.sub.norads.Some? ==> c.sub.norads.value != {})
  }

  lemma EnqueueInv(c: Client, f: Frame)
    requires ClientInv(c)
    requires f.Data? ==> Matches(c.sub, f.topic, f.payload)
    ensures ClientInv(Enqueue(c, f))
  {
    var c' := Enqueue(c, f);
    assert Front(c'.attempts) == c.attempts;
    assert c.taken + (c.queue + [f]) == c.taken + c.queue + [f];
  }

  lemma ActInv(c: Client, a: Act)
    requires ClientInv(c)
    ensures ClientInv(ClientNext(c, a))
  {
    match a
    case Pumped(topic, payload) =>
      if Matches(c.sub, topic, payload) { EnqueueInv(c, Data(topic, payload)); }
    case Subscribe(requested, norads) =>
      EnqueueInv(Resubscribe(c, requested, norads), Subscribed(requested * TOPICS));
    case BadFilter(requested) =>
    case Ping => EnqueueInv(c, PingFrame);
    case Take =>
      if c.queue != [] {
        assert c.taken + [c.queue[0]] + c.queue[1..] == c.taken + c.queue;
      }
  }

  lemma {:induction false} ClientRunInv(acts: seq<Act>)
    ensures ClientInv(ClientRun(acts))
    decreases |acts|
  {
    if acts != [] {
      ClientRunInv(Front(acts));
      ActInv(ClientRun(Front(acts)), Last(acts));
    }
  }

  lemma {:induction false} AcceptedIsSubseq(attempts: seq<Attempt>)
    ensures IsSubseq(AcceptedFrames(attempts), Frames(attempts))
    decreases |attempts|
  {
    if attempts != [] {
      var front, f := Front(attempts), Last(attempts).frame;
      AcceptedIsSubseq(front);
      if Last(attempts).accepted {
        SubseqAppendBoth(AcceptedFrames(front), Frames(front), [f]);
      } else {
        SubseqExtend(AcceptedFrames(front), Frames(front), [f]);
        assert AcceptedFrames(attempts) == AcceptedFrames(front);
      }
    }
  }

  // ---- Clients do not disturb one another ----

  /** What one client experiences of a hub run: only the acts while it is registered. */
  function ActsFor(es: seq<Event>, id: nat): seq<Act> {
    if es == [] then []
    else
      var a := ActOn(Run(Front(es)), Last(es), id);
      ActsFor(Front(es), id) + (if a.Some? then [a.value] else [])
  }

  lemma {:induction false} NothingBeforeConnect(es: seq<Event>, id: nat)
    requires id !in Run(es).clients
    ensures ActsFor(es, id) == [] && Run(es).registered <= Run(es).clients.Keys
    decreases |es|
  {
    RegisteredKnown(es);
    if es != [] {
      var front := Front(es);
      assert id !in Run(front).clients;
      NothingBeforeConnect(front, id);
    }
  }

  lemma {:induction false} RegisteredKnown(es: seq<Event>)
    ensures Run(es).registered <= Run(es).clients.Keys
    decreases |es|
  {
    if es != [] {
      RegisteredKnown(Front(es));
    }
  }

  /** Each client's state is that of a client alone with its own acts. */
  lemma {:induction false} ClientsAreIsolated(es: seq<Event>, id: nat)
    requires id in Run(es).clients
    ensures Run(es).clients[id] == ClientRun(ActsFor(es, id))
    decreases |es|
  {
    var front := Front(es);
    var h, e := Run(front), Last(es);
    if id in h.clients {
      ClientsAreIsolated(front, id);
      var a := ActOn(h, e, id);
      if a.Some? {
        assert Front(ActsFor(es, id)) == ActsFor(front, id);
      } else {
        assert ActsFor(es, id) == ActsFor(front, id) + [] == ActsFor(front, id);
      }
    } else {
      NothingBeforeConnect(front, id);
      RegisteredKnown(front);
      assert ActsFor(es, id) == [];
    }
  }

  // ---- A description without a queue: what is due, how much waits, what is kept ----

  /** The subscription in force after some acts, read off the last subscribe message alone. */
  function InForce(acts: seq<Act>): Subscription {
    if acts == [] then UNSUBSCRIBED
    else
      match Last(acts)
      case Subscribe(requested, norads) => Subscription(requested * TOPICS, FilterOf(norads))
      case BadFilter(requested) => InForce(Front(acts)).(topics := requested * TOPICS)
      case _ => InForce(Front(acts))
  }

  /** The frame the last act should offer, from the acts alone. */
  function Offered(acts: seq<Act>): Option<Frame>
    requires acts != []
  {
    match Last(acts)
    case Pumped(topic, payload) =>
      if Matches(InForce(Front(acts)), topic, payload) then Some(Data(topic, payload)) else None
    case Subscribe(requested, norads) => Some(Subscribed(requested * TOPICS))
    case Ping => Some(PingFrame)
    case _ => None
  }

  function Only(f: Option<Frame>): seq<Frame> { if f.Some? then [f.value] else [] }

  /** All frames a client should be offered. */
  function Due(acts: seq<Act>): seq<Frame> {
    if acts == [] then [] else Due(Front(acts)) + Only(Offered(acts))
  }

  /** How many frames wait: one more per offer up to the bound, one less per take. */
  function Backlog(acts: seq<Act>): nat {
    if acts == [] then 0
    else
      var before := Backlog(Front(acts));
      if Offered(acts).Some? then Min(QUEUE_MAX, before + 1)
      else if Last(acts).Take? && before > 0 then before - 1
      else before
  }

  /** The last act offers a frame while the bound is reached. */
  predicate OfferedFull(acts: seq<Act>)
    requires acts != []
  {
    Offered(acts).Some? && Backlog(Front(acts)) == QUEUE_MAX
  }

  /** The frames due, less exactly those offered while the bound was reached. */
  function Kept(acts: seq<Act>): seq<Frame> {
    if acts == [] then []
    else Kept(Front(acts)) + (if OfferedFull(acts) then [] else Only(Offered(acts)))
  }

  function Lost(acts: seq<Act>): nat {
    if acts == [] then 0 else Lost(Front(acts)) + (if OfferedFull(acts) then 1 else 0)
  }

  lemma FramesExtend(attempts: seq<Attempt>, a: Attempt)
    ensures Frames(attempts + [a]) == Frames(attempts) + [a.frame]
    ensures AcceptedFrames(attempts + [a]) == AcceptedFrames(attempts) + (if a.accepted then [a.frame] else [])
  {
  }

  /** One act against the description. */
  lemma ActOffers(acts: seq<Act>)
    requires acts != [] && ClientRun(Front(acts)).sub == InForce(Front(acts))
    ensures var c, c' := ClientRun(Front(acts)), ClientRun(acts);
            && c'.sub == InForce(acts)
            && (if Offered(acts).None? then c'.attempts == c.attempts && c'.dropped == c.dropped
                else c'.attempts == c.attempts + [Attempt(Offered(acts).value, InForce(acts), |c.queue| < QUEUE_MAX)])
  {
  }

  /** Fan-out is complete and exact: the offered frames are precisely those due, whatever the queue did. */
  lemma {:induction false} OfferedIsDue(acts: seq<Act>)
    ensures ClientRun(acts).sub == InForce(acts)
    ensures Frames(ClientRun(acts).attempts) == Due(acts)
    decreases |acts|
  {
    if acts != [] {
      OfferedIsDue(Front(acts));
      ActOffers(acts);
      var c := ClientRun(Front(acts));
      if Offered(acts).Some? {
        FramesExtend(c.attempts, Attempt(Offered(acts).value, InForce(acts), |c.queue| < QUEUE_MAX));
      }
    }
  }

  /** What reaches the sender is precisely what is kept. */
  lemma {:induction false} AcceptedIsKept(acts: seq<Act>)
    ensures |ClientRun(acts).queue| == Backlog(acts) <= QUEUE_MAX
    ensures AcceptedFrames(ClientRun(acts).attempts) == Kept(acts)
    ensures ClientRun(acts).dropped == Lost(acts)
    decreases |acts|
  {
    if acts != [] {
      AcceptedIsKept(Front(acts));
      OfferedIsDue(Front(acts));
      ActOffers(acts);
      var c := ClientRun(Front(acts));
      if Offered(acts).Some? {
        FramesExtend(c.attempts, Attempt(Offered(acts).value, InForce(acts), |c.queue| < QUEUE_MAX));
      }
    }
  }

  // ---- Who is offered a pumped frame ----

  predicate Subscribes(a: Act) { a.Subscribe? || a.BadFilter? }

  /** Since act `j` no other subscribe message has come. */
  ghost predicate LastSubscribe(acts: seq<Act>, j: nat) {
    j < |acts| && Subscribes(acts[j]) && forall m :: j < m < |acts| ==> !Subscribes(acts[m])
  }

  lemma {:induction false} InForceSince(acts: seq<Act>, j: nat)
    requires LastSubscribe(acts, j)
    ensures InForce(acts) == InForce(acts[..j + 1])
    decreases |acts|
  {
    if j == |acts| - 1 {
      TakeAll(acts);
    } else {
      assert Front(acts)[..j + 1] == acts[..j + 1];
      InForceSince(Front(acts), j);
    }
  }

  /**
   A pumped frame is offered exactly to a client whose last subscribe message asked
   for its topic, one of the three there are, and either for no ids or for its id.
   */
  lemma PumpedIsOffered(acts: seq<Act>, j: nat, topic: string, payload: Payload)
    requires LastSubscribe(acts, j) && acts[j].Subscribe?
    ensures var due := && topic in acts[j].requested
                       && (topic == "satellite.position" || topic == "passes" || topic == "alerts")
                       && (acts[j].norads == {} || payload.norad in acts[j].norads);
            Frames(ClientRun(acts + [Pumped(topic, payload)]).attempts) ==
            Frames(ClientRun(acts).attempts) + (if due then [Data(topic, payload)] else [])
  {
    InForceSince(acts, j);
    TakeOneMore(acts, j);
    PumpedIsDue(acts, topic, payload);
    MatchesIff(acts[j].requested, acts[j].norads, topic, payload);
    NilRight(Frames(ClientRun(acts).attempts));
  }

  lemma MatchesIff(requested: set<string>, norads: set<Option<string>>, topic: string, payload: Payload)
    ensures Matches(Subscription(requested * TOPICS, FilterOf(norads)), topic, payload) <==>
              && topic in requested
              && (topic == "satellite.position" || topic == "passes" || topic == "alerts")
              && (norads == {} || payload.norad in norads)
  {
  }

  lemma PumpedIsDue(acts: seq<Act>, topic: string, payload: Payload)
    ensures Frames(ClientRun(acts + [Pumped(topic, payload)]).attempts)
         == Frames(ClientRun(acts).attempts)
            + (if Matches(InForce(acts), topic, payload) then [Data(topic, payload)] else [])
  {
    assert Front(acts + [Pumped(topic, payload)]) == acts;
    OfferedIsDue(acts);
    OfferedIsDue(acts + [Pumped(topic, payload)]);
  }

  /** Before its first subscribe message a client is offered nothing. */
  lemma {:induction false} SilentBeforeSubscribe(acts: seq<Act>)
    requires forall m :: 0 <= m < |acts| ==> !Subscribes(acts[m])
    ensures InForce(acts).topics == {}
    decreases |acts|
  {
    if acts != [] { SilentBeforeSubscribe(Front(acts)); }
  }

  /** A subscribe message is acknowledged with the topics it got, a ping with a ping frame, and nothing else offers. */
  lemma AcknowledgedAndPinged(acts: seq<Act>, requested: set<string>, norads: set<Option<string>>)
    ensures Due(acts + [Subscribe(requested, norads)])
         == Due(acts) + [Subscribed(requested * {"satellite.position", "passes", "alerts"})]
    ensures Due(acts + [Ping]) == Due(acts) + [PingFrame]
    ensures Due(acts + [Take]) == Due(acts) && Due(acts + [BadFilter(requested)]) == Due(acts)
  {
    assert Front(acts + [Subscribe(requested, norads)]) == acts && Front(acts + [Ping]) == acts;
    assert Front(acts + [Take]) == acts && Front(acts + [BadFilter(requested)]) == acts;
    NilRight(Due(acts));
  }

  /** A subscribe message whose filter cannot be read still replaces the topics, and keeps the filter. */
  lemma BadFilterKeepsIds(acts: seq<Act>, requested: set<string>)
    ensures InForce(acts + [BadFilter(requested)])
         == Subscription(requested * {"satellite.position", "passes", "alerts"}, InForce(acts).norads)
  {
    assert Front(acts + [BadFilter(requested)]) == acts;
  }

  // ---- Main results ----

  /**
   For every client in every interleaving: what was offered is what was taken, is
   queued or was dropped; the taken frames followed by the queued ones are the due
   frames in order, less exactly those offered while 1024 were waiting; and each
   data frame matched the subscription in force when it was offered.
   */
  lemma DeliveryAccounts(es: seq<Event>, id: nat)
    requires id in Run(es).clients
    ensures var c, acts := Run(es).clients[id], ActsFor(es, id);
            && |c.attempts| == |c.taken| + |c.queue| + c.dropped
            && |c.queue| == Backlog(acts) <= QUEUE_MAX
            && c.taken + c.queue == AcceptedFrames(c.attempts) == Kept(acts)
            && c.dropped == Lost(acts)
            && IsSubseq(c.taken + c.queue, Frames(c.attempts))
            && DataMatched(c.attempts)
  {
    ClientsAreIsolated(es, id);
    ClientRunInv(ActsFor(es, id));
    AcceptedIsKept(ActsFor(es, id));
    AcceptedIsSubseq(Run(es).clients[id].attempts);
  }

  lemma FanOutIsExact(es: seq<Event>, id: nat)
    requires id in Run(es).clients
    ensures Frames(Run(es).clients[id].attempts) == Due(ActsFor(es, id))
  {
    ClientsAreIsolated(es, id);
    OfferedIsDue(ActsFor(es, id));
  }

  lemma {:induction false} AttemptsGrow(acts: seq<Act>, k: nat)
    requires k <= |acts|
    ensures ClientRun(acts[..k]).attempts <= ClientRun(acts).attempts
    decreases |acts|
  {
    if k == |acts| {
      assert acts[..k] == acts;
    } else {
      AttemptsGrow(Front(acts), k);
      assert Front(acts)[..k] == acts[..k];
      OfferedIsDue(Front(acts));
      ActOffers(acts);
    }
  }

  /**
   A slow client loses the newest frames, not the older ones: whatever comes later,
   the frame offered by act `k` was refused if and only if 1024 frames were waiting,
   and what was waiting then stayed as it was. It was judged by the subscription of
   the acts up to `k`.
   */
  lemma FullQueueDropsNewest(acts: seq<Act>, k: nat)
    requires k < |acts| && Offered(acts[..k + 1]).Some?
    ensures var i, attempts := |Due(acts[..k])|, ClientRun(acts).attempts;
            && i < |attempts|
            && attempts[i].frame == Offered(acts[..k + 1]).value
            && attempts[i].sub == InForce(acts[..k + 1])
            && (!attempts[i].accepted <==> RefusedAt(acts, k))
    ensures ClientRun(acts[..k]).queue <= ClientRun(acts[..k + 1]).queue
    ensures |ClientRun(acts[..k]).queue| == QUEUE_MAX ==> ClientRun(acts[..k + 1]).queue == ClientRun(acts[..k]).queue
  {
    assert Front(acts[..k + 1]) == acts[..k];
    OfferedIsDue(acts[..k]);
    AcceptedIsKept(acts[..k]);
    ActOffers(acts[..k + 1]);
    AttemptsGrow(acts, k + 1);
    assert |Frames(ClientRun(acts[..k]).attempts)| == |Due(acts[..k])|;
  }

  /** Act `k` offers a frame while 1024 are waiting. */
  ghost predicate RefusedAt(acts: seq<Act>, k: nat)
    requires k < |acts|
  {
    Offered(acts[..k + 1]).Some? && |ClientRun(acts[..k]).queue| == QUEUE_MAX
  }

  lemma RefusedIsFull(acts: seq<Act>, k: nat)
    requires k < |acts|
    ensures RefusedAt(acts, k) <==> OfferedFull(acts[..k + 1])
  {
    assert Front(acts[..k + 1]) == acts[..k];
    AcceptedIsKept(acts[..k]);
  }

  lemma RefusedInFront(acts: seq<Act>, k: nat)
    requires k < |acts| - 1
    ensures RefusedAt(Front(acts), k) <==> RefusedAt(acts, k)
  {
    assert Front(acts)[..k] == acts[..k] && Front(acts)[..k + 1] == acts[..k + 1];
  }

  lemma {:induction false} LostNothing(acts: seq<Act>)
    ensures Lost(acts) == 0 <==> forall k :: 0 <= k < |acts| ==> !RefusedAt(acts, k)
    ensures |Due(acts)| == |Kept(acts)| + Lost(acts)
    ensures Lost(acts) == 0 ==> Kept(acts) == Due(acts)
    decreases |acts|
  {
    if acts != [] {
      LostNothing(Front(acts));
      RefusedIsFull(acts, |acts| - 1);
      assert acts[..|acts|] == acts;
      forall k | 0 <= k < |acts| - 1
        ensures RefusedAt(Front(acts), k) <==> RefusedAt(acts, k)
      {
        RefusedInFront(acts, k);
      }
    }
  }

  /** Everything due gets through, in order, if and only if no frame was offered while 1024 were waiting. */
  lemma NothingDropped(acts: seq<Act>)
    ensures var c := ClientRun(acts);
            && (c.taken + c.queue == Due(acts) <==> c.dropped == 0)
            && (c.dropped == 0 <==> forall k :: 0 <= k < |acts| ==> !RefusedAt(acts, k))
  {
    ClientRunInv(acts);
    AcceptedIsKept(acts);
    LostNothing(acts);
  }
}

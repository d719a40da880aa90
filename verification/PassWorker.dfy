/**
 The pass worker: one detector per (satellite, observer) pair, all kept in one map
 and driven by one interleaved stream of position messages.
 */
module PassWorker {
  import opened Seqs
  import opened Passes
  import opened PassTheorems

  type Key = (string, string)

  datatype Geo = Geo(lat: real, lon: real, alt: real)

  datatype Observer = Observer(id: string, site: Geo)

  datatype Position = Undecodable | Decoded(norad: string, t: real, at: Geo)

  /** One message, with the observer list if a refresh was due before it. */
  datatype Input = Input(refresh: Option<seq<Observer>>, msg: Position)

  datatype Published = Published(key: Key, event: PassEvent)

  /** The map entries as values, and everything published so far. */
  datatype Worker = Worker(trackers: map<Key, Tracker>, published: seq<Published>)

  const EMPTY: Worker := Worker(map[], [])

  datatype Visit = Visit(key: Key, sample: Sample)

  function TrackerOf(w: Worker, k: Key): Tracker { GetOr(w.trackers, k, START) }

  function Handle(w: Worker, v: Visit): Worker {
    var (tr, evt) := Step(TrackerOf(w, v.key), v.sample);
    Worker(w.trackers[v.key := tr], w.published + (if evt.Some? then [Published(v.key, evt.value)] else []))
  }

  function HandleAll(w: Worker, vs: seq<Visit>): Worker {
    if vs == [] then w else Handle(HandleAll(w, Front(vs)), Last(vs))
  }

  /** The detector calls one message causes: one per observer in force. */
  function VisitsOf(elevation: (Geo, Geo) -> real, observers: seq<Observer>, msg: Position): (vs: seq<Visit>)
    ensures |vs| == if msg.Undecodable? then 0 else |observers|
  {
    if msg.Undecodable? then []
    else
      seq(|observers|, i requires 0 <= i < |observers| =>
        Visit((msg.norad, observers[i].id), Sample(elevation(observers[i].site, msg.at), msg.t)))
  }

  function ObserversAfter(inputs: seq<Input>): seq<Observer> {
    if inputs == [] then []
    else if Last(inputs).refresh.Some? then Last(inputs).refresh.value
    else ObserversAfter(Front(inputs))
  }

  /** All detector calls caused by an input stream, in order. */
  function Visits(elevation: (Geo, Geo) -> real, inputs: seq<Input>): seq<Visit> {
    if inputs == [] then []
    else Visits(elevation, Front(inputs)) + VisitsOf(elevation, ObserversAfter(inputs), Last(inputs).msg)
  }

  lemma {:induction false} HandleConcat(w: Worker, a: seq<Visit>, b: seq<Visit>)
    ensures HandleAll(w, a + b) == HandleAll(HandleAll(w, a), b)
    decreases |b|
  {
    if b == [] {
      assert a + b == a;
    } else {
      HandleConcat(w, a, Front(b));
      assert Front(a + b) == a + Front(b);
    }
  }

  // ---- What the calls of a message and of a stream are ----

  ghost predicate DistinctIds(observers: seq<Observer>) {
    forall i, j :: 0 <= i < j < |observers| ==> observers[i].id != observers[j].id
  }

  /** The newest sample each pair was called with. */
  function NewestSample(w: Worker, k: Key): Option<Sample> { TrackerOf(w, k).prev }

  lemma {:induction false} HandledLast(w: Worker, vs: seq<Visit>, i: nat)
    requires i < |vs| && forall j :: i < j < |vs| ==> vs[j].key != vs[i].key
    ensures NewestSample(HandleAll(w, vs), vs[i].key) == Some(vs[i].sample)
    decreases |vs|
  {
    if i < |vs| - 1 {
      assert Last(vs).key != vs[i].key;
      HandledLast(w, Front(vs), i);
    }
  }

  lemma {:induction false} UnvisitedStay(w: Worker, vs: seq<Visit>, k: Key)
    requires forall i :: 0 <= i < |vs| ==> vs[i].key != k
    ensures Get(HandleAll(w, vs).trackers, k) == Get(w.trackers, k)
    decreases |vs|
  {
    if vs != [] { UnvisitedStay(w, Front(vs), k); }
  }

  /**
   A decodable message gives each observer in force its own sample of the satellite:
   the elevation at that observer's site, and the message's time. No other pair is
   touched, and an undecodable message touches none.
   */
  lemma MessageReachesObservers(w: Worker, elevation: (Geo, Geo) -> real, observers: seq<Observer>, msg: Position)
    requires DistinctIds(observers)
    ensures var w' := HandleAll(w, VisitsOf(elevation, observers, msg));
            && (msg.Decoded? ==>
                  forall i :: 0 <= i < |observers| ==>
                    NewestSample(w', (msg.norad, observers[i].id))
                    == Some(Sample(elevation(observers[i].site, msg.at), msg.t)))
            && (forall k: Key :: (msg.Decoded? && k.0 == msg.norad ==>
                                    forall i :: 0 <= i < |observers| ==> observers[i].id != k.1) ==>
                  Get(w'.trackers, k) == Get(w.trackers, k))
  {
    var vs := VisitsOf(elevation, observers, msg);
    forall i | msg.Decoded? && 0 <= i < |observers|
      ensures NewestSample(HandleAll(w, vs), (msg.norad, observers[i].id))
           == Some(Sample(elevation(observers[i].site, msg.at), msg.t))
    {
      HandledLast(w, vs, i);
    }
    forall k: Key | msg.Decoded? && k.0 == msg.norad ==> forall i :: 0 <= i < |observers| ==> observers[i].id != k.1
      ensures Get(HandleAll(w, vs).trackers, k) == Get(w.trackers, k)
    {
      UnvisitedStay(w, vs, k);
    }
  }

  function KeysOf(ps: seq<Published>): (ks: seq<Key>)
    ensures |ks| == |ps| && forall i :: 0 <= i < |ks| ==> ks[i] == ps[i].key
  {
    seq(|ps|, i requires 0 <= i < |ps| => ps[i].key)
  }

  function VisitKeys(vs: seq<Visit>): (ks: seq<Key>)
    ensures |ks| == |vs| && forall i :: 0 <= i < |ks| ==> ks[i] == vs[i].key
  {
    seq(|vs|, i requires 0 <= i < |vs| => vs[i].key)
  }

  /** Events are published in the order of the calls, at most one a call. */
  lemma {:induction false} PublishedInOrder(w: Worker, vs: seq<Visit>) returns (more: seq<Published>)
    ensures HandleAll(w, vs).published == w.published + more
    ensures IsSubseq(KeysOf(more), VisitKeys(vs))
    decreases |vs|
  {
    if vs == [] {
      more := [];
      NilRight(w.published);
    } else {
      var before := PublishedInOrder(w, Front(vs));
      var evt := Step(TrackerOf(HandleAll(w, Front(vs)), Last(vs).key), Last(vs).sample).1;
      assert VisitKeys(vs) == VisitKeys(Front(vs)) + [Last(vs).key];
      if evt.Some? {
        var p := Published(Last(vs).key, evt.value);
        more := before + [p];
        Associative(w.published, before, [p]);
        assert KeysOf(more) == KeysOf(before) + [p.key];
        SubseqAppendBoth(KeysOf(before), VisitKeys(Front(vs)), [p.key]);
      } else {
        more := before;
        NilRight(HandleAll(w, Front(vs)).published);
        SubseqExtend(KeysOf(before), VisitKeys(Front(vs)), [Last(vs).key]);
      }
    }
  }

  /** One message is published about in the order of the observer list. */
  lemma MessagePublishesInOrder(w: Worker, elevation: (Geo, Geo) -> real, observers: seq<Observer>, norad: string, t: real, at: Geo)
      returns (more: seq<Published>)
    ensures HandleAll(w, VisitsOf(elevation, observers, Decoded(norad, t, at))).published == w.published + more
    ensures IsSubseq(KeysOf(more), seq(|observers|, i requires 0 <= i < |observers| => (norad, observers[i].id)))
  {
    var vs := VisitsOf(elevation, observers, Decoded(norad, t, at));
    more := PublishedInOrder(w, vs);
    assert VisitKeys(vs) == seq(|observers|, i requires 0 <= i < |observers| => (norad, observers[i].id));
  }

  /** The observers in force are those of the last refresh. */
  lemma {:induction false} LastRefreshInForce(inputs: seq<Input>, j: nat)
    requires j < |inputs| && inputs[j].refresh.Some?
    requires forall m :: j < m < |inputs| ==> inputs[m].refresh.None?
    ensures ObserversAfter(inputs) == inputs[j].refresh.value
    decreases |inputs|
  {
    if j < |inputs| - 1 { LastRefreshInForce(Front(inputs), j); }
  }

  lemma {:induction false} NoRefreshNoObservers(inputs: seq<Input>)
    requires forall m :: 0 <= m < |inputs| ==> inputs[m].refresh.None?
    ensures ObserversAfter(inputs) == []
    decreases |inputs|
  {
    if inputs != [] { NoRefreshNoObservers(Front(inputs)); }
  }

  /** The observers in force when message `j` is handled. */
  function InForce(inputs: seq<Input>, j: nat): seq<Observer>
    requires j < |inputs|
  {
    ObserversAfter(inputs[..j + 1])
  }

  /** Message `j` is a decodable one of satellite `k.0`, received while observer `k.1` is in force at this site. */
  ghost predicate HeardAt(inputs: seq<Input>, j: nat, k: Key, site: Geo) {
    && j < |inputs| && inputs[j].msg.Decoded? && inputs[j].msg.norad == k.0
    && Observer(k.1, site) in InForce(inputs, j)
  }

  ghost predicate AlwaysDistinct(inputs: seq<Input>) {
    forall j :: 0 <= j < |inputs| ==> DistinctIds(InForce(inputs, j))
  }

  /** `at` are, in order, the positions of the messages that reach the pair, and `samples` what they give it. */
  ghost predicate Heard(elevation: (Geo, Geo) -> real, inputs: seq<Input>, k: Key, at: seq<nat>, samples: seq<Sample>) {
    && |at| == |samples|
    && (forall i, j :: 0 <= i < j < |at| ==> at[i] < at[j])
    && (forall j: nat, site :: HeardAt(inputs, j, k, site) ==> j in at)
    && (forall i :: 0 <= i < |at| ==> GivenBy(elevation, inputs, k, at[i], samples[i]))
  }

  lemma {:induction false} SamplesConcat(k: Key, a: seq<Visit>, b: seq<Visit>)
    ensures SamplesFor(k, a + b) == SamplesFor(k, a) + SamplesFor(k, b)
    decreases |b|
  {
    if b == [] {
      NilRight(a);
    } else {
      SamplesConcat(k, a, Front(b));
      assert Front(a + b) == a + Front(b) && Last(a + b) == Last(b);
      Associative(SamplesFor(k, a), SamplesFor(k, Front(b)), if Last(b).key == k then [Last(b).sample] else []);
    }
  }

  lemma {:induction false} SamplesNone(k: Key, vs: seq<Visit>)
    requires forall i :: 0 <= i < |vs| ==> vs[i].key != k
    ensures SamplesFor(k, vs) == []
    decreases |vs|
  {
    if vs != [] { SamplesNone(k, Front(vs)); }
  }

  lemma {:induction false} SamplesOne(k: Key, vs: seq<Visit>, i: nat)
    requires i < |vs| && vs[i].key == k && forall j :: 0 <= j < |vs| && j != i ==> vs[j].key != k
    ensures SamplesFor(k, vs) == [vs[i].sample]
    decreases |vs|
  {
    if i < |vs| - 1 {
      assert vs[|vs| - 1].key != k;
      SamplesOne(k, Front(vs), i);
    } else {
      SamplesNone(k, Front(vs));
    }
  }

  /** One message gives a pair at most one sample. */
  lemma MessageSamples(elevation: (Geo, Geo) -> real, observers: seq<Observer>, msg: Position, k: Key)
    requires DistinctIds(observers)
    ensures forall site :: msg.Decoded? && msg.norad == k.0 && Observer(k.1, site) in observers ==>
              SamplesFor(k, VisitsOf(elevation, observers, msg)) == [Sample(elevation(site, msg.at), msg.t)]
    ensures (msg.Decoded? && msg.norad == k.0 ==> forall site :: Observer(k.1, site) !in observers) ==>
              SamplesFor(k, VisitsOf(elevation, observers, msg)) == []
  {
    var vs := VisitsOf(elevation, observers, msg);
    if msg.Decoded? && msg.norad == k.0 && exists site :: Observer(k.1, site) in observers {
      var site :| Observer(k.1, site) in observers;
      var i :| 0 <= i < |observers| && observers[i] == Observer(k.1, site);
      SamplesOne(k, vs, i);
    } else {
      forall i | 0 <= i < |vs|
        ensures vs[i].key != k
      {
        assert Observer(observers[i].id, observers[i].site) in observers;
      }
      SamplesNone(k, vs);
    }
  }

  lemma HeardInFront(inputs: seq<Input>, j: nat, k: Key, site: Geo)
    requires j < |inputs| - 1
    ensures HeardAt(Front(inputs), j, k, site) <==> HeardAt(inputs, j, k, site)
    ensures InForce(Front(inputs), j) == InForce(inputs, j)
  {
    assert Front(inputs)[..j + 1] == inputs[..j + 1];
  }

  /** Sample `x` is what message `j` gives the pair. */
  ghost predicate GivenBy(elevation: (Geo, Geo) -> real, inputs: seq<Input>, k: Key, j: nat, x: Sample) {
    exists site :: HeardAt(inputs, j, k, site) && x == Sample(elevation(site, inputs[j].msg.at), inputs[j].msg.t)
  }

  lemma GivenInFront(elevation: (Geo, Geo) -> real, inputs: seq<Input>, k: Key, j: nat, x: Sample)
    requires j < |inputs| - 1 && GivenBy(elevation, Front(inputs), k, j, x)
    ensures GivenBy(elevation, inputs, k, j, x)
  {
    var site :| HeardAt(Front(inputs), j, k, site) && x == Sample(elevation(site, Front(inputs)[j].msg.at), Front(inputs)[j].msg.t);
    HeardInFront(inputs, j, k, site);
  }

  /** What was heard before the last message is heard of the whole stream, if that adds nothing. */
  lemma HeardNothing(elevation: (Geo, Geo) -> real, inputs: seq<Input>, k: Key, at: seq<nat>, samples: seq<Sample>, last: nat)
    requires last == |inputs| - 1 && Heard(elevation, Front(inputs), k, at, samples)
    requires forall site :: !HeardAt(inputs, last, k, site)
    ensures Heard(elevation, inputs, k, at, samples)
  {
    forall i | 0 <= i < |at|
      ensures GivenBy(elevation, inputs, k, at[i], samples[i])
    {
      GivenInFront(elevation, inputs, k, at[i], samples[i]);
    }
    forall j: nat, site | HeardAt(inputs, j, k, site)
      ensures j in at
    {
      HeardInFront(inputs, j, k, site);
    }
  }

  lemma HeardOneMore(elevation: (Geo, Geo) -> real, inputs: seq<Input>, k: Key, at: seq<nat>, samples: seq<Sample>, x: Sample)
    requires inputs != [] && Heard(elevation, Front(inputs), k, at, samples)
    requires GivenBy(elevation, inputs, k, |inputs| - 1, x)
    ensures Heard(elevation, inputs, k, at + [|inputs| - 1], samples + [x])
  {
    var at', samples' := at + [|inputs| - 1], samples + [x];
    forall i | 0 <= i < |at'|
      ensures GivenBy(elevation, inputs, k, at'[i], samples'[i])
    {
      if i < |at| { GivenInFront(elevation, inputs, k, at[i], samples[i]); }
    }
    forall j: nat, site | HeardAt(inputs, j, k, site)
      ensures j in at'
    {
      if j < |inputs| - 1 { HeardInFront(inputs, j, k, site); }
    }
  }

  /** Appending the last message to what was heard before it. */
  lemma HeardFurther(elevation: (Geo, Geo) -> real, inputs: seq<Input>, k: Key, at: seq<nat>, samples: seq<Sample>)
      returns (at': seq<nat>)
    requires inputs != [] && AlwaysDistinct(inputs) && Heard(elevation, Front(inputs), k, at, samples)
    ensures var more := SamplesFor(k, VisitsOf(elevation, ObserversAfter(inputs), Last(inputs).msg));
            Heard(elevation, inputs, k, at', samples + more)
  {
    var last := |inputs| - 1;
    TakeAll(inputs);
    assert DistinctIds(InForce(inputs, last));
    MessageSamples(elevation, ObserversAfter(inputs), Last(inputs).msg, k);
    if site :| HeardAt(inputs, last, k, site) {
      at' := at + [last];
      HeardOneMore(elevation, inputs, k, at, samples, Sample(elevation(site, inputs[last].msg.at), inputs[last].msg.t));
    } else {
      at' := at;
      NilRight(samples);
      if Last(inputs).msg.Decoded? && Last(inputs).msg.norad == k.0 {
        forall site
          ensures Observer(k.1, site) !in ObserversAfter(inputs)
        {
          assert !HeardAt(inputs, last, k, site);
        }
      }
      HeardNothing(elevation, inputs, k, at, samples, last);
    }
  }

  /**
   Over a stream, the samples a pair is called with are exactly, in order, those of
   its satellite's decodable messages received while its observer is in force, each
   with that observer's own elevation and the message's time.
   */
  lemma {:induction false} PairHears(elevation: (Geo, Geo) -> real, inputs: seq<Input>, k: Key) returns (at: seq<nat>)
    requires AlwaysDistinct(inputs)
    ensures Heard(elevation, inputs, k, at, SamplesFor(k, Visits(elevation, inputs)))
    decreases |inputs|
  {
    if inputs == [] {
      at := [];
    } else {
      var front := Front(inputs);
      forall j | 0 <= j < |front|
        ensures DistinctIds(InForce(front, j))
      {
        HeardInFront(inputs, j, k, Geo(0.0, 0.0, 0.0));
        assert DistinctIds(InForce(inputs, j));
      }
      var before := PairHears(elevation, front, k);
      at := HeardFurther(elevation, inputs, k, before, SamplesFor(k, Visits(elevation, front)));
      SamplesConcat(k, Visits(elevation, front), VisitsOf(elevation, ObserversAfter(inputs), Last(inputs).msg));
    }
  }

  // ---- Isolation ----

  /** The samples one pair gets to see. */
  function SamplesFor(k: Key, vs: seq<Visit>): seq<Sample> {
    if vs == [] then []
    else SamplesFor(k, Front(vs)) + (if Last(vs).key == k then [Last(vs).sample] else [])
  }

  function EventsFor(k: Key, ps: seq<Published>): seq<PassEvent> {
    if ps == [] then []
    else EventsFor(k, Front(ps)) + (if Last(ps).key == k then [Last(ps).event] else [])
  }

  lemma EventsForExtend(k: Key, ps: seq<Published>, p: Published)
    ensures EventsFor(k, ps + [p]) == EventsFor(k, ps) + (if p.key == k then [p.event] else [])
  {
  }

  /**
   However satellites and observer lists interleave, each pair is published exactly
   the events an isolated detector would report on that pair's own samples.
   */
  lemma {:induction false} PairsAreIsolated(vs: seq<Visit>, k: Key)
    ensures TrackerOf(HandleAll(EMPTY, vs), k) == Run(START, SamplesFor(k, vs))
    ensures EventsFor(k, HandleAll(EMPTY, vs).published) == Events(START, SamplesFor(k, vs))
    decreases |vs|
  {
    if vs != [] {
      var front, v := Front(vs), Last(vs);
      PairsAreIsolated(front, k);
      var w := HandleAll(EMPTY, front);
      var evt := Step(TrackerOf(w, v.key), v.sample).1;
      if evt.Some? {
        EventsForExtend(k, w.published, Published(v.key, evt.value));
      } else {
        assert w.published + [] == w.published;
      }
      if v.key == k {
        EventsExtend(START, SamplesFor(k, front), v.sample);
      } else {
        assert SamplesFor(k, vs) == SamplesFor(k, front);
      }
    }
  }

  ghost predicate SortedTimes(es: seq<PassEvent>) {
    forall i, j :: 0 <= i < j < |es| ==> es[i].t <= es[j].t
  }

  lemma SortedOneMore(es: seq<PassEvent>, e: PassEvent)
    requires SortedTimes(es) && forall x :: x in es ==> x.t <= e.t
    ensures SortedTimes(es + [e])
  {
    assert forall i :: 0 <= i < |es| ==> es[i] in es;
  }

  lemma {:induction false} EmittedSorted(outs: seq<Option<PassEvent>>)
    requires forall i, j :: 0 <= i < j < |outs| && outs[i].Some? && outs[j].Some? ==> outs[i].value.t <= outs[j].value.t
    ensures SortedTimes(Emitted(outs))
    ensures forall e :: e in Emitted(outs) ==> Some(e) in outs
    decreases |outs|
  {
    if outs != [] {
      var front, n := Front(outs), |outs| - 1;
      assert forall i :: 0 <= i < n ==> front[i] == outs[i];
      EmittedSorted(front);
      FrontAndLast(outs);
      if outs[n].Some? {
        forall e | e in Emitted(front)
          ensures e.t <= outs[n].value.t
        {
          var i :| 0 <= i < n && front[i] == Some(e);
          assert outs[i] == Some(e);
        }
        SortedOneMore(Emitted(front), outs[n].value);
      } else {
        NilRight(Emitted(front));
      }
    }
  }

  /** With a pair's samples in time order, the event times published for it never go backwards. */
  lemma PairTimesNeverDecrease(vs: seq<Visit>, k: Key)
    requires TimesNeverDecrease(SamplesFor(k, vs))
    ensures SortedTimes(EventsFor(k, HandleAll(EMPTY, vs).published))
  {
    PairsAreIsolated(vs, k);
    var samples := SamplesFor(k, vs);
    var outs := Calls(samples);
    forall i, j | 0 <= i < j < |outs| && outs[i].Some? && outs[j].Some?
      ensures outs[i].value.t <= outs[j].value.t
    {
      EventTimesNeverDecrease(samples, i, j);
    }
    EmittedSorted(outs);
  }

  // ---- The worker's map holds mutable detectors ----

  class PassWorker {
    const elevation: (Geo, Geo) -> real
    var state: map<Key, (PassState, Option<Sample>)>
    var observers: seq<Observer>
    var published: seq<Published>

    ghost function Detectors(): set<PassState>
      reads this
    {
      set k | k in state :: state[k].0
    }

    /** No two pairs share a detector object. */
    ghost predicate Valid()
      reads this
    {
      forall j, k :: j in state && k in state && j != k ==> state[j].0 != state[k].0
    }

    ghost function Value(): Worker
      reads this, Detectors()
    {
      Worker(map k | k in state :: Tracker(state[k].0.Value(), state[k].1), published)
    }

    constructor (elevation: (Geo, Geo) -> real)
      ensures Valid() && Value() == EMPTY && observers == [] && this.elevation == elevation
      ensures Detectors() == {}
    {
      this.elevation := elevation;
      state, observers, published := map[], [], [];
    }

    /** The pair's detector and last sample, a fresh detector for a pair not seen before. */
    method Lookup(key: Key) returns (ps: PassState, prev: Option<Sample>)
      requires Valid()
      ensures key in state ==> (ps, prev) == state[key]
      ensures key !in state ==> fresh(ps) && ps.Value() == FRESH && prev == None
      ensures forall k :: k in state && k != key ==> state[k].0 != ps
    {
      if key in state {
        ps, prev := state[key].0, state[key].1;
      } else {
        ps := new PassState();
        prev := None;
      }
    }

    /** Store a pair's detector and newest sample. */
    method Store(key: Key, ps: PassState, sample: Sample, ghost was: map<Key, Tracker>)
      requires Valid()
      requires forall k :: k in state && k != key ==> state[k].0 != ps
      requires forall k :: k != key ==> (k in state <==> k in was)
      requires forall k :: k in state && k != key ==> was[k] == Tracker(state[k].0.Value(), state[k].1)
      modifies this`state
      ensures Valid() && Detectors() <= old(Detectors()) + {ps}
      ensures Value() == Worker(was[key := Tracker(ps.Value(), Some(sample))], published)
    {
      state := state[key := (ps, Some(sample))];
    }

    /** Store it, and publish the event if there is one. */
    method Record(key: Key, ps: PassState, sample: Sample, evt: Option<PassEvent>, ghost was: map<Key, Tracker>)
      requires Valid()
      requires forall k :: k in state && k != key ==> state[k].0 != ps
      requires forall k :: k != key ==> (k in state <==> k in was)
      requires forall k :: k in state && k != key ==> was[k] == Tracker(state[k].0.Value(), state[k].1)
      modifies this`state, this`published
      ensures Valid() && Detectors() <= old(Detectors()) + {ps}
      ensures Value() == Worker(was[key := Tracker(ps.Value(), Some(sample))],
                                old(published) + (if evt.Some? then [Published(key, evt.value)] else []))
    {
      Store(key, ps, sample, was);
      if evt.Some? {
        published := published + [Published(key, evt.value)];
      }
    }

    /** One detector call for a pair. */
    method Call(key: Key, sample: Sample)
      requires Valid()
      modifies this`state, this`published, Detectors()
      ensures Valid() && fresh(Detectors() - old(Detectors()))
      ensures Value() == Handle(old(Value()), Visit(key, sample))
    {
      ghost var w := Value();
      var ps, prev := Lookup(key);
      assert TrackerOf(w, key) == Tracker(ps.Value(), prev);
      assert forall k :: k in state && k != key ==> w.trackers[k] == Tracker(state[k].0.Value(), state[k].1);
      label called:
      var evt := ps.Detect(prev, sample);
      assert forall k :: k in state && k != key ==> state[k].0.Value() == old@called(state[k].0.Value());
      Record(key, ps, sample, evt, w.trackers);
    }

    /** One detector call per observer, each with its own elevation. */
    method CallEach(norad: string, at: Geo, t: real)
      requires Valid()
      modifies this`state, this`published, Detectors()
      ensures Valid() && fresh(Detectors() - old(Detectors()))
      ensures Value() == HandleAll(old(Value()), VisitsOf(elevation, observers, Decoded(norad, t, at)))
    {
      ghost var visits := VisitsOf(elevation, observers, Decoded(norad, t, at));
      for i := 0 to |observers|
        invariant Valid() && fresh(Detectors() - old(Detectors()))
        invariant Value() == HandleAll(old(Value()), visits[..i])
      {
        var obs := observers[i];
        TakeOneMore(visits, i);
        Call((norad, obs.id), Sample(elevation(obs.site, at), t));
      }
      TakeAll(visits);
    }

    lemma StateShows(k: Key)
      requires NewestSample(Value(), k).Some?
      ensures k in state && state[k].1 == NewestSample(Value(), k)
    {
    }

    /** Each observer's pair holds its own sample of the message. */
    ghost predicate Shows(msg: Position)
      requires msg.Decoded?
      reads this
    {
      forall i :: 0 <= i < |observers| ==>
        var k := (msg.norad, observers[i].id);
        k in state && state[k].1 == Some(Sample(elevation(observers[i].site, msg.at), msg.t))
    }

    lemma HandledShows(w: Worker, msg: Position)
      requires msg.Decoded? && DistinctIds(observers)
      requires Value() == HandleAll(w, VisitsOf(elevation, observers, msg))
      ensures Shows(msg)
    {
      MessageReachesObservers(w, elevation, observers, msg);
      forall i | 0 <= i < |observers|
        ensures var k := (msg.norad, observers[i].id);
                k in state && state[k].1 == Some(Sample(elevation(observers[i].site, msg.at), msg.t))
      {
        StateShows((msg.norad, observers[i].id));
      }
    }

    /**
     One message: refresh the observers if due, skip it if there are none or it cannot
     be decoded. Otherwise each observer's pair ends with its own sample of it.
     */
    method Consume(input: Input)
      requires Valid()
      modifies this`state, this`observers, this`published, Detectors()
      ensures Valid() && fresh(Detectors() - old(Detectors()))
      ensures observers == if input.refresh.Some? then input.refresh.value else old(observers)
      ensures Value() == HandleAll(old(Value()), VisitsOf(elevation, observers, input.msg))
      ensures DistinctIds(observers) && input.msg.Decoded? ==> Shows(input.msg)
    {
      if input.refresh.Some? {
        observers := input.refresh.value;
      }
      if observers == [] || input.msg.Undecodable? {
        return;
      }
      ghost var w := Value();
      assert w == old(Value()) && input.msg == Decoded(input.msg.norad, input.msg.t, input.msg.at);
      CallEach(input.msg.norad, input.msg.at, input.msg.t);
      if DistinctIds(observers) { HandledShows(w, input.msg); }
    }

    /** The whole stream: the worker ends as handling all its visits in order would leave it. */
    method ConsumeAll(inputs: seq<Input>)
      requires Valid() && Value() == EMPTY && observers == []
      modifies this`state, this`observers, this`published, Detectors()
      ensures Valid() && observers == ObserversAfter(inputs)
      ensures Value() == HandleAll(EMPTY, Visits(elevation, inputs))
    {
      for i := 0 to |inputs|
        invariant Valid() && fresh(Detectors() - old(Detectors()))
        invariant observers == ObserversAfter(inputs[..i])
        invariant Value() == HandleAll(EMPTY, Visits(elevation, inputs[..i]))
      {
        TakeOneMore(inputs, i);
        Consume(inputs[i]);
        HandleConcat(EMPTY, Visits(elevation, inputs[..i]), VisitsOf(elevation, observers, inputs[i].msg));
      }
      assert inputs[..|inputs|] == inputs;
    }
  }
}

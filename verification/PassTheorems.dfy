/** What a detector started fresh reports about any sample sequence whatever. */
module PassTheorems {
  import opened Seqs
  import opened Passes

  function Calls(samples: seq<Sample>): seq<Option<PassEvent>> { Outputs(START, samples) }

  predicate Fires(outs: seq<Option<PassEvent>>, i: nat, k: Kind)
    requires i < |outs|
  {
    outs[i].Some? && outs[i].value.kind == k
  }

  // ---- `emitted` is what fired since the last set_0 ----

  function SinceReset(outs: seq<Option<PassEvent>>): set<Kind> {
    if outs == [] then {}
    else
      match Last(outs)
      case None => SinceReset(Front(outs))
      case Some(e) => if e.kind.Set0? then {} else SinceReset(Front(outs)) + {e.kind}
  }

  lemma {:induction false} EmittedIsSinceReset(samples: seq<Sample>)
    ensures Run(START, samples).st.emitted == SinceReset(Calls(samples))
    decreases |samples|
  {
    if samples != [] {
      EmittedIsSinceReset(Front(samples));
      assert Front(Calls(samples)) == Calls(Front(samples));
    }
  }

  /** Kind `k` has fired at some call and set_0 has not fired since. */
  ghost predicate Pending(outs: seq<Option<PassEvent>>, k: Kind) {
    exists j :: 0 <= j < |outs| && Fires(outs, j, k) && forall m :: j < m < |outs| ==> !Fires(outs, m, Set0)
  }

  lemma PendingExtends(outs: seq<Option<PassEvent>>, k: Kind)
    requires outs != [] && k != Set0
    ensures Pending(outs, k) <==>
              Fires(outs, |outs| - 1, k) || (Pending(Front(outs), k) && !Fires(outs, |outs| - 1, Set0))
  {
    var front, n := Front(outs), |outs| - 1;
    assert forall m, x :: 0 <= m < n ==> Fires(front, m, x) == Fires(outs, m, x);
    if Pending(front, k) && !Fires(outs, n, Set0) {
      var j :| 0 <= j < n && Fires(front, j, k) && forall m :: j < m < n ==> !Fires(front, m, Set0);
      forall m | j < m < |outs|
        ensures !Fires(outs, m, Set0)
      {
        if m < n { assert !Fires(front, m, Set0); }
      }
      assert Fires(outs, j, k);
    }
    if Pending(outs, k) && !Fires(outs, n, k) {
      var j :| 0 <= j < |outs| && Fires(outs, j, k) && forall m :: j < m < |outs| ==> !Fires(outs, m, Set0);
      forall m | j < m < n
        ensures !Fires(front, m, Set0)
      {
        assert !Fires(outs, m, Set0);
      }
      assert Fires(front, j, k) && !Fires(outs, n, Set0);
    }
  }

  lemma {:induction false} SinceResetIsPending(outs: seq<Option<PassEvent>>, k: Kind)
    requires k != Set0
    ensures k in SinceReset(outs) <==> Pending(outs, k)
    decreases |outs|
  {
    if outs != [] {
      SinceResetIsPending(Front(outs), k);
      PendingExtends(outs, k);
    }
  }

  lemma PendingNow(samples: seq<Sample>, i: nat, k: Kind)
    requires i <= |samples| && k != Set0
    ensures k in Run(START, samples[..i]).st.emitted <==> Pending(Calls(samples)[..i], k)
    ensures Set0 !in Run(START, samples[..i]).st.emitted
  {
    EmittedIsSinceReset(samples[..i]);
    PrefixCalls(samples, i);
    SinceResetIsPending(Calls(samples)[..i], k);
    NoSet0(Calls(samples)[..i]);
  }

  lemma {:induction false} NoSet0(outs: seq<Option<PassEvent>>)
    ensures Set0 !in SinceReset(outs)
    decreases |outs|
  {
    if outs != [] { NoSet0(Front(outs)); }
  }

  lemma PrefixCalls(samples: seq<Sample>, i: nat)
    requires i <= |samples|
    ensures Calls(samples[..i]) == Calls(samples)[..i]
  {
    OutputsConcat(START, samples[..i], samples[i..]);
    assert samples[..i] + samples[i..] == samples;
  }

  lemma CallAt(samples: seq<Sample>, i: nat) returns (tr: Tracker)
    requires i < |samples|
    ensures tr == Run(START, samples[..i])
    ensures tr.prev == if i == 0 then None else Some(samples[i - 1])
    ensures Calls(samples)[i] == Step(tr, samples[i]).1
    ensures Set0 !in tr.st.emitted
  {
    tr := Run(START, samples[..i]);
    OutputAt(START, samples, i);
    PrevAt(START, samples, i);
    PendingNow(samples, i, Rise0);
  }

  /** Nothing but set_0 fires twice without a set_0 in between. */
  lemma OncePerPass(samples: seq<Sample>, i: nat, j: nat, k: Kind)
    requires i < j < |samples| && k != Set0
    requires Fires(Calls(samples), i, k) && Fires(Calls(samples), j, k)
    ensures exists m :: i < m < j && Fires(Calls(samples), m, Set0)
  {
    var tr := CallAt(samples, j);
    PendingNow(samples, j, k);
    var outs := Calls(samples)[..j];
    assert k !in tr.st.emitted;
    assert Fires(outs, i, k);
    assert !(forall m :: i < m < |outs| ==> !Fires(outs, m, Set0));
    var m :| i < m < |outs| && Fires(outs, m, Set0);
    assert Fires(Calls(samples), m, Set0);
  }

  // ---- Horizon crossings ----

  /** set_0 fires on exactly the calls that go from above the horizon to it or below it. */
  lemma Set0Exactly(samples: seq<Sample>, i: nat)
    requires i < |samples|
    ensures Fires(Calls(samples), i, Set0) <==> i > 0 && samples[i - 1].elev > 0.0 >= samples[i].elev
  {
    var tr := CallAt(samples, i);
  }

  /**
   rise_0 fires on exactly the calls that go from below the horizon to it or above
   it, except when an earlier rise_0 has not been followed by a set_0.
   */
  lemma Rise0Exactly(samples: seq<Sample>, i: nat)
    requires i < |samples|
    ensures Fires(Calls(samples), i, Rise0)
       <==> i > 0 && samples[i - 1].elev < 0.0 <= samples[i].elev && !Pending(Calls(samples)[..i], Rise0)
  {
    var tr := CallAt(samples, i);
    PendingNow(samples, i, Rise0);
  }

  // ---- The same on the samples alone ----

  predicate GoesUp(samples: seq<Sample>, i: nat, thr: real) {
    0 < i < |samples| && Rises(samples[i - 1], samples[i], thr)
  }

  predicate GoesDown(samples: seq<Sample>, i: nat, thr: real) {
    0 < i < |samples| && Sets(samples[i - 1], samples[i], thr)
  }

  /** The calls that go from below the threshold to it or above. */
  ghost function Upward(samples: seq<Sample>, thr: real): set<nat> {
    set i: nat | i < |samples| && GoesUp(samples, i, thr)
  }

  /** The calls that go from above the threshold to it or below. */
  ghost function Downward(samples: seq<Sample>, thr: real): set<nat> {
    set i: nat | i < |samples| && GoesDown(samples, i, thr)
  }

  /** The satellite goes from above the horizon to it or below it at a call strictly between the two. */
  ghost predicate SetsBetween(samples: seq<Sample>, j: nat, i: nat) {
    exists m :: m in Downward(samples, 0.0) && j < m < i
  }

  /** `i` is the first of the candidate calls since the satellite last set. */
  ghost predicate FirstSinceSet(samples: seq<Sample>, candidates: set<nat>, i: nat) {
    i in candidates && forall j :: j in candidates && j < i ==> SetsBetween(samples, j, i)
  }

  /** A kind that fires on every candidate call that finds it not pending is pending from the first candidate to the next set. */
  lemma PendingFromFirst(samples: seq<Sample>, i: nat, k: Kind, candidates: set<nat>)
    requires i <= |samples| && k != Set0
    requires forall j :: 0 <= j < i ==> (Fires(Calls(samples), j, k) <==> j in candidates && !Pending(Calls(samples)[..j], k))
    requires forall j :: j in candidates && j < i ==> j !in Downward(samples, 0.0)
    ensures Pending(Calls(samples)[..i], k) <==> exists j :: j in candidates && j < i && !SetsBetween(samples, j, i)
  {
    var outs := Calls(samples)[..i];
    forall m | 0 <= m < i
      ensures Fires(outs, m, Set0) <==> m in Downward(samples, 0.0)
    {
      Set0Exactly(samples, m);
    }
    if Pending(outs, k) {
      var j :| 0 <= j < i && Fires(outs, j, k) && forall m :: j < m < i ==> !Fires(outs, m, Set0);
      assert Fires(Calls(samples), j, k);
    }
    if j: nat :| j in candidates && j < i && !SetsBetween(samples, j, i) {
      if Fires(Calls(samples), j, k) {
        assert Fires(outs, j, k);
      } else {
        var before := Calls(samples)[..j];
        var first :| 0 <= first < j && Fires(before, first, k) && forall m :: first < m < j ==> !Fires(before, m, Set0);
        assert Fires(outs, first, k);
        assert forall m :: first < m < j ==> Fires(before, m, Set0) == Fires(outs, m, Set0);
      }
    }
  }

  lemma PendingRise0(samples: seq<Sample>, i: nat)
    requires i <= |samples|
    ensures Pending(Calls(samples)[..i], Rise0) <==>
              exists j :: j in Upward(samples, 0.0) && j < i && !SetsBetween(samples, j, i)
  {
    forall j: nat | j < i
      ensures Fires(Calls(samples), j, Rise0) <==> j in Upward(samples, 0.0) && !Pending(Calls(samples)[..j], Rise0)
    {
      Rise0Exactly(samples, j);
    }
    PendingFromFirst(samples, i, Rise0, Upward(samples, 0.0));
  }

  /** rise_0 fires on exactly the first call from below the horizon to it or above since the satellite last set. */
  lemma Rise0OnSamples(samples: seq<Sample>, i: nat)
    requires i < |samples|
    ensures Fires(Calls(samples), i, Rise0) <==> FirstSinceSet(samples, Upward(samples, 0.0), i)
  {
    Rise0Exactly(samples, i);
    PendingRise0(samples, i);
  }

  /** The calls that go up through 10 degrees and are not taken by a rise_0. */
  ghost function Upward10(samples: seq<Sample>): set<nat> {
    set i | i in Upward(samples, 10.0) && !FirstSinceSet(samples, Upward(samples, 0.0), i)
  }

  /** The calls that go down through 10 degrees and stay above the horizon. */
  ghost function Downward10(samples: seq<Sample>): set<nat> {
    set i | i in Downward(samples, 10.0) && samples[i].elev > 0.0
  }

  lemma TenDegreeCall(samples: seq<Sample>, i: nat)
    requires i < |samples|
    ensures Fires(Calls(samples), i, Rise10) <==>
              i in Upward(samples, 10.0) && !Fires(Calls(samples), i, Rise0) && !Pending(Calls(samples)[..i], Rise10)
    ensures Fires(Calls(samples), i, Set10) <==>
              i in Downward10(samples) && !Pending(Calls(samples)[..i], Set10)
  {
    var tr := CallAt(samples, i);
    PendingNow(samples, i, Rise10);
    PendingNow(samples, i, Set10);
  }

  /** rise_10 fires on exactly the first upward call through 10 degrees, not itself a rise_0, since the satellite last set. */
  lemma Rise10Exactly(samples: seq<Sample>, i: nat)
    requires i < |samples|
    ensures Fires(Calls(samples), i, Rise10) <==> FirstSinceSet(samples, Upward10(samples), i)
  {
    forall j: nat | j <= i
      ensures Fires(Calls(samples), j, Rise10) <==> j in Upward10(samples) && !Pending(Calls(samples)[..j], Rise10)
    {
      TenDegreeCall(samples, j);
      Rise0OnSamples(samples, j);
    }
    PendingFromFirst(samples, i, Rise10, Upward10(samples));
  }

  /** set_10 fires on exactly the first downward call through 10 degrees that ends above the horizon, since the satellite last set. */
  lemma Set10Exactly(samples: seq<Sample>, i: nat)
    requires i < |samples|
    ensures Fires(Calls(samples), i, Set10) <==> FirstSinceSet(samples, Downward10(samples), i)
  {
    forall j: nat | j <= i
      ensures Fires(Calls(samples), j, Set10) <==> j in Downward10(samples) && !Pending(Calls(samples)[..j], Set10)
    {
      TenDegreeCall(samples, j);
    }
    PendingFromFirst(samples, i, Set10, Downward10(samples));
  }

  // ---- With no sample on the horizon ----

  ghost predicate OffHorizon(samples: seq<Sample>) {
    forall i :: 0 <= i < |samples| ==> samples[i].elev != 0.0
  }

  lemma StepBelow(tr: Tracker, s: Sample)
    requires s.elev < 0.0 && Set0 !in tr.st.emitted
    requires tr.st.emitted == {} || (tr.prev.Some? && tr.prev.value.elev > 0.0)
    ensures Step(tr, s).0.st.emitted == {}
  {
  }

  /** With no sample exactly on the horizon, nothing is pending while the satellite is below it. */
  lemma {:induction false} NothingPendingBelow(samples: seq<Sample>, i: nat)
    requires OffHorizon(samples) && 0 < i <= |samples| && samples[i - 1].elev < 0.0
    ensures Run(START, samples[..i]).st.emitted == {}
    decreases i
  {
    var tr := CallAt(samples, i - 1);
    OutputAt(START, samples, i - 1);
    if i == 1 {
      assert samples[..0] == [];
    } else if samples[i - 2].elev < 0.0 {
      NothingPendingBelow(samples, i - 1);
    }
    StepBelow(tr, samples[i - 1]);
  }

  /** ... so rise_0 fires on exactly the calls from below to above, and set_0 on exactly those from above to below. */
  lemma HorizonCrossings(samples: seq<Sample>, i: nat)
    requires OffHorizon(samples) && i < |samples|
    ensures Fires(Calls(samples), i, Rise0) <==> i > 0 && samples[i - 1].elev < 0.0 < samples[i].elev
    ensures Fires(Calls(samples), i, Set0) <==> i > 0 && samples[i - 1].elev > 0.0 > samples[i].elev
  {
    var tr := CallAt(samples, i);
    Set0Exactly(samples, i);
    if i > 0 && samples[i - 1].elev < 0.0 {
      NothingPendingBelow(samples, i);
    }
  }

  /** Between two rise_0 there is always a set_0; between two set_0 there is a rise_0 if no sample is on the horizon. */
  lemma HorizonAlternates(samples: seq<Sample>, i: nat, j: nat)
    requires i < j < |samples|
    ensures Fires(Calls(samples), i, Rise0) && Fires(Calls(samples), j, Rise0) ==>
              exists m :: i < m < j && Fires(Calls(samples), m, Set0)
    ensures OffHorizon(samples) && Fires(Calls(samples), i, Set0) && Fires(Calls(samples), j, Set0) ==>
              exists m :: i < m < j && Fires(Calls(samples), m, Rise0)
  {
    if Fires(Calls(samples), i, Rise0) && Fires(Calls(samples), j, Rise0) {
      OncePerPass(samples, i, j, Rise0);
    }
    if OffHorizon(samples) && Fires(Calls(samples), i, Set0) && Fires(Calls(samples), j, Set0) {
      HorizonCrossings(samples, i);
      HorizonCrossings(samples, j);
      var m := RisesBetween(samples, i, j - 1);
      HorizonCrossings(samples, m);
    }
  }

  lemma {:induction false} RisesBetween(samples: seq<Sample>, a: nat, b: nat) returns (m: nat)
    requires OffHorizon(samples) && a < b < |samples| && samples[a].elev < 0.0 < samples[b].elev
    ensures a < m <= b && samples[m - 1].elev < 0.0 < samples[m].elev
    decreases b - a
  {
    if samples[b - 1].elev < 0.0 {
      m := b;
    } else {
      m := RisesBetween(samples, a, b - 1);
    }
  }

  /** A sample exactly on the horizon breaks both: this satellite never gets its second rise_0. */
  lemma GrazingHidesRise(t: real)
    ensures var samples := [Sample(-1.0, t), Sample(0.0, t), Sample(-1.0, t), Sample(1.0, t)];
            && Fires(Calls(samples), 1, Rise0)
            && samples[2].elev < 0.0 < samples[3].elev && !Fires(Calls(samples), 3, Rise0)
  {
    var samples := [Sample(-1.0, t), Sample(0.0, t), Sample(-1.0, t), Sample(1.0, t)];
    Rise0Exactly(samples, 1);
    Rise0Exactly(samples, 3);
    Set0Exactly(samples, 2);
    Set0Exactly(samples, 0);
    var outs := Calls(samples)[..3];
    var before := Calls(samples)[..1];
    assert !Pending(before, Rise0) by {
      Rise0Exactly(samples, 0);
      assert before[0] == Calls(samples)[0];
    }
    assert Fires(outs, 1, Rise0) && !Fires(outs, 2, Set0);
    assert Pending(outs, Rise0);
  }

  // ---- Culmination ----

  /** A remembered `prev_prev` may be stale, but then a rise was reported in between. */
  lemma {:induction false} PrevPrevStale(samples: seq<Sample>, i: nat)
    requires 0 < i <= |samples|
    ensures var pp := Run(START, samples[..i]).st.prevPrev;
            pp.Some? && samples[i - 1].elev > 10.0 ==>
              i > 1 && (pp == Some(samples[i - 2]) || samples[i - 2].elev < samples[i - 1].elev)
    decreases i
  {
  }

  /**
   Every culmination names a strict local maximum of the real sample sequence,
   above 10 degrees, with that sample's own time and elevation.
   */
  lemma CulminationIsPeak(samples: seq<Sample>, i: nat)
    requires i < |samples| && Fires(Calls(samples), i, Culmination)
    ensures i >= 2
    ensures samples[i - 2].elev < samples[i - 1].elev && samples[i].elev < samples[i - 1].elev
    ensures samples[i - 1].elev > 10.0
    ensures Calls(samples)[i] == Some(PassEvent(Culmination, samples[i - 1].t, samples[i - 1].elev))
  {
    var tr := CallAt(samples, i);
    if i > 0 { PrevPrevStale(samples, i); }
  }

  /**
   The detector's record of the peak: that of the culmination reported by the call,
   none after a set_0, and otherwise what it was.
   */
  lemma PeakIsRecorded(samples: seq<Sample>, i: nat)
    requires i < |samples|
    ensures var before, after := Run(START, samples[..i]).st, Run(START, samples[..i + 1]).st;
            if Fires(Calls(samples), i, Culmination) then
              i > 0 && after.lastPeak == samples[i - 1].elev && after.peakTs == Some(samples[i - 1].t)
            else if Fires(Calls(samples), i, Set0) then after.lastPeak == -90.0 && after.peakTs == None
            else after.lastPeak == before.lastPeak && after.peakTs == before.peakTs
    ensures Run(START, []).st.lastPeak == -90.0 && Run(START, []).st.peakTs == None
  {
    var tr := CallAt(samples, i);
    OutputAt(START, samples, i);
  }

  /** The call remembers its previous sample: it reports nothing, or a culmination. */
  predicate Stores(outs: seq<Option<PassEvent>>, c: nat)
    requires c < |outs|
  {
    outs[c].None? || outs[c].value.kind.Culmination?
  }

  /** Call `c` is the last to have remembered its previous sample; only rises and set_10 were reported since. */
  ghost predicate Remembered(outs: seq<Option<PassEvent>>, c: nat, i: nat)
    requires i <= |outs|
  {
    && 0 < c < i && Stores(outs, c)
    && forall m :: c < m < i ==> !Stores(outs, m) && !Fires(outs, m, Set0)
  }

  /** What `prev_prev` holds before call `i`: the remembered sample, if there is one. */
  ghost predicate PrevPrevIs(samples: seq<Sample>, outs: seq<Option<PassEvent>>, i: nat, pp: Option<Sample>)
    requires i <= |samples| == |outs|
  {
    && (pp.Some? ==> exists c :: Remembered(outs, c, i))
    && (forall c :: Remembered(outs, c, i) ==> pp == Some(samples[c - 1]))
  }

  lemma PrevPrevNext(samples: seq<Sample>, outs: seq<Option<PassEvent>>, i: nat, pp: Option<Sample>, pp': Option<Sample>)
    requires i < |samples| == |outs| && PrevPrevIs(samples, outs, i, pp)
    requires pp' == if Stores(outs, i) then (if i == 0 then None else Some(samples[i - 1]))
                    else if Fires(outs, i, Set0) then None else pp
    ensures PrevPrevIs(samples, outs, i + 1, pp')
  {
    RememberedStep(outs, i + 1);
    if pp'.Some? {
      if Stores(outs, i) {
        assert Remembered(outs, i, i + 1);
      } else {
        var c :| Remembered(outs, c, i);
        assert Remembered(outs, c, i + 1);
      }
    }
  }

  lemma {:induction false} PrevPrevAt(samples: seq<Sample>, i: nat)
    requires i <= |samples|
    ensures PrevPrevIs(samples, Calls(samples), i, Run(START, samples[..i]).st.prevPrev)
    decreases i
  {
    if i == 0 {
      assert samples[..0] == [];
    } else {
      PrevPrevAt(samples, i - 1);
      var tr := CallAt(samples, i - 1);
      OutputAt(START, samples, i - 1);
      PrevPrevStep(tr, samples[i - 1]);
      PrevPrevNext(samples, Calls(samples), i - 1, tr.st.prevPrev, Run(START, samples[..i]).st.prevPrev);
    }
  }

  lemma PrevPrevStep(tr: Tracker, s: Sample)
    requires Set0 !in tr.st.emitted
    ensures var (tr', evt) := Step(tr, s);
            tr'.st.prevPrev == if evt.None? || evt.value.kind.Culmination? then tr.prev
                               else if evt.value.kind.Set0? then None else tr.st.prevPrev
  {
  }

  lemma RememberedStep(outs: seq<Option<PassEvent>>, i: nat)
    requires 0 < i <= |outs|
    ensures forall c :: Remembered(outs, c, i) <==>
              if Stores(outs, i - 1) then c == i - 1 && i > 1
              else !Fires(outs, i - 1, Set0) && Remembered(outs, c, i - 1)
  {
  }

  /**
   A culmination is reported exactly when the previous sample, above 10 degrees, is
   higher than this one and than the remembered one, nothing else is reported for
   this call, and no culmination is pending. The remembered sample is stale after
   rises and set_10.
   */
  lemma CulminationExactly(samples: seq<Sample>, i: nat)
    requires i < |samples|
    ensures Fires(Calls(samples), i, Culmination) <==>
              && i > 1 && samples[i].elev < samples[i - 1].elev && samples[i - 1].elev > 10.0
              && samples[i].elev > 0.0 && !Fires(Calls(samples), i, Set10)
              && !Pending(Calls(samples)[..i], Culmination)
              && exists c :: Remembered(Calls(samples), c, i) && samples[c - 1].elev < samples[i - 1].elev
  {
    var tr := CallAt(samples, i);
    PendingNow(samples, i, Culmination);
    PrevPrevAt(samples, i);
    if i > 0 { PeakStep(tr, samples[i]); }
  }

  lemma PeakStep(tr: Tracker, s: Sample)
    requires tr.prev.Some? && Set0 !in tr.st.emitted
    ensures var evt, p := Step(tr, s).1, tr.prev.value;
            evt.Some? && evt.value.kind.Culmination? <==>
              && Peaks(p, s, tr.st) && s.elev > 0.0 && !(evt.Some? && evt.value.kind.Set10?)
  {
  }

  /** Call `c` reports a rise or a set, on the samples alone. */
  ghost predicate Crosses(samples: seq<Sample>, c: nat) {
    || c in Downward(samples, 0.0)
    || FirstSinceSet(samples, Upward(samples, 0.0), c)
    || FirstSinceSet(samples, Upward10(samples), c)
    || FirstSinceSet(samples, Downward10(samples), c)
  }

  lemma StoresIffNoCrossing(samples: seq<Sample>, c: nat)
    requires c < |samples|
    ensures Stores(Calls(samples), c) <==> !Crosses(samples, c)
    ensures Fires(Calls(samples), c, Set0) <==> c in Downward(samples, 0.0)
  {
    Set0Exactly(samples, c);
    Rise0OnSamples(samples, c);
    Rise10Exactly(samples, c);
    Set10Exactly(samples, c);
  }

  /** The sample before call `c` is the one remembered at call `i`: every call since has crossed a threshold without setting. */
  ghost predicate KeptSince(samples: seq<Sample>, c: nat, i: nat) {
    && 0 < c < i && !Crosses(samples, c)
    && forall m :: c < m < i ==> Crosses(samples, m) && m !in Downward(samples, 0.0)
  }

  lemma RememberedOnSamples(samples: seq<Sample>, c: nat, i: nat)
    requires i <= |samples|
    ensures Remembered(Calls(samples), c, i) <==> KeptSince(samples, c, i)
  {
    forall m | 0 <= m < i
      ensures Stores(Calls(samples), m) <==> !Crosses(samples, m)
      ensures Fires(Calls(samples), m, Set0) <==> m in Downward(samples, 0.0)
    {
      StoresIffNoCrossing(samples, m);
    }
  }

  /** The previous sample, above 10 degrees, is higher than this one and than the remembered one, and this call sets nothing. */
  ghost predicate PeaksAt(samples: seq<Sample>, i: nat) {
    && 1 < i < |samples| && samples[i].elev < samples[i - 1].elev && samples[i - 1].elev > 10.0
    && samples[i].elev > 0.0 && !FirstSinceSet(samples, Downward10(samples), i)
    && exists c :: KeptSince(samples, c, i) && samples[c - 1].elev < samples[i - 1].elev
  }

  ghost function PeakCalls(samples: seq<Sample>): set<nat> {
    set i: nat | i < |samples| && PeaksAt(samples, i)
  }

  lemma CulminationCall(samples: seq<Sample>, i: nat)
    requires i < |samples|
    ensures Fires(Calls(samples), i, Culmination) <==>
              i in PeakCalls(samples) && !Pending(Calls(samples)[..i], Culmination)
  {
    CulminationExactly(samples, i);
    Set10Exactly(samples, i);
    forall c: nat
      ensures Remembered(Calls(samples), c, i) <==> KeptSince(samples, c, i)
    {
      RememberedOnSamples(samples, c, i);
    }
  }

  /** A culmination is reported on exactly the first such call since the satellite last set. */
  lemma CulminationOnSamples(samples: seq<Sample>, i: nat)
    requires i < |samples|
    ensures Fires(Calls(samples), i, Culmination) <==> FirstSinceSet(samples, PeakCalls(samples), i)
  {
    forall j: nat | j <= i
      ensures Fires(Calls(samples), j, Culmination) <==>
                j in PeakCalls(samples) && !Pending(Calls(samples)[..j], Culmination)
    {
      CulminationCall(samples, j);
    }
    PendingFromFirst(samples, i, Culmination, PeakCalls(samples));
  }

  // ---- Event times ----

  ghost predicate TimesNeverDecrease(samples: seq<Sample>) {
    forall i, j :: 0 <= i < j < |samples| ==> samples[i].t <= samples[j].t
  }

  lemma FractionBounds(x: real, d: real)
    requires d != 0.0 && (0.0 <= x <= d || d <= x <= 0.0)
    ensures 0.0 <= x / d <= 1.0
  {
  }

  lemma ScaledBetween(a: real, len: real, frac: real)
    requires len >= 0.0 && 0.0 <= frac <= 1.0
    ensures a <= a + len * frac <= a + len
  {
  }

  lemma CrossingBetween(prev: Sample, curr: Sample, thr: real)
    requires Rises(prev, curr, thr) || Sets(prev, curr, thr)
    requires prev.t <= curr.t
    ensures prev.t <= InterpolateCrossing(prev, curr, thr) <= curr.t
  {
    var dy := curr.elev - prev.elev;
    if Abs(dy) >= 0.000000001 && curr.t - prev.t > 0.0 {
      var len, frac := curr.t - prev.t, (thr - prev.elev) / dy;
      FractionBounds(thr - prev.elev, dy);
      ScaledBetween(prev.t, len, frac);
      assert InterpolateCrossing(prev, curr, thr) == prev.t + len * frac;
      assert prev.t + len == curr.t;
    }
  }

  /** On a segment that is neither flat nor instantaneous, the line through both samples meets the threshold then. */
  lemma CrossingIsOnTheLine(prev: Sample, curr: Sample, thr: real)
    requires prev.t < curr.t && Abs(curr.elev - prev.elev) >= 0.000000001
    ensures var t := InterpolateCrossing(prev, curr, thr);
            prev.elev + (curr.elev - prev.elev) * ((t - prev.t) / (curr.t - prev.t)) == thr
  {
  }

  /**
   A rise or set carries its threshold as elevation and the time at which the line
   through the two samples is there; a segment that is nearly flat, or not forward in
   time, gives the time of the new sample.
   */
  lemma CrossingEventIsOnTheLine(samples: seq<Sample>, i: nat)
    requires i < |samples| && Calls(samples)[i].Some? && !Fires(Calls(samples), i, Culmination)
    ensures i > 0
    ensures var p, c, e := samples[i - 1], samples[i], Calls(samples)[i].value;
            && e.elev == (if e.kind.Rise0? || e.kind.Set0? then 0.0 else 10.0)
            && (if p.t < c.t && (c.elev - p.elev >= 0.000000001 || p.elev - c.elev >= 0.000000001)
                then p.elev + (c.elev - p.elev) * ((e.t - p.t) / (c.t - p.t)) == e.elev
                else e.t == c.t)
  {
    var tr := CallAt(samples, i);
    if i > 0 {
      var p, c := samples[i - 1], samples[i];
      if p.t < c.t && Abs(c.elev - p.elev) >= 0.000000001 {
        CrossingIsOnTheLine(p, c, 0.0);
        CrossingIsOnTheLine(p, c, 10.0);
      }
    }
  }

  /** An event is timed between the two samples of its call. */
  lemma EventWithinCall(samples: seq<Sample>, i: nat)
    requires i < |samples| && Calls(samples)[i].Some?
    requires i > 0 ==> samples[i - 1].t <= samples[i].t
    ensures i > 0 && samples[i - 1].t <= Calls(samples)[i].value.t <= samples[i].t
  {
    var tr := CallAt(samples, i);
    if i > 0 {
      var p, c := samples[i - 1], samples[i];
      if Rises(p, c, 0.0) || Sets(p, c, 0.0) { CrossingBetween(p, c, 0.0); }
      if Rises(p, c, 10.0) || Sets(p, c, 10.0) { CrossingBetween(p, c, 10.0); }
    }
  }

  /** So with samples in time order the events come in time order. */
  lemma EventTimesNeverDecrease(samples: seq<Sample>, i: nat, j: nat)
    requires TimesNeverDecrease(samples) && i < j < |samples|
    requires Calls(samples)[i].Some? && Calls(samples)[j].Some?
    ensures Calls(samples)[i].value.t <= Calls(samples)[j].value.t
  {
    EventWithinCall(samples, i);
    EventWithinCall(samples, j);
    if i < j - 1 { assert samples[i].t <= samples[j - 1].t; }
  }
}

/**
 Whole passes: a strictly rising arc followed by a strictly falling one, both ends
 below the horizon. The reported kinds are determined exactly, for every such arc.
 */
module PassArcs {
  import opened Seqs
  import opened Passes

  /** The rising part ends at the peak, the falling part starts right after it. */
  datatype Arc = Arc(up: seq<Sample>, down: seq<Sample>)

  ghost predicate Ascending(s: seq<Sample>) {
    forall i, j :: 0 <= i < j < |s| ==> s[i].elev < s[j].elev
  }

  ghost predicate Falling(s: seq<Sample>) {
    forall i, j :: 0 <= i < j < |s| ==> s[i].elev > s[j].elev
  }

  ghost predicate IsArc(a: Arc) {
    && a.up != [] && a.down != []
    && Ascending(a.up) && Falling(a.down)
    && Last(a.up).elev > a.down[0].elev
    && a.up[0].elev < 0.0 && Last(a.down).elev < 0.0
  }

  function Peak(a: Arc): real
    requires a.up != []
  {
    Last(a.up).elev
  }

  /** A rising sample at or above the horizon and below ten degrees. */
  ghost predicate LowRising(up: seq<Sample>) { exists i :: 0 <= i < |up| && 0.0 <= up[i].elev < 10.0 }

  /** A falling sample above the horizon and at ten degrees or below. */
  ghost predicate LowFalling(down: seq<Sample>) { exists i :: 0 <= i < |down| && 0.0 < down[i].elev <= 10.0 }

  predicate FlatStep(p: Sample, c: Sample) { !Rises(p, c, 0.0) && !Rises(p, c, 10.0) }

  /** A rising step that crosses no threshold, which is what lets the detector remember a predecessor. */
  ghost predicate HasFlatStep(up: seq<Sample>) { exists i :: 0 < i < |up| && FlatStep(up[i - 1], up[i]) }

  /** A tracker between passes: nothing reported yet, last seen below the horizon if at all. */
  ghost predicate Ready(tr: Tracker) {
    && tr.st.emitted == {} && tr.st.lastPeak == -90.0 && tr.st.peakTs == None
    && (tr.st.prevPrev.Some? ==> tr.st.prevPrev.value.elev <= 0.0)
    && (tr.prev.Some? ==> tr.prev.value.elev < 0.0)
  }

  /** Culmination needs a remembered predecessor: a flat rising step, or a sample before the arc. */
  ghost predicate Armed(tr: Tracker, up: seq<Sample>) { tr.prev.Some? || HasFlatStep(up) }

  function Kinds(es: seq<PassEvent>): seq<Kind> {
    if es == [] then [] else Kinds(Front(es)) + [Last(es).kind]
  }

  lemma {:induction false} KindsConcat(a: seq<PassEvent>, b: seq<PassEvent>)
    ensures Kinds(a + b) == Kinds(a) + Kinds(b)
    decreases |b|
  {
    if b == [] {
      assert a + b == a;
    } else {
      KindsConcat(a, Front(b));
      assert Front(a + b) == a + Front(b) && Last(a + b) == Last(b);
      var k := [Last(b).kind];
      assert Kinds(a) + Kinds(Front(b)) + k == Kinds(a) + (Kinds(Front(b)) + k);
    }
  }

  function KindOf(e: Option<PassEvent>): seq<Kind> { if e.Some? then [e.value.kind] else [] }

  lemma KindsExtend(tr: Tracker, samples: seq<Sample>, s: Sample)
    ensures Kinds(Events(tr, samples + [s])) == Kinds(Events(tr, samples)) + KindOf(Step(Run(tr, samples), s).1)
    ensures Run(tr, samples + [s]) == Step(Run(tr, samples), s).0
  {
    EventsExtend(tr, samples, s);
    var e := Step(Run(tr, samples), s).1;
    if e.Some? {
      assert Front([e.value]) == [];
      KindsConcat(Events(tr, samples), [e.value]);
    } else {
      assert Events(tr, samples) + [] == Events(tr, samples);
    }
  }

  function If(b: bool, k: Kind): seq<Kind> { if b then [k] else [] }

  ghost function RisingKinds(up: seq<Sample>): seq<Kind>
    requires up != []
  {
    If(Last(up).elev >= 0.0, Rise0) + If(Last(up).elev >= 10.0 && LowRising(up), Rise10)
  }

  /** What an arc is reported as, given whether the detector can remember a predecessor of the peak. */
  ghost function ArcKinds(a: Arc, armed: bool): seq<Kind>
    requires IsArc(a)
  {
    RisingKinds(a.up)
    + If(Peak(a) > 10.0 && a.down[0].elev > 10.0 && armed, Culmination)
    + If(Peak(a) > 10.0 && LowFalling(a.down), Set10)
    + If(Peak(a) > 0.0, Set0)
  }

  // ---- The rising part ----

  ghost predicate RisingState(tr0: Tracker, tr: Tracker, up: seq<Sample>)
    requires up != []
  {
    && tr.prev == Some(Last(up))
    && tr.st.emitted == RiseSet(Last(up).elev, LowRising(up))
    && tr.st.lastPeak == -90.0 && tr.st.peakTs == None
    && (tr.st.prevPrev.Some? <==> Armed(tr0, up))
    && (tr.st.prevPrev.Some? ==> tr.st.prevPrev.value.elev <= 0.0 || tr.st.prevPrev.value.elev < Last(up).elev)
  }

  lemma RisingFirst(tr0: Tracker, up: seq<Sample>)
    requires Ready(tr0) && |up| == 1 && up[0].elev < 0.0
    ensures RisingState(tr0, Step(tr0, up[0]).0, up)
    ensures Step(tr0, up[0]).1 == None
  {
  }

  lemma LowRisingExtends(front: seq<Sample>, c: Sample)
    ensures LowRising(front + [c]) <==> LowRising(front) || 0.0 <= c.elev < 10.0
  {
    var up := front + [c];
    if LowRising(front) {
      var i :| 0 <= i < |front| && 0.0 <= front[i].elev < 10.0;
      assert up[i] == front[i];
    }
    if 0.0 <= c.elev < 10.0 { assert up[|front|] == c; }
    if LowRising(up) && !(0.0 <= c.elev < 10.0) {
      var i :| 0 <= i < |up| && 0.0 <= up[i].elev < 10.0;
      assert front[i] == up[i];
    }
  }

  lemma LowFallingExtends(front: seq<Sample>, c: Sample)
    ensures LowFalling(front + [c]) <==> LowFalling(front) || 0.0 < c.elev <= 10.0
  {
    var down := front + [c];
    if LowFalling(front) {
      var i :| 0 <= i < |front| && 0.0 < front[i].elev <= 10.0;
      assert down[i] == front[i];
    }
    if 0.0 < c.elev <= 10.0 { assert down[|front|] == c; }
    if LowFalling(down) && !(0.0 < c.elev <= 10.0) {
      var i :| 0 <= i < |down| && 0.0 < down[i].elev <= 10.0;
      assert front[i] == down[i];
    }
  }

  lemma FlatStepExtends(front: seq<Sample>, c: Sample)
    requires front != []
    ensures HasFlatStep(front + [c]) <==> HasFlatStep(front) || FlatStep(Last(front), c)
  {
    var up := front + [c];
    if HasFlatStep(front) {
      var i :| 0 < i < |front| && FlatStep(front[i - 1], front[i]);
      assert FlatStep(up[i - 1], up[i]);
    }
    if FlatStep(Last(front), c) { assert FlatStep(up[|front| - 1], up[|front|]); }
    if HasFlatStep(up) && !FlatStep(Last(front), c) {
      var i :| 0 < i < |up| && FlatStep(up[i - 1], up[i]);
      assert i < |front|;
      assert FlatStep(front[i - 1], front[i]);
    }
  }

  function RiseSet(elev: real, low: bool): set<Kind> {
    (if elev >= 0.0 then {Rise0} else {}) + (if elev >= 10.0 && low then {Rise10} else {})
  }

  /** One rising call, `low` saying whether a sample was in the low band so far. */
  lemma RisingCall(tr: Tracker, p: Sample, c: Sample, low: bool)
    requires tr.prev == Some(p) && p.elev < c.elev && tr.st.emitted == RiseSet(p.elev, low)
    requires 0.0 <= p.elev < 10.0 ==> low
    requires low ==> p.elev >= 0.0
    ensures var (tr', evt) := Step(tr, c);
            var low' := low || 0.0 <= c.elev < 10.0;
            && tr'.prev == Some(c) && tr'.st.emitted == RiseSet(c.elev, low')
            && tr'.st.lastPeak == tr.st.lastPeak && tr'.st.peakTs == tr.st.peakTs
            && tr'.st.prevPrev == (if FlatStep(p, c) then Some(p) else tr.st.prevPrev)
            && If(c.elev >= 0.0, Rise0) + If(c.elev >= 10.0 && low', Rise10)
            == If(p.elev >= 0.0, Rise0) + If(p.elev >= 10.0 && low, Rise10) + KindOf(evt)
  {
  }

  /** The last sample of a rising stretch that is in the low band leaves the band non-empty. */
  lemma RisingNext(tr0: Tracker, tr: Tracker, front: seq<Sample>, c: Sample)
    requires front != [] && Ascending(front + [c])
    requires RisingState(tr0, tr, front)
    ensures RisingState(tr0, Step(tr, c).0, front + [c])
    ensures RisingKinds(front + [c])
         == RisingKinds(front) + KindOf(Step(tr, c).1)
  {
    var p, up := Last(front), front + [c];
    assert up[|front| - 1] == p && up[|front|] == c;
    assert Ascending(front) by {
      assert forall i :: 0 <= i < |front| ==> front[i] == up[i];
    }
    LowRisingExtends(front, c);
    FlatStepExtends(front, c);
    LowRisingBelow(front);
    assert Last(up) == c;
    RisingCall(tr, p, c, LowRising(front));
  }

  lemma LowRisingBelow(up: seq<Sample>)
    requires up != [] && Ascending(up)
    ensures 0.0 <= Last(up).elev < 10.0 ==> LowRising(up)
    ensures LowRising(up) ==> Last(up).elev >= 0.0
  {
  }

  lemma {:induction false} RisingRun(tr0: Tracker, up: seq<Sample>)
    requires Ready(tr0) && up != [] && Ascending(up) && up[0].elev < 0.0
    ensures RisingState(tr0, Run(tr0, up), up)
    ensures Kinds(Events(tr0, up)) == RisingKinds(up)
    decreases |up|
  {
    var front := Front(up);
    assert up == front + [Last(up)];
    KindsExtend(tr0, front, Last(up));
    if |up| == 1 {
      assert front == [] && Run(tr0, front) == tr0;
      RisingFirst(tr0, up);
      LowRisingBelow(up);
    } else {
      RisingRun(tr0, front);
      RisingNext(tr0, Run(tr0, front), front, Last(up));
    }
  }

  // ---- The falling part ----

  /** What the detector knows at the peak. */
  ghost predicate AtPeak(tr: Tracker, peak: Sample, armed: bool) {
    && tr.prev == Some(peak)
    && tr.st.emitted <= {Rise0, Rise10}
    && tr.st.lastPeak == -90.0 && tr.st.peakTs == None
    && (if peak.elev >= 0.0 then Rise0 in tr.st.emitted else tr.st.emitted == {})
    && (tr.st.prevPrev.Some? <==> armed)
    && (tr.st.prevPrev.Some? ==> tr.st.prevPrev.value.elev <= 0.0 || tr.st.prevPrev.value.elev < peak.elev)
  }

  function FallingKinds(peak: real, armed: bool, first: real, low: bool, now: real): seq<Kind> {
    If(peak > 10.0 && first > 10.0 && armed, Culmination)
    + If(peak > 10.0 && low, Set10)
    + If(peak > 0.0 && now <= 0.0, Set0)
  }

  /** After part of the descent, seen from the state `at` at the peak. */
  ghost predicate FallingState(at: Tracker, peak: real, armed: bool, tr: Tracker, d: seq<Sample>)
    requires d != []
  {
    var now := Last(d).elev;
    var culminated := peak > 10.0 && d[0].elev > 10.0 && armed;
    && tr.prev == Some(Last(d))
    && (if peak > 0.0 && now <= 0.0 then
          && tr.st.emitted == {} && tr.st.lastPeak == -90.0 && tr.st.peakTs == None
          && (tr.st.prevPrev.Some? ==> tr.st.prevPrev.value.elev <= 0.0)
        else
          && tr.st.emitted == at.st.emitted
                              + (if culminated then {Culmination} else {})
                              + (if peak > 10.0 && LowFalling(d) then {Set10} else {})
          && (now > 10.0 ==> Culmination in tr.st.emitted
                             || (tr.st.prevPrev.Some? ==> tr.st.prevPrev.value.elev > now))
          && (peak <= 0.0 ==> tr.st.lastPeak == at.st.lastPeak && tr.st.peakTs == at.st.peakTs
                              && (tr.st.prevPrev.Some? ==> tr.st.prevPrev.value.elev <= 0.0)))
  }

  lemma FallingFirst(at: Tracker, peak: Sample, armed: bool, c: Sample)
    requires AtPeak(at, peak, armed) && c.elev < peak.elev
    ensures FallingState(at, peak.elev, armed, Step(at, c).0, [c])
    ensures FallingKinds(peak.elev, armed, c.elev, LowFalling([c]), c.elev)
         == KindOf(Step(at, c).1)
  {
    LowFallingExtends([], c);
    assert [] + [c] == [c];
  }

  lemma LowFallingAbove(d: seq<Sample>)
    requires d != [] && Falling(d)
    ensures 0.0 < Last(d).elev <= 10.0 ==> LowFalling(d)
    ensures LowFalling(d) ==> Last(d).elev <= 10.0 && d[0].elev > 0.0
  {
  }

  lemma FallingNext(at: Tracker, peak: Sample, armed: bool, tr: Tracker, front: seq<Sample>, c: Sample)
    requires front != [] && Falling(front + [c]) && front[0].elev < peak.elev
    requires AtPeak(at, peak, armed) && FallingState(at, peak.elev, armed, tr, front)
    ensures FallingState(at, peak.elev, armed, Step(tr, c).0, front + [c])
    ensures FallingKinds(peak.elev, armed, front[0].elev, LowFalling(front + [c]), c.elev)
         == FallingKinds(peak.elev, armed, front[0].elev, LowFalling(front), Last(front).elev)
            + KindOf(Step(tr, c).1)
  {
    var p, d := Last(front), front + [c];
    assert d[|front| - 1] == p && d[|front|] == c && d[0] == front[0];
    assert Falling(front) by {
      assert forall i :: 0 <= i < |front| ==> front[i] == d[i];
    }
    LowFallingExtends(front, c);
    LowFallingAbove(front);
    assert Last(d) == c;
    assert |front| > 1 ==> front[|front| - 1].elev < front[0].elev;
  }

  /** The state and the reports after part of the descent. */
  ghost predicate FallingSoFar(at: Tracker, peak: Sample, armed: bool, d: seq<Sample>)
    requires d != []
  {
    && FallingState(at, peak.elev, armed, Run(at, d), d)
    && Kinds(Events(at, d)) == FallingKinds(peak.elev, armed, d[0].elev, LowFalling(d), Last(d).elev)
  }

  lemma FallingStart(at: Tracker, peak: Sample, armed: bool, c: Sample)
    requires AtPeak(at, peak, armed) && c.elev < peak.elev
    ensures FallingSoFar(at, peak, armed, [c])
  {
    assert [] + [c] == [c];
    KindsExtend(at, [], c);
    FallingFirst(at, peak, armed, c);
  }

  lemma FallingStep(at: Tracker, peak: Sample, armed: bool, front: seq<Sample>, c: Sample)
    requires AtPeak(at, peak, armed) && front != [] && Falling(front + [c]) && front[0].elev < peak.elev
    requires FallingSoFar(at, peak, armed, front)
    ensures FallingSoFar(at, peak, armed, front + [c])
  {
    KindsExtend(at, front, c);
    FallingNext(at, peak, armed, Run(at, front), front, c);
    assert (front + [c])[0] == front[0] && Last(front + [c]) == c;
  }

  lemma {:induction false} FallingRun(at: Tracker, peak: Sample, armed: bool, d: seq<Sample>)
    requires AtPeak(at, peak, armed) && d != [] && Falling(d) && d[0].elev < peak.elev
    ensures FallingSoFar(at, peak, armed, d)
    decreases |d|
  {
    assert d == Front(d) + [Last(d)];
    if |d| == 1 {
      FallingStart(at, peak, armed, d[0]);
      assert d == [d[0]];
    } else {
      FallingRun(at, peak, armed, Front(d));
      FallingStep(at, peak, armed, Front(d), Last(d));
    }
  }

  // ---- Whole arcs ----

  lemma ArcStates(tr: Tracker, a: Arc)
    requires Ready(tr) && IsArc(a)
    ensures var at, armed := Run(tr, a.up), Armed(tr, a.up);
            && AtPeak(at, Last(a.up), armed)
            && FallingState(at, Peak(a), armed, Run(tr, a.up + a.down), a.down)
            && Kinds(Events(tr, a.up + a.down))
            == RisingKinds(a.up)
               + FallingKinds(Peak(a), armed, a.down[0].elev, LowFalling(a.down), Last(a.down).elev)
  {
    var at, armed := Run(tr, a.up), Armed(tr, a.up);
    RisingRun(tr, a.up);
    PeakState(tr, at, a.up);
    FallingRun(at, Last(a.up), armed, a.down);
    RunConcat(tr, a.up, a.down);
    EventsConcat(tr, a.up, a.down);
    KindsConcat(Events(tr, a.up), Events(at, a.down));
  }

  /**
   Every arc, from every tracker between passes: the reported kinds are exactly
   `ArcKinds`, and the tracker is between passes again unless the peak lies exactly
   on the horizon.
   */
  lemma ArcReports(tr: Tracker, a: Arc)
    requires Ready(tr) && IsArc(a)
    ensures Kinds(Events(tr, a.up + a.down)) == ArcKinds(a, Armed(tr, a.up))
    ensures Ready(Run(tr, a.up + a.down)) <==> Peak(a) != 0.0
    ensures Run(tr, a.up + a.down).prev == Some(Last(a.down))
  {
    ArcStates(tr, a);
    var armed := Armed(tr, a.up);
    var culm := If(Peak(a) > 10.0 && a.down[0].elev > 10.0 && armed, Culmination);
    var set10 := If(Peak(a) > 10.0 && LowFalling(a.down), Set10);
    var set0 := If(Peak(a) > 0.0, Set0);
    assert RisingKinds(a.up) + (culm + set10 + set0) == RisingKinds(a.up) + culm + set10 + set0;
  }

  lemma PeakState(tr: Tracker, at: Tracker, up: seq<Sample>)
    requires up != [] && RisingState(tr, at, up) && Ascending(up)
    ensures AtPeak(at, Last(up), Armed(tr, up))
  {
  }

  const FULL_PASS: seq<Kind> := [Rise0, Rise10, Culmination, Set10, Set0]

  ghost predicate SampledFinely(tr: Tracker, a: Arc)
    requires IsArc(a)
  {
    && Peak(a) > 10.0 && a.down[0].elev > 10.0
    && LowRising(a.up) && LowFalling(a.down)
    && Armed(tr, a.up)
  }

  /** All five events come, in their order, if and only if the arc is sampled finely enough. */
  lemma FullPass(tr: Tracker, a: Arc)
    requires Ready(tr) && IsArc(a)
    ensures Kinds(Events(tr, a.up + a.down)) == FULL_PASS <==> SampledFinely(tr, a)
    ensures SampledFinely(tr, a) ==> Ready(Run(tr, a.up + a.down))
  {
    ArcReports(tr, a);
    var kinds := ArcKinds(a, Armed(tr, a.up));
    if kinds == FULL_PASS {
      assert |kinds| == 5;
    }
  }

  /** A pass seen in three samples is reported as a rise and a set of the horizon, although it climbs to 20 degrees. */
  lemma CoarsePassMissesEvents(t: real)
    ensures Kinds(Events(START, [Sample(-5.0, t), Sample(20.0, t), Sample(-5.0, t)])) == [Rise0, Set0]
  {
    var a := Arc([Sample(-5.0, t), Sample(20.0, t)], [Sample(-5.0, t)]);
    assert a.up + a.down == [Sample(-5.0, t), Sample(20.0, t), Sample(-5.0, t)];
    ArcReports(START, a);
  }

  /** From a fresh detector no flat rising step means no culmination, however high the arc. */
  lemma NoFlatStepNoCulmination(a: Arc)
    requires IsArc(a) && !HasFlatStep(a.up)
    ensures Culmination !in Kinds(Events(START, a.up + a.down))
  {
    ArcReports(START, a);
  }

  // ---- Pass after pass ----

  ghost predicate IsDay(arcs: seq<Arc>) { forall i :: 0 <= i < |arcs| ==> IsArc(arcs[i]) && Peak(arcs[i]) != 0.0 }

  function Samples(arcs: seq<Arc>): seq<Sample> {
    if arcs == [] then [] else Samples(Front(arcs)) + (Last(arcs).up + Last(arcs).down)
  }

  /** From the second pass on the detector has a predecessor to remember. */
  ghost function DayKinds(arcs: seq<Arc>): seq<Kind>
    requires IsDay(arcs)
  {
    if arcs == [] then []
    else DayKinds(Front(arcs)) + ArcKinds(Last(arcs), |arcs| > 1 || HasFlatStep(Last(arcs).up))
  }

  /** Passes do not disturb one another: a sequence of arcs is reported arc by arc. */
  lemma {:induction false} DayReports(arcs: seq<Arc>)
    requires IsDay(arcs)
    ensures Kinds(Events(START, Samples(arcs))) == DayKinds(arcs)
    ensures Ready(Run(START, Samples(arcs)))
    ensures Run(START, Samples(arcs)).prev.Some? <==> arcs != []
    decreases |arcs|
  {
    if arcs != [] {
      var front, a := Front(arcs), Last(arcs);
      assert IsArc(arcs[|arcs| - 1]);
      assert forall i :: 0 <= i < |front| ==> front[i] == arcs[i];
      DayReports(front);
      var tr := Run(START, Samples(front));
      ArcReports(tr, a);
      RunConcat(START, Samples(front), a.up + a.down);
      EventsConcat(START, Samples(front), a.up + a.down);
      KindsConcat(Events(START, Samples(front)), Events(tr, a.up + a.down));
    }
  }

  function Repeat(kinds: seq<Kind>, n: nat): seq<Kind> {
    if n == 0 then [] else Repeat(kinds, n - 1) + kinds
  }

  /** Arc `i` of a day is sampled finely enough; only the first needs a flat rising step. */
  ghost predicate FineAt(arcs: seq<Arc>, i: nat)
    requires IsDay(arcs) && i < |arcs|
  {
    var a := arcs[i];
    && Peak(a) > 10.0 && a.down[0].elev > 10.0
    && LowRising(a.up) && LowFalling(a.down)
    && (i == 0 ==> HasFlatStep(a.up))
  }

  lemma FineIsFull(a: Arc)
    requires IsArc(a) && Peak(a) > 10.0 && a.down[0].elev > 10.0 && LowRising(a.up) && LowFalling(a.down)
    ensures ArcKinds(a, true) == FULL_PASS
  {
  }

  lemma {:induction false} FineDayKinds(arcs: seq<Arc>)
    requires IsDay(arcs) && forall i :: 0 <= i < |arcs| ==> FineAt(arcs, i)
    ensures DayKinds(arcs) == Repeat(FULL_PASS, |arcs|)
    decreases |arcs|
  {
    if arcs != [] {
      var front, n := Front(arcs), |arcs| - 1;
      assert forall i :: 0 <= i < n ==> front[i] == arcs[i];
      forall i | 0 <= i < n
        ensures FineAt(front, i)
      {
        assert FineAt(arcs, i);
      }
      FineDayKinds(front);
      assert FineAt(arcs, n);
      FineIsFull(arcs[n]);
    }
  }

  /** A day of `n` finely sampled passes is reported as exactly `n` times the five events. */
  lemma FullDay(arcs: seq<Arc>)
    requires IsDay(arcs) && forall i :: 0 <= i < |arcs| ==> FineAt(arcs, i)
    ensures Kinds(Events(START, Samples(arcs))) == Repeat(FULL_PASS, |arcs|)
  {
    DayReports(arcs);
    FineDayKinds(arcs);
  }
}

/**
 The pass detector: one call per new elevation sample, at most one event per call.
 `DetectCall` is the call on values; `PassState.Detect` is the mutating form, which
 loops over the thresholds and updates the fields in place.
 */
module Passes {
  import opened Seqs

  const THRESHOLDS: seq<real> := [0.0, 10.0]

  datatype Kind = Rise0 | Rise10 | Culmination | Set10 | Set0

  datatype Sample = Sample(elev: real, t: real)

  datatype PassEvent = PassEvent(kind: Kind, t: real, elev: real)

  datatype Detector = Detector(lastPeak: real, peakTs: Option<real>, emitted: set<Kind>, prevPrev: Option<Sample>)

  const FRESH: Detector := Detector(-90.0, None, {}, None)

  function RiseKind(i: nat): Kind { if i == 0 then Rise0 else Rise10 }

  function SetKind(i: nat): Kind { if i == 0 then Set0 else Set10 }

  function Abs(x: real): real { if x < 0.0 then -x else x }

  /** The time at which the segment from `prev` to `curr` meets the threshold. */
  function InterpolateCrossing(prev: Sample, curr: Sample, threshold: real): real {
    var dy := curr.elev - prev.elev;
    if Abs(dy) < 0.000000001 then curr.t
    else
      var frac := (threshold - prev.elev) / dy;
      if curr.t - prev.t > 0.0 then prev.t + (curr.t - prev.t) * frac else curr.t
  }

  predicate Rises(prev: Sample, curr: Sample, thr: real) { prev.elev < thr <= curr.elev }

  predicate Sets(prev: Sample, curr: Sample, thr: real) { prev.elev > thr >= curr.elev }

  /** The outcome of the `i`-th turn of the threshold loop, if it returns. */
  function Crossing(prev: Sample, curr: Sample, st: Detector, i: nat): Option<(Detector, PassEvent)>
    requires i < |THRESHOLDS|
  {
    var thr := THRESHOLDS[i];
    if Rises(prev, curr, thr) && RiseKind(i) !in st.emitted then
      Some((st.(emitted := st.emitted + {RiseKind(i)}),
            PassEvent(RiseKind(i), InterpolateCrossing(prev, curr, thr), thr)))
    else if Sets(prev, curr, thr) && SetKind(i) !in st.emitted then
      Some((if i == 0 then FRESH else st.(emitted := st.emitted + {SetKind(i)}),
            PassEvent(SetKind(i), InterpolateCrossing(prev, curr, thr), thr)))
    else
      None
  }

  predicate Peaks(prev: Sample, curr: Sample, st: Detector) {
    && st.prevPrev.Some?
    && st.prevPrev.value.elev < prev.elev
    && curr.elev < prev.elev
    && Culmination !in st.emitted
    && prev.elev > THRESHOLDS[1]
  }

  function DetectCall(prev: Option<Sample>, curr: Sample, st: Detector): (Detector, Option<PassEvent>) {
    match prev
    case None => (st.(prevPrev := None), None)
    case Some(p) =>
      var c0 := Crossing(p, curr, st, 0);
      var c1 := Crossing(p, curr, st, 1);
      if c0.Some? then (c0.value.0, Some(c0.value.1))
      else if c1.Some? then (c1.value.0, Some(c1.value.1))
      else if Peaks(p, curr, st) then
        (Detector(p.elev, Some(p.t), st.emitted + {Culmination}, Some(p)),
         Some(PassEvent(Culmination, p.t, p.elev)))
      else (st.(prevPrev := Some(p)), None)
  }

  class PassState {
    var lastPeakElev: real
    var peakTs: Option<real>
    var emitted: set<Kind>
    var prevPrev: Option<Sample>

    function Value(): Detector
      reads this
    {
      Detector(lastPeakElev, peakTs, emitted, prevPrev)
    }

    constructor ()
      ensures Value() == FRESH
    {
      lastPeakElev, peakTs, emitted, prevPrev := -90.0, None, {}, None;
    }

    method Detect(prev: Option<Sample>, curr: Sample) returns (evt: Option<PassEvent>)
      modifies this
      ensures (Value(), evt) == DetectCall(prev, curr, old(Value()))
    {
      if prev.None? {
        prevPrev := None;
        return None;
      }
      var p := prev.value;
      for i := 0 to |THRESHOLDS|
        invariant Value() == old(Value())
        invariant forall j :: 0 <= j < i ==> Crossing(p, curr, Value(), j).None?
      {
        var thr := THRESHOLDS[i];
        if p.elev < thr <= curr.elev && RiseKind(i) !in emitted {
          emitted := emitted + {RiseKind(i)};
          return Some(PassEvent(RiseKind(i), InterpolateCrossing(p, curr, thr), thr));
        }
        if p.elev > thr >= curr.elev && SetKind(i) !in emitted {
          emitted := emitted + {SetKind(i)};
          if SetKind(i).Set0? {
            emitted, lastPeakElev, peakTs, prevPrev := {}, -90.0, None, None;
          }
          return Some(PassEvent(SetKind(i), InterpolateCrossing(p, curr, thr), thr));
        }
      }
      assert Crossing(p, curr, Value(), 0).None? && Crossing(p, curr, Value(), 1).None?;
      if prevPrev.Some? && prevPrev.value.elev < p.elev && curr.elev < p.elev
         && Culmination !in emitted && p.elev > THRESHOLDS[|THRESHOLDS| - 1] {
        emitted := emitted + {Culmination};
        lastPeakElev, peakTs, prevPrev := p.elev, Some(p.t), Some(p);
        return Some(PassEvent(Culmination, p.t, p.elev));
      }
      prevPrev := Some(p);
      return None;
    }
  }

  // ---- One detector over a whole sample sequence ----

  /** A detector together with the last sample it was called with. */
  datatype Tracker = Tracker(st: Detector, prev: Option<Sample>)

  const START: Tracker := Tracker(FRESH, None)

  function Step(tr: Tracker, s: Sample): (Tracker, Option<PassEvent>) {
    var (st, evt) := DetectCall(tr.prev, s, tr.st);
    (Tracker(st, Some(s)), evt)
  }

  function Run(tr: Tracker, samples: seq<Sample>): Tracker {
    if samples == [] then tr else Step(Run(tr, Front(samples)), Last(samples)).0
  }

  /** The event of each call, none where the call returned none. */
  function Outputs(tr: Tracker, samples: seq<Sample>): (outs: seq<Option<PassEvent>>)
    ensures |outs| == |samples|
  {
    if samples == [] then []
    else Outputs(tr, Front(samples)) + [Step(Run(tr, Front(samples)), Last(samples)).1]
  }

  function Emitted(outs: seq<Option<PassEvent>>): seq<PassEvent> {
    if outs == [] then []
    else Emitted(Front(outs)) + (if Last(outs).Some? then [Last(outs).value] else [])
  }

  /** The events of a run, in order. */
  function Events(tr: Tracker, samples: seq<Sample>): seq<PassEvent> { Emitted(Outputs(tr, samples)) }

  /** Output `i` is what the call with sample `i` returned after the samples before it. */
  lemma {:induction false} OutputAt(tr: Tracker, samples: seq<Sample>, i: nat)
    requires i < |samples|
    ensures Outputs(tr, samples)[i] == Step(Run(tr, samples[..i]), samples[i]).1
    ensures Run(tr, samples[..i + 1]) == Step(Run(tr, samples[..i]), samples[i]).0
    decreases |samples|
  {
    if i < |samples| - 1 {
      OutputAt(tr, Front(samples), i);
      assert Front(samples)[..i] == samples[..i] && Front(samples)[..i + 1] == samples[..i + 1];
    } else {
      assert Front(samples) == samples[..i];
    }
    assert Front(samples[..i + 1]) == samples[..i] && Last(samples[..i + 1]) == samples[i];
  }

  lemma PrevAt(tr: Tracker, samples: seq<Sample>, i: nat)
    requires i <= |samples|
    ensures Run(tr, samples[..i]).prev == if i == 0 then tr.prev else Some(samples[i - 1])
  {
  }

  lemma {:induction false} RunConcat(tr: Tracker, a: seq<Sample>, b: seq<Sample>)
    ensures Run(tr, a + b) == Run(Run(tr, a), b)
    decreases |b|
  {
    if b == [] {
      assert a + b == a;
    } else {
      RunConcat(tr, a, Front(b));
      assert Front(a + b) == a + Front(b);
    }
  }

  lemma {:induction false} OutputsConcat(tr: Tracker, a: seq<Sample>, b: seq<Sample>)
    ensures Outputs(tr, a + b) == Outputs(tr, a) + Outputs(Run(tr, a), b)
    decreases |b|
  {
    if b == [] {
      assert a + b == a;
    } else {
      OutputsConcat(tr, a, Front(b));
      RunConcat(tr, a, Front(b));
      assert Front(a + b) == a + Front(b);
    }
  }

  lemma {:induction false} EmittedConcat(a: seq<Option<PassEvent>>, b: seq<Option<PassEvent>>)
    ensures Emitted(a + b) == Emitted(a) + Emitted(b)
    decreases |b|
  {
    if b == [] {
      assert a + b == a;
    } else {
      EmittedConcat(a, Front(b));
      assert Front(a + b) == a + Front(b) && Last(a + b) == Last(b);
      var e := if Last(b).Some? then [Last(b).value] else [];
      assert Emitted(a) + Emitted(Front(b)) + e == Emitted(a) + (Emitted(Front(b)) + e);
    }
  }

  lemma EventsConcat(tr: Tracker, a: seq<Sample>, b: seq<Sample>)
    ensures Events(tr, a + b) == Events(tr, a) + Events(Run(tr, a), b)
  {
    OutputsConcat(tr, a, b);
    EmittedConcat(Outputs(tr, a), Outputs(Run(tr, a), b));
  }

  lemma EventsExtend(tr: Tracker, samples: seq<Sample>, s: Sample)
    ensures Run(tr, samples + [s]) == Step(Run(tr, samples), s).0
    ensures Outputs(tr, samples + [s]) == Outputs(tr, samples) + [Step(Run(tr, samples), s).1]
    ensures var e := Step(Run(tr, samples), s).1;
            Events(tr, samples + [s]) == Events(tr, samples) + (if e.Some? then [e.value] else [])
  {
  }
}

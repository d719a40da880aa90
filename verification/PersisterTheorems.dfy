/**
 What survives every run of the persister. `es` is any list of events: appends,
 polls, the four flush writes in any reachable order, and crashes anywhere.
 */
module PersisterTheorems {
  import opened Seqs
  import opened PersisterModel
  import opened PersisterFolds
  import opened PersisterInvariant

  function After(hash: string -> nat, parts: nat, seed: Seed, es: seq<Event>): (s: System)
    requires parts > 0
    ensures Shape(s) && |s.logs| == parts
  {
    Run(hash, Init(parts, seed), es)
  }

  lemma Reached(hash: string -> nat, parts: nat, seed: Seed, es: seq<Event>, n: string)
    requires parts > 0
    ensures var s, h, p := After(hash, parts, seed, es), HistoryOf(hash, parts, seed, es), Home(hash, parts, n);
            OffsetsAt(s, h, p) && Content(s, h, n, p) && h.seed == seed
  {
    RunInv(hash, parts, seed, es);
    var p := Home(hash, parts, n);
    assert OffsetsAt(After(hash, parts, seed, es), HistoryOf(hash, parts, seed, es), p);
  }

  lemma OffsetsReached(hash: string -> nat, parts: nat, seed: Seed, es: seq<Event>, n: string)
    requires parts > 0
    ensures OffsetsAt(After(hash, parts, seed, es), HistoryOf(hash, parts, seed, es), Home(hash, parts, n))
  {
    Reached(hash, parts, seed, es, n);
  }

  lemma PositionAt(hash: string -> nat, parts: nat, seed: Seed, es: seq<Event>, n: string, t: int)
    requires parts > 0
    ensures var s, h, p := After(hash, parts, seed, es), HistoryOf(hash, parts, seed, es), Home(hash, parts, n);
            && h.furthestIns[p] <= |s.logs[p]|
            && Get(s.store.positions, (n, t)) == FirstCols(OfLog(n, s.logs[p][..h.furthestIns[p]]), t)
  {
    Reached(hash, parts, seed, es, n);
  }

  /** A run one event longer. */
  lemma OneMore(hash: string -> nat, parts: nat, seed: Seed, es: seq<Event>, e: Event)
    requires parts > 0
    ensures After(hash, parts, seed, es + [e]) == Next(hash, After(hash, parts, seed, es), e)
    ensures HistoryOf(hash, parts, seed, es + [e])
         == NextHistory(hash, After(hash, parts, seed, es), HistoryOf(hash, parts, seed, es), e)
  {
    assert Front(es + [e]) == es;
  }

  // ---- satellite_positions: exactly-once effect ----

  /** The rows of each partition up to its offset. */
  function PrefixRows(logs: seq<seq<Msg>>, upTo: seq<nat>): (segs: seq<seq<Row>>)
    requires |logs| == |upTo|
    requires forall p :: 0 <= p < |logs| ==> upTo[p] <= |logs[p]|
    ensures |segs| == |logs| && forall p :: 0 <= p < |segs| ==> segs[p] == Rows(logs[p][..upTo[p]])
  {
    seq(|logs|, p requires 0 <= p < |logs| => Rows(logs[p][..upTo[p]]))
  }

  /** One partition after the other. */
  function Concat(segs: seq<seq<Row>>): seq<Row> {
    if segs == [] then [] else Concat(Front(segs)) + Last(segs)
  }

  /** Rows of `n` come from segment `p` alone if no other has any. */
  lemma {:induction false} ConcatOf(n: string, segs: seq<seq<Row>>, p: nat)
    requires forall q :: 0 <= q < |segs| && q != p ==> Of(n, segs[q]) == []
    ensures Of(n, Concat(segs)) == if p < |segs| then Of(n, segs[p]) else []
    decreases |segs|
  {
    if segs != [] {
      assert forall q :: 0 <= q < |segs| - 1 ==> Front(segs)[q] == segs[q];
      ConcatOf(n, Front(segs), p);
      OfConcat(n, Concat(Front(segs)), Last(segs));
      if p == |segs| - 1 {
        NilLeft(Of(n, Last(segs)));
      } else {
        NilRight(Of(n, Concat(Front(segs))));
      }
    }
  }

  /** Only the partition a satellite is keyed to contributes rows of it. */
  lemma PrefixRowsOf(hash: string -> nat, s: System, upTo: seq<nat>, n: string)
    requires Shape(s) && Keyed(hash, s) && |upTo| == |s.logs|
    requires forall q :: 0 <= q < |s.logs| ==> upTo[q] <= |s.logs[q]|
    ensures var p := Home(hash, |s.logs|, n);
            Of(n, Concat(PrefixRows(s.logs, upTo))) == OfLog(n, s.logs[p][..upTo[p]])
  {
    var p, segs := Home(hash, |s.logs|, n), PrefixRows(s.logs, upTo);
    forall q | 0 <= q < |segs| && q != p
      ensures Of(n, segs[q]) == []
    {
      assert s.logs[q][0..upTo[q]] == s.logs[q][..upTo[q]];
      PollForeign(hash, s, q, 0, upTo[q], n);
    }
    ConcatOf(n, segs, p);
  }

  /** The table a single consumer that never crashed would build from these log prefixes. */
  function OnceInserted(logs: seq<seq<Msg>>, upTo: seq<nat>): map<(string, int), Columns>
    requires |logs| == |upTo|
    requires forall p :: 0 <= p < |logs| ==> upTo[p] <= |logs[p]|
  {
    InsertAll(map[], Concat(PrefixRows(logs, upTo)))
  }

  lemma InsertedWithinLogs(hash: string -> nat, parts: nat, seed: Seed, es: seq<Event>)
    requires parts > 0
    ensures var s, h := After(hash, parts, seed, es), HistoryOf(hash, parts, seed, es);
            forall p :: 0 <= p < parts ==> s.committed[p] <= h.furthestIns[p] <= |s.logs[p]|
  {
    RunInv(hash, parts, seed, es);
    var s, h := After(hash, parts, seed, es), HistoryOf(hash, parts, seed, es);
    forall p: nat | p < parts
      ensures s.committed[p] <= h.furthestIns[p] <= |s.logs[p]|
    {
      assert OffsetsAt(s, h, p);
    }
  }

  /**
   At-least-once delivery has an exactly-once effect: whatever was redelivered,
   batched or interleaved, `satellite_positions` is the table obtained by inserting
   each partition's log once, in order, up to the furthest offset ever inserted.
   */
  lemma PositionsExactlyOnce(hash: string -> nat, parts: nat, seed: Seed, es: seq<Event>)
    requires parts > 0
    ensures var s, h := After(hash, parts, seed, es), HistoryOf(hash, parts, seed, es);
            && (forall p :: 0 <= p < parts ==> h.furthestIns[p] <= |s.logs[p]|)
            && s.store.positions == OnceInserted(s.logs, h.furthestIns)
  {
    RunInv(hash, parts, seed, es);
    InsertedWithinLogs(hash, parts, seed, es);
    var s, h := After(hash, parts, seed, es), HistoryOf(hash, parts, seed, es);
    var once := OnceInserted(s.logs, h.furthestIns);
    forall n, t
      ensures Get(s.store.positions, (n, t)) == Get(once, (n, t))
    {
      PositionAt(hash, parts, seed, es, n, t);
      PrefixRowsOf(hash, s, h.furthestIns, n);
      InsertAllAt(map[], Concat(PrefixRows(s.logs, h.furthestIns)), n, t);
    }
    SameLookups(s.store.positions, once);
  }

  lemma SameLookups(a: map<(string, int), Columns>, b: map<(string, int), Columns>)
    requires forall n, t :: Get(a, (n, t)) == Get(b, (n, t))
    ensures a == b
  {
    forall k
      ensures Get(a, k) == Get(b, k)
    {
      var (n, t) := k;
      assert Get(a, (n, t)) == Get(b, (n, t));
    }
    assert forall k :: (k in a <==> Get(a, k).Some?) && (k in b <==> Get(b, k).Some?);
    assert forall k :: k in a ==> k in b && a[k] == b[k];
  }

  /** Hence crashes leave no trace: two runs that got equally far over the same logs agree. */
  lemma CrashesUnobservable(hash: string -> nat, parts: nat, seed: Seed, es: seq<Event>, fs: seq<Event>)
    requires parts > 0
    requires After(hash, parts, seed, es).logs == After(hash, parts, seed, fs).logs
    requires HistoryOf(hash, parts, seed, es).furthestIns == HistoryOf(hash, parts, seed, fs).furthestIns
    ensures After(hash, parts, seed, es).store.positions == After(hash, parts, seed, fs).store.positions
  {
    PositionsExactlyOnce(hash, parts, seed, es);
    PositionsExactlyOnce(hash, parts, seed, fs);
  }

  // ---- satellites ----

  /** The greatest of the seeded epoch and the rows' epochs, none when there is neither. */
  ghost predicate IsGreatest(epoch: Option<int>, seeded: Option<int>, rows: seq<Row>) {
    && (forall r :: r in rows ==> epoch.Some? && r.cols.epoch <= epoch.value)
    && (seeded.Some? ==> epoch.Some? && seeded.value <= epoch.value)
    && (epoch.Some? ==> epoch == seeded || exists r :: r in rows && r.cols.epoch == epoch.value)
  }

  lemma GreatestIsGreatest(seeded: Option<int>, rows: seq<Row>)
    ensures IsGreatest(Greatest(seeded, MaxEpoch(rows)), seeded, rows)
  {
    MaxEpochIsMax(rows);
    if rows != [] {
      var i :| 0 <= i < |rows| && rows[i].cols.epoch == MaxEpoch(rows).value;
      assert rows[i] in rows;
    }
  }

  /**
   A satellite is in the table exactly when it was seeded or upserted, and its
   `last_tle_epoch` is the greatest ever seen, however often rows were replayed.
   */
  lemma EpochIsGreatest(hash: string -> nat, parts: nat, seed: Seed, es: seq<Event>, n: string)
    requires parts > 0
    ensures var s, h, p := After(hash, parts, seed, es), HistoryOf(hash, parts, seed, es), Home(hash, parts, n);
            && h.furthestUps[p] <= |s.logs[p]|
            && var seen := OfLog(n, s.logs[p][..h.furthestUps[p]]);
               && (n in s.store.satellites <==> n in seed || seen != [])
               && IsGreatest(EpochOf(Get(s.store.satellites, n)), EpochOf(Get(seed, n)), seen)
  {
    Reached(hash, parts, seed, es, n);
    var s, h, p := After(hash, parts, seed, es), HistoryOf(hash, parts, seed, es), Home(hash, parts, n);
    GreatestIsGreatest(EpochOf(Get(seed, n)), OfLog(n, s.logs[p][..h.furthestUps[p]]));
  }

  /**
   Once upserting has caught up with the furthest offset ever upserted, the name is
   the last non-null one of that log prefix, or else the seeded one.
   */
  lemma NameIsLastWhenCaughtUp(hash: string -> nat, parts: nat, seed: Seed, es: seq<Event>, n: string)
    requires parts > 0
    requires var h, p := HistoryOf(hash, parts, seed, es), Home(hash, parts, n);
             h.upserted[p] == h.furthestUps[p]
    ensures var s, h, p := After(hash, parts, seed, es), HistoryOf(hash, parts, seed, es), Home(hash, parts, n);
            && h.furthestUps[p] <= |s.logs[p]|
            && NameOf(Get(s.store.satellites, n))
            == OrElse(LastName(OfLog(n, s.logs[p][..h.furthestUps[p]])), NameOf(Get(seed, n)))
  {
    Reached(hash, parts, seed, es, n);
  }

  /**
   While a replay lags, the name is that of some log prefix at least as long as the
   replay has come, one that has a name if the furthest prefix has; the seeded name
   remains only if that has none.
   */
  lemma NameNeverOlderThanReplay(hash: string -> nat, parts: nat, seed: Seed, es: seq<Event>, n: string)
    requires parts > 0
    ensures var s, h, p := After(hash, parts, seed, es), HistoryOf(hash, parts, seed, es), Home(hash, parts, n);
            var name, seeded := NameOf(Get(s.store.satellites, n)), NameOf(Get(seed, n));
            && h.upserted[p] <= h.furthestUps[p] <= |s.logs[p]|
            && NameWithin(n, s.logs[p], h.upserted[p], h.furthestUps[p], seeded, name)
            && (name.Some? <==> NameAt(n, s.logs[p], h.furthestUps[p]).Some? || seeded.Some?)
  {
    Reached(hash, parts, seed, es, n);
    var s, h, p := After(hash, parts, seed, es), HistoryOf(hash, parts, seed, es), Home(hash, parts, n);
    NameWithinNamed(n, s.logs[p], h.upserted[p], h.furthestUps[p], NameOf(Get(seed, n)), NameOf(Get(s.store.satellites, n)));
  }

  lemma NameWithinNamed(n: string, log: seq<Msg>, lo: nat, hi: nat, seeded: Option<string>, name: Option<string>)
    requires lo <= hi <= |log| && NameWithin(n, log, lo, hi, seeded, name)
    ensures name.Some? <==> NameAt(n, log, hi).Some? || seeded.Some?
  {
    var k: nat :| lo <= k <= hi && (NameAt(n, log, hi).Some? ==> NameAt(n, log, k).Some?)
                  && name == OrElse(NameAt(n, log, k), seeded);
    SplitPrefix(n, log, k, hi);
    LastNameConcat(OfLog(n, log[..k]), OfLog(n, log[k..hi]));
  }

  // ---- Nothing committed is lost ----

  /**
   In every reachable state every decodable message below its partition's committed
   offset has its row in both tables and has been pushed to Redis.
   */
  lemma CommittedIsDelivered(hash: string -> nat, parts: nat, seed: Seed, es: seq<Event>, p: nat, i: nat)
    requires parts > 0 && p < parts
    requires i < After(hash, parts, seed, es).committed[p]
    ensures var s, h := After(hash, parts, seed, es), HistoryOf(hash, parts, seed, es);
            && i < |s.logs[p]|
            && (s.logs[p][i].Decoded? ==>
                  var r := s.logs[p][i].row;
                  && (r.norad, r.t) in s.store.positions
                  && r.norad in s.store.satellites
                  && r in PushesOf(h, r.norad))
  {
    var s, h := After(hash, parts, seed, es), HistoryOf(hash, parts, seed, es);
    RunInv(hash, parts, seed, es);
    assert OffsetsAt(s, h, p);
    if s.logs[p][i].Decoded? {
      DecodedIsDelivered(hash, parts, seed, es, p, i);
    }
  }

  lemma DecodedIsStored(hash: string -> nat, parts: nat, seed: Seed, es: seq<Event>, n: string, i: nat)
    requires parts > 0
    requires var s, p := After(hash, parts, seed, es), Home(hash, parts, n);
             i < s.committed[p] && i < |s.logs[p]| && s.logs[p][i].Decoded? && s.logs[p][i].row.norad == n
    ensures var s, p := After(hash, parts, seed, es), Home(hash, parts, n);
            (n, s.logs[p][i].row.t) in s.store.positions && n in s.store.satellites
  {
    var s, h, p := After(hash, parts, seed, es), HistoryOf(hash, parts, seed, es), Home(hash, parts, n);
    OffsetsReached(hash, parts, seed, es, n);
    var ins := s.logs[p][..h.furthestIns[p]];
    PositionAt(hash, parts, seed, es, n, s.logs[p][i].row.t);
    OfLogMember(n, ins, i);
    FirstColsIsFirst(OfLog(n, ins), s.logs[p][i].row.t);
    EpochIsGreatest(hash, parts, seed, es, n);
    OfLogMember(n, s.logs[p][..h.furthestUps[p]], i);
  }

  lemma DecodedIsDelivered(hash: string -> nat, parts: nat, seed: Seed, es: seq<Event>, p: nat, i: nat)
    requires parts > 0 && p < parts
    requires var s := After(hash, parts, seed, es); i < s.committed[p] && i < |s.logs[p]| && s.logs[p][i].Decoded?
    ensures var s, h := After(hash, parts, seed, es), HistoryOf(hash, parts, seed, es);
            var r := s.logs[p][i].row;
            && (r.norad, r.t) in s.store.positions
            && r.norad in s.store.satellites
            && r in PushesOf(h, r.norad)
  {
    var s, h := After(hash, parts, seed, es), HistoryOf(hash, parts, seed, es);
    var r := s.logs[p][i].row;
    var n := r.norad;
    RunInv(hash, parts, seed, es);
    assert AtHome(hash, parts, p, s.logs[p][i]);
    DecodedIsStored(hash, parts, seed, es, n, i);
    PushedInOrder(hash, parts, seed, es, n);
    OfLogMember(n, s.logs[p][..s.committed[p]], i);
    SubseqMember(OfLog(n, s.logs[p][..s.committed[p]]), PushesOf(h, n), r);
  }

  /** The push history of a satellite contains its whole committed log, in log order. */
  lemma PushedInOrder(hash: string -> nat, parts: nat, seed: Seed, es: seq<Event>, n: string)
    requires parts > 0
    ensures var s, h, p := After(hash, parts, seed, es), HistoryOf(hash, parts, seed, es), Home(hash, parts, n);
            && s.committed[p] <= |s.logs[p]|
            && IsSubseq(OfLog(n, s.logs[p][..s.committed[p]]), PushesOf(h, n))
  {
    Reached(hash, parts, seed, es, n);
    var s, h, p := After(hash, parts, seed, es), HistoryOf(hash, parts, seed, es), Home(hash, parts, n);
    CrashKeepsSubseq(n, s.logs[p], h.start[p], s.committed[p], h.pushed[p], BaseOf(h, n));
  }

  // ---- Redis ----

  /** The track list shows the newest 120 pushes, and the active score is always the time at its head. */
  lemma ScoreIsHeadOfTrack(hash: string -> nat, parts: nat, seed: Seed, es: seq<Event>, n: string)
    requires parts > 0
    ensures var s, h := After(hash, parts, seed, es), HistoryOf(hash, parts, seed, es);
            var list := GetOr(s.store.tracks, n, []);
            && list == Newest(Tracks(PushesOf(h, n)), TRACK_LIST_MAX)
            && (n in s.store.active <==> list != [])
            && (list != [] ==> s.store.active[n] == list[0].t)
  {
    Reached(hash, parts, seed, es, n);
  }

  /** Entry `i` of the track list carries the time and all columns of the row pushed `i` pushes before the last. */
  lemma EntryIsPushedRow(hash: string -> nat, parts: nat, seed: Seed, es: seq<Event>, n: string, i: nat)
    requires parts > 0 && i < |GetOr(After(hash, parts, seed, es).store.tracks, n, [])|
    ensures var x, pushes := After(hash, parts, seed, es).store.tracks[n][i], PushesOf(HistoryOf(hash, parts, seed, es), n);
            && i < |pushes|
            && var r := pushes[|pushes| - 1 - i];
               x.t == r.t && x.lat == r.cols.lat && x.lon == r.cols.lon && x.alt == r.cols.alt
               && x.v == r.cols.speed && x.cell == r.cols.cell
  {
    ScoreIsHeadOfTrack(hash, parts, seed, es, n);
    var pushes := PushesOf(HistoryOf(hash, parts, seed, es), n);
    assert Newest(Tracks(pushes), TRACK_LIST_MAX)[i] == Tracks(pushes)[|pushes| - 1 - i];
  }

  /**
   A track list heals: once the current incarnation has pushed 120 samples of the
   satellite, the list is the satellite's last 120 log samples below the pushed
   offset, newest first, whatever earlier incarnations left there.
   */
  lemma TrackHeals(hash: string -> nat, parts: nat, seed: Seed, es: seq<Event>, n: string)
    requires parts > 0
    ensures var s, h, p := After(hash, parts, seed, es), HistoryOf(hash, parts, seed, es), Home(hash, parts, n);
            && h.start[p] <= h.pushed[p] <= |s.logs[p]|
            && (|OfLog(n, s.logs[p][h.start[p]..h.pushed[p]])| >= TRACK_LIST_MAX ==>
                  GetOr(s.store.tracks, n, []) == Newest(Tracks(OfLog(n, s.logs[p][..h.pushed[p]])), TRACK_LIST_MAX))
  {
    Reached(hash, parts, seed, es, n);
    var s, h, p := After(hash, parts, seed, es), HistoryOf(hash, parts, seed, es), Home(hash, parts, n);
    var recent := OfLog(n, s.logs[p][h.start[p]..h.pushed[p]]);
    SplitPrefix(n, s.logs[p], h.start[p], h.pushed[p]);
    if |recent| >= TRACK_LIST_MAX {
      TracksConcat(BaseOf(h, n), recent);
      TracksConcat(OfLog(n, s.logs[p][..h.start[p]]), recent);
      NewestSuffix(Tracks(BaseOf(h, n)), Tracks(recent), TRACK_LIST_MAX);
      NewestSuffix(Tracks(OfLog(n, s.logs[p][..h.start[p]])), Tracks(recent), TRACK_LIST_MAX);
    }
  }

  lemma TracksConcat(a: seq<Row>, b: seq<Row>)
    ensures Tracks(a + b) == Tracks(a) + Tracks(b)
  {
  }
}

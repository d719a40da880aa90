/** The inductive invariant of the persister, and that every event keeps it. */
module PersisterInvariant {
  import opened Seqs
  import opened PersisterModel
  import opened PersisterFolds

  /** A decoded message is in its satellite's partition. */
  predicate AtHome(hash: string -> nat, parts: nat, p: nat, m: Msg)
    requires parts > 0
  {
    m.Decoded? ==> Home(hash, parts, m.row.norad) == p
  }

  ghost predicate Keyed(hash: string -> nat, s: System)
    requires Shape(s)
  {
    forall p, i {:trigger AtHome(hash, |s.logs|, p, s.logs[p][i])} ::
      0 <= p < |s.logs| && 0 <= i < |s.logs[p]| ==> AtHome(hash, |s.logs|, p, s.logs[p][i])
  }

  ghost predicate OffsetsAt(s: System, h: History, p: nat)
    requires Shape(s) && HistoryShape(h, |s.logs|) && p < |s.logs|
  {
    && h.start[p] <= s.committed[p] <= h.pushed[p] <= h.upserted[p] <= s.polled[p] <= |s.logs[p]|
    && h.upserted[p] <= h.furthestUps[p] <= |s.logs[p]|
    && h.upserted[p] <= h.furthestIns[p] <= |s.logs[p]|
    && (s.phase.Idle? || s.phase.Inserted? ==> h.pushed[p] == h.upserted[p])
    && (s.phase.Upserted? || s.phase.Pushed? ==> h.upserted[p] == s.polled[p])
    && (s.phase.Pushed? ==> h.pushed[p] == s.polled[p])
    && (!s.phase.Idle? ==> s.polled[p] <= h.furthestIns[p])
  }

  ghost predicate Offsets(s: System, h: History)
    requires Shape(s) && HistoryShape(h, |s.logs|)
  {
    && (!s.phase.Idle? ==> s.buffer == [])
    && forall p: nat :: p < |s.logs| ==> OffsetsAt(s, h, p)
  }

  /** The rows taken from Kafka and not yet pushed to Redis. */
  function Pending(s: System): seq<Row> {
    if s.phase.Idle? then s.buffer else s.phase.rows
  }

  function PushesOf(h: History, n: string): seq<Row> { GetOr(h.pushes, n, []) }

  function BaseOf(h: History, n: string): seq<Row> { GetOr(h.base, n, []) }

  function NameAt(n: string, log: seq<Msg>, k: nat): Option<string>
    requires k <= |log|
  {
    LastName(OfLog(n, log[..k]))
  }

  /**
   The stored name is the last non-null name of some log prefix between the two
   offsets, of one that has a name if the longest does; else it is the seeded one.
   */
  ghost predicate NameWithin(n: string, log: seq<Msg>, lo: nat, hi: nat, seeded: Option<string>, name: Option<string>)
    requires lo <= hi <= |log|
  {
    exists k: nat {:trigger NameAt(n, log, k)} ::
      lo <= k <= hi && (NameAt(n, log, hi).Some? ==> NameAt(n, log, k).Some?) && name == OrElse(NameAt(n, log, k), seeded)
  }

  /** The pending rows of `n` are its log rows between two offsets. */
  ghost predicate PendingAre(n: string, log: seq<Msg>, pending: seq<Row>, from: nat, to: nat)
    requires from <= to <= |log|
  {
    Of(n, pending) == OfLog(n, log[from..to])
  }

  /** Of `n` the table holds the first row for each sample time in the log prefix. */
  ghost predicate PositionsAre(n: string, log: seq<Msg>, positions: map<(string, int), Columns>, upTo: nat)
    requires upTo <= |log|
  {
    forall t :: Get(positions, (n, t)) == FirstCols(OfLog(n, log[..upTo]), t)
  }

  /** What upserting a log prefix on top of the seeded row leaves, the name possibly being that of a shorter prefix. */
  ghost predicate SatelliteIs(n: string, log: seq<Msg>, seeded: Option<Satellite>, now: Option<Satellite>, lo: nat, upTo: nat)
    requires lo <= upTo <= |log|
  {
    && (now.Some? <==> seeded.Some? || OfLog(n, log[..upTo]) != [])
    && EpochOf(now) == Greatest(EpochOf(seeded), MaxEpoch(OfLog(n, log[..upTo])))
    && NameWithin(n, log, lo, upTo, NameOf(seeded), NameOf(now))
  }

  /** This incarnation has pushed its part of the log on top of `base`, which contains everything before it. */
  ghost predicate PushesAre(n: string, log: seq<Msg>, pushes: seq<Row>, base: seq<Row>, start: nat, pushed: nat)
    requires start <= pushed <= |log|
  {
    && pushes == base + OfLog(n, log[start..pushed])
    && IsSubseq(OfLog(n, log[..start]), base)
  }

  /** The history's offsets of this partition lie in its log. */
  predicate InLog(log: seq<Msg>, h: History, p: nat) {
    && HistoryShape(h, |h.start|) && p < |h.start|
    && h.start[p] <= h.pushed[p] <= h.upserted[p] <= h.furthestUps[p] <= |log| && h.furthestIns[p] <= |log|
  }

  /** What satellite `n` looks like in Postgres and in Redis, given the log of its partition. */
  ghost predicate Written(log: seq<Msg>, st: Store, h: History, n: string, p: nat)
    requires InLog(log, h, p)
  {
    && PositionsAre(n, log, st.positions, h.furthestIns[p])
    && SatelliteIs(n, log, Get(h.seed, n), Get(st.satellites, n), h.upserted[p], h.furthestUps[p])
    && HotStateShows(st, n, PushesOf(h, n))
    && PushesAre(n, log, PushesOf(h, n), BaseOf(h, n), h.start[p], h.pushed[p])
  }

  /** ... and in the buffer. */
  ghost predicate Content(s: System, h: History, n: string, p: nat)
    requires Shape(s) && HistoryShape(h, |s.logs|) && p < |s.logs| && OffsetsAt(s, h, p)
  {
    && (!s.phase.Pushed? ==> PendingAre(n, s.logs[p], Pending(s), h.pushed[p], s.polled[p]))
    && Written(s.logs[p], s.store, h, n, p)
  }

  ghost predicate Inv(hash: string -> nat, s: System, h: History) {
    && Shape(s) && HistoryShape(h, |s.logs|)
    && Keyed(hash, s)
    && Offsets(s, h)
    && forall n :: Content(s, h, n, Home(hash, |s.logs|, n))
  }

  // ---- Each event keeps it ----

  lemma InitInv(hash: string -> nat, parts: nat, seed: Seed)
    requires parts > 0
    ensures Inv(hash, Init(parts, seed), InitHistory(parts, seed))
  {
    var s, h := Init(parts, seed), InitHistory(parts, seed);
    forall n
      ensures Content(s, h, n, Home(hash, parts, n))
    {
      assert NameAt(n, s.logs[Home(hash, parts, n)], 0) == None;
    }
  }

  lemma AppendContent(s: System, h: History, s': System, n: string, p: nat)
    requires Shape(s) && Shape(s') && |s.logs| == |s'.logs| && HistoryShape(h, |s.logs|) && p < |s.logs|
    requires OffsetsAt(s, h, p) && Content(s, h, n, p)
    requires s' == s.(logs := s'.logs) && s.logs[p] <= s'.logs[p]
    ensures OffsetsAt(s', h, p) && Content(s', h, n, p)
  {
    var log, log' := s.logs[p], s'.logs[p];
    assert forall a: nat, b: nat :: a <= b <= |log| ==> log'[a..b] == log[a..b];
    assert forall b: nat :: b <= |log| ==> log'[..b] == log[..b];
    NameUnmoved(n, log, log', h.upserted[p], h.furthestUps[p], NameOf(Get(h.seed, n)), NameOf(Get(s.store.satellites, n)));
  }

  lemma NameUnmoved(n: string, log: seq<Msg>, log': seq<Msg>, lo: nat, hi: nat, seeded: Option<string>, name: Option<string>)
    requires lo <= hi <= |log| && log <= log' && NameWithin(n, log, lo, hi, seeded, name)
    ensures NameWithin(n, log', lo, hi, seeded, name)
  {
    var k: nat :| lo <= k <= hi && (NameAt(n, log, hi).Some? ==> NameAt(n, log, k).Some?)
                  && name == OrElse(NameAt(n, log, k), seeded);
    assert log'[..k] == log[..k] && log'[..hi] == log[..hi];
    assert NameAt(n, log', k) == NameAt(n, log, k);
  }

  lemma PollForeign(hash: string -> nat, s: System, q: nat, a: nat, b: nat, n: string)
    requires Shape(s) && Keyed(hash, s) && q < |s.logs| && a <= b <= |s.logs[q]|
    requires Home(hash, |s.logs|, n) != q
    ensures OfLog(n, s.logs[q][a..b]) == []
  {
    var seg := s.logs[q][a..b];
    forall i | 0 <= i < |seg| && seg[i].Decoded?
      ensures seg[i].row.norad != n
    {
      assert seg[i] == s.logs[q][a + i] && AtHome(hash, |s.logs|, q, s.logs[q][a + i]);
    }
    OfForeign(n, seg);
  }

  lemma PollContent(s: System, h: History, buffer: seq<Row>, polled: seq<nat>, n: string, p: nat)
    requires Shape(s) && HistoryShape(h, |s.logs|) && p < |s.logs| && OffsetsAt(s, h, p) && Content(s, h, n, p)
    requires s.phase.Idle? && |polled| == |s.logs| && s.polled[p] <= polled[p] <= |s.logs[p]|
    requires PendingAre(n, s.logs[p], buffer, h.pushed[p], polled[p])
    ensures var s' := s.(buffer := buffer, polled := polled); OffsetsAt(s', h, p) && Content(s', h, n, p)
  {
  }

  /** A batch of another partition has no rows of the satellite. */
  lemma PendingUnmoved(n: string, log: seq<Msg>, buffer: seq<Row>, from: nat, to: nat, msgs: seq<Msg>)
    requires from <= to <= |log| && PendingAre(n, log, buffer, from, to) && OfLog(n, msgs) == []
    ensures PendingAre(n, log, buffer + Rows(msgs), from, to)
  {
    PendingGrows(n, buffer, msgs);
  }

  lemma PendingFurther(n: string, log: seq<Msg>, buffer: seq<Row>, from: nat, to: nat, further: nat)
    requires from <= to <= further <= |log| && PendingAre(n, log, buffer, from, to)
    ensures PendingAre(n, log, buffer + Rows(log[to..further]), from, further)
  {
    PendingGrows(n, buffer, log[to..further]);
    OfLogSplit(n, log, from, to, further);
  }

  lemma PendingGrows(n: string, buffer: seq<Row>, msgs: seq<Msg>)
    ensures Of(n, buffer + Rows(msgs)) == Of(n, buffer) + OfLog(n, msgs)
    ensures OfLog(n, msgs) == [] ==> Of(n, buffer + Rows(msgs)) == Of(n, buffer)
  {
    OfConcat(n, buffer, Rows(msgs));
    NilRight(Of(n, buffer));
  }

  lemma InsertContent(s: System, h: History, s': System, h': History, n: string, p: nat)
    requires Shape(s) && HistoryShape(h, |s.logs|) && p < |s.logs|
    requires OffsetsAt(s, h, p) && Content(s, h, n, p) && s.phase.Idle?
    requires s' == s.(buffer := [], phase := Inserted(s.buffer),
                      store := s.store.(positions := InsertAll(s.store.positions, s.buffer)))
    requires h' == h.(furthestIns := MaxEach(h.furthestIns, s.polled))
    ensures OffsetsAt(s', h', p) && Content(s', h', n, p)
  {
    var log, was, now := s.logs[p], h.furthestIns[p], Max(h.furthestIns[p], s.polled[p]);
    forall t
      ensures Get(InsertAll(s.store.positions, s.buffer), (n, t)) == FirstCols(OfLog(n, log[..now]), t)
    {
      InsertAllAt(s.store.positions, s.buffer, n, t);
      InsertedPrefix(n, log, h.pushed[p], was, s.polled[p], t);
    }
  }

  /** Inserting `log[a..b]` on top of everything below `was >= a` leaves everything below the larger end. */
  lemma InsertedPrefix(n: string, log: seq<Msg>, a: nat, was: nat, b: nat, t: int)
    requires a <= was <= |log| && a <= b <= |log|
    ensures OrElse(FirstCols(OfLog(n, log[..was]), t), FirstCols(OfLog(n, log[a..b]), t))
         == FirstCols(OfLog(n, log[..Max(was, b)]), t)
  {
    var x, y, z := Segments(n, log, a, Min(was, b), Max(was, b));
    FirstColsConcat(x, y, t);
    FirstColsConcat(y, z, t);
    FirstColsConcat(x + y, z, t);
  }

  lemma SplitPrefix(n: string, log: seq<Msg>, a: nat, b: nat)
    requires a <= b <= |log|
    ensures OfLog(n, log[..b]) == OfLog(n, log[..a]) + OfLog(n, log[a..b])
  {
    assert log[..a] == log[0..a] && log[..b] == log[0..b];
    OfLogSplit(n, log, 0, a, b);
  }

  lemma UpsertContent(s: System, h: History, s': System, h': History, n: string, p: nat)
    requires Shape(s) && HistoryShape(h, |s.logs|) && p < |s.logs|
    requires OffsetsAt(s, h, p) && Content(s, h, n, p) && s.phase.Inserted?
    requires s' == s.(phase := Upserted(s.phase.rows),
                      store := s.store.(satellites := UpsertAll(s.store.satellites, s.phase.rows)))
    requires h' == h.(upserted := s.polled, furthestUps := MaxEach(h.furthestUps, s.polled))
    ensures OffsetsAt(s', h', p) && Content(s', h', n, p)
  {
    UpsertedSatellite(n, s.logs[p], Get(h.seed, n), s.store.satellites, s.phase.rows,
                      h.upserted[p], h.furthestUps[p], s.polled[p]);
  }

  lemma UpsertedSatellite(n: string, log: seq<Msg>, seeded: Option<Satellite>, sats: map<string, Satellite>,
                          rows: seq<Row>, a: nat, was: nat, b: nat)
    requires a <= was <= |log| && a <= b <= |log|
    requires SatelliteIs(n, log, seeded, Get(sats, n), a, was) && PendingAre(n, log, rows, a, b)
    ensures SatelliteIs(n, log, seeded, Get(UpsertAll(sats, rows), n), b, Max(was, b))
  {
    UpsertAllAt(sats, rows, n);
    UpsertedRows(n, log, a, was, b);
    UpsertedName(n, log, a, was, b, NameOf(seeded), NameOf(Get(sats, n)));
  }

  /** The rows of three neighbouring parts of a log. */
  lemma Segments(n: string, log: seq<Msg>, a: nat, b: nat, c: nat) returns (x: seq<Row>, y: seq<Row>, z: seq<Row>)
    requires a <= b <= c <= |log|
    ensures OfLog(n, log[..a]) == x && OfLog(n, log[a..b]) == y && OfLog(n, log[b..c]) == z
    ensures OfLog(n, log[..b]) == x + y && OfLog(n, log[..c]) == x + y + z && OfLog(n, log[a..c]) == y + z
  {
    x, y, z := OfLog(n, log[..a]), OfLog(n, log[a..b]), OfLog(n, log[b..c]);
    SplitPrefix(n, log, a, b);
    SplitPrefix(n, log, b, c);
    OfLogSplit(n, log, a, b, c);
  }

  lemma EpochsOfThree(x: seq<Row>, y: seq<Row>, z: seq<Row>)
    ensures Greatest(MaxEpoch(x + y), MaxEpoch(y + z)) == MaxEpoch(x + y + z)
    ensures Greatest(MaxEpoch(x + y + z), MaxEpoch(y)) == MaxEpoch(x + y + z)
  {
    MaxEpochConcat(x, y);
    MaxEpochConcat(y, z);
    MaxEpochConcat(x + y, z);
  }

  /** Upserting `log[a..b]` on top of everything below `was >= a` takes in everything below the larger end. */
  lemma UpsertedRows(n: string, log: seq<Msg>, a: nat, was: nat, b: nat)
    requires a <= was <= |log| && a <= b <= |log|
    ensures Greatest(MaxEpoch(OfLog(n, log[..was])), MaxEpoch(OfLog(n, log[a..b])))
         == MaxEpoch(OfLog(n, log[..Max(was, b)]))
    ensures OfLog(n, log[..was]) != [] || OfLog(n, log[a..b]) != [] <==> OfLog(n, log[..Max(was, b)]) != []
  {
    var x, y, z := Segments(n, log, a, Min(was, b), Max(was, b));
    EpochsOfThree(x, y, z);
  }

  /**
   Upserting `log[a..b]`: a named row in it makes the name that of `log[..b]`;
   without one, a name older than `b` is still the name of `log[..b]`.
   */
  lemma UpsertedName(n: string, log: seq<Msg>, a: nat, was: nat, b: nat, seeded: Option<string>, name: Option<string>)
    requires a <= was <= |log| && a <= b <= |log|
    requires NameWithin(n, log, a, was, seeded, name)
    ensures NameWithin(n, log, b, Max(was, b), seeded, OrElse(LastName(OfLog(n, log[a..b])), name))
  {
    var k: nat :| a <= k <= was && (NameAt(n, log, was).Some? ==> NameAt(n, log, k).Some?)
                  && name == OrElse(NameAt(n, log, k), seeded);
    var now := OrElse(LastName(OfLog(n, log[a..b])), name);
    if k <= b {
      var x, y, z := Segments(n, log, a, k, b);
      LastNameConcat(x + y, z);
      LastNameConcat(y, z);
      LastNameConcat(x, y);
      assert now == OrElse(NameAt(n, log, b), seeded);
    } else {
      var x, y, z := Segments(n, log, a, b, k);
      LastNameConcat(x, y);
      LastNameConcat(x + y, z);
      if LastName(y).Some? { assert now == OrElse(NameAt(n, log, b), seeded); }
    }
  }

  lemma PushHotState(st: Store, h: History, rows: seq<Row>, n: string)
    requires HotStateShows(st, n, PushesOf(h, n))
    ensures var h' := h.(pushes := RecordPushes(h.pushes, rows));
            && PushesOf(h', n) == PushesOf(h, n) + Of(n, rows)
            && HotStateShows(PushAll(st, rows), n, PushesOf(h', n))
            && PushAll(st, rows).positions == st.positions && PushAll(st, rows).satellites == st.satellites
  {
    PushAllShows(st, rows, n, PushesOf(h, n));
    RecordPushesAt(h.pushes, rows, n);
  }

  lemma PushContent(s: System, h: History, s': System, h': History, n: string, p: nat)
    requires Shape(s) && HistoryShape(h, |s.logs|) && p < |s.logs|
    requires OffsetsAt(s, h, p) && Content(s, h, n, p) && s.phase.Upserted?
    requires s' == s.(phase := Pushed(s.phase.rows), store := PushAll(s.store, s.phase.rows))
    requires h' == h.(pushed := s.polled, pushes := RecordPushes(h.pushes, s.phase.rows))
    ensures OffsetsAt(s', h', p) && Content(s', h', n, p)
  {
    PushHotState(s.store, h, s.phase.rows, n);
    PushedFurther(n, s.logs[p], PushesOf(h, n), BaseOf(h, n), h.start[p], h.pushed[p], s.polled[p], s.phase.rows);
  }

  lemma PushedFurther(n: string, log: seq<Msg>, pushes: seq<Row>, base: seq<Row>, start: nat, was: nat, now: nat, rows: seq<Row>)
    requires start <= was <= now <= |log|
    requires PushesAre(n, log, pushes, base, start, was) && PendingAre(n, log, rows, was, now)
    ensures PushesAre(n, log, pushes + Of(n, rows), base, start, now)
  {
    OfLogSplit(n, log, start, was, now);
    assert base + OfLog(n, log[start..was]) + Of(n, rows) == base + (OfLog(n, log[start..was]) + Of(n, rows));
  }

  lemma CommitContent(s: System, h: History, s': System, n: string, p: nat)
    requires Shape(s) && HistoryShape(h, |s.logs|) && p < |s.logs|
    requires OffsetsAt(s, h, p) && Content(s, h, n, p) && s.phase.Pushed? && s.buffer == []
    requires s' == s.(phase := Idle, committed := s.polled)
    ensures OffsetsAt(s', h, p) && Content(s', h, n, p)
  {
  }

  /** A crash forgets the buffer and the uncommitted offsets; everything pushed so far becomes the base. */
  lemma CrashContent(s: System, h: History, s': System, h': History, n: string, p: nat)
    requires Shape(s) && HistoryShape(h, |s.logs|) && p < |s.logs|
    requires OffsetsAt(s, h, p) && Content(s, h, n, p)
    requires s' == s.(phase := Idle, buffer := [], polled := s.committed)
    requires h' == h.(start := s.committed, upserted := s.committed, pushed := s.committed, base := h.pushes)
    ensures OffsetsAt(s', h', p) && Content(s', h', n, p)
  {
    var log, to := s.logs[p], s.committed[p];
    CrashKeepsSubseq(n, log, h.start[p], to, h.pushed[p], BaseOf(h, n));
    assert log[to..to] == [];
    assert PushesOf(h', n) == BaseOf(h', n) + OfLog(n, log[to..to]);
    assert NameWithin(n, log, to, h.furthestUps[p], NameOf(Get(h.seed, n)), NameOf(Get(s.store.satellites, n)));
  }

  lemma CrashKeepsSubseq(n: string, log: seq<Msg>, from: nat, to: nat, pushed: nat, base: seq<Row>)
    requires from <= to <= pushed <= |log|
    requires IsSubseq(OfLog(n, log[..from]), base)
    ensures IsSubseq(OfLog(n, log[..to]), base + OfLog(n, log[from..pushed]))
  {
    var x, y, z := Segments(n, log, from, to, pushed);
    SubseqGrows(x, base, y, z);
  }

  lemma FlushContent(hash: string -> nat, s: System, h: History, e: Event, n: string, p: nat)
    requires Shape(s) && HistoryShape(h, |s.logs|) && p < |s.logs|
    requires OffsetsAt(s, h, p) && Content(s, h, n, p) && (!s.phase.Idle? ==> s.buffer == [])
    requires Enabled(hash, s, e) && (e.Insert? || e.Upsert? || e.Push? || e.Commit?)
    ensures var s' := Next(hash, s, e); var h' := NextHistory(hash, s, h, e);
            OffsetsAt(s', h', p) && Content(s', h', n, p)
  {
    var s', h' := Next(hash, s, e), NextHistory(hash, s, h, e);
    match e
    case Insert => InsertContent(s, h, s', h', n, p);
    case Upsert => UpsertContent(s, h, s', h', n, p);
    case Push => PushContent(s, h, s', h', n, p);
    case Commit => CommitContent(s, h, s', n, p);
  }

  lemma AppendKeeps(hash: string -> nat, s: System, h: History, q: nat, msg: Msg, n: string, p: nat)
    requires Shape(s) && HistoryShape(h, |s.logs|) && p < |s.logs|
    requires OffsetsAt(s, h, p) && Content(s, h, n, p) && Enabled(hash, s, Append(q, msg))
    ensures var s' := Next(hash, s, Append(q, msg)); OffsetsAt(s', h, p) && Content(s', h, n, p)
  {
    var s' := s.(logs := s.logs[q := s.logs[q] + [msg]]);
    assert s.logs[p] <= s'.logs[p];
    AppendContent(s, h, s', n, p);
  }

  lemma PollPending(hash: string -> nat, s: System, q: nat, c: nat, n: string, p: nat, pushed: nat)
    requires Shape(s) && Keyed(hash, s) && Enabled(hash, s, Poll(q, c))
    requires p == Home(hash, |s.logs|, n) && pushed <= s.polled[p] <= |s.logs[p]|
    requires PendingAre(n, s.logs[p], s.buffer, pushed, s.polled[p])
    ensures PendingAre(n, s.logs[p], s.buffer + Rows(s.logs[q][s.polled[q]..s.polled[q] + c]),
                       pushed, if p == q then s.polled[p] + c else s.polled[p])
  {
    if p == q {
      PendingFurther(n, s.logs[p], s.buffer, pushed, s.polled[p], s.polled[p] + c);
    } else {
      PollForeign(hash, s, q, s.polled[q], s.polled[q] + c, n);
      PendingUnmoved(n, s.logs[p], s.buffer, pushed, s.polled[p], s.logs[q][s.polled[q]..s.polled[q] + c]);
    }
  }

  lemma PollKeeps(hash: string -> nat, s: System, h: History, q: nat, c: nat, n: string, p: nat)
    requires Shape(s) && HistoryShape(h, |s.logs|) && Keyed(hash, s)
    requires p == Home(hash, |s.logs|, n) && OffsetsAt(s, h, p) && Content(s, h, n, p)
    requires Enabled(hash, s, Poll(q, c))
    ensures var s' := Next(hash, s, Poll(q, c)); OffsetsAt(s', h, p) && Content(s', h, n, p)
  {
    var buffer := PolledBuffer(hash, s, q, c, n, p, h.pushed[p]);
    PollContent(s, h, buffer, s.polled[q := s.polled[q] + c], n, p);
  }

  lemma PolledBuffer(hash: string -> nat, s: System, q: nat, c: nat, n: string, p: nat, pushed: nat)
      returns (buffer: seq<Row>)
    requires Shape(s) && Keyed(hash, s) && Enabled(hash, s, Poll(q, c))
    requires p == Home(hash, |s.logs|, n) && pushed <= s.polled[p] <= |s.logs[p]|
    requires PendingAre(n, s.logs[p], s.buffer, pushed, s.polled[p])
    ensures Next(hash, s, Poll(q, c)) == s.(buffer := buffer, polled := s.polled[q := s.polled[q] + c])
    ensures PendingAre(n, s.logs[p], buffer, pushed, s.polled[q := s.polled[q] + c][p])
  {
    PollPending(hash, s, q, c, n, p, pushed);
    Polled(hash, s, q, c);
    buffer := Next(hash, s, Poll(q, c)).buffer;
  }

  lemma Polled(hash: string -> nat, s: System, q: nat, c: nat)
    requires Shape(s) && Enabled(hash, s, Poll(q, c))
    ensures Next(hash, s, Poll(q, c))
         == s.(buffer := s.buffer + Rows(s.logs[q][s.polled[q]..s.polled[q] + c]),
               polled := s.polled[q := s.polled[q] + c])
  {
  }

  lemma NextContent(hash: string -> nat, s: System, h: History, e: Event, n: string, p: nat)
    requires Shape(s) && HistoryShape(h, |s.logs|) && Keyed(hash, s) && Offsets(s, h)
    requires p == Home(hash, |s.logs|, n) && OffsetsAt(s, h, p) && Content(s, h, n, p)
    requires Enabled(hash, s, e)
    ensures var s' := Next(hash, s, e); var h' := NextHistory(hash, s, h, e);
            OffsetsAt(s', h', p) && Content(s', h', n, p)
  {
    match e
    case Append(q, msg) => AppendKeeps(hash, s, h, q, msg, n, p);
    case Poll(q, c) => PollKeeps(hash, s, h, q, c, n, p);
    case Crash => CrashContent(s, h, Next(hash, s, e), NextHistory(hash, s, h, e), n, p);
    case _ => FlushContent(hash, s, h, e, n, p);
  }

  lemma NextOffsets(s: System, h: History, hash: string -> nat, e: Event, p: nat)
    requires Shape(s) && HistoryShape(h, |s.logs|) && Offsets(s, h) && Enabled(hash, s, e) && p < |s.logs|
    ensures OffsetsAt(Next(hash, s, e), NextHistory(hash, s, h, e), p)
  {
    assert OffsetsAt(s, h, p);
  }

  lemma NextKeyed(hash: string -> nat, s: System, e: Event)
    requires Shape(s) && Keyed(hash, s)
    ensures Keyed(hash, Next(hash, s, e))
  {
    var s' := Next(hash, s, e);
    forall p, i | 0 <= p < |s'.logs| && 0 <= i < |s'.logs[p]|
      ensures AtHome(hash, |s'.logs|, p, s'.logs[p][i])
    {
      if i < |s.logs[p]| { assert AtHome(hash, |s.logs|, p, s.logs[p][i]); }
    }
  }

  lemma NextInv(hash: string -> nat, s: System, h: History, e: Event)
    requires Inv(hash, s, h)
    ensures Inv(hash, Next(hash, s, e), NextHistory(hash, s, h, e))
  {
    if Enabled(hash, s, e) {
      var s', h' := Next(hash, s, e), NextHistory(hash, s, h, e);
      NextKeyed(hash, s, e);
      forall p: nat | p < |s.logs|
        ensures OffsetsAt(s', h', p)
      {
        NextOffsets(s, h, hash, e, p);
      }
      forall n
        ensures Content(s', h', n, Home(hash, |s.logs|, n))
      {
        assert Content(s, h, n, Home(hash, |s.logs|, n));
        NextContent(hash, s, h, e, n, Home(hash, |s.logs|, n));
      }
    }
  }

  /** The invariant holds after every run: any interleaving of appends, polls, flush writes and crashes. */
  lemma {:induction false} RunInv(hash: string -> nat, parts: nat, seed: Seed, es: seq<Event>)
    requires parts > 0
    ensures Inv(hash, Run(hash, Init(parts, seed), es), HistoryOf(hash, parts, seed, es))
    ensures HistoryOf(hash, parts, seed, es).seed == seed
    decreases |es|
  {
    if es == [] {
      InitInv(hash, parts, seed);
    } else {
      var s, h := Run(hash, Init(parts, seed), Front(es)), HistoryOf(hash, parts, seed, Front(es));
      RunInv(hash, parts, seed, Front(es));
      NextInv(hash, s, h, Last(es));
      assert Run(hash, Init(parts, seed), es) == Next(hash, s, Last(es));
      assert HistoryOf(hash, parts, seed, es) == NextHistory(hash, s, h, Last(es));
    }
  }
}

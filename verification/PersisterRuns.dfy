/** Pieces from which runs with known outcomes are built. */
module PersisterRuns {
  import opened Seqs
  import opened PersisterModel
  import opened PersisterFolds
  import opened PersisterInvariant
  import opened PersisterTheorems

  // ---- Runs over the same logs ----

  /** The appends of a run alone. */
  function Appends(es: seq<Event>): seq<Event> {
    if es == [] then [] else Appends(Front(es)) + (if Last(es).Append? then [Last(es)] else [])
  }

  lemma {:induction false} AppendsOnly(es: seq<Event>)
    ensures forall i :: 0 <= i < |Appends(es)| ==> Appends(es)[i].Append?
    decreases |es|
  {
    if es != [] { AppendsOnly(Front(es)); }
  }

  lemma {:induction false} AppendsBuildLogs(hash: string -> nat, parts: nat, seed: Seed, es: seq<Event>)
    requires parts > 0
    ensures After(hash, parts, seed, Appends(es)) == Init(parts, seed).(logs := After(hash, parts, seed, es).logs)
    ensures HistoryOf(hash, parts, seed, Appends(es)) == InitHistory(parts, seed)
    decreases |es|
  {
    if es != [] {
      AppendsBuildLogs(hash, parts, seed, Front(es));
      NextLogs(hash, After(hash, parts, seed, Front(es)), Init(parts, seed), InitHistory(parts, seed), Last(es));
      if Last(es).Append? {
        OneMore(hash, parts, seed, Appends(Front(es)), Last(es));
      } else {
        NilRight(Appends(Front(es)));
      }
    }
  }

  /** Only appends change the logs, in the same way whatever else the system holds. */
  lemma NextLogs(hash: string -> nat, s: System, other: System, h: History, e: Event)
    requires Shape(s) && Shape(other) && |other.logs| == |s.logs| && HistoryShape(h, |s.logs|)
    ensures if e.Append? then
              && Next(hash, other.(logs := s.logs), e) == other.(logs := Next(hash, s, e).logs)
              && NextHistory(hash, other.(logs := s.logs), h, e) == h
            else Next(hash, s, e).logs == s.logs
  {
  }

  /** Poll one batch and do the first two writes of its flush. */
  function PollAndUpsert(p: nat, k: nat): seq<Event> { [Poll(p, k), Insert, Upsert] }

  /** A run three events longer. */
  lemma ThreeMore(hash: string -> nat, parts: nat, seed: Seed, es: seq<Event>, a: Event, b: Event, c: Event)
    requires parts > 0
    ensures var s, h := After(hash, parts, seed, es), HistoryOf(hash, parts, seed, es);
            var s1, h1 := Next(hash, s, a), NextHistory(hash, s, h, a);
            var s2, h2 := Next(hash, s1, b), NextHistory(hash, s1, h1, b);
            && After(hash, parts, seed, es + [a, b, c]) == Next(hash, s2, c)
            && HistoryOf(hash, parts, seed, es + [a, b, c]) == NextHistory(hash, s2, h2, c)
  {
    OneMore(hash, parts, seed, es, a);
    OneMore(hash, parts, seed, es + [a], b);
    OneMore(hash, parts, seed, es + [a] + [b], c);
    ThreeAppended(es, a, b, c);
  }

  lemma ThreeAppended<T>(s: seq<T>, a: T, b: T, c: T)
    ensures s + [a] + [b] + [c] == s + [a, b, c]
  {
  }

  ghost predicate CanPoll(s: System, p: nat, k: nat, rows: seq<Row>)
    requires Shape(s)
  {
    && p < |s.logs| && s.phase.Idle? && s.buffer == [] && s.polled[p] + k <= |s.logs[p]|
    && rows == Rows(s.logs[p][s.polled[p]..s.polled[p] + k]) && rows != []
  }

  function PolledUpTo(s: System, p: nat, k: nat): seq<nat>
    requires Shape(s) && p < |s.logs|
  {
    s.polled[p := s.polled[p] + k]
  }

  /** After polling `k` messages of a partition and upserting their rows. */
  function UpsertedSystem(s: System, p: nat, k: nat, rows: seq<Row>): System
    requires Shape(s) && p < |s.logs|
  {
    s.(polled := PolledUpTo(s, p, k), phase := Upserted(rows),
       store := s.store.(positions := InsertAll(s.store.positions, rows),
                         satellites := UpsertAll(s.store.satellites, rows)))
  }

  function UpsertedHistory(h: History, polled: seq<nat>): History
    requires |h.furthestIns| == |h.furthestUps| == |polled|
  {
    h.(furthestIns := MaxEach(h.furthestIns, polled), upserted := polled, furthestUps := MaxEach(h.furthestUps, polled))
  }

  lemma PollStep(hash: string -> nat, s: System, h: History, p: nat, k: nat, rows: seq<Row>)
    requires Shape(s) && HistoryShape(h, |s.logs|) && CanPoll(s, p, k, rows)
    ensures Next(hash, s, Poll(p, k)) == s.(buffer := rows, polled := PolledUpTo(s, p, k))
    ensures NextHistory(hash, s, h, Poll(p, k)) == h
  {
    NilLeft(rows);
  }

  lemma InsertStep(hash: string -> nat, s: System, h: History)
    requires Shape(s) && HistoryShape(h, |s.logs|) && s.phase.Idle? && s.buffer != []
    ensures Next(hash, s, Insert)
         == s.(buffer := [], phase := Inserted(s.buffer),
               store := s.store.(positions := InsertAll(s.store.positions, s.buffer)))
    ensures NextHistory(hash, s, h, Insert) == h.(furthestIns := MaxEach(h.furthestIns, s.polled))
  {
  }

  lemma UpsertStep(hash: string -> nat, s: System, h: History)
    requires Shape(s) && HistoryShape(h, |s.logs|) && s.phase.Inserted?
    ensures Next(hash, s, Upsert)
         == s.(phase := Upserted(s.phase.rows),
               store := s.store.(satellites := UpsertAll(s.store.satellites, s.phase.rows)))
    ensures NextHistory(hash, s, h, Upsert)
         == h.(upserted := s.polled, furthestUps := MaxEach(h.furthestUps, s.polled))
  {
  }

  lemma PollsAndUpserts(hash: string -> nat, s: System, h: History, p: nat, k: nat, rows: seq<Row>)
    requires Shape(s) && HistoryShape(h, |s.logs|) && CanPoll(s, p, k, rows)
    ensures var s1, h1 := Next(hash, s, Poll(p, k)), NextHistory(hash, s, h, Poll(p, k));
            var s2, h2 := Next(hash, s1, Insert), NextHistory(hash, s1, h1, Insert);
            && Next(hash, s2, Upsert) == UpsertedSystem(s, p, k, rows)
            && NextHistory(hash, s2, h2, Upsert) == UpsertedHistory(h, PolledUpTo(s, p, k))
  {
    PollStep(hash, s, h, p, k, rows);
    var s1 := Next(hash, s, Poll(p, k));
    InsertStep(hash, s1, h);
    UpsertStep(hash, Next(hash, s1, Insert), NextHistory(hash, s1, h, Insert));
  }

  lemma Upserts(hash: string -> nat, parts: nat, seed: Seed, es: seq<Event>, p: nat, k: nat, rows: seq<Row>)
    requires parts > 0 && CanPoll(After(hash, parts, seed, es), p, k, rows)
    ensures var s, h := After(hash, parts, seed, es), HistoryOf(hash, parts, seed, es);
            && After(hash, parts, seed, es + PollAndUpsert(p, k)) == UpsertedSystem(s, p, k, rows)
            && HistoryOf(hash, parts, seed, es + PollAndUpsert(p, k)) == UpsertedHistory(h, PolledUpTo(s, p, k))
  {
    ThreeMore(hash, parts, seed, es, Poll(p, k), Insert, Upsert);
    PollsAndUpserts(hash, After(hash, parts, seed, es), HistoryOf(hash, parts, seed, es), p, k, rows);
  }

  /** ... and the third. */
  function PollAndPush(p: nat, k: nat): seq<Event> { PollAndUpsert(p, k) + [Push] }

  function PushedSystem(s: System, p: nat, k: nat, rows: seq<Row>): System
    requires Shape(s) && p < |s.logs|
  {
    var u := UpsertedSystem(s, p, k, rows);
    u.(phase := Pushed(rows), store := PushAll(u.store, rows))
  }

  function PushedHistory(h: History, polled: seq<nat>, rows: seq<Row>): History
    requires |h.furthestIns| == |h.furthestUps| == |polled|
  {
    UpsertedHistory(h, polled).(pushed := polled, pushes := RecordPushes(h.pushes, rows))
  }

  lemma PushStep(hash: string -> nat, s: System, h: History)
    requires Shape(s) && HistoryShape(h, |s.logs|) && s.phase.Upserted?
    ensures Next(hash, s, Push) == s.(phase := Pushed(s.phase.rows), store := PushAll(s.store, s.phase.rows))
    ensures NextHistory(hash, s, h, Push) == h.(pushed := s.polled, pushes := RecordPushes(h.pushes, s.phase.rows))
  {
  }

  lemma Pushes(hash: string -> nat, parts: nat, seed: Seed, es: seq<Event>, p: nat, k: nat, rows: seq<Row>)
    requires parts > 0 && CanPoll(After(hash, parts, seed, es), p, k, rows)
    ensures var s, h := After(hash, parts, seed, es), HistoryOf(hash, parts, seed, es);
            && After(hash, parts, seed, es + PollAndPush(p, k)) == PushedSystem(s, p, k, rows)
            && HistoryOf(hash, parts, seed, es + PollAndPush(p, k)) == PushedHistory(h, PolledUpTo(s, p, k), rows)
  {
    var es' := es + PollAndUpsert(p, k);
    Upserts(hash, parts, seed, es, p, k, rows);
    assert es + PollAndPush(p, k) == es' + [Push];
    OneMore(hash, parts, seed, es', Push);
    PushStep(hash, After(hash, parts, seed, es'), HistoryOf(hash, parts, seed, es'));
  }

  /** What such a push does to the table and to the push history of a satellite. */
  lemma PushedFacts(s: System, h: History, p: nat, k: nat, rows: seq<Row>, n: string)
    requires Shape(s) && HistoryShape(h, |s.logs|) && p < |s.logs|
    ensures PushedSystem(s, p, k, rows).store.positions == InsertAll(s.store.positions, rows)
    ensures PushesOf(PushedHistory(h, PolledUpTo(s, p, k), rows), n) == PushesOf(h, n) + Of(n, rows)
  {
    PushesOnly(UpsertedSystem(s, p, k, rows).store, rows);
    RecordPushesAt(h.pushes, rows, n);
  }

  /** A crash, after which the first `k` uncommitted messages of a partition are pushed again. */
  function RePush(p: nat, k: nat): seq<Event> { [Crash] + PollAndPush(p, k) }

  function Crashed(s: System): System { s.(phase := Idle, buffer := [], polled := s.committed) }

  function CrashedHistory(s: System, h: History): History {
    h.(start := s.committed, upserted := s.committed, pushed := s.committed, base := h.pushes)
  }

  lemma RePushes(hash: string -> nat, parts: nat, seed: Seed, es: seq<Event>, p: nat, k: nat, rows: seq<Row>)
    requires parts > 0 && CanPoll(Crashed(After(hash, parts, seed, es)), p, k, rows)
    ensures var s, h := Crashed(After(hash, parts, seed, es)),
                        CrashedHistory(After(hash, parts, seed, es), HistoryOf(hash, parts, seed, es));
            && After(hash, parts, seed, es + RePush(p, k)) == PushedSystem(s, p, k, rows)
            && HistoryOf(hash, parts, seed, es + RePush(p, k)) == PushedHistory(h, PolledUpTo(s, p, k), rows)
  {
    OneMore(hash, parts, seed, es, Crash);
    Pushes(hash, parts, seed, es + [Crash], p, k, rows);
    assert es + RePush(p, k) == es + [Crash] + PollAndPush(p, k);
  }

  /** Pushing a batch, and pushing its first messages again after a crash. */
  lemma PushesTwice(hash: string -> nat, parts: nat, seed: Seed, es: seq<Event>, p: nat,
                    k: nat, rows: seq<Row>, again: nat, repeated: seq<Row>, n: string)
    requires parts > 0 && CanPoll(After(hash, parts, seed, es), p, k, rows)
    requires After(hash, parts, seed, es).committed == After(hash, parts, seed, es).polled
    requires again <= k && CanPoll(After(hash, parts, seed, es), p, again, repeated)
    ensures var s, s' := After(hash, parts, seed, es), After(hash, parts, seed, es + PollAndPush(p, k) + RePush(p, again));
            s'.logs == s.logs && s'.store.positions == InsertAll(InsertAll(s.store.positions, rows), repeated)
    ensures PushesOf(HistoryOf(hash, parts, seed, es + PollAndPush(p, k) + RePush(p, again)), n)
         == PushesOf(HistoryOf(hash, parts, seed, es), n) + Of(n, rows) + Of(n, repeated)
  {
    var s, h := After(hash, parts, seed, es), HistoryOf(hash, parts, seed, es);
    Pushes(hash, parts, seed, es, p, k, rows);
    var s1, h1 := PushedSystem(s, p, k, rows), PushedHistory(h, PolledUpTo(s, p, k), rows);
    RePushes(hash, parts, seed, es + PollAndPush(p, k), p, again, repeated);
    PushedFacts(s, h, p, k, rows, n);
    PushedFacts(Crashed(s1), CrashedHistory(s1, h1), p, again, repeated, n);
  }

  /** The commit of a flush, and the first write of the next one. */
  function CommitAndInsert(p: nat, k: nat): seq<Event> { [Commit, Poll(p, k), Insert] }

  lemma CommitsAndInserts(hash: string -> nat, parts: nat, seed: Seed, es: seq<Event>, p: nat, k: nat, rows: seq<Row>)
    requires parts > 0
    requires var s := After(hash, parts, seed, es); s.phase.Pushed? && CanPoll(s.(phase := Idle), p, k, rows)
    ensures After(hash, parts, seed, es + CommitAndInsert(p, k)).store.positions
         == InsertAll(After(hash, parts, seed, es).store.positions, rows)
    ensures HistoryOf(hash, parts, seed, es + CommitAndInsert(p, k)).pushes == HistoryOf(hash, parts, seed, es).pushes
  {
    ThreeMore(hash, parts, seed, es, Commit, Poll(p, k), Insert);
    CommitPollInsert(hash, After(hash, parts, seed, es), HistoryOf(hash, parts, seed, es), p, k, rows);
  }

  lemma CommitPollInsert(hash: string -> nat, s: System, h: History, p: nat, k: nat, rows: seq<Row>)
    requires Shape(s) && HistoryShape(h, |s.logs|) && s.phase.Pushed? && CanPoll(s.(phase := Idle), p, k, rows)
    ensures var s1, h1 := Next(hash, s, Commit), NextHistory(hash, s, h, Commit);
            var s2, h2 := Next(hash, s1, Poll(p, k)), NextHistory(hash, s1, h1, Poll(p, k));
            && Next(hash, s2, Insert).store.positions == InsertAll(s.store.positions, rows)
            && NextHistory(hash, s2, h2, Insert).pushes == h.pushes
  {
    var idle := s.(phase := Idle, committed := s.polled);
    CommitStep(hash, s, h);
    PollStep(hash, idle, h, p, k, rows);
    InsertStep(hash, idle.(buffer := rows, polled := PolledUpTo(idle, p, k)), h);
  }

  /** Flushing a batch, and of the next one doing the first write only. */
  lemma PushesThenInserts(hash: string -> nat, parts: nat, seed: Seed, es: seq<Event>, p: nat,
                          k: nat, rows: seq<Row>, more: nat, next: seq<Row>, n: string)
    requires parts > 0 && CanPoll(After(hash, parts, seed, es), p, k, rows)
    requires CanPoll(PushedSystem(After(hash, parts, seed, es), p, k, rows).(phase := Idle), p, more, next)
    ensures var fs := es + PollAndPush(p, k) + CommitAndInsert(p, more);
            && After(hash, parts, seed, fs).store.positions
            == InsertAll(InsertAll(After(hash, parts, seed, es).store.positions, rows), next)
            && PushesOf(HistoryOf(hash, parts, seed, fs), n)
            == PushesOf(HistoryOf(hash, parts, seed, es), n) + Of(n, rows)
  {
    Pushes(hash, parts, seed, es, p, k, rows);
    PushedFacts(After(hash, parts, seed, es), HistoryOf(hash, parts, seed, es), p, k, rows, n);
    CommitsAndInserts(hash, parts, seed, es + PollAndPush(p, k), p, more, next);
  }

  lemma CommitStep(hash: string -> nat, s: System, h: History)
    requires Shape(s) && HistoryShape(h, |s.logs|) && s.phase.Pushed?
    ensures Next(hash, s, Commit) == s.(phase := Idle, committed := s.polled) && NextHistory(hash, s, h, Commit) == h
  {
  }

  lemma {:induction false} PushesOnly(st: Store, rows: seq<Row>)
    ensures PushAll(st, rows).satellites == st.satellites && PushAll(st, rows).positions == st.positions
    decreases |rows|
  {
    if rows != [] { PushesOnly(st, Front(rows)); }
  }

  /** The log offset just behind row `i` of the satellite. */
  lemma OffsetBehind(n: string, log: seq<Msg>, i: nat) returns (k: nat)
    requires i < |OfLog(n, log)|
    ensures k <= |log| && OfLog(n, log[..k]) == OfLog(n, log)[..i + 1]
  {
    TakeAll(log);
    k := OffsetWithin(n, log, |log|, i);
  }

  lemma {:induction false} OffsetWithin(n: string, log: seq<Msg>, m: nat, i: nat) returns (k: nat)
    requires m <= |log| && i < |OfLog(n, log[..m])|
    ensures k <= m && OfLog(n, log[..k]) == OfLog(n, log[..m])[..i + 1]
    decreases m
  {
    var before, last := OfLog(n, log[..m - 1]), OfLog(n, log[m - 1..m]);
    SplitPrefix(n, log, m - 1, m);
    if i < |before| {
      k := OffsetWithin(n, log, m - 1, i);
      TakeOfConcat(before, last, i + 1);
    } else {
      k := m;
      assert log[m - 1..m] == [log[m - 1]];
      AtMostOneRow(n, log[m - 1]);
      TakeAll(OfLog(n, log[..m]));
    }
  }

  lemma AtMostOneRow(n: string, m: Msg)
    ensures |OfLog(n, [m])| <= 1
  {
    assert Front([m]) == [];
    if m.Decoded? {
      assert Rows([m]) == [m.row] && Front([m.row]) == [];
      assert Of(n, [m.row]) == [] + (if m.row.norad == n then [m.row] else []);
    } else {
      assert Rows([m]) == [];
    }
  }

  // ---- One partition ----

  function Decode(rows: seq<Row>): (log: seq<Msg>)
    ensures |log| == |rows| && forall i :: 0 <= i < |log| ==> log[i] == Decoded(rows[i])
  {
    seq(|rows|, i requires 0 <= i < |rows| => Decoded(rows[i]))
  }

  lemma {:induction false} DecodedRows(rows: seq<Row>, k: nat)
    requires k <= |rows|
    ensures Rows(Decode(rows)[0..k]) == rows[..k]
    decreases k
  {
    if k > 0 {
      DecodedRows(rows, k - 1);
      assert Front(Decode(rows)[0..k]) == Decode(rows)[0..k - 1];
      assert rows[..k] == rows[..k - 1] + [rows[k - 1]];
    }
  }

  lemma {:induction false} OfOne(n: string, rows: seq<Row>)
    requires forall i :: 0 <= i < |rows| ==> rows[i].norad == n
    ensures Of(n, rows) == rows
    decreases |rows|
  {
    if rows != [] { OfOne(n, Front(rows)); }
  }

  /** Append these rows to the only partition. */
  function AppendRows(rows: seq<Row>): seq<Event> {
    if rows == [] then [] else AppendRows(Front(rows)) + [Append(0, Decoded(Last(rows)))]
  }

  lemma {:induction false} AppendsRows(hash: string -> nat, seed: Seed, rows: seq<Row>)
    ensures After(hash, 1, seed, AppendRows(rows)) == Init(1, seed).(logs := [Decode(rows)])
    ensures HistoryOf(hash, 1, seed, AppendRows(rows)) == InitHistory(1, seed)
    decreases |rows|
  {
    if rows == [] {
      assert Init(1, seed).logs == [Decode(rows)];
    } else {
      var e := Append(0, Decoded(Last(rows)));
      AppendsRows(hash, seed, Front(rows));
      OneMore(hash, 1, seed, AppendRows(Front(rows)), e);
      assert Decode(Front(rows)) + [Decoded(Last(rows))] == Decode(rows);
      assert [Decode(Front(rows))][0 := Decode(rows)] == [Decode(rows)];
    }
  }
}

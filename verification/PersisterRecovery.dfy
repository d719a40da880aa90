/**
 Recovery: from any reachable state, a restart that polls every partition to its
 end and completes one flush leaves both tables as if nothing had ever failed.
 */
module PersisterRecovery {
  import opened Seqs
  import opened PersisterModel
  import opened PersisterFolds
  import opened PersisterInvariant
  import opened PersisterTheorems

  ghost predicate CommittedInLogs(s: System)
    requires Shape(s)
  {
    forall p :: 0 <= p < |s.logs| ==> s.committed[p] <= |s.logs[p]|
  }

  /** Poll each of the first `k` partitions from its committed offset to the end of its log. */
  function CatchUp(s: System, k: nat): seq<Event>
    requires Shape(s) && CommittedInLogs(s) && k <= |s.logs|
  {
    if k == 0 then []
    else CatchUp(s, k - 1) + [Poll(k - 1, |s.logs[k - 1]| - s.committed[k - 1])]
  }

  const FLUSH: seq<Event> := [Insert, Upsert, Push, Commit]

  function Recover(s: System): seq<Event>
    requires Shape(s) && CommittedInLogs(s)
  {
    [Crash] + CatchUp(s, |s.logs|) + FLUSH
  }

  /** The history along a run from an arbitrary point. */
  function HistoryFrom(hash: string -> nat, s: System, h: History, es: seq<Event>): (h': History)
    requires Shape(s) && HistoryShape(h, |s.logs|)
    ensures HistoryShape(h', |s.logs|)
  {
    if es == [] then h
    else NextHistory(hash, Run(hash, s, Front(es)), HistoryFrom(hash, s, h, Front(es)), Last(es))
  }

  lemma HistoryMore(hash: string -> nat, s: System, h: History, es: seq<Event>, e: Event)
    requires Shape(s) && HistoryShape(h, |s.logs|)
    ensures Run(hash, s, es + [e]) == Next(hash, Run(hash, s, es), e)
    ensures HistoryFrom(hash, s, h, es + [e]) == NextHistory(hash, Run(hash, s, es), HistoryFrom(hash, s, h, es), e)
  {
    assert Front(es + [e]) == es;
  }

  lemma {:induction false} HistoryConcat(hash: string -> nat, parts: nat, seed: Seed, es: seq<Event>, fs: seq<Event>)
    requires parts > 0
    ensures HistoryOf(hash, parts, seed, es + fs)
         == HistoryFrom(hash, After(hash, parts, seed, es), HistoryOf(hash, parts, seed, es), fs)
    decreases |fs|
  {
    if fs == [] {
      assert es + fs == es;
    } else {
      HistoryConcat(hash, parts, seed, es, Front(fs));
      assert Front(es + fs) == es + Front(fs) && Last(es + fs) == Last(fs);
      RunConcat(hash, Init(parts, seed), es, Front(fs));
    }
  }

  /** The first `k` partitions polled to their ends, the others not yet. */
  ghost predicate PolledFirst(s0: System, s: System, k: nat)
    requires Shape(s0) && k <= |s0.logs|
  {
    && Shape(s) && s.phase.Idle? && s.logs == s0.logs
    && forall p :: 0 <= p < |s0.logs| ==> s.polled[p] == if p < k then |s0.logs[p]| else s0.committed[p]
  }

  lemma PollNext(hash: string -> nat, s0: System, s: System, h: History, k: nat)
    requires Shape(s0) && CommittedInLogs(s0) && k < |s0.logs| && PolledFirst(s0, s, k) && HistoryShape(h, |s.logs|)
    ensures var e := Poll(k, |s0.logs[k]| - s0.committed[k]);
            PolledFirst(s0, Next(hash, s, e), k + 1) && NextHistory(hash, s, h, e) == h
  {
  }

  /** After these events the first `k` partitions are polled, and nothing has been written. */
  ghost predicate CaughtFirst(hash: string -> nat, s0: System, s: System, h: History, es: seq<Event>, k: nat)
    requires Shape(s0) && Shape(s) && HistoryShape(h, |s.logs|) && k <= |s0.logs|
  {
    PolledFirst(s0, Run(hash, s, es), k) && HistoryFrom(hash, s, h, es) == h
  }

  lemma PollMore(hash: string -> nat, s0: System, s: System, h: History, es: seq<Event>, k: nat)
    requires Shape(s0) && CommittedInLogs(s0) && k < |s0.logs| && Shape(s) && HistoryShape(h, |s.logs|)
    requires CaughtFirst(hash, s0, s, h, es, k)
    ensures CaughtFirst(hash, s0, s, h, es + [Poll(k, |s0.logs[k]| - s0.committed[k])], k + 1)
  {
    PollNext(hash, s0, Run(hash, s, es), h, k);
    HistoryMore(hash, s, h, es, Poll(k, |s0.logs[k]| - s0.committed[k]));
  }

  lemma RestartPolls(hash: string -> nat, s0: System, s: System, h: History)
    requires Shape(s0) && s == Next(hash, s0, Crash) && HistoryShape(h, |s0.logs|)
    ensures CaughtFirst(hash, s0, s, h, [], 0)
  {
  }

  lemma {:induction false} CatchUpPolls(hash: string -> nat, s0: System, s: System, h: History, k: nat)
    requires Shape(s0) && CommittedInLogs(s0) && k <= |s0.logs| && HistoryShape(h, |s0.logs|)
    requires s == Next(hash, s0, Crash)
    ensures CaughtFirst(hash, s0, s, h, CatchUp(s0, k), k)
    decreases k
  {
    if k == 0 {
      RestartPolls(hash, s0, s, h);
    } else {
      CatchUpPolls(hash, s0, s, h, k - 1);
      PollMore(hash, s0, s, h, CatchUp(s0, k - 1), k - 1);
    }
  }

  /** The store after the first `k` writes of a flush of `rows`. */
  function StoredAfter(st: Store, rows: seq<Row>, k: nat): Store
    requires k <= 4
  {
    var st1 := if k >= 1 then st.(positions := InsertAll(st.positions, rows)) else st;
    var st2 := if k >= 2 then st1.(satellites := UpsertAll(st1.satellites, rows)) else st1;
    if k >= 3 then PushAll(st2, rows) else st2
  }

  /** The system after the first `k` events of a flush of a non-empty buffer. */
  function FlushState(s: System, k: nat): System
    requires k <= 4
  {
    if k == 0 then s
    else System(s.logs, KeptOffsets(s, k), s.polled, [],
                if k == 1 then Inserted(s.buffer) else if k == 2 then Upserted(s.buffer)
                else if k == 3 then Pushed(s.buffer) else Idle,
                StoredAfter(s.store, s.buffer, k))
  }

  lemma FlushStep(hash: string -> nat, s: System, k: nat)
    requires Shape(s) && s.phase.Idle? && s.buffer != [] && 1 <= k <= 4
    ensures Shape(FlushState(s, k - 1)) && Enabled(hash, FlushState(s, k - 1), FLUSH[k - 1])
    ensures Next(hash, FlushState(s, k - 1), FLUSH[k - 1]) == FlushState(s, k)
  {
  }

  lemma FlushPrefix(hash: string -> nat, s: System, k: nat)
    requires Shape(s) && s.phase.Idle? && s.buffer != [] && k <= 4
    ensures Run(hash, s, FLUSH[..k]) == FlushState(s, k)
  {
    if k > 0 {
      FlushPrefix(hash, s, k - 1);
      FlushStep(hash, s, k);
      TakeOneMore(FLUSH, k - 1);
    }
  }

  function KeptOffsets(s: System, k: nat): seq<nat> { if k == 4 then s.polled else s.committed }

  /** A flush cut short by a crash: the writes done so far stay, the process state is lost. */
  lemma FlushThenCrash(hash: string -> nat, s: System, k: nat)
    requires Shape(s) && s.phase.Idle? && s.buffer != [] && k <= 4
    ensures Run(hash, s, FLUSH[..k] + [Crash])
         == System(s.logs, KeptOffsets(s, k), KeptOffsets(s, k), [], Idle, StoredAfter(s.store, s.buffer, k))
  {
    FlushPrefix(hash, s, k);
    assert Front(FLUSH[..k] + [Crash]) == FLUSH[..k];
  }

  /** With nothing buffered no event of a flush is enabled. */
  lemma NoFlushStep(hash: string -> nat, s: System, h: History, k: nat)
    requires Shape(s) && HistoryShape(h, |s.logs|) && s.phase.Idle? && s.buffer == [] && k < 4
    ensures !Enabled(hash, s, FLUSH[k])
    ensures Next(hash, s, FLUSH[k]) == s && NextHistory(hash, s, h, FLUSH[k]) == h
  {
  }

  lemma NoFlush(hash: string -> nat, s: System, h: History, k: nat)
    requires Shape(s) && HistoryShape(h, |s.logs|) && s.phase.Idle? && s.buffer == [] && k <= 4
    ensures Run(hash, s, FLUSH[..k]) == s && HistoryFrom(hash, s, h, FLUSH[..k]) == h
  {
    if k > 0 {
      NoFlush(hash, s, h, k - 1);
      NoFlushStep(hash, s, h, k - 1);
      TakeOneMore(FLUSH, k - 1);
    }
  }

  function FlushedHistory(s: System, h: History, k: nat): History
    requires |h.furthestIns| == |h.furthestUps| == |s.polled|
  {
    History(h.start,
            if k >= 2 then s.polled else h.upserted,
            if k >= 3 then s.polled else h.pushed,
            if k >= 1 then MaxEach(h.furthestIns, s.polled) else h.furthestIns,
            if k >= 2 then MaxEach(h.furthestUps, s.polled) else h.furthestUps,
            if k >= 3 then RecordPushes(h.pushes, s.buffer) else h.pushes,
            h.base,
            h.seed)
  }

  lemma FlushHistoryStep(hash: string -> nat, s: System, h: History, k: nat)
    requires Shape(s) && HistoryShape(h, |s.logs|) && s.phase.Idle? && s.buffer != [] && k < 4
    ensures Shape(FlushState(s, k))
    ensures NextHistory(hash, FlushState(s, k), FlushedHistory(s, h, k), FLUSH[k]) == FlushedHistory(s, h, k + 1)
  {
  }

  lemma FlushHistory(hash: string -> nat, s: System, h: History, k: nat)
    requires Shape(s) && HistoryShape(h, |s.logs|) && s.phase.Idle? && s.buffer != [] && k <= 4
    ensures HistoryFrom(hash, s, h, FLUSH[..k]) == FlushedHistory(s, h, k)
  {
    if k > 0 {
      FlushHistory(hash, s, h, k - 1);
      FlushPrefix(hash, s, k - 1);
      FlushHistoryStep(hash, s, h, k - 1);
      HistoryMore(hash, s, h, FLUSH[..k - 1], FLUSH[k - 1]);
      TakeOneMore(FLUSH, k - 1);
    }
  }

  lemma FlushRuns(hash: string -> nat, s: System, h: History)
    requires Shape(s) && HistoryShape(h, |s.logs|) && s.phase.Idle?
    ensures var s', h' := Run(hash, s, FLUSH), HistoryFrom(hash, s, h, FLUSH);
            && s'.logs == s.logs && s'.phase.Idle?
            && (if s.buffer == [] then s' == s && h' == h
                else s'.polled == s.polled && h' == FlushedHistory(s, h, 4))
  {
    assert FLUSH[..4] == FLUSH;
    if s.buffer == [] {
      NoFlush(hash, s, h, 4);
    } else {
      FlushPrefix(hash, s, 4);
      FlushHistory(hash, s, h, 4);
    }
  }

  /** Nothing of `n` lies between the offsets written so far and the end of its log. */
  ghost predicate CaughtUp(s: System, h: History, n: string, p: nat)
    requires Shape(s) && HistoryShape(h, |s.logs|) && p < |s.logs| && OffsetsAt(s, h, p)
  {
    s.phase.Idle? && OfLog(n, s.logs[p][h.pushed[p]..]) == []
  }

  /** After the restart and the polls everything in the logs has been polled and nothing is half written. */
  lemma RecoverPolls(hash: string -> nat, parts: nat, seed: Seed, es: seq<Event>)
    requires parts > 0 && CommittedInLogs(After(hash, parts, seed, es))
    ensures var s0 := After(hash, parts, seed, es);
            var s1 := After(hash, parts, seed, es + [Crash] + CatchUp(s0, parts));
            && s1.logs == s0.logs && s1.phase.Idle?
            && (forall p :: 0 <= p < parts ==> s1.polled[p] == |s0.logs[p]|)
            && HistoryOf(hash, parts, seed, es + [Crash] + CatchUp(s0, parts))
            == NextHistory(hash, s0, HistoryOf(hash, parts, seed, es), Crash)
  {
    var s0, h0 := After(hash, parts, seed, es), HistoryOf(hash, parts, seed, es);
    var polls := CatchUp(s0, parts);
    OneMore(hash, parts, seed, es, Crash);
    RunConcat(hash, Init(parts, seed), es + [Crash], polls);
    HistoryConcat(hash, parts, seed, es + [Crash], polls);
    CatchUpPolls(hash, s0, Next(hash, s0, Crash), NextHistory(hash, s0, h0, Crash), parts);
  }

  /** Recovery leaves nothing of `n` to be written, and pushes on top of what had been pushed before. */
  lemma RecoverCatchesUp(hash: string -> nat, parts: nat, seed: Seed, es: seq<Event>, n: string)
    requires parts > 0 && CommittedInLogs(After(hash, parts, seed, es))
    ensures var fs := es + Recover(After(hash, parts, seed, es));
            var s, h, p := After(hash, parts, seed, fs), HistoryOf(hash, parts, seed, fs), Home(hash, parts, n);
            && s.logs == After(hash, parts, seed, es).logs
            && OffsetsAt(s, h, p) && CaughtUp(s, h, n, p)
            && h.start == After(hash, parts, seed, es).committed && h.base == HistoryOf(hash, parts, seed, es).pushes
  {
    var s0, h0 := After(hash, parts, seed, es), HistoryOf(hash, parts, seed, es);
    var upToPolls := es + [Crash] + CatchUp(s0, parts);
    assert es + Recover(s0) == upToPolls + FLUSH;
    RecoverPolls(hash, parts, seed, es);
    assert NextHistory(hash, s0, h0, Crash).start == s0.committed;
    assert NextHistory(hash, s0, h0, Crash).base == h0.pushes;
    FlushCatchesUp(hash, parts, seed, upToPolls, n);
  }

  lemma FlushCatchesUp(hash: string -> nat, parts: nat, seed: Seed, es: seq<Event>, n: string)
    requires parts > 0
    requires var s := After(hash, parts, seed, es);
             s.phase.Idle? && forall p :: 0 <= p < parts ==> s.polled[p] == |s.logs[p]|
    ensures var s, h, p := After(hash, parts, seed, es + FLUSH), HistoryOf(hash, parts, seed, es + FLUSH), Home(hash, parts, n);
            && s.logs == After(hash, parts, seed, es).logs
            && OffsetsAt(s, h, p) && CaughtUp(s, h, n, p)
            && h.start == HistoryOf(hash, parts, seed, es).start && h.base == HistoryOf(hash, parts, seed, es).base
  {
    var s1, h1, p := After(hash, parts, seed, es), HistoryOf(hash, parts, seed, es), Home(hash, parts, n);
    var s, h := After(hash, parts, seed, es + FLUSH), HistoryOf(hash, parts, seed, es + FLUSH);
    RunConcat(hash, Init(parts, seed), es, FLUSH);
    HistoryConcat(hash, parts, seed, es, FLUSH);
    FlushRuns(hash, s1, h1);
    Reached(hash, parts, seed, es + FLUSH, n);
    if s1.buffer == [] {
      Reached(hash, parts, seed, es, n);
      IdleAtEnd(s1, h1, n, p);
    } else {
      assert h.pushed[p] == |s.logs[p]|;
      assert s.logs[p][|s.logs[p]|..] == [];
    }
  }

  lemma IdleAtEnd(s: System, h: History, n: string, p: nat)
    requires Shape(s) && HistoryShape(h, |s.logs|) && p < |s.logs| && OffsetsAt(s, h, p) && s.phase.Idle?
    requires Of(n, Pending(s)) == OfLog(n, s.logs[p][h.pushed[p]..s.polled[p]])
    requires s.buffer == [] && s.polled[p] == |s.logs[p]|
    ensures CaughtUp(s, h, n, p)
  {
    assert s.logs[p][h.pushed[p]..s.polled[p]] == s.logs[p][h.pushed[p]..];
  }

  lemma NothingBeyond(n: string, log: seq<Msg>, a: nat, b: nat)
    requires a <= b <= |log| && OfLog(n, log[a..]) == []
    ensures OfLog(n, log[..b]) == OfLog(n, log)
  {
    assert log[a..] == log[a..|log|] && log[..|log|] == log;
    OfLogSplit(n, log, a, b, |log|);
    SplitPrefix(n, log, b, |log|);
  }

  function Ends(logs: seq<seq<Msg>>): (ends: seq<nat>)
    ensures |ends| == |logs| && forall p :: 0 <= p < |logs| ==> ends[p] == |logs[p]|
  {
    seq(|logs|, p requires 0 <= p < |logs| => |logs[p]|)
  }

  lemma CommittedStaysInLogs(hash: string -> nat, parts: nat, seed: Seed, es: seq<Event>)
    requires parts > 0
    ensures CommittedInLogs(After(hash, parts, seed, es))
  {
    InsertedWithinLogs(hash, parts, seed, es);
  }

  lemma RecoveredCols(hash: string -> nat, parts: nat, seed: Seed, es: seq<Event>, n: string, t: int)
    requires parts > 0 && CommittedInLogs(After(hash, parts, seed, es))
    ensures var s := After(hash, parts, seed, es + Recover(After(hash, parts, seed, es)));
            Get(s.store.positions, (n, t)) == FirstCols(OfLog(n, s.logs[Home(hash, parts, n)]), t)
  {
    var fs := es + Recover(After(hash, parts, seed, es));
    RecoverCatchesUp(hash, parts, seed, es, n);
    Reached(hash, parts, seed, fs, n);
    var s, h, p := After(hash, parts, seed, fs), HistoryOf(hash, parts, seed, fs), Home(hash, parts, n);
    NothingBeyond(n, s.logs[p], h.pushed[p], h.furthestIns[p]);
  }

  lemma RecoveredLookup(hash: string -> nat, parts: nat, seed: Seed, es: seq<Event>, n: string, t: int)
    requires parts > 0 && CommittedInLogs(After(hash, parts, seed, es))
    ensures var s := After(hash, parts, seed, es + Recover(After(hash, parts, seed, es)));
            Get(s.store.positions, (n, t)) == Get(OnceInserted(s.logs, Ends(s.logs)), (n, t))
  {
    var fs := es + Recover(After(hash, parts, seed, es));
    RecoveredCols(hash, parts, seed, es, n, t);
    RunInv(hash, parts, seed, fs);
    WholeLogsCols(hash, After(hash, parts, seed, fs), n, t);
  }

  lemma WholeLogsCols(hash: string -> nat, s: System, n: string, t: int)
    requires Shape(s) && Keyed(hash, s)
    ensures Get(OnceInserted(s.logs, Ends(s.logs)), (n, t))
         == FirstCols(OfLog(n, s.logs[Home(hash, |s.logs|, n)]), t)
  {
    var p := Home(hash, |s.logs|, n);
    PrefixRowsOf(hash, s, Ends(s.logs), n);
    assert s.logs[p][..|s.logs[p]|] == s.logs[p];
    InsertAllAt(map[], Concat(PrefixRows(s.logs, Ends(s.logs))), n, t);
  }

  /** After recovery the positions table is every partition's whole log inserted once. */
  lemma RecoveryRestoresPositions(hash: string -> nat, parts: nat, seed: Seed, es: seq<Event>)
    requires parts > 0
    ensures CommittedInLogs(After(hash, parts, seed, es))
    ensures var s := After(hash, parts, seed, es + Recover(After(hash, parts, seed, es)));
            && s.logs == After(hash, parts, seed, es).logs
            && s.store.positions == OnceInserted(s.logs, Ends(s.logs))
  {
    CommittedStaysInLogs(hash, parts, seed, es);
    RecoverCatchesUp(hash, parts, seed, es, "");
    var s := After(hash, parts, seed, es + Recover(After(hash, parts, seed, es)));
    forall n, t
      ensures Get(s.store.positions, (n, t)) == Get(OnceInserted(s.logs, Ends(s.logs)), (n, t))
    {
      RecoveredLookup(hash, parts, seed, es, n, t);
    }
    SameLookups(s.store.positions, OnceInserted(s.logs, Ends(s.logs)));
  }

  /** With no rows beyond the lower offset there is only one name left to have. */
  lemma NameBeyond(n: string, log: seq<Msg>, lo: nat, hi: nat, seeded: Option<string>, name: Option<string>)
    requires lo <= hi <= |log| && OfLog(n, log[lo..]) == [] && NameWithin(n, log, lo, hi, seeded, name)
    ensures name == OrElse(LastName(OfLog(n, log)), seeded)
  {
    var k: nat :| lo <= k <= hi && (NameAt(n, log, hi).Some? ==> NameAt(n, log, k).Some?)
                  && name == OrElse(NameAt(n, log, k), seeded);
    NothingBeyond(n, log, lo, k);
  }

  /**
   ... and every satellite has the last name and the greatest epoch of its whole log
   on top of its seeded row, and all of the log has been pushed to Redis.
   */
  lemma RecoveryRestoresSatellite(hash: string -> nat, parts: nat, seed: Seed, es: seq<Event>, n: string)
    requires parts > 0
    ensures CommittedInLogs(After(hash, parts, seed, es))
    ensures var fs := es + Recover(After(hash, parts, seed, es));
            var s, whole := After(hash, parts, seed, fs), OfLog(n, After(hash, parts, seed, es).logs[Home(hash, parts, n)]);
            && (n in s.store.satellites <==> n in seed || whole != [])
            && NameOf(Get(s.store.satellites, n)) == OrElse(LastName(whole), NameOf(Get(seed, n)))
            && EpochOf(Get(s.store.satellites, n)) == Greatest(EpochOf(Get(seed, n)), MaxEpoch(whole))
            && IsSubseq(whole, PushesOf(HistoryOf(hash, parts, seed, fs), n))
  {
    CommittedStaysInLogs(hash, parts, seed, es);
    var fs := es + Recover(After(hash, parts, seed, es));
    var s, h, p := After(hash, parts, seed, fs), HistoryOf(hash, parts, seed, fs), Home(hash, parts, n);
    RecoverCatchesUp(hash, parts, seed, es, n);
    Reached(hash, parts, seed, fs, n);
    var log := s.logs[p];
    NothingBeyond(n, log, h.pushed[p], h.furthestUps[p]);
    NameBeyond(n, log, h.upserted[p], h.furthestUps[p], NameOf(Get(seed, n)), NameOf(Get(s.store.satellites, n)));
    CrashKeepsSubseq(n, log, h.start[p], h.pushed[p], h.pushed[p], BaseOf(h, n));
    NothingBeyond(n, log, h.pushed[p], h.pushed[p]);
  }
}

/** When the persister makes the two forms of the track endpoint agree, and what a crash does to that. */
module TrackHealing {
  import opened Seqs
  import opened PersisterModel
  import opened PersisterFolds
  import opened PersisterInvariant
  import opened PersisterTheorems
  import opened PersisterRecovery
  import opened TrackQuery

  function ListOf(s: System, n: string): seq<Track> { GetOr(s.store.tracks, n, []) }

  /** The rows of `n` in the part of the log this incarnation has pushed or an earlier one has committed. */
  function RowsPushed(s: System, h: History, n: string, p: nat): seq<Row>
    requires Shape(s) && HistoryShape(h, |s.logs|) && p < |s.logs| && h.pushed[p] <= |s.logs[p]|
  {
    OfLog(n, s.logs[p][..h.pushed[p]])
  }

  /** No row of `n` lies between the offset pushed and the furthest offset inserted. */
  ghost predicate Settled(s: System, h: History, n: string, p: nat)
    requires Shape(s) && HistoryShape(h, |s.logs|) && p < |s.logs| && OffsetsAt(s, h, p)
  {
    OfLog(n, s.logs[p][h.pushed[p]..h.furthestIns[p]]) == []
  }

  /** A guard that suffices: each sample was pushed once, or 120 have been pushed since the restart. */
  ghost predicate Healed(s: System, h: History, n: string, p: nat)
    requires Shape(s) && HistoryShape(h, |s.logs|) && p < |s.logs| && OffsetsAt(s, h, p)
  {
    || PushesOf(h, n) == OfLog(n, s.logs[p][..h.pushed[p]])
    || |OfLog(n, s.logs[p][h.start[p]..h.pushed[p]])| >= TRACK_LIST_MAX
  }

  lemma HealedShowsNewest(hash: string -> nat, parts: nat, seed: Seed, es: seq<Event>, n: string)
    requires parts > 0
    ensures var s, h, p := After(hash, parts, seed, es), HistoryOf(hash, parts, seed, es), Home(hash, parts, n);
            && OffsetsAt(s, h, p)
            && (Healed(s, h, n, p) ==> ShowsNewest(ListOf(s, n), RowsPushed(s, h, n, p)))
  {
    Reached(hash, parts, seed, es, n);
    TrackHeals(hash, parts, seed, es, n);
  }

  // What the invariant says of the offsets, the list and the table, one fact at a time.

  lemma ListReached(hash: string -> nat, parts: nat, seed: Seed, es: seq<Event>, n: string)
    requires parts > 0
    ensures var s, h, p := After(hash, parts, seed, es), HistoryOf(hash, parts, seed, es), Home(hash, parts, n);
            && OffsetsAt(s, h, p)
            && PushesOf(h, n) == BaseOf(h, n) + OfLog(n, s.logs[p][h.start[p]..h.pushed[p]])
            && ListOf(s, n) == Newest(Tracks(PushesOf(h, n)), TRACK_LIST_MAX)
  {
    Reached(hash, parts, seed, es, n);
  }

  /** The rows of `n` in the part of the log ever inserted, which are the rows of the table. */
  function RowsInserted(s: System, h: History, n: string, p: nat): seq<Row>
    requires Shape(s) && HistoryShape(h, |s.logs|) && p < |s.logs| && h.furthestIns[p] <= |s.logs[p]|
  {
    OfLog(n, s.logs[p][..h.furthestIns[p]])
  }

  lemma TableReached(hash: string -> nat, parts: nat, seed: Seed, es: seq<Event>, n: string)
    requires parts > 0
    ensures var s, h, p := After(hash, parts, seed, es), HistoryOf(hash, parts, seed, es), Home(hash, parts, n);
            && OffsetsAt(s, h, p)
            && Holds(s.store.positions, n, RowsInserted(s, h, n, p))
            && RowsInserted(s, h, n, p)
            == RowsPushed(s, h, n, p) + OfLog(n, s.logs[p][h.pushed[p]..h.furthestIns[p]])
  {
    Reached(hash, parts, seed, es, n);
    var s, h, p := After(hash, parts, seed, es), HistoryOf(hash, parts, seed, es), Home(hash, parts, n);
    SplitPrefix(n, s.logs[p], h.pushed[p], h.furthestIns[p]);
  }

  /** Every row below the pushed offset has been pushed at least once. */
  lemma PushedAtLeastOnce(hash: string -> nat, parts: nat, seed: Seed, es: seq<Event>, n: string)
    requires parts > 0
    ensures var s, h, p := After(hash, parts, seed, es), HistoryOf(hash, parts, seed, es), Home(hash, parts, n);
            OffsetsAt(s, h, p) && |RowsPushed(s, h, n, p)| <= |PushesOf(h, n)|
  {
    Reached(hash, parts, seed, es, n);
    var s, h, p := After(hash, parts, seed, es), HistoryOf(hash, parts, seed, es), Home(hash, parts, n);
    SplitPrefix(n, s.logs[p], h.start[p], h.pushed[p]);
    SubseqShorter(OfLog(n, s.logs[p][..h.start[p]]), BaseOf(h, n));
  }

  /**
   In every reachable state with increasing sample times, the Redis answer is a prefix
   of the Postgres answer for every cutoff if and only if the list shows the top rows
   of the table; and then it is empty only if the other or the list is, and equal to
   the other exactly unless the window outgrows the list.
   */
  lemma EndpointFormsAgree(hash: string -> nat, parts: nat, seed: Seed, es: seq<Event>, n: string)
    requires parts > 0
    ensures var s, h, p := After(hash, parts, seed, es), HistoryOf(hash, parts, seed, es), Home(hash, parts, n);
            && OffsetsAt(s, h, p)
            && var rows, raw := RowsInserted(s, h, n, p), ListOf(s, n);
               (Increasing(rows) ==>
                  && (AlwaysPrefix(raw, s.store.positions, n) <==> ShowsTop(raw, rows))
                  && (ShowsTop(raw, rows) ==> AnswersExactly(raw, s.store.positions, n, rows)))
  {
    ListReached(hash, parts, seed, es, n);
    TableReached(hash, parts, seed, es, n);
    var s, h, p := After(hash, parts, seed, es), HistoryOf(hash, parts, seed, es), Home(hash, parts, n);
    var rows, raw := RowsInserted(s, h, n, p), ListOf(s, n);
    if Increasing(rows) {
      PrefixIff(s.store.positions, n, rows, raw);
      if ShowsTop(raw, rows) { TopAnswersExactly(s.store.positions, n, rows, raw); }
    }
  }

  /** When nothing of the satellite is inserted and not pushed, the condition is that the list shows the newest rows. */
  lemma SettledFormsAgree(hash: string -> nat, parts: nat, seed: Seed, es: seq<Event>, n: string)
    requires parts > 0
    ensures var s, h, p := After(hash, parts, seed, es), HistoryOf(hash, parts, seed, es), Home(hash, parts, n);
            && OffsetsAt(s, h, p)
            && var rows, raw := RowsPushed(s, h, n, p), ListOf(s, n);
               (Settled(s, h, n, p) && Increasing(rows) ==>
                  && RowsInserted(s, h, n, p) == rows
                  && (AlwaysPrefix(raw, s.store.positions, n) <==> ShowsNewest(raw, rows))
                  && (ShowsNewest(raw, rows) ==> AnswersExactly(raw, s.store.positions, n, rows)))
  {
    EndpointFormsAgree(hash, parts, seed, es, n);
    ListReached(hash, parts, seed, es, n);
    TableReached(hash, parts, seed, es, n);
    PushedAtLeastOnce(hash, parts, seed, es, n);
    var s, h, p := After(hash, parts, seed, es), HistoryOf(hash, parts, seed, es), Home(hash, parts, n);
    var rows := RowsPushed(s, h, n, p);
    if Settled(s, h, n, p) && Increasing(rows) {
      assert rows + [] == rows;
      TopIsNewest(rows, ListOf(s, n));
    }
  }

  /**
   A list that shows the newest rows pushed serves prefixes if and only if it is empty
   or none of the satellite's rows is inserted and not pushed: between the insert and
   the push of a flush, and after a crash there, Redis skips the rows in between.
   */
  lemma LaggingAgreesIff(hash: string -> nat, parts: nat, seed: Seed, es: seq<Event>, n: string)
    requires parts > 0
    ensures var s, h, p := After(hash, parts, seed, es), HistoryOf(hash, parts, seed, es), Home(hash, parts, n);
            && OffsetsAt(s, h, p)
            && (Increasing(RowsInserted(s, h, n, p)) && ShowsNewest(ListOf(s, n), RowsPushed(s, h, n, p)) ==>
                  (AlwaysPrefix(ListOf(s, n), s.store.positions, n) <==> ListOf(s, n) == [] || Settled(s, h, n, p)))
  {
    EndpointFormsAgree(hash, parts, seed, es, n);
    TableReached(hash, parts, seed, es, n);
    var s, h, p := After(hash, parts, seed, es), HistoryOf(hash, parts, seed, es), Home(hash, parts, n);
    var rows, lag := RowsPushed(s, h, n, p), OfLog(n, s.logs[p][h.pushed[p]..h.furthestIns[p]]);
    if Increasing(rows + lag) && ShowsNewest(ListOf(s, n), rows) {
      TopWithLagIff(rows, lag, ListOf(s, n));
    }
  }

  lemma TopWithLagIff(rows: seq<Row>, lag: seq<Row>, raw: seq<Track>)
    requires Increasing(rows + lag) && ShowsNewest(raw, rows)
    ensures ShowsTop(raw, rows + lag) <==> raw == [] || lag == []
  {
    var whole := rows + lag;
    assert |raw| == |Samples(raw)|;
    if lag == [] {
      assert whole == rows;
      NewestSamplesPrefix(rows, Min(TRACK_LIST_MAX, |rows|), |rows|);
      NewestSamplesCapped(rows, TRACK_LIST_MAX);
    } else if raw != [] {
      assert Samples(raw)[0].t == rows[|rows| - 1].t == whole[|rows| - 1].t;
      assert NewestSamples(whole, |whole|)[0].t == whole[|whole| - 1].t;
    }
  }

  // ---- What a crash does to a list that shows the newest rows ----

  lemma NewestOfConcat(a: seq<Row>, b: seq<Row>, i: nat)
    requires i < Min(TRACK_LIST_MAX, |a| + |b|)
    ensures NewestSamples(a + b, TRACK_LIST_MAX)[i]
         == FromTrack(TrackOf(if i < |b| then b[|b| - 1 - i] else a[|a| + |b| - 1 - i]))
  {
  }

  /**
   Pushing the last rows `again` a second time and then `later` ones, on top of a
   history that shows the newest rows, shows the newest rows exactly if nothing was
   pushed twice or the list has been filled anew.
   */
  lemma PushedAgainIff(pushes: seq<Row>, kept: seq<Row>, again: seq<Row>, later: seq<Row>)
    requires Increasing(kept + again + later)
    requires NewestSamples(pushes, TRACK_LIST_MAX) == NewestSamples(kept + again, TRACK_LIST_MAX)
    ensures NewestSamples(pushes + (again + later), TRACK_LIST_MAX) == NewestSamples(kept + again + later, TRACK_LIST_MAX)
       <==> again == [] || |again + later| >= TRACK_LIST_MAX
  {
    var whole, added := kept + again + later, again + later;
    var l, r := NewestSamples(pushes + added, TRACK_LIST_MAX), NewestSamples(whole, TRACK_LIST_MAX);
    assert Min(TRACK_LIST_MAX, |pushes|) == Min(TRACK_LIST_MAX, |kept + again|);
    if again == [] {
      assert added == later && kept + again == kept && whole == kept + later;
      SameAfterPushing(pushes, kept, later);
    } else if |added| >= TRACK_LIST_MAX {
      assert whole == kept + added;
      forall i | 0 <= i < |l|
        ensures l[i] == r[i]
      {
        NewestOfConcat(pushes, added, i);
        NewestOfConcat(kept, added, i);
      }
    } else {
      TwiceIsSeen(pushes, kept, again, later);
    }
  }

  lemma SameAfterPushing(a: seq<Row>, b: seq<Row>, later: seq<Row>)
    requires NewestSamples(a, TRACK_LIST_MAX) == NewestSamples(b, TRACK_LIST_MAX)
    ensures NewestSamples(a + later, TRACK_LIST_MAX) == NewestSamples(b + later, TRACK_LIST_MAX)
  {
    var l, r := NewestSamples(a + later, TRACK_LIST_MAX), NewestSamples(b + later, TRACK_LIST_MAX);
    assert Min(TRACK_LIST_MAX, |a|) == Min(TRACK_LIST_MAX, |b|);
    assert |l| == |r|;
    forall i | 0 <= i < |l|
      ensures l[i] == r[i]
    {
      NewestOfConcat(a, later, i);
      NewestOfConcat(b, later, i);
      if i >= |later| {
        assert NewestSamples(a, TRACK_LIST_MAX)[i - |later|] == NewestSamples(b, TRACK_LIST_MAX)[i - |later|];
      }
    }
  }

  /** Short of a full list, the last row pushed before stands behind its own repetition. */
  lemma TwiceIsSeen(pushes: seq<Row>, kept: seq<Row>, again: seq<Row>, later: seq<Row>)
    requires Increasing(kept + again + later) && again != [] && |again + later| < TRACK_LIST_MAX
    requires NewestSamples(pushes, TRACK_LIST_MAX) == NewestSamples(kept + again, TRACK_LIST_MAX)
    ensures NewestSamples(pushes + (again + later), TRACK_LIST_MAX) != NewestSamples(kept + again + later, TRACK_LIST_MAX)
  {
    var whole, added := kept + again + later, again + later;
    var l, r := NewestSamples(pushes + added, TRACK_LIST_MAX), NewestSamples(whole, TRACK_LIST_MAX);
    assert NewestSamples(pushes, TRACK_LIST_MAX)[0] == NewestSamples(kept + again, TRACK_LIST_MAX)[0];
    assert pushes != [] && Last(pushes).t == Last(again).t;
    NewestOfConcat(pushes, added, |added|);
    assert l[|added|].t == Last(again).t;
    if |l| == |r| {
      var i := |whole| - 1 - |added|;
      assert r[|added|].t == whole[i].t;
      assert whole[|kept| + |again| - 1] == Last(again) && i < |kept| + |again| - 1;
      assert whole[i].t < Last(again).t;
    }
  }

  /** A list that shows the newest rows still does after a crash exactly if nothing pushed was uncommitted. */
  lemma CrashKeepsNewestIff(hash: string -> nat, parts: nat, seed: Seed, es: seq<Event>, n: string)
    requires parts > 0
    ensures var s, h, p := After(hash, parts, seed, es), HistoryOf(hash, parts, seed, es), Home(hash, parts, n);
            var s', h' := After(hash, parts, seed, es + [Crash]), HistoryOf(hash, parts, seed, es + [Crash]);
            && OffsetsAt(s, h, p) && OffsetsAt(s', h', p)
            && (Increasing(RowsPushed(s, h, n, p)) && ShowsNewest(ListOf(s, n), RowsPushed(s, h, n, p)) ==>
                  (ShowsNewest(ListOf(s', n), RowsPushed(s', h', n, p))
                   <==> OfLog(n, s.logs[p][s.committed[p]..h.pushed[p]]) == []))
  {
    var s, h, p := After(hash, parts, seed, es), HistoryOf(hash, parts, seed, es), Home(hash, parts, n);
    var s', h' := After(hash, parts, seed, es + [Crash]), HistoryOf(hash, parts, seed, es + [Crash]);
    OffsetsReached(hash, parts, seed, es, n);
    OffsetsReached(hash, parts, seed, es + [Crash], n);
    OneMore(hash, parts, seed, es, Crash);
    var kept := OfLog(n, s.logs[p][..s.committed[p]]);
    var lost := OfLog(n, s.logs[p][s.committed[p]..h.pushed[p]]);
    SplitPrefix(n, s.logs[p], s.committed[p], h.pushed[p]);
    assert RowsPushed(s', h', n, p) == kept && ListOf(s', n) == ListOf(s, n);
    if lost != [] && Increasing(kept + lost) { NewestDiffer(kept, lost); }
    if lost == [] { assert kept + lost == kept; }
  }

  lemma NewestDiffer(kept: seq<Row>, more: seq<Row>)
    requires Increasing(kept + more) && more != []
    ensures NewestSamples(kept, TRACK_LIST_MAX) != NewestSamples(kept + more, TRACK_LIST_MAX)
  {
    var whole := kept + more;
    assert NewestSamples(whole, TRACK_LIST_MAX)[0].t == whole[|whole| - 1].t;
    if kept != [] {
      assert NewestSamples(kept, TRACK_LIST_MAX)[0].t == kept[|kept| - 1].t == whole[|kept| - 1].t;
    }
  }

  // ---- After recovery ----

  lemma RecoveredPushes(hash: string -> nat, parts: nat, seed: Seed, es: seq<Event>, n: string)
    requires parts > 0 && CommittedInLogs(After(hash, parts, seed, es))
    ensures var s, h, p := After(hash, parts, seed, es), HistoryOf(hash, parts, seed, es), Home(hash, parts, n);
            var fs := es + Recover(s);
            var s', h' := After(hash, parts, seed, fs), HistoryOf(hash, parts, seed, fs);
            && s'.logs == s.logs
            && OffsetsAt(s', h', p) && Settled(s', h', n, p)
            && RowsPushed(s', h', n, p) == OfLog(n, s.logs[p])
            && ListOf(s', n) == Newest(Tracks(PushesOf(h, n) + OfLog(n, s.logs[p][s.committed[p]..])), TRACK_LIST_MAX)
  {
    var s, p := After(hash, parts, seed, es), Home(hash, parts, n);
    var fs := es + Recover(s);
    RecoverCatchesUp(hash, parts, seed, es, n);
    ListReached(hash, parts, seed, fs, n);
    var h', log := HistoryOf(hash, parts, seed, fs), s.logs[p];
    NothingBeyond(n, log, h'.pushed[p], h'.pushed[p]);
    NothingBetween(n, log, h'.pushed[p], h'.furthestIns[p]);
    NothingAfter(n, log, s.committed[p], h'.pushed[p]);
  }

  lemma NothingAfter(n: string, log: seq<Msg>, a: nat, b: nat)
    requires a <= b <= |log| && OfLog(n, log[b..]) == []
    ensures OfLog(n, log[a..]) == OfLog(n, log[a..b])
  {
    assert log[a..] == log[a..|log|] && log[b..] == log[b..|log|];
    OfLogSplit(n, log, a, b, |log|);
  }

  lemma NothingBetween(n: string, log: seq<Msg>, a: nat, b: nat)
    requires a <= b <= |log| && OfLog(n, log[a..]) == []
    ensures OfLog(n, log[a..b]) == []
  {
    assert log[a..] == log[a..|log|];
    OfLogSplit(n, log, a, b, |log|);
  }

  /**
   From any reachable state whose list shows the newest rows, a crash and recovery
   leave the Redis answer a prefix of the Postgres answer for every cutoff if and
   only if no row of the satellite had been pushed but not committed, or recovery
   pushes at least 120 of them.
   */
  lemma RecoveredAgreesIff(hash: string -> nat, parts: nat, seed: Seed, es: seq<Event>, n: string)
    requires parts > 0
    ensures CommittedInLogs(After(hash, parts, seed, es))
    ensures var s, h, p := After(hash, parts, seed, es), HistoryOf(hash, parts, seed, es), Home(hash, parts, n);
            var s' := After(hash, parts, seed, es + Recover(s));
            && OffsetsAt(s, h, p)
            && (Increasing(OfLog(n, s.logs[p])) && ShowsNewest(ListOf(s, n), RowsPushed(s, h, n, p)) ==>
                  (AlwaysPrefix(ListOf(s', n), s'.store.positions, n) <==>
                   || OfLog(n, s.logs[p][s.committed[p]..h.pushed[p]]) == []
                   || |OfLog(n, s.logs[p][s.committed[p]..])| >= TRACK_LIST_MAX))
  {
    CommittedStaysInLogs(hash, parts, seed, es);
    var s, h, p := After(hash, parts, seed, es), HistoryOf(hash, parts, seed, es), Home(hash, parts, n);
    ListReached(hash, parts, seed, es, n);
    RecoveredPushes(hash, parts, seed, es, n);
    SettledFormsAgree(hash, parts, seed, es + Recover(s), n);
    var log, c, d := s.logs[p], s.committed[p], h.pushed[p];
    if Increasing(OfLog(n, log)) && ShowsNewest(ListOf(s, n), RowsPushed(s, h, n, p)) {
      var kept, again, later := Segments(n, log, c, d, |log|);
      assert log[..|log|] == log && log[c..] == log[c..|log|];
      PushedAgainIff(PushesOf(h, n), kept, again, later);
    }
  }

  // ---- Runs without a crash ----

  /** Without a crash the list never needs healing. */
  lemma {:induction false} NeverCrashed(hash: string -> nat, parts: nat, seed: Seed, es: seq<Event>)
    requires parts > 0 && forall i :: 0 <= i < |es| ==> !es[i].Crash?
    ensures var h := HistoryOf(hash, parts, seed, es);
            h.base == map[] && forall p :: 0 <= p < parts ==> h.start[p] == 0
    decreases |es|
  {
    if es != [] {
      assert forall i :: 0 <= i < |es| - 1 ==> Front(es)[i] == es[i];
      NeverCrashed(hash, parts, seed, Front(es));
    }
  }

  lemma UncrashedPushes(s: System, h: History, n: string, p: nat)
    requires Shape(s) && HistoryShape(h, |s.logs|) && p < |s.logs| && OffsetsAt(s, h, p)
    requires PushesOf(h, n) == BaseOf(h, n) + OfLog(n, s.logs[p][h.start[p]..h.pushed[p]])
    requires h.base == map[] && h.start[p] == 0
    ensures Healed(s, h, n, p)
  {
  }

  lemma NeverCrashedIsHealed(hash: string -> nat, parts: nat, seed: Seed, es: seq<Event>, n: string)
    requires parts > 0 && forall i :: 0 <= i < |es| ==> !es[i].Crash?
    ensures var s, h, p := After(hash, parts, seed, es), HistoryOf(hash, parts, seed, es), Home(hash, parts, n);
            OffsetsAt(s, h, p) && Healed(s, h, n, p)
  {
    Reached(hash, parts, seed, es, n);
    NeverCrashed(hash, parts, seed, es);
    UncrashedPushes(After(hash, parts, seed, es), HistoryOf(hash, parts, seed, es), n, Home(hash, parts, n));
  }
}

/**
 The `sats:active` score, which the endpoint reads as the time last seen. It is the
 time of the latest push; these are the logs over which that is the greatest time
 ever pushed, with crashes and without.
 */
module PersisterScores {
  import opened Seqs
  import opened PersisterModel
  import opened PersisterFolds
  import opened PersisterInvariant
  import opened PersisterTheorems
  import opened PersisterRuns
  import opened TrackHealing

  /** No sample pushed so far is later than the score. */
  ghost predicate ScoreIsGreatest(hash: string -> nat, parts: nat, seed: Seed, es: seq<Event>, n: string)
    requires parts > 0
  {
    forall r :: r in PushesOf(HistoryOf(hash, parts, seed, es), n) ==>
      n in After(hash, parts, seed, es).store.active && r.t <= After(hash, parts, seed, es).store.active[n]
  }

  /** The score in terms of the push history alone. */
  lemma GreatestIffLast(hash: string -> nat, parts: nat, seed: Seed, es: seq<Event>, n: string)
    requires parts > 0
    ensures var pushes := PushesOf(HistoryOf(hash, parts, seed, es), n);
            ScoreIsGreatest(hash, parts, seed, es, n) <==> forall r :: r in pushes ==> r.t <= Last(pushes).t
  {
    Reached(hash, parts, seed, es, n);
  }

  // ---- Runs that end with a given row ----

  /** A run of appends after which the log can be polled up to and including row `i`, or whole. */
  lemma ReadyUpTo(hash: string -> nat, parts: nat, seed: Seed, es: seq<Event>, n: string, i: nat)
      returns (start: seq<Event>, k: nat)
    requires parts > 0 && i < |OfLog(n, After(hash, parts, seed, es).logs[Home(hash, parts, n)])|
    ensures var p, log := Home(hash, parts, n), After(hash, parts, seed, es).logs[Home(hash, parts, n)];
            var s, h := After(hash, parts, seed, start), HistoryOf(hash, parts, seed, start);
            && k <= |log| && OfLog(n, log[..k]) == OfLog(n, log)[..i + 1]
            && s.logs == After(hash, parts, seed, es).logs && s.committed == s.polled && PushesOf(h, n) == []
            && CanPoll(s, p, k, Rows(log[..k])) && CanPoll(s, p, |log|, Rows(log))
    ensures Uncrashed(start)
  {
    var log := After(hash, parts, seed, es).logs[Home(hash, parts, n)];
    start := Appends(es);
    k := OffsetBehind(n, log, i);
    AppendsBuildLogs(hash, parts, seed, es);
    AppendsOnly(es);
    assert log[0..k] == log[..k] && log[0..|log|] == log;
  }

  /** Pushing the log up to row `i` ends with row `i`. */
  lemma PushedUpTo(hash: string -> nat, parts: nat, seed: Seed, es: seq<Event>, n: string, i: nat) returns (fs: seq<Event>)
    requires parts > 0 && i < |OfLog(n, After(hash, parts, seed, es).logs[Home(hash, parts, n)])|
    ensures After(hash, parts, seed, fs).logs == After(hash, parts, seed, es).logs
    ensures PushesOf(HistoryOf(hash, parts, seed, fs), n)
         == OfLog(n, After(hash, parts, seed, es).logs[Home(hash, parts, n)])[..i + 1]
    ensures Uncrashed(fs)
  {
    var p, log := Home(hash, parts, n), After(hash, parts, seed, es).logs[Home(hash, parts, n)];
    var start, k := ReadyUpTo(hash, parts, seed, es, n, i);
    Pushes(hash, parts, seed, start, p, k, Rows(log[..k]));
    PushedFacts(After(hash, parts, seed, start), HistoryOf(hash, parts, seed, start), p, k, Rows(log[..k]), n);
    fs := start + PollAndPush(p, k);
  }

  /** Pushing the whole log, crashing before the commit and pushing it again up to row `i` ends with row `i`. */
  lemma PushedAgainUpTo(hash: string -> nat, parts: nat, seed: Seed, es: seq<Event>, n: string, i: nat) returns (fs: seq<Event>)
    requires parts > 0 && i < |OfLog(n, After(hash, parts, seed, es).logs[Home(hash, parts, n)])|
    ensures After(hash, parts, seed, fs).logs == After(hash, parts, seed, es).logs
    ensures var rows := OfLog(n, After(hash, parts, seed, es).logs[Home(hash, parts, n)]);
            PushesOf(HistoryOf(hash, parts, seed, fs), n) == rows + rows[..i + 1]
  {
    var p, log := Home(hash, parts, n), After(hash, parts, seed, es).logs[Home(hash, parts, n)];
    var start, k := ReadyUpTo(hash, parts, seed, es, n, i);
    fs := PushedTwiceFrom(hash, parts, seed, start, n, log, k);
  }

  lemma PushedTwiceFrom(hash: string -> nat, parts: nat, seed: Seed, start: seq<Event>, n: string, log: seq<Msg>, k: nat)
      returns (fs: seq<Event>)
    requires parts > 0 && k <= |log|
    requires var s, p := After(hash, parts, seed, start), Home(hash, parts, n);
             s.committed == s.polled && PushesOf(HistoryOf(hash, parts, seed, start), n) == [] && CanPoll(s, p, k, Rows(log[..k])) && CanPoll(s, p, |log|, Rows(log))
    ensures After(hash, parts, seed, fs).logs == After(hash, parts, seed, start).logs
    ensures PushesOf(HistoryOf(hash, parts, seed, fs), n)
         == OfLog(n, log) + OfLog(n, log[..k])
  {
    var p := Home(hash, parts, n);
    assert [] + OfLog(n, log) == OfLog(n, log);
    PushesTwice(hash, parts, seed, start, p, |log|, Rows(log), k, Rows(log[..k]), n);
    fs := start + PollAndPush(p, |log|) + RePush(p, k);
  }

  // ---- Without a crash ----

  predicate Uncrashed(es: seq<Event>) { forall i :: 0 <= i < |es| ==> !es[i].Crash? }

  ghost predicate NeverDecreasing(rows: seq<Row>) {
    forall i, j :: 0 <= i < j < |rows| ==> rows[i].t <= rows[j].t
  }

  /** In every run over these logs that never crashes the score is the greatest time pushed. */
  ghost predicate AlwaysGreatestUncrashed(hash: string -> nat, parts: nat, seed: Seed, logs: seq<seq<Msg>>, n: string)
    requires parts > 0
  {
    forall es: seq<Event> :: After(hash, parts, seed, es).logs == logs && Uncrashed(es) ==>
      ScoreIsGreatest(hash, parts, seed, es, n)
  }

  lemma UncrashedIsGreatest(hash: string -> nat, parts: nat, seed: Seed, es: seq<Event>, n: string)
    requires parts > 0 && Uncrashed(es)
    requires NeverDecreasing(OfLog(n, After(hash, parts, seed, es).logs[Home(hash, parts, n)]))
    ensures ScoreIsGreatest(hash, parts, seed, es, n)
  {
    var s, h, p := After(hash, parts, seed, es), HistoryOf(hash, parts, seed, es), Home(hash, parts, n);
    ListReached(hash, parts, seed, es, n);
    NeverCrashed(hash, parts, seed, es);
    GreatestIffLast(hash, parts, seed, es, n);
    var log, k := s.logs[p], h.pushed[p];
    assert log[0..k] == log[..k] && log[..|log|] == log;
    assert PushesOf(h, n) == OfLog(n, log[..k]);
    SplitPrefix(n, log, k, |log|);
    LastIsLatest(OfLog(n, log[..k]), OfLog(n, log[k..|log|]));
  }

  lemma LastIsLatest(a: seq<Row>, b: seq<Row>)
    requires NeverDecreasing(a + b)
    ensures forall r :: r in a ==> r.t <= Last(a).t
  {
    assert forall i :: 0 <= i < |a| ==> a[i] == (a + b)[i];
  }

  lemma DecreaseIsSeen(hash: string -> nat, parts: nat, seed: Seed, es: seq<Event>, n: string, i: nat, j: nat)
      returns (fs: seq<Event>)
    requires parts > 0
    requires var rows := OfLog(n, After(hash, parts, seed, es).logs[Home(hash, parts, n)]);
             i < j < |rows| && rows[i].t > rows[j].t
    ensures After(hash, parts, seed, fs).logs == After(hash, parts, seed, es).logs && Uncrashed(fs)
    ensures !ScoreIsGreatest(hash, parts, seed, fs, n)
  {
    var rows := OfLog(n, After(hash, parts, seed, es).logs[Home(hash, parts, n)]);
    fs := PushedUpTo(hash, parts, seed, es, n, j);
    GreatestIffLast(hash, parts, seed, fs, n);
    assert rows[..j + 1][i] == rows[i] && Last(rows[..j + 1]) == rows[j];
  }

  /** ... if and only if the satellite's sample times never decrease in the log. */
  lemma UncrashedGreatestIff(hash: string -> nat, parts: nat, seed: Seed, es: seq<Event>, n: string)
    requires parts > 0
    ensures var logs := After(hash, parts, seed, es).logs;
            AlwaysGreatestUncrashed(hash, parts, seed, logs, n) <==> NeverDecreasing(OfLog(n, logs[Home(hash, parts, n)]))
  {
    var logs := After(hash, parts, seed, es).logs;
    var rows := OfLog(n, logs[Home(hash, parts, n)]);
    if NeverDecreasing(rows) {
      forall fs | After(hash, parts, seed, fs).logs == logs && Uncrashed(fs)
        ensures ScoreIsGreatest(hash, parts, seed, fs, n)
      {
        UncrashedIsGreatest(hash, parts, seed, fs, n);
      }
    } else {
      var i, j :| 0 <= i < j < |rows| && rows[i].t > rows[j].t;
      var fs := DecreaseIsSeen(hash, parts, seed, es, n, i, j);
    }
  }

  // ---- With crashes ----

  ghost predicate OneTime(rows: seq<Row>) {
    forall q, r :: q in rows && r in rows ==> q.t == r.t
  }

  ghost predicate AlwaysGreatest(hash: string -> nat, parts: nat, seed: Seed, logs: seq<seq<Msg>>, n: string)
    requires parts > 0
  {
    forall es: seq<Event> :: After(hash, parts, seed, es).logs == logs ==> ScoreIsGreatest(hash, parts, seed, es, n)
  }

  /** Whatever was ever pushed is in the log. */
  lemma {:induction false} PushesAreRows(hash: string -> nat, parts: nat, seed: Seed, es: seq<Event>, n: string)
    requires parts > 0
    ensures forall r :: r in PushesOf(HistoryOf(hash, parts, seed, es), n) ==>
              r in OfLog(n, After(hash, parts, seed, es).logs[Home(hash, parts, n)])
    decreases |es|
  {
    if es != [] {
      PushesAreRows(hash, parts, seed, Front(es), n);
      assert es == Front(es) + [Last(es)];
      OneMore(hash, parts, seed, Front(es), Last(es));
      Reached(hash, parts, seed, Front(es), n);
      NextPushes(hash, After(hash, parts, seed, Front(es)), HistoryOf(hash, parts, seed, Front(es)), Last(es), n,
                 Home(hash, parts, n));
    }
  }

  lemma NextPushes(hash: string -> nat, s: System, h: History, e: Event, n: string, p: nat)
    requires Shape(s) && HistoryShape(h, |s.logs|) && p < |s.logs| && OffsetsAt(s, h, p) && Content(s, h, n, p)
    requires forall r :: r in PushesOf(h, n) ==> r in OfLog(n, s.logs[p])
    ensures forall r :: r in PushesOf(NextHistory(hash, s, h, e), n) ==> r in OfLog(n, Next(hash, s, e).logs[p])
  {
    var log, log' := s.logs[p], Next(hash, s, e).logs[p];
    LogGrows(n, log, log');
    if e.Push? && Enabled(hash, s, e) {
      RecordPushesAt(h.pushes, s.phase.rows, n);
      var x, y, z := Segments(n, log, h.pushed[p], s.polled[p], |log|);
      assert log[..|log|] == log;
    }
  }

  lemma LogGrows(n: string, log: seq<Msg>, log': seq<Msg>)
    requires log <= log'
    ensures forall r :: r in OfLog(n, log) ==> r in OfLog(n, log')
  {
    assert log' == log + log'[|log|..];
    OfLogConcat(n, log, log'[|log|..]);
  }

  /** In every run over some logs the score is the greatest time pushed if and only if all sample times are the same. */
  lemma AlwaysGreatestIff(hash: string -> nat, parts: nat, seed: Seed, es: seq<Event>, n: string)
    requires parts > 0
    ensures var logs := After(hash, parts, seed, es).logs;
            AlwaysGreatest(hash, parts, seed, logs, n) <==> OneTime(OfLog(n, logs[Home(hash, parts, n)]))
  {
    var logs := After(hash, parts, seed, es).logs;
    var rows := OfLog(n, logs[Home(hash, parts, n)]);
    if OneTime(rows) {
      forall fs | After(hash, parts, seed, fs).logs == logs
        ensures ScoreIsGreatest(hash, parts, seed, fs, n)
      {
        PushesAreRows(hash, parts, seed, fs, n);
        GreatestIffLast(hash, parts, seed, fs, n);
        var pushes := PushesOf(HistoryOf(hash, parts, seed, fs), n);
        assert pushes != [] ==> Last(pushes) in pushes;
      }
    } else {
      var q, r :| q in rows && r in rows && q.t < r.t;
      var i :| 0 <= i < |rows| && rows[i] == q;
      var j :| 0 <= j < |rows| && rows[j] == r;
      ScoreStepsBack(hash, parts, seed, es, n, i, j);
    }
  }

  /** Pushing the log again up to an earlier sample leaves the score there. */
  lemma ScoreStepsBack(hash: string -> nat, parts: nat, seed: Seed, es: seq<Event>, n: string, i: nat, j: nat)
    requires parts > 0
    requires var rows := OfLog(n, After(hash, parts, seed, es).logs[Home(hash, parts, n)]);
             i < |rows| && j < |rows| && rows[i].t < rows[j].t
    ensures exists fs :: After(hash, parts, seed, fs).logs == After(hash, parts, seed, es).logs
                         && !ScoreIsGreatest(hash, parts, seed, fs, n)
  {
    var rows := OfLog(n, After(hash, parts, seed, es).logs[Home(hash, parts, n)]);
    var fs := PushedAgainUpTo(hash, parts, seed, es, n, i);
    GreatestIffLast(hash, parts, seed, fs, n);
    var pushes := rows + rows[..i + 1];
    assert Last(pushes) == rows[i] && pushes[j] == rows[j];
    assert !ScoreIsGreatest(hash, parts, seed, fs, n);
  }
}

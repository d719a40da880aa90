/**
 Satellite names under replay. A name once stored stays non-null, but it can step
 back to an older one; exactly the logs that never rename a satellite rule that out.
 */
module PersisterNames {
  import opened Seqs
  import opened PersisterModel
  import opened PersisterFolds
  import opened PersisterInvariant
  import opened PersisterTheorems
  import opened PersisterRuns

  function NameAfter(hash: string -> nat, parts: nat, seed: Seed, es: seq<Event>, n: string): Option<string>
    requires parts > 0
  {
    NameOf(Get(After(hash, parts, seed, es).store.satellites, n))
  }

  /** Once named, never unnamed: no event takes a stored name away. */
  lemma {:induction false} NamedStaysNamed(hash: string -> nat, parts: nat, seed: Seed, es: seq<Event>, fs: seq<Event>, n: string)
    requires parts > 0 && NameAfter(hash, parts, seed, es, n).Some?
    ensures NameAfter(hash, parts, seed, es + fs, n).Some?
    decreases |fs|
  {
    if fs == [] {
      assert es + fs == es;
    } else {
      NamedStaysNamed(hash, parts, seed, es, Front(fs), n);
      assert es + fs == es + Front(fs) + [Last(fs)];
      OneMore(hash, parts, seed, es + Front(fs), Last(fs));
      NextKeepsNamed(hash, After(hash, parts, seed, es + Front(fs)), Last(fs), n);
    }
  }

  lemma NextKeepsNamed(hash: string -> nat, s: System, e: Event, n: string)
    requires Shape(s) && NameOf(Get(s.store.satellites, n)).Some?
    ensures NameOf(Get(Next(hash, s, e).store.satellites, n)).Some?
  {
    if s.phase.Inserted? { UpsertAllAt(s.store.satellites, s.phase.rows, n); }
    if s.phase.Upserted? { PushesOnly(s.store, s.phase.rows); }
  }

  // ---- Replaying ----

  /** A crash, after which the first `k` uncommitted messages of a partition are upserted again. */
  function Replay(p: nat, k: nat): seq<Event> { [Crash] + PollAndUpsert(p, k) }

  lemma Replays(hash: string -> nat, parts: nat, seed: Seed, es: seq<Event>, p: nat, k: nat, rows: seq<Row>, n: string)
    requires parts > 0 && p < parts
    requires var s := After(hash, parts, seed, es);
             && s.committed[p] + k <= |s.logs[p]|
             && rows == Rows(s.logs[p][s.committed[p]..s.committed[p] + k]) && rows != []
    ensures var s, fs := After(hash, parts, seed, es), es + Replay(p, k);
            && After(hash, parts, seed, fs).logs == s.logs
            && HistoryOf(hash, parts, seed, fs).furthestUps[p]
            == Max(HistoryOf(hash, parts, seed, es).furthestUps[p], s.committed[p] + k)
            && NameAfter(hash, parts, seed, fs, n) == OrElse(LastName(Of(n, rows)), NameAfter(hash, parts, seed, es, n))
  {
    OneMore(hash, parts, seed, es, Crash);
    Upserts(hash, parts, seed, es + [Crash], p, k, rows);
    assert es + Replay(p, k) == es + [Crash] + PollAndUpsert(p, k);
    UpsertAllAt(After(hash, parts, seed, es).store.satellites, rows, n);
  }

  // ---- The exact condition ----

  /** The stored name is the last non-null one among everything ever upserted, or else the seeded one. */
  ghost predicate NameIsLast(hash: string -> nat, parts: nat, seed: Seed, es: seq<Event>, n: string)
    requires parts > 0
  {
    var s, h, p := After(hash, parts, seed, es), HistoryOf(hash, parts, seed, es), Home(hash, parts, n);
    && h.furthestUps[p] <= |s.logs[p]|
    && NameAfter(hash, parts, seed, es, n) == OrElse(NameAt(n, s.logs[p], h.furthestUps[p]), NameOf(Get(seed, n)))
  }

  /** ... in every run that ends with these logs. */
  ghost predicate NameAlwaysLast(hash: string -> nat, parts: nat, seed: Seed, logs: seq<seq<Msg>>, n: string)
    requires parts > 0
  {
    forall es :: After(hash, parts, seed, es).logs == logs ==> NameIsLast(hash, parts, seed, es, n)
  }

  /** No two of the rows give different non-null names. */
  ghost predicate OneName(rows: seq<Row>) {
    forall i, j :: 0 <= i < |rows| && 0 <= j < |rows| && rows[i].name.Some? && rows[j].name.Some? ==>
      rows[i].name == rows[j].name
  }

  lemma PrefixNameOccurs(n: string, log: seq<Msg>, k: nat) returns (i: nat)
    requires k <= |log| && NameAt(n, log, k).Some?
    ensures i < |OfLog(n, log)| && OfLog(n, log)[i].name == NameAt(n, log, k)
  {
    LastNameIsLast(OfLog(n, log[..k]));
    i :| 0 <= i < |OfLog(n, log[..k])| && OfLog(n, log[..k])[i].name == NameAt(n, log, k);
    assert log[..|log|] == log;
    SplitPrefix(n, log, k, |log|);
  }

  lemma OneNameIsLast(hash: string -> nat, parts: nat, seed: Seed, es: seq<Event>, n: string)
    requires parts > 0 && OneName(OfLog(n, After(hash, parts, seed, es).logs[Home(hash, parts, n)]))
    ensures NameIsLast(hash, parts, seed, es, n)
  {
    NameNeverOlderThanReplay(hash, parts, seed, es, n);
    var s, h, p := After(hash, parts, seed, es), HistoryOf(hash, parts, seed, es), Home(hash, parts, n);
    var seeded := NameOf(Get(seed, n));
    var log, lo, hi, name := s.logs[p], h.upserted[p], h.furthestUps[p], NameAfter(hash, parts, seed, es, n);
    var k: nat :| lo <= k <= hi && (NameAt(n, log, hi).Some? ==> NameAt(n, log, k).Some?)
                  && name == OrElse(NameAt(n, log, k), seeded);
    if NameAt(n, log, hi).Some? {
      var i := PrefixNameOccurs(n, log, k);
      var j := PrefixNameOccurs(n, log, hi);
    } else {
      SplitPrefix(n, log, k, hi);
      LastNameConcat(OfLog(n, log[..k]), OfLog(n, log[k..hi]));
    }
  }

  lemma RowsNonEmpty(n: string, log: seq<Msg>, k: nat)
    requires k <= |log| && NameAt(n, log, k).Some?
    ensures Rows(log[..k]) != [] && Rows(log) != []
    ensures log[0..k] == log[..k] && log[0..|log|] == log
  {
    assert log == log[..k] + log[k..];
    RowsConcat(log[..k], log[k..]);
  }

  /**
   Upserting the whole log, crashing before the commit and upserting its first `k`
   messages again leaves the name of that prefix.
   */
  lemma Replayed(hash: string -> nat, parts: nat, seed: Seed, es: seq<Event>, n: string, k: nat) returns (fs: seq<Event>)
    requires parts > 0
    requires k <= |After(hash, parts, seed, es).logs[Home(hash, parts, n)]|
    requires NameAt(n, After(hash, parts, seed, es).logs[Home(hash, parts, n)], k).Some?
    ensures var p := Home(hash, parts, n);
            && After(hash, parts, seed, fs).logs == After(hash, parts, seed, es).logs
            && HistoryOf(hash, parts, seed, fs).furthestUps[p] == |After(hash, parts, seed, es).logs[p]|
            && NameAfter(hash, parts, seed, fs, n) == NameAt(n, After(hash, parts, seed, es).logs[p], k)
  {
    var p := Home(hash, parts, n);
    var log := After(hash, parts, seed, es).logs[p];
    var es0 := Appends(es);
    AppendsBuildLogs(hash, parts, seed, es);
    RowsNonEmpty(n, log, k);
    Upserts(hash, parts, seed, es0, p, |log|, Rows(log));
    var es1 := es0 + PollAndUpsert(p, |log|);
    Replays(hash, parts, seed, es1, p, k, Rows(log[..k]), n);
    fs := es1 + Replay(p, k);
  }

  lemma RenamedIsNotLast(hash: string -> nat, parts: nat, seed: Seed, es: seq<Event>, n: string) returns (fs: seq<Event>)
    requires parts > 0 && !OneName(OfLog(n, After(hash, parts, seed, es).logs[Home(hash, parts, n)]))
    ensures After(hash, parts, seed, fs).logs == After(hash, parts, seed, es).logs
    ensures !NameIsLast(hash, parts, seed, fs, n)
  {
    var log := After(hash, parts, seed, es).logs[Home(hash, parts, n)];
    var rows := OfLog(n, log);
    var i :| 0 <= i < |rows| && rows[i].name.Some? && rows[i].name != LastName(rows);
    LastNameIsLast(rows);
    var k := OffsetBehind(n, log, i);
    assert Last(rows[..i + 1]) == rows[i];
    fs := Replayed(hash, parts, seed, es, n, k);
    assert log[..|log|] == log;
  }

  /**
   A satellite's name is the last non-null one, or else the seeded one, in every run
   over some logs if and only if its partition's log never gives it two different names.
   */
  lemma NameAlwaysLastIff(hash: string -> nat, parts: nat, seed: Seed, es: seq<Event>, n: string)
    requires parts > 0
    ensures var logs := After(hash, parts, seed, es).logs;
            NameAlwaysLast(hash, parts, seed, logs, n) <==> OneName(OfLog(n, logs[Home(hash, parts, n)]))
  {
    var logs := After(hash, parts, seed, es).logs;
    if OneName(OfLog(n, logs[Home(hash, parts, n)])) {
      forall fs | After(hash, parts, seed, fs).logs == logs
        ensures NameIsLast(hash, parts, seed, fs, n)
      {
        OneNameIsLast(hash, parts, seed, fs, n);
      }
    } else {
      var fs := RenamedIsNotLast(hash, parts, seed, es, n);
    }
  }

  // ---- An example ----

  function NamedRow(name: string): Row {
    Row("25544", Some(name), 0, Columns(0.0, 0.0, 0.0, 0.0, 0, 0, "fixture"))
  }

  /** Two rows of one satellite with different names. */
  const TWO_NAMES: seq<Row> := [NamedRow("A"), NamedRow("B")]

  const UPSERT_BOTH: seq<Event> := AppendRows(TWO_NAMES) + PollAndUpsert(0, 2)

  const REPLAY_FIRST: seq<Event> := Replay(0, 1)

  lemma LastNamesOfTwo()
    ensures LastName(Of("25544", TWO_NAMES)) == Some("B") && LastName(Of("25544", [TWO_NAMES[0]])) == Some("A")
  {
    var a, b := NamedRow("A"), NamedRow("B");
    assert Front([a, b]) == [a] && Front([a]) == [];
    assert Of("25544", [a]) == [a] && Of("25544", [a, b]) == [a, b];
  }

  lemma BothUpserted(hash: string -> nat, seed: Seed, es: seq<Event>)
    requires After(hash, 1, seed, es) == Init(1, seed).(logs := [Decode(TWO_NAMES)])
    ensures var s := After(hash, 1, seed, es + PollAndUpsert(0, 2));
            && s.logs == [Decode(TWO_NAMES)] && s.committed == [0]
            && s.store.satellites == UpsertAll(seed, TWO_NAMES)
  {
    assert After(hash, 1, seed, es).polled == [0] && After(hash, 1, seed, es).committed == [0];
    DecodedRows(TWO_NAMES, 2);
    assert TWO_NAMES[..2] == TWO_NAMES;
    Upserts(hash, 1, seed, es, 0, 2, TWO_NAMES);
  }

  lemma FirstReplayed(hash: string -> nat, seed: Seed, es: seq<Event>)
    requires var s := After(hash, 1, seed, es); s.logs == [Decode(TWO_NAMES)] && s.committed == [0]
    ensures NameAfter(hash, 1, seed, es + REPLAY_FIRST, "25544") == Some("A")
  {
    LastNamesOfTwo();
    DecodedRows(TWO_NAMES, 1);
    assert TWO_NAMES[..1] == [TWO_NAMES[0]];
    Replays(hash, 1, seed, es, 0, 1, [TWO_NAMES[0]], "25544");
  }

  /** After a crash, re-upserting the first of two names brings the old one back. */
  lemma NameStepsBack(hash: string -> nat, seed: Seed)
    ensures NameAfter(hash, 1, seed, UPSERT_BOTH, "25544") == Some("B")
    ensures NameAfter(hash, 1, seed, UPSERT_BOTH + REPLAY_FIRST, "25544") == Some("A")
  {
    AppendsRows(hash, seed, TWO_NAMES);
    BothUpserted(hash, seed, AppendRows(TWO_NAMES));
    LastNamesOfTwo();
    UpsertAllAt(seed, TWO_NAMES, "25544");
    FirstReplayed(hash, seed, UPSERT_BOTH);
  }
}

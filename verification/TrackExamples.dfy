/** Runs after which the two forms of the track endpoint differ. */
module TrackExamples {
  import opened Seqs
  import opened PersisterModel
  import opened PersisterFolds
  import opened PersisterInvariant
  import opened PersisterTheorems
  import opened PersisterRuns
  import opened TrackQuery
  import opened TrackHealing

  function SampleOf(r: Row): Sample { FromTrack(TrackOf(r)) }

  // ---- A batch pushed twice ----

  /** Append one row and push it; crash before the commit; push it again. */
  function PushedTwice(r: Row): seq<Event> { AppendRows([r]) + PollAndPush(0, 1) + RePush(0, 1) }

  lemma PushedTwiceState(hash: string -> nat, seed: Seed, r: Row)
    ensures After(hash, 1, seed, PushedTwice(r)).store.positions == map[(r.norad, r.t) := r.cols]
    ensures PushesOf(HistoryOf(hash, 1, seed, PushedTwice(r)), r.norad) == [r, r]
  {
    AppendsRows(hash, seed, [r]);
    DecodedRows([r], 1);
    OneOf(r);
    PushesTwice(hash, 1, seed, AppendRows([r]), 0, 1, [r], 1, [r], r.norad);
    InsertedOne(map[], r);
    InsertedOne(map[(r.norad, r.t) := r.cols], r);
  }

  lemma OneOf(r: Row)
    ensures [r][..1] == [r] && Of(r.norad, [r]) == [r]
  {
    assert Front([r]) == [];
  }

  lemma InsertedOne(pos: map<(string, int), Columns>, r: Row)
    ensures InsertAll(pos, [r]) == InsertRow(pos, r)
  {
    assert Front([r]) == [];
  }

  /** Redis then answers the row twice and Postgres once. */
  lemma ReplayDuplicates(hash: string -> nat, seed: Seed, r: Row)
    ensures var s, x := After(hash, 1, seed, PushedTwice(r)), SampleOf(r);
            && FastAnswer(ListOf(s, r.norad), r.t) == [x, x]
            && QueryAnswer(s.store.positions, r.norad, r.t, [x])
  {
    PushedTwiceState(hash, seed, r);
    ListReached(hash, 1, seed, PushedTwice(r), r.norad);
    var s, x := After(hash, 1, seed, PushedTwice(r)), SampleOf(r);
    var list := ListOf(s, r.norad);
    assert Samples(list) == [x, x];
    AllScanned(list, r.t);
    assert [x][0].t == r.t;
    assert Listing(s.store.positions, r.norad, r.t, [x]) && [x][..1] == [x];
  }

  // ---- A row inserted and not yet pushed ----

  /** Of two rows, flush the first, and of the second do the Postgres insert only. */
  function Lagging(r: Row, q: Row): seq<Event> {
    AppendRows([r, q]) + PollAndPush(0, 1) + CommitAndInsert(0, 1)
  }

  lemma LaggingState(hash: string -> nat, seed: Seed, r: Row, q: Row)
    requires r.norad == q.norad && r.t != q.t
    ensures After(hash, 1, seed, Lagging(r, q)).store.positions
         == map[(r.norad, r.t) := r.cols, (r.norad, q.t) := q.cols]
    ensures PushesOf(HistoryOf(hash, 1, seed, Lagging(r, q)), r.norad) == [r]
  {
    AppendsRows(hash, seed, [r, q]);
    LaggingFrom(hash, seed, AppendRows([r, q]), r, q);
    assert Lagging(r, q) == AppendRows([r, q]) + PollAndPush(0, 1) + CommitAndInsert(0, 1);
  }

  lemma LaggingFrom(hash: string -> nat, seed: Seed, es: seq<Event>, r: Row, q: Row)
    requires r.norad == q.norad && r.t != q.t
    requires After(hash, 1, seed, es) == Init(1, seed).(logs := [Decode([r, q])])
    requires HistoryOf(hash, 1, seed, es) == InitHistory(1, seed)
    ensures var fs := es + PollAndPush(0, 1) + CommitAndInsert(0, 1);
            && After(hash, 1, seed, fs).store.positions == map[(r.norad, r.t) := r.cols, (r.norad, q.t) := q.cols]
            && PushesOf(HistoryOf(hash, 1, seed, fs), r.norad) == [r]
  {
    LaggingPolls(seed, r, q);
    OneOf(r);
    PushesThenInserts(hash, 1, seed, es, 0, 1, [r], 1, [q], r.norad);
    TwoInserted(r, q);
    NilLeft([r]);
  }

  lemma LaggingPolls(seed: Seed, r: Row, q: Row)
    ensures var s := Init(1, seed).(logs := [Decode([r, q])]);
            CanPoll(s, 0, 1, [r]) && CanPoll(PushedSystem(s, 0, 1, [r]).(phase := Idle), 0, 1, [q])
  {
    FirstDecoded(r, q);
    SecondDecoded(r, q);
  }

  lemma TwoInserted(r: Row, q: Row)
    requires r.norad == q.norad && r.t != q.t
    ensures InsertAll(InsertAll(map[], [r]), [q]) == map[(r.norad, r.t) := r.cols, (r.norad, q.t) := q.cols]
  {
    InsertedOne(map[], r);
    InsertedOne(map[(r.norad, r.t) := r.cols], q);
  }

  lemma FirstDecoded(r: Row, q: Row)
    ensures Rows(Decode([r, q])[0..1]) == [r]
  {
    DecodedRows([r, q], 1);
    assert [r, q][..1] == [r];
  }

  lemma SecondDecoded(r: Row, q: Row)
    ensures Rows(Decode([r, q])[1..2]) == [q]
  {
    assert Decode([r, q])[1..2] == [Decoded(q)];
    assert Front([Decoded(q)]) == [] && Rows([]) == [];
  }

  /** Redis then answers without the newest row, which Postgres has. */
  lemma LaggingSkipsNewest(hash: string -> nat, seed: Seed, r: Row, q: Row)
    requires r.norad == q.norad && r.t < q.t
    ensures var s := After(hash, 1, seed, Lagging(r, q));
            && FastAnswer(ListOf(s, r.norad), r.t) == [SampleOf(r)]
            && QueryAnswer(s.store.positions, r.norad, r.t, [SampleOf(q), SampleOf(r)])
  {
    LaggingState(hash, seed, r, q);
    ListReached(hash, 1, seed, Lagging(r, q), r.norad);
    var s := After(hash, 1, seed, Lagging(r, q));
    assert Samples(ListOf(s, r.norad)) == [SampleOf(r)];
    LaggingAnswers(r, q, s.store.positions, ListOf(s, r.norad));
  }

  lemma LaggingAnswers(r: Row, q: Row, table: map<(string, int), Columns>, list: seq<Track>)
    requires r.norad == q.norad && r.t < q.t && Samples(list) == [SampleOf(r)]
    requires table == map[(r.norad, r.t) := r.cols, (r.norad, q.t) := q.cols]
    ensures FastAnswer(list, r.t) == [SampleOf(r)]
    ensures QueryAnswer(table, r.norad, r.t, [SampleOf(q), SampleOf(r)])
  {
    var full := [SampleOf(q), SampleOf(r)];
    AllScanned(list, r.t);
    assert full[0].t == q.t && full[1].t == r.t;
    assert Listing(table, r.norad, r.t, full) && full[..2] == full;
  }

  // ---- A window longer than the list ----

  const ORIGIN: Columns := Columns(0.0, 0.0, 0.0, 0.0, 0, 0, "fixture")

  /** `k` samples of one satellite, a millisecond apart. */
  function Sampled(k: nat): (rows: seq<Row>)
    ensures |rows| == k && forall i :: 0 <= i < k ==> rows[i] == Row("25544", None, i, ORIGIN)
  {
    seq(k, i => Row("25544", None, i, ORIGIN))
  }

  function FlushedOnce(rows: seq<Row>): seq<Event> { AppendRows(rows) + PollAndPush(0, |rows|) }

  lemma FlushedOnceState(hash: string -> nat, seed: Seed, rows: seq<Row>, n: string)
    requires rows != [] && forall i :: 0 <= i < |rows| ==> rows[i].norad == n
    ensures Holds(After(hash, 1, seed, FlushedOnce(rows)).store.positions, n, rows)
    ensures PushesOf(HistoryOf(hash, 1, seed, FlushedOnce(rows)), n) == rows
  {
    AppendsRows(hash, seed, rows);
    DecodedRows(rows, |rows|);
    assert rows[..|rows|] == rows;
    OfOne(n, rows);
    Pushes(hash, 1, seed, AppendRows(rows), 0, |rows|, rows);
    PushedFacts(Init(1, seed).(logs := [Decode(rows)]), InitHistory(1, seed), 0, |rows|, rows, n);
    forall t
      ensures Get(After(hash, 1, seed, FlushedOnce(rows)).store.positions, (n, t)) == FirstCols(rows, t)
    {
      InsertAllAt(map[], rows, n, t);
    }
  }

  lemma LongWindow(hash: string -> nat, seed: Seed, rows: seq<Row>, n: string, answer: seq<Sample>)
    requires |rows| > TRACK_LIST_MAX && Increasing(rows) && forall i :: 0 <= i < |rows| ==> rows[i].norad == n
    requires QueryAnswer(After(hash, 1, seed, FlushedOnce(rows)).store.positions, n, rows[0].t, answer)
    ensures |FastAnswer(ListOf(After(hash, 1, seed, FlushedOnce(rows)), n), rows[0].t)| == TRACK_LIST_MAX
    ensures |answer| == Min(LIMIT, |rows|)
  {
    var s, cutoff := After(hash, 1, seed, FlushedOnce(rows)), rows[0].t;
    FlushedOnceState(hash, seed, rows, n);
    ListReached(hash, 1, seed, FlushedOnce(rows), n);
    var list := ListOf(s, n);
    WholeWindow(rows, TRACK_LIST_MAX, cutoff);
    AnswerIsNewest(s.store.positions, n, cutoff, rows, answer);
  }

  lemma WholeWindow(rows: seq<Row>, k: nat, cutoff: int)
    requires Increasing(rows) && rows != [] && cutoff <= rows[0].t
    ensures Recent(rows, cutoff) == |rows|
    ensures |FastAnswer(Newest(Tracks(rows), k), cutoff)| == Min(k, |rows|)
  {
    assert Recent(rows, cutoff) < |rows| ==> rows[|rows| - Recent(rows, cutoff) - 1].t >= rows[0].t;
    FastIsRecent(rows, k, cutoff);
  }

  /** With 121 rows in the window Redis answers 120 of them and Postgres all. */
  lemma LongWindowIsCut(hash: string -> nat, seed: Seed, answer: seq<Sample>)
    requires QueryAnswer(After(hash, 1, seed, FlushedOnce(Sampled(121))).store.positions, "25544", 0, answer)
    ensures |FastAnswer(ListOf(After(hash, 1, seed, FlushedOnce(Sampled(121))), "25544"), 0)| == 120
    ensures |answer| == 121
  {
    LongWindow(hash, seed, Sampled(121), "25544", answer);
  }
}

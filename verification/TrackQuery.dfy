/** `GET /satellites/{id}/track`: the Redis list as a fast form of the Postgres query. */
module TrackQuery {
  import opened Seqs
  import opened PersisterModel
  import opened PersisterFolds

  const LIMIT: nat := 1000

  datatype Sample = Sample(t: int, lat: real, lon: real, alt: real, v: real)

  datatype Source = Redis | Postgres

  function FromTrack(x: Track): Sample { Sample(x.t, x.lat, x.lon, x.alt, x.v) }

  function FromColumns(t: int, c: Columns): Sample { Sample(t, c.lat, c.lon, c.alt, c.speed) }

  /** How many of the newest-first entries lie at or after the cutoff before the first that does not. */
  function InWindow(raw: seq<Track>, cutoff: int): (k: nat)
    ensures k <= |raw|
    ensures forall i :: 0 <= i < k ==> raw[i].t >= cutoff
    ensures k < |raw| ==> raw[k].t < cutoff
  {
    if raw == [] || raw[0].t < cutoff then 0 else 1 + InWindow(raw[1..], cutoff)
  }

  lemma InWindowUnique(raw: seq<Track>, cutoff: int, k: nat)
    requires k <= |raw|
    requires forall i :: 0 <= i < k ==> raw[i].t >= cutoff
    requires k < |raw| ==> raw[k].t < cutoff
    ensures k == InWindow(raw, cutoff)
  {
  }

  function Samples(raw: seq<Track>): (r: seq<Sample>)
    ensures |r| == |raw| && forall i :: 0 <= i < |r| ==> r[i] == FromTrack(raw[i])
  {
    seq(|raw|, i requires 0 <= i < |raw| => FromTrack(raw[i]))
  }

  function FastAnswer(raw: seq<Track>, cutoff: int): seq<Sample> {
    Samples(raw[..InWindow(raw, cutoff)])
  }

  /** The endpoint: scan the list up to the boundary; when that yields nothing, use the Postgres rows. */
  method GetTrack(raw: seq<Track>, cutoff: int, rows: seq<Sample>) returns (source: Source, samples: seq<Sample>)
    ensures samples == if FastAnswer(raw, cutoff) != [] then FastAnswer(raw, cutoff) else rows
    ensures source.Redis? <==> FastAnswer(raw, cutoff) != []
    ensures source.Redis? <==> raw != [] && raw[0].t >= cutoff
    ensures source.Redis? ==>
              var k := |samples|;
              && k <= |raw| && (k < |raw| ==> raw[k].t < cutoff)
              && forall i :: 0 <= i < k ==>
                   && samples[i].t == raw[i].t >= cutoff && samples[i].v == raw[i].v
                   && samples[i].lat == raw[i].lat && samples[i].lon == raw[i].lon && samples[i].alt == raw[i].alt
  {
    samples := [];
    if raw != [] {
      var i := 0;
      while i < |raw|
        invariant 0 <= i <= |raw|
        invariant samples == Samples(raw[..i])
        invariant forall j :: 0 <= j < i ==> raw[j].t >= cutoff
      {
        if raw[i].t < cutoff {
          break;
        }
        samples := samples + [FromTrack(raw[i])];
        i := i + 1;
      }
      InWindowUnique(raw, cutoff, i);
      if samples != [] {
        return Redis, samples;
      }
    }
    return Postgres, rows;
  }

  // ---- The Postgres query ----

  /** All rows of `n` at or after the cutoff, latest first. */
  ghost predicate Listing(table: map<(string, int), Columns>, n: string, cutoff: int, full: seq<Sample>) {
    && (forall i :: 0 <= i < |full| ==>
          && (n, full[i].t) in table && full[i].t >= cutoff
          && full[i] == FromColumns(full[i].t, table[(n, full[i].t)]))
    && (forall i, j :: 0 <= i < j < |full| ==> full[i].t > full[j].t)
    && (forall t :: (n, t) in table && t >= cutoff ==> exists i :: 0 <= i < |full| && full[i].t == t)
  }

  /** WHERE norad_id = n AND sampled_at >= cutoff ORDER BY sampled_at DESC LIMIT 1000. */
  ghost predicate QueryAnswer(table: map<(string, int), Columns>, n: string, cutoff: int, rows: seq<Sample>) {
    exists full :: Listing(table, n, cutoff, full) && rows == full[..Min(LIMIT, |full|)]
  }

  ghost predicate Descending(a: seq<int>) {
    forall i, j :: 0 <= i < j < |a| ==> a[i] > a[j]
  }

  lemma TailIn(a: seq<int>, b: seq<int>)
    requires Descending(a) && Descending(b) && a != [] && b != [] && a[0] == b[0]
    requires forall x :: x in a ==> x in b
    ensures forall x :: x in a[1..] ==> x in b[1..]
  {
    forall x | x in a[1..]
      ensures x in b[1..]
    {
      var i :| 0 <= i < |a[1..]| && a[1..][i] == x;
      assert a[1 + i] == x && x in a && x < a[0];
      assert x in b && b == [b[0]] + b[1..];
    }
  }

  /** A strictly descending sequence is determined by its elements. */
  lemma {:induction false} DescendingUnique(a: seq<int>, b: seq<int>)
    requires Descending(a) && Descending(b)
    requires forall x :: x in a <==> x in b
    ensures a == b
    decreases |a|
  {
    assert a != [] ==> a[0] in a && a[0] in b;
    assert b != [] ==> b[0] in b && b[0] in a;
    if a != [] {
      TailIn(a, b);
      TailIn(b, a);
      DescendingUnique(a[1..], b[1..]);
      assert a == [a[0]] + a[1..] && b == [b[0]] + b[1..];
    }
  }

  function Times(full: seq<Sample>): (ts: seq<int>)
    ensures |ts| == |full| && forall i :: 0 <= i < |ts| ==> ts[i] == full[i].t
  {
    seq(|full|, i requires 0 <= i < |full| => full[i].t)
  }

  // ---- Agreement, for a satellite whose rows have strictly increasing times ----

  ghost predicate Increasing(rows: seq<Row>) {
    forall i, j :: 0 <= i < j < |rows| ==> rows[i].t < rows[j].t
  }

  /** The table holds exactly these rows for `n`. */
  ghost predicate Holds(table: map<(string, int), Columns>, n: string, rows: seq<Row>) {
    forall t :: Get(table, (n, t)) == FirstCols(rows, t)
  }

  /** How many of the latest rows are at or after the cutoff. */
  function Recent(rows: seq<Row>, cutoff: int): (m: nat)
    ensures m <= |rows|
    ensures forall i :: |rows| - m <= i < |rows| ==> rows[i].t >= cutoff
    ensures m < |rows| ==> rows[|rows| - m - 1].t < cutoff
  {
    if rows == [] || Last(rows).t < cutoff then 0 else 1 + Recent(Front(rows), cutoff)
  }

  lemma FirstColsAt(rows: seq<Row>, i: nat)
    requires Increasing(rows) && i < |rows|
    ensures FirstCols(rows, rows[i].t) == Some(rows[i].cols)
  {
    FirstColsIsFirst(rows, rows[i].t);
  }

  function NewestSamples(rows: seq<Row>, k: nat): (r: seq<Sample>)
    ensures |r| == Min(k, |rows|)
    ensures forall i :: 0 <= i < |r| ==> r[i] == FromTrack(TrackOf(rows[|rows| - 1 - i]))
  {
    Samples(Newest(Tracks(rows), k))
  }

  lemma RowListed(table: map<(string, int), Columns>, n: string, rows: seq<Row>, i: nat)
    requires Increasing(rows) && Holds(table, n, rows) && i < |rows|
    ensures (n, rows[i].t) in table && table[(n, rows[i].t)] == rows[i].cols
  {
    FirstColsAt(rows, i);
    assert Get(table, (n, rows[i].t)) == FirstCols(rows, rows[i].t);
  }

  lemma ListedRow(table: map<(string, int), Columns>, n: string, rows: seq<Row>, t: int) returns (i: nat)
    requires Holds(table, n, rows) && (n, t) in table
    ensures i < |rows| && rows[i].t == t
  {
    assert Get(table, (n, t)) == FirstCols(rows, t);
    FirstColsIsFirst(rows, t);
    i :| 0 <= i < |rows| && rows[i].t == t;
  }

  lemma OlderIsOutside(rows: seq<Row>, cutoff: int, i: nat)
    requires Increasing(rows) && i < |rows|
    ensures i < |rows| - Recent(rows, cutoff) <==> rows[i].t < cutoff
  {
  }

  lemma ListedIsRecent(table: map<(string, int), Columns>, n: string, cutoff: int, rows: seq<Row>, t: int)
    requires Increasing(rows) && Holds(table, n, rows) && (n, t) in table && t >= cutoff
    ensures t in Times(NewestSamples(rows, Recent(rows, cutoff)))
  {
    var i := ListedRow(table, n, rows, t);
    OlderIsOutside(rows, cutoff, i);
    assert Times(NewestSamples(rows, Recent(rows, cutoff)))[|rows| - 1 - i] == t;
  }

  lemma RecentTime(rows: seq<Row>, cutoff: int, t: int) returns (i: nat)
    requires t in Times(NewestSamples(rows, Recent(rows, cutoff)))
    ensures i < |rows| && rows[i].t == t && t >= cutoff
  {
    var newest := NewestSamples(rows, Recent(rows, cutoff));
    var j :| 0 <= j < |newest| && newest[j].t == t;
    i := |rows| - 1 - j;
    assert newest[j] == FromTrack(TrackOf(rows[i]));
    assert |rows| - Recent(rows, cutoff) <= i;
  }

  lemma RecentIsListed(table: map<(string, int), Columns>, n: string, cutoff: int, rows: seq<Row>, t: int)
    requires Increasing(rows) && Holds(table, n, rows) && t in Times(NewestSamples(rows, Recent(rows, cutoff)))
    ensures (n, t) in table && t >= cutoff
  {
    var i := RecentTime(rows, cutoff, t);
    RowListed(table, n, rows, i);
  }

  lemma ListingTimes(table: map<(string, int), Columns>, n: string, cutoff: int, rows: seq<Row>, full: seq<Sample>)
    requires Increasing(rows) && Holds(table, n, rows) && Listing(table, n, cutoff, full)
    ensures Times(full) == Times(NewestSamples(rows, Recent(rows, cutoff)))
  {
    var a, b := Times(full), Times(NewestSamples(rows, Recent(rows, cutoff)));
    forall x
      ensures x in a <==> x in b
    {
      if x in a {
        var j :| 0 <= j < |full| && full[j].t == x;
        ListedIsRecent(table, n, cutoff, rows, x);
      }
      if x in b {
        RecentIsListed(table, n, cutoff, rows, x);
        var j :| 0 <= j < |full| && full[j].t == x;
        assert a[j] == x;
      }
    }
    DescendingUnique(a, b);
  }

  /** With the rows in the table, the listing is the recent rows, latest first. */
  lemma ListingIsRecent(table: map<(string, int), Columns>, n: string, cutoff: int, rows: seq<Row>, full: seq<Sample>)
    requires Increasing(rows) && Holds(table, n, rows) && Listing(table, n, cutoff, full)
    ensures full == NewestSamples(rows, Recent(rows, cutoff))
  {
    ListingTimes(table, n, cutoff, rows, full);
    var expected := NewestSamples(rows, Recent(rows, cutoff));
    assert |full| == |Times(full)| == |expected|;
    forall i | 0 <= i < |full|
      ensures full[i] == expected[i]
    {
      assert Times(full)[i] == Times(expected)[i];
      SampleAt(table, n, rows, Recent(rows, cutoff), i);
    }
  }

  /** A recent sample is its row's columns as the table has them. */
  lemma SampleAt(table: map<(string, int), Columns>, n: string, rows: seq<Row>, k: nat, i: nat)
    requires Increasing(rows) && Holds(table, n, rows) && i < |NewestSamples(rows, k)|
    ensures var x := NewestSamples(rows, k)[i];
            (n, x.t) in table && x == FromColumns(x.t, table[(n, x.t)])
  {
    assert NewestSamples(rows, k)[i] == FromTrack(TrackOf(rows[|rows| - 1 - i]));
    RowListed(table, n, rows, |rows| - 1 - i);
  }

  /** Such a listing always exists. */
  lemma RecentIsListing(table: map<(string, int), Columns>, n: string, cutoff: int, rows: seq<Row>)
    requires Increasing(rows) && Holds(table, n, rows)
    ensures Listing(table, n, cutoff, NewestSamples(rows, Recent(rows, cutoff)))
  {
    var full := NewestSamples(rows, Recent(rows, cutoff));
    forall i | 0 <= i < |full|
      ensures (n, full[i].t) in table && full[i].t >= cutoff
      ensures full[i] == FromColumns(full[i].t, table[(n, full[i].t)])
    {
      assert full[i] == FromTrack(TrackOf(rows[|rows| - 1 - i]));
      SampleAt(table, n, rows, Recent(rows, cutoff), i);
    }
    forall t | (n, t) in table && t >= cutoff
      ensures exists i :: 0 <= i < |full| && full[i].t == t
    {
      ListedIsRecent(table, n, cutoff, rows, t);
      var i :| 0 <= i < |full| && Times(full)[i] == t;
      assert full[i].t == t;
    }
  }

  lemma FastScan(rows: seq<Row>, k: nat, cutoff: int)
    requires Increasing(rows)
    ensures InWindow(Newest(Tracks(rows), k), cutoff) == Min(Recent(rows, cutoff), k)
  {
    var raw := Newest(Tracks(rows), k);
    forall i | 0 <= i < |raw|
      ensures raw[i].t == rows[|rows| - 1 - i].t
    {
      assert raw[i] == Tracks(rows)[|rows| - 1 - i];
    }
    ScanCount(rows, raw, k, cutoff);
  }

  lemma ScanCount(rows: seq<Row>, raw: seq<Track>, k: nat, cutoff: int)
    requires |raw| == Min(k, |rows|) && forall i :: 0 <= i < |raw| ==> raw[i].t == rows[|rows| - 1 - i].t
    ensures InWindow(raw, cutoff) == Min(Recent(rows, cutoff), k)
  {
    InWindowUnique(raw, cutoff, Min(Recent(rows, cutoff), k));
  }

  lemma FastIsRecent(rows: seq<Row>, k: nat, cutoff: int)
    requires Increasing(rows)
    ensures FastAnswer(Newest(Tracks(rows), k), cutoff) == NewestSamples(rows, Min(Recent(rows, cutoff), k))
  {
    FastScan(rows, k, cutoff);
    var fast := FastAnswer(Newest(Tracks(rows), k), cutoff);
    var recent := NewestSamples(rows, Min(Recent(rows, cutoff), k));
    assert |fast| == |recent|;
    forall i | 0 <= i < |fast|
      ensures fast[i] == recent[i]
    {
      ScannedSample(rows, k, |fast|, i);
    }
  }

  lemma ScannedSample(rows: seq<Row>, k: nat, scanned: nat, i: nat)
    requires i < scanned <= |Newest(Tracks(rows), k)|
    ensures Samples(Newest(Tracks(rows), k)[..scanned])[i] == FromTrack(TrackOf(rows[|rows| - 1 - i]))
  {
  }

  lemma NewestSamplesPrefix(rows: seq<Row>, j: nat, k: nat)
    requires j <= k
    ensures NewestSamples(rows, j) <= NewestSamples(rows, k)
    ensures NewestSamples(rows, j) == NewestSamples(rows, k)[..Min(j, |rows|)]
  {
  }

  /** What a list shows to the endpoint is as many of the newest rows as it can hold. */
  ghost predicate ShowsNewest(list: seq<Track>, rows: seq<Row>) {
    Samples(list) == NewestSamples(rows, TRACK_LIST_MAX)
  }

  /** What a list shows is some of the newest rows, without a gap. */
  ghost predicate ShowsTop(list: seq<Track>, rows: seq<Row>) {
    Samples(list) <= NewestSamples(rows, |rows|)
  }

  /** The scan sees only what the endpoint reports. */
  lemma SameSamplesSameAnswer(a: seq<Track>, b: seq<Track>, cutoff: int)
    requires Samples(a) == Samples(b)
    ensures FastAnswer(a, cutoff) == FastAnswer(b, cutoff)
  {
    var k := InWindow(a, cutoff);
    assert |a| == |Samples(a)| == |Samples(b)| == |b|;
    forall i | 0 <= i < |a|
      ensures a[i].t == b[i].t
    {
      assert Samples(a)[i] == Samples(b)[i];
    }
    InWindowUnique(b, cutoff, k);
    assert Samples(a[..k]) == Samples(a)[..k] && Samples(b[..k]) == Samples(b)[..k];
  }

  /** There are older rows than a list of this length shows, and the newest of those is itself inside the window. */
  ghost predicate WindowOutgrows(rows: seq<Row>, shown: nat, cutoff: int) {
    |rows| > shown && rows[|rows| - 1 - shown].t >= cutoff
  }

  /**
   When sample times strictly increase and the list shows the top rows, the fast
   answer is a prefix of the Postgres answer, empty only if that or the list is, and
   all of it exactly unless the window outgrows the list.
   */
  lemma FastAnswerRefinesQuery(table: map<(string, int), Columns>, n: string, cutoff: int,
                               rows: seq<Row>, raw: seq<Track>, answer: seq<Sample>)
    requires Increasing(rows) && Holds(table, n, rows)
    requires ShowsTop(raw, rows) && |raw| <= TRACK_LIST_MAX
    requires QueryAnswer(table, n, cutoff, answer)
    ensures FastAnswer(raw, cutoff) <= answer
    ensures FastAnswer(raw, cutoff) == [] ==> answer == [] || raw == []
    ensures FastAnswer(raw, cutoff) == answer <==> !WindowOutgrows(rows, |raw|, cutoff)
  {
    var m, k := Recent(rows, cutoff), |raw|;
    AnswerIsNewest(table, n, cutoff, rows, answer);
    TopIsRecent(rows, raw, cutoff);
    NewestSamplesPrefix(rows, Min(m, k), Min(m, LIMIT));
    OutgrowsIff(rows, k, cutoff);
  }

  lemma TopIsRecent(rows: seq<Row>, raw: seq<Track>, cutoff: int)
    requires Increasing(rows) && ShowsTop(raw, rows)
    ensures |raw| <= |rows|
    ensures FastAnswer(raw, cutoff) == NewestSamples(rows, Min(Recent(rows, cutoff), |raw|))
  {
    assert |raw| == |Samples(raw)| <= |rows|;
    NewestSamplesPrefix(rows, |raw|, |rows|);
    assert Samples(raw) == NewestSamples(rows, |rows|)[..|raw|];
    SameSamplesSameAnswer(raw, Newest(Tracks(rows), |raw|), cutoff);
    FastIsRecent(rows, |raw|, cutoff);
  }

  lemma AnswerIsNewest(table: map<(string, int), Columns>, n: string, cutoff: int, rows: seq<Row>, answer: seq<Sample>)
    requires Increasing(rows) && Holds(table, n, rows) && QueryAnswer(table, n, cutoff, answer)
    ensures answer == NewestSamples(rows, Min(Recent(rows, cutoff), 1000))
  {
    var full :| Listing(table, n, cutoff, full) && answer == full[..Min(LIMIT, |full|)];
    ListingIsRecent(table, n, cutoff, rows, full);
    NewestSamplesPrefix(rows, Min(Recent(rows, cutoff), LIMIT), Recent(rows, cutoff));
  }

  lemma OutgrowsIff(rows: seq<Row>, shown: nat, cutoff: int)
    requires Increasing(rows)
    ensures WindowOutgrows(rows, shown, cutoff) <==> Recent(rows, cutoff) > shown
  {
  }

  /** Whatever the cutoff, the fast answer is a prefix of the Postgres answer. */
  ghost predicate AlwaysPrefix(raw: seq<Track>, table: map<(string, int), Columns>, n: string) {
    forall cutoff, answer :: QueryAnswer(table, n, cutoff, answer) ==> FastAnswer(raw, cutoff) <= answer
  }

  /** It is empty only if the Postgres answer or the list is, and all of it unless the window outgrows the list. */
  ghost predicate AnswersExactly(raw: seq<Track>, table: map<(string, int), Columns>, n: string, rows: seq<Row>) {
    forall cutoff, answer :: QueryAnswer(table, n, cutoff, answer) ==>
      && (FastAnswer(raw, cutoff) == [] ==> answer == [] || raw == [])
      && (FastAnswer(raw, cutoff) == answer <==> !WindowOutgrows(rows, |raw|, cutoff))
  }

  lemma TopAnswersExactly(table: map<(string, int), Columns>, n: string, rows: seq<Row>, raw: seq<Track>)
    requires Increasing(rows) && Holds(table, n, rows) && ShowsTop(raw, rows) && |raw| <= TRACK_LIST_MAX
    ensures AlwaysPrefix(raw, table, n) && AnswersExactly(raw, table, n, rows)
  {
    forall cutoff, answer | QueryAnswer(table, n, cutoff, answer)
      ensures FastAnswer(raw, cutoff) <= answer
      ensures FastAnswer(raw, cutoff) == [] ==> answer == [] || raw == []
      ensures FastAnswer(raw, cutoff) == answer <==> !WindowOutgrows(rows, |raw|, cutoff)
    {
      FastAnswerRefinesQuery(table, n, cutoff, rows, raw, answer);
    }
  }

  /** A cutoff no later than any of these. */
  lemma {:induction false} Below(ts: seq<Sample>) returns (cutoff: int)
    ensures forall i :: 0 <= i < |ts| ==> cutoff <= ts[i].t
    decreases |ts|
  {
    if ts == [] {
      return 0;
    }
    var c := Below(Front(ts));
    cutoff := if c < Last(ts).t then c else Last(ts).t;
    forall i | 0 <= i < |ts|
      ensures cutoff <= ts[i].t
    {
      assert i < |ts| - 1 ==> Front(ts)[i] == ts[i];
    }
  }

  /** From this cutoff on the whole list is scanned. */
  lemma AllScanned(raw: seq<Track>, cutoff: int)
    requires forall i :: 0 <= i < |raw| ==> Samples(raw)[i].t >= cutoff
    ensures FastAnswer(raw, cutoff) == Samples(raw)
  {
    forall i | 0 <= i < |raw|
      ensures raw[i].t >= cutoff
    {
      assert Samples(raw)[i].t >= cutoff;
    }
    InWindowUnique(raw, cutoff, |raw|);
    assert raw[..|raw|] == raw;
  }

  /** ... and all rows are recent. */
  lemma AllAnswered(table: map<(string, int), Columns>, n: string, rows: seq<Row>, cutoff: int)
    requires Increasing(rows) && Holds(table, n, rows)
    requires forall i :: 0 <= i < |rows| ==> NewestSamples(rows, |rows|)[i].t >= cutoff
    ensures QueryAnswer(table, n, cutoff, NewestSamples(rows, |rows|)[..Min(LIMIT, |rows|)])
  {
    forall i | 0 <= i < |rows|
      ensures rows[i].t >= cutoff
    {
      assert NewestSamples(rows, |rows|)[|rows| - 1 - i].t >= cutoff;
    }
    assert Recent(rows, cutoff) == |rows|;
    RecentIsListing(table, n, cutoff, rows);
  }

  /** A cutoff from which on the whole list is scanned and all rows are recent. */
  lemma AllInWindow(table: map<(string, int), Columns>, n: string, rows: seq<Row>, raw: seq<Track>) returns (cutoff: int)
    requires Increasing(rows) && Holds(table, n, rows)
    ensures FastAnswer(raw, cutoff) == Samples(raw)
    ensures QueryAnswer(table, n, cutoff, NewestSamples(rows, |rows|)[..Min(LIMIT, |rows|)])
  {
    var all := NewestSamples(rows, |rows|);
    var both := Samples(raw) + all;
    cutoff := Below(both);
    assert forall i :: 0 <= i < |raw| ==> both[i] == Samples(raw)[i];
    assert forall i :: 0 <= i < |all| ==> both[|raw| + i] == all[i];
    AllScanned(raw, cutoff);
    AllAnswered(table, n, rows, cutoff);
  }

  /** A list answers every cutoff with a prefix of the Postgres answer if and only if it shows the top rows. */
  lemma PrefixIff(table: map<(string, int), Columns>, n: string, rows: seq<Row>, raw: seq<Track>)
    requires Increasing(rows) && Holds(table, n, rows) && |raw| <= TRACK_LIST_MAX
    ensures AlwaysPrefix(raw, table, n) <==> ShowsTop(raw, rows)
  {
    if ShowsTop(raw, rows) {
      TopAnswersExactly(table, n, rows, raw);
    }
    if AlwaysPrefix(raw, table, n) {
      var cutoff := AllInWindow(table, n, rows, raw);
      assert Samples(raw) <= NewestSamples(rows, |rows|)[..Min(LIMIT, |rows|)];
    }
  }

  /** For a list of at least as many entries as there are rows, the top rows are the newest. */
  lemma TopIsNewest(rows: seq<Row>, raw: seq<Track>)
    requires Min(TRACK_LIST_MAX, |rows|) <= |raw| <= TRACK_LIST_MAX
    ensures ShowsTop(raw, rows) <==> ShowsNewest(raw, rows)
  {
    NewestSamplesPrefix(rows, Min(TRACK_LIST_MAX, |rows|), |rows|);
    NewestSamplesCapped(rows, TRACK_LIST_MAX);
    assert |raw| == |Samples(raw)|;
  }

  lemma PrefixIffNewest(table: map<(string, int), Columns>, n: string, rows: seq<Row>, raw: seq<Track>)
    requires Increasing(rows) && Holds(table, n, rows)
    requires Min(TRACK_LIST_MAX, |rows|) <= |raw| <= TRACK_LIST_MAX
    ensures AlwaysPrefix(raw, table, n) <==> ShowsNewest(raw, rows)
  {
    PrefixIff(table, n, rows, raw);
    TopIsNewest(rows, raw);
  }

  lemma NewestSamplesCapped(rows: seq<Row>, k: nat)
    ensures NewestSamples(rows, k) == NewestSamples(rows, Min(k, |rows|))
  {
  }
}

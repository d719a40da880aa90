/**
 What the three kinds of write amount to, satellite by satellite: a batch acts on
 the rows of satellite `n` exactly as the sub-batch of `n` alone would.
 */
module PersisterFolds {
  import opened Seqs
  import opened PersisterModel

  // ---- Sub-batches ----

  lemma {:induction false} RowsConcat(a: seq<Msg>, b: seq<Msg>)
    ensures Rows(a + b) == Rows(a) + Rows(b)
    decreases |b|
  {
    if b == [] {
      assert a + b == a;
    } else {
      RowsConcat(a, Front(b));
      var tail := if Last(b).Decoded? then [Last(b).row] else [];
      assert Front(a + b) == a + Front(b) && Last(a + b) == Last(b);
      assert Rows(a) + Rows(Front(b)) + tail == Rows(a) + (Rows(Front(b)) + tail);
    }
  }

  lemma {:induction false} OfConcat(n: string, a: seq<Row>, b: seq<Row>)
    ensures Of(n, a + b) == Of(n, a) + Of(n, b)
    decreases |b|
  {
    if b == [] {
      assert a + b == a;
    } else {
      OfConcat(n, a, Front(b));
      var tail := if Last(b).norad == n then [Last(b)] else [];
      assert Front(a + b) == a + Front(b) && Last(a + b) == Last(b);
      assert Of(n, a) + Of(n, Front(b)) + tail == Of(n, a) + (Of(n, Front(b)) + tail);
    }
  }

  lemma OfLogConcat(n: string, a: seq<Msg>, b: seq<Msg>)
    ensures OfLog(n, a + b) == OfLog(n, a) + OfLog(n, b)
  {
    RowsConcat(a, b);
    OfConcat(n, Rows(a), Rows(b));
  }

  lemma OfLogSplit(n: string, log: seq<Msg>, a: nat, b: nat, c: nat)
    requires a <= b <= c <= |log|
    ensures OfLog(n, log[a..c]) == OfLog(n, log[a..b]) + OfLog(n, log[b..c])
  {
    assert log[a..c] == log[a..b] + log[b..c];
    OfLogConcat(n, log[a..b], log[b..c]);
  }

  lemma {:induction false} OfForeign(n: string, msgs: seq<Msg>)
    requires forall i :: 0 <= i < |msgs| && msgs[i].Decoded? ==> msgs[i].row.norad != n
    ensures OfLog(n, msgs) == []
    decreases |msgs|
  {
    if msgs != [] {
      OfForeign(n, Front(msgs));
      OfConcat(n, Rows(Front(msgs)), if Last(msgs).Decoded? then [Last(msgs).row] else []);
    }
  }

  /** A decoded message of the log is a row of its satellite. */
  lemma {:induction false} OfLogMember(n: string, log: seq<Msg>, i: nat)
    requires i < |log| && log[i].Decoded? && log[i].row.norad == n
    ensures log[i].row in OfLog(n, log)
    decreases |log|
  {
    OfConcat(n, Rows(Front(log)), if Last(log).Decoded? then [Last(log).row] else []);
    if i < |log| - 1 {
      OfLogMember(n, Front(log), i);
    } else {
      assert Rows(log) == Rows(Front(log)) + [log[i].row];
      assert Of(n, [log[i].row]) == [log[i].row];
    }
  }

  // ---- satellite_positions: the first row wins ----

  /** The columns of the first of these rows sampled at `t`. */
  function FirstCols(rows: seq<Row>, t: int): Option<Columns> {
    if rows == [] then None
    else
      var earlier := FirstCols(Front(rows), t);
      if earlier.Some? then earlier
      else if Last(rows).t == t then Some(Last(rows).cols) else None
  }

  function OrElse<T>(a: Option<T>, b: Option<T>): Option<T> { if a.Some? then a else b }

  lemma {:induction false} FirstColsConcat(a: seq<Row>, b: seq<Row>, t: int)
    ensures FirstCols(a + b, t) == OrElse(FirstCols(a, t), FirstCols(b, t))
    decreases |b|
  {
    if b == [] {
      assert a + b == a;
    } else {
      FirstColsConcat(a, Front(b), t);
      assert Front(a + b) == a + Front(b);
    }
  }

  /** `FirstCols` by its meaning: it finds the least index holding the sample time. */
  lemma {:induction false} FirstColsIsFirst(rows: seq<Row>, t: int)
    ensures FirstCols(rows, t).None? <==> forall i :: 0 <= i < |rows| ==> rows[i].t != t
    ensures forall i :: 0 <= i < |rows| && rows[i].t == t && (forall j :: 0 <= j < i ==> rows[j].t != t)
              ==> FirstCols(rows, t) == Some(rows[i].cols)
    decreases |rows|
  {
    if rows != [] {
      FirstColsIsFirst(Front(rows), t);
      assert forall i :: 0 <= i < |rows| - 1 ==> Front(rows)[i] == rows[i];
    }
  }

  lemma {:induction false} InsertAllAt(pos: map<(string, int), Columns>, rows: seq<Row>, n: string, t: int)
    ensures Get(InsertAll(pos, rows), (n, t)) == OrElse(Get(pos, (n, t)), FirstCols(Of(n, rows), t))
    decreases |rows|
  {
    if rows != [] {
      InsertAllAt(pos, Front(rows), n, t);
      var r := Last(rows);
      if r.norad == n {
        assert Front(Of(n, rows)) == Of(n, Front(rows));
      } else {
        assert Of(n, rows) == Of(n, Front(rows));
      }
    }
  }

  // ---- satellites: last non-null name, greatest epoch ----

  function LastName(rows: seq<Row>): Option<string> {
    if rows == [] then None
    else if Last(rows).name.Some? then Last(rows).name
    else LastName(Front(rows))
  }

  /** The greatest TLE epoch among the rows, none when there is no row. */
  function MaxEpoch(rows: seq<Row>): Option<int> {
    if rows == [] then None
    else
      match MaxEpoch(Front(rows))
      case None => Some(Last(rows).cols.epoch)
      case Some(e) => Some(if e < Last(rows).cols.epoch then Last(rows).cols.epoch else e)
  }

  lemma {:induction false} LastNameConcat(a: seq<Row>, b: seq<Row>)
    ensures LastName(a + b) == OrElse(LastName(b), LastName(a))
    decreases |b|
  {
    if b == [] {
      assert a + b == a;
    } else {
      LastNameConcat(a, Front(b));
      assert Front(a + b) == a + Front(b);
    }
  }

  lemma {:induction false} MaxEpochConcat(a: seq<Row>, b: seq<Row>)
    ensures MaxEpoch(a + b) == Greatest(MaxEpoch(a), MaxEpoch(b))
    decreases |b|
  {
    if b == [] {
      assert a + b == a;
    } else {
      MaxEpochConcat(a, Front(b));
      assert Front(a + b) == a + Front(b);
    }
  }

  /** `LastName` by its meaning: the name of the greatest index that has one. */
  lemma {:induction false} LastNameIsLast(rows: seq<Row>)
    ensures LastName(rows).None? <==> forall i :: 0 <= i < |rows| ==> rows[i].name.None?
    ensures forall i :: 0 <= i < |rows| && rows[i].name.Some? && (forall j :: i < j < |rows| ==> rows[j].name.None?)
              ==> LastName(rows) == rows[i].name
    ensures LastName(rows).Some? ==> exists i :: 0 <= i < |rows| && rows[i].name == LastName(rows)
    decreases |rows|
  {
    if rows != [] {
      LastNameIsLast(Front(rows));
      assert forall i :: 0 <= i < |rows| - 1 ==> Front(rows)[i] == rows[i];
      assert rows[|rows| - 1] == Last(rows);
    }
  }

  /** `MaxEpoch` by its meaning: an epoch that occurs and that no row exceeds. */
  lemma {:induction false} MaxEpochIsMax(rows: seq<Row>)
    ensures MaxEpoch(rows).None? <==> rows == []
    ensures rows != [] ==> exists i :: 0 <= i < |rows| && rows[i].cols.epoch == MaxEpoch(rows).value
    ensures forall i :: 0 <= i < |rows| ==> rows[i].cols.epoch <= MaxEpoch(rows).value
    decreases |rows|
  {
    if rows != [] {
      MaxEpochIsMax(Front(rows));
      assert forall i :: 0 <= i < |rows| - 1 ==> Front(rows)[i] == rows[i];
      if MaxEpoch(rows) == Some(Last(rows).cols.epoch) {
        assert rows[|rows| - 1].cols.epoch == MaxEpoch(rows).value;
      } else {
        var i :| 0 <= i < |rows| - 1 && Front(rows)[i].cols.epoch == MaxEpoch(Front(rows)).value;
        assert rows[i].cols.epoch == MaxEpoch(rows).value;
      }
    }
  }

  function NameOf(s: Option<Satellite>): Option<string> { if s.Some? then s.value.name else None }

  function EpochOf(s: Option<Satellite>): Option<int> { if s.Some? then s.value.epoch else None }

  lemma {:induction false} UpsertAllAt(sats: map<string, Satellite>, rows: seq<Row>, n: string)
    ensures NameOf(Get(UpsertAll(sats, rows), n)) == OrElse(LastName(Of(n, rows)), NameOf(Get(sats, n)))
    ensures EpochOf(Get(UpsertAll(sats, rows), n)) == Greatest(EpochOf(Get(sats, n)), MaxEpoch(Of(n, rows)))
    ensures n in UpsertAll(sats, rows) <==> n in sats || Of(n, rows) != []
    decreases |rows|
  {
    if rows != [] {
      UpsertAllAt(sats, Front(rows), n);
      var r := Last(rows);
      if r.norad == n {
        assert Front(Of(n, rows)) == Of(n, Front(rows));
      } else {
        assert Of(n, rows) == Of(n, Front(rows));
      }
    }
  }

  // ---- Redis: the capped list shows the newest pushes, the score is its head ----

  ghost predicate HotStateShows(st: Store, n: string, pushed: seq<Row>) {
    && GetOr(st.tracks, n, []) == Newest(Tracks(pushed), TRACK_LIST_MAX)
    && (n in st.active <==> pushed != [])
    && (n in st.active ==> st.active[n] == Last(pushed).t)
  }

  lemma {:induction false} PushAllShows(st: Store, rows: seq<Row>, n: string, pushed: seq<Row>)
    requires HotStateShows(st, n, pushed)
    ensures HotStateShows(PushAll(st, rows), n, pushed + Of(n, rows))
    ensures PushAll(st, rows).positions == st.positions && PushAll(st, rows).satellites == st.satellites
    decreases |rows|
  {
    if rows == [] {
      assert pushed + Of(n, rows) == pushed;
    } else {
      PushAllShows(st, Front(rows), n, pushed);
      var r, before := Last(rows), pushed + Of(n, Front(rows));
      assert pushed + Of(n, rows) == if r.norad == n then before + [r] else before;
      PushRowShows(PushAll(st, Front(rows)), r, n, before);
    }
  }

  lemma PushRowShows(st: Store, r: Row, n: string, pushed: seq<Row>)
    requires HotStateShows(st, n, pushed)
    ensures HotStateShows(PushRow(st, r), n, if r.norad == n then pushed + [r] else pushed)
  {
    if r.norad == n {
      assert Tracks(pushed + [r]) == Tracks(pushed) + [TrackOf(r)];
      NewestPush(Tracks(pushed), TrackOf(r), TRACK_LIST_MAX);
    }
  }

  lemma {:induction false} RecordPushesAt(pushes: map<string, seq<Row>>, rows: seq<Row>, n: string)
    ensures GetOr(RecordPushes(pushes, rows), n, []) == GetOr(pushes, n, []) + Of(n, rows)
    decreases |rows|
  {
    if rows != [] {
      RecordPushesAt(pushes, Front(rows), n);
    }
  }
}

/**
 The persister process and the systems it writes to, with the fields the program
 updates. Every method extends the ghost `trace` by the events it performs, and
 `Valid` ties the fields to the run of that trace, so what is proved of all runs
 holds of the process after any calls.
 */
module PersisterService {
  import opened Seqs
  import opened PersisterModel
  import opened PersisterTheorems
  import opened PersisterRecovery

  const FLUSH_INTERVAL_MS: int := 500

  function PollEvents(batch: seq<(nat, nat)>): seq<Event> {
    if batch == [] then [] else PollEvents(Front(batch)) + [Poll(Last(batch).0, Last(batch).1)]
  }

  /** Each entry of the batch is a run of messages that its partition has. */
  predicate Readable(logs: seq<seq<Msg>>, polled: seq<nat>, batch: seq<(nat, nat)>) {
    && |polled| == |logs|
    && forall i :: 0 <= i < |batch| ==> batch[i].0 < |logs| && polled[batch[i].0] + batch[i].1 <= |logs[batch[i].0]|
  }

  /** The decodable rows of a batch, in its order. */
  function BatchRows(logs: seq<seq<Msg>>, polled: seq<nat>, batch: seq<(nat, nat)>): seq<Row>
    requires Readable(logs, polled, batch)
  {
    if batch == [] then []
    else
      var (p, n) := Last(batch);
      BatchRows(logs, polled, Front(batch)) + Rows(logs[p][polled[p]..polled[p] + n])
  }

  /** Each partition's position moved past its run. */
  function Advanced(logs: seq<seq<Msg>>, polled: seq<nat>, batch: seq<(nat, nat)>): (a: seq<nat>)
    requires Readable(logs, polled, batch)
    ensures |a| == |polled|
  {
    if batch == [] then polled
    else
      var a := Advanced(logs, polled, Front(batch));
      a[Last(batch).0 := a[Last(batch).0] + Last(batch).1]
  }

  ghost predicate Distinct(batch: seq<(nat, nat)>) {
    forall i, j :: 0 <= i < j < |batch| ==> batch[i].0 != batch[j].0
  }

  /** The positions `after` a batch: advanced by its counts, and unchanged elsewhere. */
  ghost predicate MovedPast(polled: seq<nat>, batch: seq<(nat, nat)>, after: seq<nat>) {
    && |after| == |polled|
    && (forall i :: 0 <= i < |batch| && batch[i].0 < |polled| ==> after[batch[i].0] == polled[batch[i].0] + batch[i].1)
    && (forall p :: 0 <= p < |polled| && (forall i :: 0 <= i < |batch| ==> batch[i].0 != p) ==> after[p] == polled[p])
  }

  lemma {:induction false} AdvancedMoves(logs: seq<seq<Msg>>, polled: seq<nat>, batch: seq<(nat, nat)>)
    requires Readable(logs, polled, batch) && Distinct(batch)
    ensures MovedPast(polled, batch, Advanced(logs, polled, batch))
    decreases |batch|
  {
    if batch != [] {
      AdvancedMoves(logs, polled, Front(batch));
      MovedFurther(polled, batch, Advanced(logs, polled, Front(batch)));
    }
  }

  lemma MovedFurther(polled: seq<nat>, batch: seq<(nat, nat)>, a: seq<nat>)
    requires batch != [] && Distinct(batch) && Last(batch).0 < |polled| && MovedPast(polled, Front(batch), a)
    ensures MovedPast(polled, batch, a[Last(batch).0 := a[Last(batch).0] + Last(batch).1])
  {
    var (p, n) := Last(batch);
    var front, a' := Front(batch), a[p := a[p] + n];
    assert forall i :: 0 <= i < |front| ==> front[i] == batch[i] && front[i].0 != p;
    assert a[p] == polled[p];
    forall i | 0 <= i < |batch| && batch[i].0 < |polled|
      ensures a'[batch[i].0] == polled[batch[i].0] + batch[i].1
    {
      if i < |front| { assert front[i].0 != p; }
    }
    forall q | 0 <= q < |polled| && (forall i :: 0 <= i < |batch| ==> batch[i].0 != q)
      ensures a'[q] == polled[q]
    {
      assert batch[|batch| - 1].0 != q;
      assert forall i :: 0 <= i < |front| ==> front[i].0 != q;
    }
  }

  lemma {:induction false} BatchAtMost(logs: seq<seq<Msg>>, polled: seq<nat>, batch: seq<(nat, nat)>)
    requires Readable(logs, polled, batch)
    ensures |BatchRows(logs, polled, batch)| <= Total(batch)
    decreases |batch|
  {
    if batch != [] {
      BatchAtMost(logs, polled, Front(batch));
      LastAtMost(logs, polled, batch);
    }
  }

  lemma LastAtMost(logs: seq<seq<Msg>>, polled: seq<nat>, batch: seq<(nat, nat)>)
    requires Readable(logs, polled, batch) && batch != []
    ensures |BatchRows(logs, polled, batch)| <= |BatchRows(logs, polled, Front(batch))| + Last(batch).1
  {
    var (p, n) := Last(batch);
    var msgs := logs[p][polled[p]..polled[p] + n];
    assert |msgs| == n;
    RowsAtMost(msgs);
    AppendedAtMost(BatchRows(logs, polled, Front(batch)), Rows(msgs), n);
  }

  lemma AppendedAtMost(a: seq<Row>, b: seq<Row>, n: nat)
    requires |b| <= n
    ensures |a + b| <= |a| + n
  {
  }

  lemma ReadableSoFar(logs: seq<seq<Msg>>, polled: seq<nat>, batch: seq<(nat, nat)>, i: nat)
    requires i <= |batch| && Readable(logs, polled, batch)
    ensures Readable(logs, polled, batch[..i])
  {
  }

  /** A batch taken one entry further: the positions. */
  lemma AdvancedNext(logs: seq<seq<Msg>>, polled: seq<nat>, batch: seq<(nat, nat)>, i: nat)
    requires i < |batch| && Readable(logs, polled, batch) && Distinct(batch)
    requires Readable(logs, polled, batch[..i]) && Readable(logs, polled, batch[..i + 1])
    ensures var a, (p, n) := Advanced(logs, polled, batch[..i]), batch[i];
            && a[p] == polled[p]
            && Advanced(logs, polled, batch[..i + 1]) == a[p := polled[p] + n]
  {
    TakeOneMore(batch, i);
    AdvancedMoves(logs, polled, batch[..i]);
    NotYetMoved(polled, batch, i, Advanced(logs, polled, batch[..i]));
  }

  /** ... and the rows. */
  lemma BatchRowsNext(logs: seq<seq<Msg>>, polled: seq<nat>, batch: seq<(nat, nat)>, i: nat, before: seq<Row>)
    requires i < |batch| && Readable(logs, polled, batch)
    requires Readable(logs, polled, batch[..i]) && Readable(logs, polled, batch[..i + 1])
    ensures var (p, n) := batch[i];
            before + BatchRows(logs, polled, batch[..i + 1]) ==
            before + BatchRows(logs, polled, batch[..i]) + Rows(logs[p][polled[p]..polled[p] + n])
  {
    var (p, n) := batch[i];
    TakeOneMore(batch, i);
    Associative(before, BatchRows(logs, polled, batch[..i]), Rows(logs[p][polled[p]..polled[p] + n]));
  }

  lemma NotYetMoved(polled: seq<nat>, batch: seq<(nat, nat)>, i: nat, a: seq<nat>)
    requires i < |batch| && Distinct(batch) && batch[i].0 < |polled| && MovedPast(polled, batch[..i], a)
    ensures a[batch[i].0] == polled[batch[i].0]
  {
    assert forall j :: 0 <= j < |batch[..i]| ==> batch[..i][j].0 != batch[i].0;
  }

  function Total(batch: seq<(nat, nat)>): nat {
    if batch == [] then 0 else Total(Front(batch)) + Last(batch).1
  }

  /** The writes done by one flush of a non-empty buffer: all four, or `k` of them and then a crash. */
  function FlushEvents(crashAfter: Option<nat>): seq<Event> {
    match crashAfter
    case None => FLUSH
    case Some(k) => FLUSH[..Min(k, 4)] + [Crash]
  }

  lemma {:induction false} RowsAtMost(msgs: seq<Msg>)
    ensures |Rows(msgs)| <= |msgs|
    decreases |msgs|
  {
    if msgs != [] { RowsAtMost(Front(msgs)); }
  }

  lemma RowsStep(msgs: seq<Msg>, i: nat)
    requires i < |msgs|
    ensures Rows(msgs[..i + 1]) == if msgs[i].Decoded? then Rows(msgs[..i]) + [msgs[i].row] else Rows(msgs[..i])
  {
    TakeOneMore(msgs, i);
    NilRight(Rows(msgs[..i]));
  }

  /** The state a flush of a non-empty buffer leaves. */
  function Flushed(s: System, crashAfter: Option<nat>): System {
    match crashAfter
    case None => System(s.logs, s.polled, s.polled, [], Idle, StoredAfter(s.store, s.buffer, 4))
    case Some(k) =>
      var kept := KeptOffsets(s, Min(k, 4));
      System(s.logs, kept, kept, [], Idle, StoredAfter(s.store, s.buffer, Min(k, 4)))
  }

  lemma FlushedIsRun(hash: string -> nat, parts: nat, seed: Seed, trace: seq<Event>, crashAfter: Option<nat>)
    requires parts > 0
    requires After(hash, parts, seed, trace).phase.Idle? && After(hash, parts, seed, trace).buffer != []
    ensures After(hash, parts, seed, trace + FlushEvents(crashAfter)) == Flushed(After(hash, parts, seed, trace), crashAfter)
  {
    var s := After(hash, parts, seed, trace);
    RunConcat(hash, Init(parts, seed), trace, FlushEvents(crashAfter));
    match crashAfter
    case None =>
      FlushPrefix(hash, s, 4);
      assert FLUSH[..4] == FLUSH;
    case Some(k) => FlushThenCrash(hash, s, Min(k, 4));
  }

  class Persister {
    const hash: string -> nat
    const parts: nat
    const seed: Seed

    // Kafka: the topic's logs, the group's committed offsets, the consumer's position.
    var logs: seq<seq<Msg>>
    var committed: seq<nat>
    var polled: seq<nat>

    // The process.
    var buffer: seq<Row>
    var lastFlush: int

    // Postgres and Redis.
    var positions: map<(string, int), Columns>
    var satellites: map<string, Satellite>
    var tracks: map<string, seq<Track>>
    var active: map<string, int>

    ghost var trace: seq<Event>

    function Stored(): Store
      reads this
    {
      Store(positions, satellites, tracks, active)
    }

    function State(): System
      reads this
    {
      System(logs, committed, polled, buffer, Idle, Stored())
    }

    ghost predicate Valid()
      reads this
    {
      && parts > 0
      && State() == After(hash, parts, seed, trace)
    }

    constructor (hash: string -> nat, parts: nat, seed: Seed, now: int)
      requires parts > 0
      ensures Valid() && trace == [] && this.hash == hash && this.parts == parts && this.seed == seed
    {
      this.hash, this.parts, this.seed := hash, parts, seed;
      logs, committed, polled := seq(parts, _ => []), Zeros(parts), Zeros(parts);
      buffer, lastFlush := [], now;
      positions, satellites, tracks, active := map[], seed, map[], map[];
      trace := [];
    }

    /** The producer appends to the partition the satellite is keyed to. */
    method Append(p: nat, msg: Msg)
      requires Valid() && p < parts
      requires msg.Decoded? ==> Home(hash, parts, msg.row.norad) == p
      modifies this`logs, this`trace
      ensures Valid() && trace == old(trace) + [Event.Append(p, msg)]
    {
      logs := logs[p := logs[p] + [msg]];
      trace := trace + [Event.Append(p, msg)];
      assert Front(trace) == old(trace);
    }

    /** One partition's messages of a batch: decode each, skip the undecodable, buffer the others. */
    method Drain(p: nat, n: nat)
      requires Valid() && p < parts && |polled| == |logs| == parts && polled[p] + n <= |logs[p]|
      modifies this`buffer, this`polled, this`trace
      ensures Valid() && trace == old(trace) + [Event.Poll(p, n)]
      ensures polled == old(polled)[p := old(polled[p]) + n]
      ensures buffer == old(buffer) + Rows(logs[p][old(polled[p])..old(polled[p]) + n])
      ensures |buffer| <= old(|buffer|) + n
    {
      var messages := logs[p][polled[p]..polled[p] + n];
      for i := 0 to |messages|
        invariant buffer == old(buffer) + Rows(messages[..i])
        invariant unchanged(`polled) && unchanged(`trace)
      {
        RowsStep(messages, i);
        match messages[i]
        case Undecodable =>
        case Decoded(row) =>
          Associative(old(buffer), Rows(messages[..i]), [row]);
          buffer := buffer + [row];
      }
      assert messages[..|messages|] == messages;
      RowsAtMost(messages);
      polled := polled[p := polled[p] + n];
      trace := trace + [Event.Poll(p, n)];
      assert Front(trace) == old(trace);
    }

    /** Entry `i` of a batch, those before it being done. */
    method PollOne(batch: seq<(nat, nat)>, i: nat, ghost start: seq<nat>, ghost before: seq<Row>)
      requires Valid() && |logs| == parts && i < |batch| && Distinct(batch)
      requires Readable(logs, start, batch) && Readable(logs, start, batch[..i])
      requires polled == Advanced(logs, start, batch[..i])
      requires buffer == before + BatchRows(logs, start, batch[..i])
      modifies this`buffer, this`polled, this`trace
      ensures Valid() && trace == old(trace) + [Event.Poll(batch[i].0, batch[i].1)]
      ensures Readable(logs, start, batch[..i + 1])
      ensures polled == Advanced(logs, start, batch[..i + 1])
      ensures buffer == before + BatchRows(logs, start, batch[..i + 1])
    {
      ReadableSoFar(logs, start, batch, i + 1);
      AdvancedNext(logs, start, batch, i);
      BatchRowsNext(logs, start, batch, i, before);
      Drain(batch[i].0, batch[i].1);
    }

    /**
     `getmany`: a contiguous run of messages from each of some partitions. Their
     positions advance past them, the others stay, and the decodable rows go to the
     end of the buffer in the order of the batch.
     */
    method Poll(batch: seq<(nat, nat)>)
      requires Valid() && |logs| == parts && Readable(logs, polled, batch)
      requires Distinct(batch)
      modifies this`buffer, this`polled, this`trace
      ensures Valid() && trace == old(trace) + PollEvents(batch)
      ensures MovedPast(old(polled), batch, polled)
      ensures buffer == old(buffer) + BatchRows(logs, old(polled), batch)
      ensures |buffer| <= old(|buffer|) + Total(batch)
    {
      NilRight(buffer);
      for i := 0 to |batch|
        invariant Valid() && trace == old(trace) + PollEvents(batch[..i])
        invariant Readable(logs, old(polled), batch[..i])
        invariant polled == Advanced(logs, old(polled), batch[..i])
        invariant buffer == old(buffer) + BatchRows(logs, old(polled), batch[..i])
      {
        TakeOneMore(batch, i);
        PollOne(batch, i, old(polled), old(buffer));
      }
      TakeAll(batch);
      AdvancedMoves(logs, old(polled), batch);
      BatchAtMost(logs, old(polled), batch);
    }

    method InsertPositions(rows: seq<Row>)
      modifies this`positions
      ensures positions == InsertAll(old(positions), rows)
    {
      for i := 0 to |rows|
        invariant positions == InsertAll(old(positions), rows[..i])
      {
        var r := rows[i];
        if (r.norad, r.t) !in positions {
          positions := positions[(r.norad, r.t) := r.cols];
        }
        TakeOneMore(rows, i);
      }
      assert rows[..|rows|] == rows;
    }

    method UpsertOneRow(r: Row)
      modifies this`satellites
      ensures satellites == UpsertRow(old(satellites), r)
    {
      if r.norad in satellites {
        var s := satellites[r.norad];
        satellites := satellites[r.norad := Satellite(
                                   if r.name.Some? then r.name else s.name,
                                   if s.epoch.Some? && s.epoch.value >= r.cols.epoch then s.epoch
                                   else Some(r.cols.epoch))];
      } else {
        satellites := satellites[r.norad := Satellite(r.name, Some(r.cols.epoch))];
      }
    }

    method UpsertSatellites(rows: seq<Row>)
      modifies this`satellites
      ensures satellites == UpsertAll(old(satellites), rows)
    {
      for i := 0 to |rows|
        invariant satellites == UpsertAll(old(satellites), rows[..i])
      {
        UpsertOneRow(rows[i]);
        TakeOneMore(rows, i);
      }
      assert rows[..|rows|] == rows;
    }

    /** ZADD, LPUSH and LTRIM for one row. */
    method PushOne(r: Row)
      modifies this`tracks, this`active
      ensures Stored() == PushRow(old(Stored()), r)
    {
      active := active[r.norad := r.t];
      var list := [TrackOf(r)] + (if r.norad in tracks then tracks[r.norad] else []);
      tracks := tracks[r.norad := if |list| > TRACK_LIST_MAX then list[..TRACK_LIST_MAX] else list];
      assert |list| <= TRACK_LIST_MAX ==> list[..|list|] == list;
    }

    /** The Redis pipeline over all rows. */
    method PushHotState(rows: seq<Row>)
      modifies this`tracks, this`active
      ensures Stored() == PushAll(old(Stored()), rows)
    {
      for i := 0 to |rows|
        invariant Stored() == PushAll(old(Stored()), rows[..i])
      {
        PushOne(rows[i]);
        TakeOneMore(rows, i);
      }
      assert rows[..|rows|] == rows;
    }

    /** A crash, or an exception that ends the process, and the restart from the committed offsets. */
    method Restart()
      requires Valid()
      modifies this`buffer, this`polled, this`trace
      ensures Valid() && trace == old(trace) + [Crash] && buffer == []
    {
      buffer, polled := [], committed;
      trace := trace + [Crash];
      assert Front(trace) == old(trace);
    }

    /** The writes of a flush in their order, offsets last, stopping after `writes` of them. */
    method Write(rows: seq<Row>, writes: nat)
      requires writes <= 4
      modifies this`positions, this`satellites, this`tracks, this`active, this`committed
      ensures Stored() == StoredAfter(old(Stored()), rows, writes)
      ensures committed == if writes == 4 then polled else old(committed)
    {
      if writes >= 1 { InsertPositions(rows); }
      if writes >= 2 { UpsertSatellites(rows); }
      if writes >= 3 { PushHotState(rows); }
      if writes >= 4 { committed := polled; }
    }

    /**
     `flush`: an empty buffer only resets the timer; otherwise the four writes in
     order. `crashAfter` makes the process die after that many of them.
     */
    method Flush(now: int, crashAfter: Option<nat>) returns (alive: bool)
      requires Valid()
      modifies this`buffer, this`lastFlush, this`positions, this`satellites, this`tracks, this`active,
               this`committed, this`polled, this`trace
      ensures Valid() && buffer == []
      ensures trace == old(trace) + (if old(buffer) == [] then [] else FlushEvents(crashAfter))
      ensures alive <==> old(buffer) == [] || crashAfter.None?
      ensures alive ==> lastFlush == now
      ensures var writes := if old(buffer) == [] then 0 else if crashAfter.None? then 4 else Min(crashAfter.value, 4);
              && Stored() == StoredAfter(old(Stored()), old(buffer), writes)
              && committed == if writes == 4 then old(polled) else old(committed)
      ensures polled == if alive then old(polled) else committed
    {
      if buffer == [] {
        lastFlush := now;
        return true;
      }
      FlushedIsRun(hash, parts, seed, trace, crashAfter);
      trace := trace + FlushEvents(crashAfter);
      var rows := buffer;
      buffer := [];
      alive := crashAfter.None?;
      if alive {
        Write(rows, 4);
        lastFlush := now;
      } else {
        Write(rows, Min(crashAfter.value, 4));
        polled := committed;
      }
    }

    /**
     One turn of the loop: poll a batch, then flush exactly if the buffer is full or
     the interval has passed. The rows flushed, or else kept, are those buffered
     before followed by the decodable rows of the batch.
     */
    method Turn(batch: seq<(nat, nat)>, now: int, crashAfter: Option<nat>) returns (alive: bool)
      requires Valid() && |logs| == parts && Readable(logs, polled, batch)
      requires Distinct(batch)
      requires Total(batch) <= FLUSH_ROWS && |buffer| < FLUSH_ROWS
      modifies this`buffer, this`lastFlush, this`positions, this`satellites, this`tracks, this`active,
               this`committed, this`polled, this`trace
      ensures Valid() && |buffer| < FLUSH_ROWS
      ensures var rows := old(buffer) + BatchRows(logs, old(polled), batch);
              var due := |rows| >= 500 || now - old(lastFlush) >= 500;
              var writes := if !due || rows == [] then 0 else if crashAfter.None? then 4 else Min(crashAfter.value, 4);
              && trace == old(trace) + PollEvents(batch) + (if due && rows != [] then FlushEvents(crashAfter) else [])
              && buffer == (if due then [] else rows)
              && (alive <==> !due || rows == [] || crashAfter.None?)
              && (alive ==> lastFlush == if due then now else old(lastFlush))
              && Stored() == StoredAfter(old(Stored()), rows, writes)
              && (if writes == 4 then committed == polled else committed == old(committed))
      ensures if alive then MovedPast(old(polled), batch, polled) else polled == committed
    {
      alive := true;
      Poll(batch);
      assert |buffer| <= 2 * FLUSH_ROWS - 1 && trace + [] == trace;
      if |buffer| >= FLUSH_ROWS || now - lastFlush >= FLUSH_INTERVAL_MS {
        alive := Flush(now, crashAfter);
      }
    }

    /** Graceful stop: the `finally` flush, then the next incarnation starts from the committed offsets. */
    method Shutdown(now: int)
      requires Valid()
      modifies this`buffer, this`lastFlush, this`positions, this`satellites, this`tracks, this`active,
               this`committed, this`polled, this`trace
      ensures Valid()
      ensures trace == old(trace) + (if old(buffer) == [] then [] else FLUSH) + [Crash]
    {
      var alive := Flush(now, None);
      Restart();
    }
  }
}

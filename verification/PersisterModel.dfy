/**
 The position persister as a transition system: per-partition logs, committed
 and polled offsets, the row buffer, the two Postgres tables and the Redis hot
 state. Every event list is a run; an event that is not enabled changes nothing.
 */
module PersisterModel {
  import opened Seqs

  const FLUSH_ROWS: nat := 500
  const TRACK_LIST_MAX: nat := 120

  datatype Columns = Columns(lat: real, lon: real, alt: real, speed: real,
                             cell: int, epoch: int, source: string)

  /** A buffered row; `t` is `sampled_at` in milliseconds. */
  datatype Row = Row(norad: string, name: Option<string>, t: int, cols: Columns)

  /** A message in a partition log, as decoding sees it. */
  datatype Msg = Undecodable | Decoded(row: Row)

  datatype Satellite = Satellite(name: Option<string>, epoch: Option<int>)

  /** The satellites a database is created with. */
  type Seed = map<string, Satellite>

  datatype Track = Track(t: int, lat: real, lon: real, alt: real, v: real, cell: int)

  datatype Store = Store(
    positions: map<(string, int), Columns>,
    satellites: map<string, Satellite>,
    tracks: map<string, seq<Track>>,
    active: map<string, int>)

  /** How far the flush in progress has come; `rows` is the batch it swapped out. */
  datatype Phase =
    | Idle
    | Inserted(rows: seq<Row>)
    | Upserted(rows: seq<Row>)
    | Pushed(rows: seq<Row>)

  datatype System = System(
    logs: seq<seq<Msg>>,
    committed: seq<nat>,
    polled: seq<nat>,
    buffer: seq<Row>,
    phase: Phase,
    store: Store)

  datatype Event =
    | Append(p: nat, msg: Msg)
    | Poll(p: nat, n: nat)
    | Insert
    | Upsert
    | Push
    | Commit
    | Crash

  /**
   The producer keys by satellite, so a satellite lives in one partition. The
   partitioner is arbitrary; a value past the last partition stands for the last.
   */
  function Home(hash: string -> nat, parts: nat, n: string): (p: nat)
    requires parts > 0
    ensures p < parts && (hash(n) < parts ==> p == hash(n))
  {
    Min(hash(n), parts - 1)
  }

  // ---- Reading a log ----

  function Rows(msgs: seq<Msg>): seq<Row> {
    if msgs == [] then []
    else Rows(Front(msgs)) + (if Last(msgs).Decoded? then [Last(msgs).row] else [])
  }

  /** The rows of satellite `n`, in order. */
  function Of(n: string, rows: seq<Row>): seq<Row> {
    if rows == [] then []
    else Of(n, Front(rows)) + (if Last(rows).norad == n then [Last(rows)] else [])
  }

  function OfLog(n: string, msgs: seq<Msg>): seq<Row> { Of(n, Rows(msgs)) }

  // ---- The four writes ----

  function InsertRow(pos: map<(string, int), Columns>, r: Row): map<(string, int), Columns> {
    if (r.norad, r.t) in pos then pos else pos[(r.norad, r.t) := r.cols]
  }

  function InsertAll(pos: map<(string, int), Columns>, rows: seq<Row>): map<(string, int), Columns> {
    if rows == [] then pos else InsertRow(InsertAll(pos, Front(rows)), Last(rows))
  }

  /** GREATEST, which ignores nulls. */
  function Greatest(a: Option<int>, b: Option<int>): Option<int> {
    match (a, b)
    case (None, _) => b
    case (_, None) => a
    case (Some(x), Some(y)) => Some(if x < y then y else x)
  }

  /** INSERT, or on conflict COALESCE the name and take the GREATEST epoch. */
  function UpsertOne(prior: Option<Satellite>, r: Row): Satellite {
    match prior
    case None => Satellite(r.name, Some(r.cols.epoch))
    case Some(s) => Satellite(if r.name.Some? then r.name else s.name, Greatest(s.epoch, Some(r.cols.epoch)))
  }

  function UpsertRow(sats: map<string, Satellite>, r: Row): map<string, Satellite> {
    sats[r.norad := UpsertOne(Get(sats, r.norad), r)]
  }

  function UpsertAll(sats: map<string, Satellite>, rows: seq<Row>): map<string, Satellite> {
    if rows == [] then sats else UpsertRow(UpsertAll(sats, Front(rows)), Last(rows))
  }

  function TrackOf(r: Row): Track {
    Track(r.t, r.cols.lat, r.cols.lon, r.cols.alt, r.cols.speed, r.cols.cell)
  }

  function Tracks(rows: seq<Row>): (ts: seq<Track>)
    ensures |ts| == |rows|
    ensures forall i :: 0 <= i < |ts| ==> ts[i] == TrackOf(rows[i])
  {
    seq(|rows|, i requires 0 <= i < |rows| => TrackOf(rows[i]))
  }

  /** LPUSH then LTRIM 0 119. */
  function PushCapped(list: seq<Track>, x: Track): seq<Track> {
    ([x] + list)[..Min(TRACK_LIST_MAX, |list| + 1)]
  }

  function PushRow(st: Store, r: Row): Store {
    st.(active := st.active[r.norad := r.t],
        tracks := st.tracks[r.norad := PushCapped(GetOr(st.tracks, r.norad, []), TrackOf(r))])
  }

  function PushAll(st: Store, rows: seq<Row>): Store {
    if rows == [] then st else PushRow(PushAll(st, Front(rows)), Last(rows))
  }

  // ---- The transition system ----

  predicate Shape(s: System) {
    |s.logs| == |s.committed| == |s.polled| > 0
  }

  function Zeros(parts: nat): (z: seq<nat>)
    ensures |z| == parts
    ensures forall p :: 0 <= p < parts ==> z[p] == 0
  {
    seq(parts, _ => 0)
  }

  function Init(parts: nat, seed: Seed): (s: System)
    requires parts > 0
    ensures Shape(s) && |s.logs| == parts
  {
    System(seq(parts, _ => []), Zeros(parts), Zeros(parts), [], Idle, Store(map[], seed, map[], map[]))
  }

  predicate Enabled(hash: string -> nat, s: System, e: Event)
    requires Shape(s)
  {
    match e
    case Append(p, msg) =>
      p < |s.logs| && (msg.Decoded? ==> Home(hash, |s.logs|, msg.row.norad) == p)
    case Poll(p, n) =>
      s.phase.Idle? && p < |s.logs| && s.polled[p] + n <= |s.logs[p]|
    case Insert => s.phase.Idle? && s.buffer != []
    case Upsert => s.phase.Inserted?
    case Push => s.phase.Upserted?
    case Commit => s.phase.Pushed?
    case Crash => true
  }

  function Next(hash: string -> nat, s: System, e: Event): (s': System)
    requires Shape(s)
    ensures Shape(s') && |s'.logs| == |s.logs|
  {
    if !Enabled(hash, s, e) then s
    else
      match e
      case Append(p, msg) => s.(logs := s.logs[p := s.logs[p] + [msg]])
      case Poll(p, n) =>
        s.(buffer := s.buffer + Rows(s.logs[p][s.polled[p]..s.polled[p] + n]),
           polled := s.polled[p := s.polled[p] + n])
      case Insert =>
        s.(buffer := [], phase := Inserted(s.buffer),
           store := s.store.(positions := InsertAll(s.store.positions, s.buffer)))
      case Upsert =>
        s.(phase := Upserted(s.phase.rows),
           store := s.store.(satellites := UpsertAll(s.store.satellites, s.phase.rows)))
      case Push =>
        s.(phase := Pushed(s.phase.rows), store := PushAll(s.store, s.phase.rows))
      case Commit => s.(phase := Idle, committed := s.polled)
      case Crash => s.(phase := Idle, buffer := [], polled := s.committed)
  }

  function Run(hash: string -> nat, s: System, es: seq<Event>): (s': System)
    requires Shape(s)
    ensures Shape(s') && |s'.logs| == |s.logs|
  {
    if es == [] then s else Next(hash, Run(hash, s, Front(es)), Last(es))
  }

  lemma {:induction false} RunConcat(hash: string -> nat, s: System, es: seq<Event>, fs: seq<Event>)
    requires Shape(s)
    ensures Run(hash, s, es + fs) == Run(hash, Run(hash, s, es), fs)
    decreases |fs|
  {
    if fs == [] {
      assert es + fs == es;
    } else {
      RunConcat(hash, s, es, Front(fs));
      assert Front(es + fs) == es + Front(fs);
    }
  }

  // ---- History variables: what has been written so far, never read by the system ----

  /**
   Offsets are per partition. `start` is where the current incarnation began;
   `upserted` and `pushed` are how far it has upserted and pushed; `furthestIns`
   and `furthestUps` are the furthest any incarnation has inserted and upserted.
   `pushes` is each satellite's uncapped push history, `base` that history when
   the current incarnation began. `seed` is the satellites table before the first run.
   */
  datatype History = History(
    start: seq<nat>,
    upserted: seq<nat>,
    pushed: seq<nat>,
    furthestIns: seq<nat>,
    furthestUps: seq<nat>,
    pushes: map<string, seq<Row>>,
    base: map<string, seq<Row>>,
    seed: Seed)

  predicate HistoryShape(h: History, parts: nat) {
    |h.start| == |h.upserted| == |h.pushed| == |h.furthestIns| == |h.furthestUps| == parts
  }

  function MaxEach(a: seq<nat>, b: seq<nat>): (c: seq<nat>)
    requires |a| == |b|
    ensures |c| == |a|
    ensures forall p :: 0 <= p < |a| ==> c[p] == Max(a[p], b[p])
  {
    seq(|a|, p requires 0 <= p < |a| => Max(a[p], b[p]))
  }

  function RecordPushes(pushes: map<string, seq<Row>>, rows: seq<Row>): map<string, seq<Row>> {
    if rows == [] then pushes
    else
      var before := RecordPushes(pushes, Front(rows));
      before[Last(rows).norad := GetOr(before, Last(rows).norad, []) + [Last(rows)]]
  }

  function InitHistory(parts: nat, seed: Seed): (h: History)
    ensures HistoryShape(h, parts)
  {
    History(Zeros(parts), Zeros(parts), Zeros(parts), Zeros(parts), Zeros(parts), map[], map[], seed)
  }

  function NextHistory(hash: string -> nat, s: System, h: History, e: Event): (h': History)
    requires Shape(s) && HistoryShape(h, |s.logs|)
    ensures HistoryShape(h', |s.logs|) && h'.seed == h.seed
  {
    if !Enabled(hash, s, e) then h
    else
      match e
      case Insert => h.(furthestIns := MaxEach(h.furthestIns, s.polled))
      case Upsert => h.(upserted := s.polled, furthestUps := MaxEach(h.furthestUps, s.polled))
      case Push => h.(pushed := s.polled, pushes := RecordPushes(h.pushes, s.phase.rows))
      case Crash => h.(start := s.committed, upserted := s.committed, pushed := s.committed, base := h.pushes)
      case _ => h
  }

  function HistoryOf(hash: string -> nat, parts: nat, seed: Seed, es: seq<Event>): (h: History)
    requires parts > 0
    ensures HistoryShape(h, parts)
  {
    if es == [] then InitHistory(parts, seed)
    else
      NextHistory(hash, Run(hash, Init(parts, seed), Front(es)), HistoryOf(hash, parts, seed, Front(es)), Last(es))
  }
}

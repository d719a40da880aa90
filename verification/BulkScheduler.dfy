/** The tick loop's round-robin over the satellites that are not on the watchlist. */
module BulkScheduler {
  import opened Seqs

  /** `-(-n * r // 1000)`, at least one; `r` is the tick/cadence ratio in thousandths, rounded down. */
  function SlicePerTick(n: nat, r: nat): nat {
    if n == 0 then 0 else Max(1, CeilDiv(n * r, 1000))
  }

  function CeilDiv(a: nat, b: nat): (q: nat)
    requires b > 0
    ensures (q - 1) * b < a <= q * b
  {
    (a + b - 1) / b
  }

  /** `count` consecutive positions of a ring of `n`, starting at `from`. */
  function Window(from: nat, count: nat, n: nat): (w: seq<nat>)
    requires n > 0
    ensures |w| == count && forall i :: 0 <= i < count ==> w[i] == (from + i) % n < n
  {
    seq(count, i requires 0 <= i < count => (from + i) % n)
  }

  /** The positions emitted by `ticks` consecutive ticks, one slice after the other. */
  function Emissions(cursor: nat, n: nat, slice: nat, ticks: nat): seq<nat>
    requires n > 0
    decreases ticks
  {
    if ticks == 0 then []
    else Window(cursor, slice, n) + Emissions((cursor + slice) % n, n, slice, ticks - 1)
  }

  function Occurrences(w: seq<nat>, j: nat): nat {
    if w == [] then 0 else Occurrences(Front(w), j) + (if Last(w) == j then 1 else 0)
  }

  // ---- Slices join into one window ----

  lemma Divided(a: nat, n: nat)
    requires n > 0
    ensures a == (a / n) * n + a % n && a % n < n
  {
  }

  lemma SumOfMultiples(q: nat, x: nat, y: nat, n: nat)
    requires y < n
    ensures (q * n + (x * n + y)) % n == y
  {
    assert (q + x) * n == q * n + x * n;
    ModUnique(q * n + (x * n + y), q + x, y, n);
  }

  lemma ModAdd(a: nat, b: nat, n: nat)
    requires n > 0
    ensures (a % n + b) % n == (a + b) % n
  {
    var r := a % n;
    Divided(a, n);
    Divided(r + b, n);
    SumOfMultiples(a / n, (r + b) / n, (r + b) % n, n);
  }

  lemma MulMono(x: int, y: int, n: nat)
    ensures x <= y ==> x * n <= y * n
  {
  }

  lemma ModUnique(a: nat, q: nat, r: nat, n: nat)
    requires n > 0 && a == q * n + r && r < n
    ensures a % n == r && a / n == q
  {
    var d, s := a / n, a % n;
    assert a == d * n + s;
    MulMono(d + 1, q, n);
    MulMono(q + 1, d, n);
    assert (d + 1) * n == d * n + n && (q + 1) * n == q * n + n;
    assert d == q;
  }

  /** Any run of ticks emits one unbroken window of the ring. */
  lemma {:induction false} TicksAreOneWindow(cursor: nat, n: nat, slice: nat, ticks: nat)
    requires n > 0
    ensures Emissions(cursor, n, slice, ticks) == Window(cursor, ticks * slice, n)
    decreases ticks
  {
    if ticks > 0 {
      var next := (cursor + slice) % n;
      TicksAreOneWindow(next, n, slice, ticks - 1);
      assert ticks * slice == slice + (ticks - 1) * slice;
      WindowsJoin(cursor, slice, (ticks - 1) * slice, n);
    }
  }

  lemma Rejoin(from: nat, a: nat, i: nat, n: nat)
    requires n > 0 && a <= i
    ensures ((from + a) % n + (i - a)) % n == (from + i) % n
  {
    ModAdd(from + a, i - a, n);
  }

  lemma WindowsJoin(from: nat, a: nat, b: nat, n: nat)
    requires n > 0
    ensures Window(from, a, n) + Window((from + a) % n, b, n) == Window(from, a + b, n)
  {
    var l, r := Window(from, a, n) + Window((from + a) % n, b, n), Window(from, a + b, n);
    assert |l| == |r|;
    forall i | 0 <= i < |r|
      ensures l[i] == r[i]
    {
      if i >= a {
        assert l[i] == Window((from + a) % n, b, n)[i - a];
        Rejoin(from, a, i, n);
      } else {
        assert l[i] == Window(from, a, n)[i];
      }
    }
  }

  // ---- Counting ----

  /** The distance from the window's start to position `j`, going round. */
  function Ahead(from: nat, j: nat, n: nat): nat
    requires j < n
  {
    (j + n - from % n) % n
  }

  lemma HitsExactly(from: nat, i: nat, j: nat, n: nat)
    requires j < n
    ensures (from + i) % n == j <==> i % n == Ahead(from, j, n)
  {
    var f, x := from % n, i % n;
    ModAdd(from, i, n);
    ModAdd(i, f, n);
    assert (from + i) % n == (f + x) % n;
    WrapOnce(f + x, n);
    WrapOnce(j + n - f, n);
  }

  lemma WrapOnce(a: nat, n: nat)
    requires n > 0 && a < 2 * n
    ensures a % n == if a < n then a else a - n
  {
  }

  /** How often position `j` occurs in a window: once for each full turn past it. */
  lemma {:induction false} WindowCount(from: nat, count: nat, n: nat, j: nat)
    requires j < n
    ensures Occurrences(Window(from, count, n), j) == (count + n - 1 - Ahead(from, j, n)) / n
    decreases count
  {
    var d := Ahead(from, j, n);
    if count == 0 {
      ModUnique(n - 1 - d, 0, n - 1 - d, n);
    } else {
      WindowCount(from, count - 1, n, j);
      assert Front(Window(from, count, n)) == Window(from, count - 1, n);
      HitsExactly(from, count - 1, j, n);
      var before := count - 1 + n - 1 - d;
      StepsWhen(before, n);
      Congruent(count - 1, d, n);
    }
  }

  /** The quotient steps up exactly when the next number is a multiple. */
  lemma StepsWhen(a: nat, n: nat)
    requires n > 0
    ensures (a + 1) / n == a / n + (if (a + 1) % n == 0 then 1 else 0)
  {
    var q, r := a / n, a % n;
    assert a == q * n + r;
    if r + 1 < n {
      ModUnique(a + 1, q, r + 1, n);
    } else {
      assert (q + 1) * n == q * n + n;
      ModUnique(a + 1, q + 1, 0, n);
    }
  }

  lemma Congruent(i: nat, d: nat, n: nat)
    requires d < n
    ensures (i + n - d) % n == 0 <==> i % n == d
  {
    var q, x := i / n, i % n;
    assert i == q * n + x;
    if x >= d {
      assert (q + 1) * n == q * n + n;
      ModUnique(i + n - d, q + 1, x - d, n);
    } else {
      ModUnique(i + n - d, q, x + n - d, n);
    }
  }

  /** Over any run of ticks every satellite is emitted the mean number of times, rounded down or up. */
  lemma Fair(cursor: nat, n: nat, slice: nat, ticks: nat, j: nat)
    requires j < n
    ensures var total := ticks * slice;
            total / n <= Occurrences(Emissions(cursor, n, slice, ticks), j) <= (total + n - 1) / n
  {
    TicksAreOneWindow(cursor, n, slice, ticks);
    WindowCount(cursor, ticks * slice, n, j);
    var total, d := ticks * slice, Ahead(cursor, j, n);
    DivMono(total, total + n - 1 - d, n);
    DivMono(total + n - 1 - d, total + n - 1, n);
  }

  lemma DivMono(a: nat, b: nat, n: nat)
    requires n > 0 && a <= b
    ensures a / n <= b / n
  {
    var x, y := a / n, b / n;
    assert a == x * n + a % n && b == y * n + b % n;
    MulMono(y + 1, x, n);
    assert (y + 1) * n == y * n + n;
  }

  lemma CeilWithinOne(t: nat, n: nat)
    requires n > 0
    ensures (t + n - 1) / n <= t / n + 1
  {
    var q := t / n;
    assert t == q * n + t % n;
    DivMono(t + n - 1, q * n + 2 * n - 1, n);
    assert (q + 1) * n == q * n + n;
    ModUnique(q * n + 2 * n - 1, q + 1, n - 1, n);
  }

  /** So no satellite gets ahead of another by more than one. */
  lemma CountsDifferByAtMostOne(cursor: nat, n: nat, slice: nat, ticks: nat, j: nat, k: nat)
    requires j < n && k < n
    ensures Occurrences(Emissions(cursor, n, slice, ticks), j) <= Occurrences(Emissions(cursor, n, slice, ticks), k) + 1
  {
    Fair(cursor, n, slice, ticks, j);
    Fair(cursor, n, slice, ticks, k);
    CeilWithinOne(ticks * slice, n);
  }

  // ---- Coverage ----

  lemma {:induction false} OccursIff(w: seq<nat>, j: nat)
    ensures j in w <==> Occurrences(w, j) > 0
    decreases |w|
  {
    if w != [] {
      OccursIff(Front(w), j);
      assert w == Front(w) + [Last(w)];
    }
  }

  /** A run of ticks reaches every satellite exactly when it emits at least as many as there are. */
  lemma CoversIff(cursor: nat, n: nat, slice: nat, ticks: nat)
    requires n > 0
    ensures (forall j: nat :: j < n ==> j in Emissions(cursor, n, slice, ticks)) <==> ticks * slice >= n
  {
    var total, e := ticks * slice, Emissions(cursor, n, slice, ticks);
    TicksAreOneWindow(cursor, n, slice, ticks);
    if total >= n {
      forall j: nat | j < n
        ensures j in e
      {
        Fair(cursor, n, slice, ticks, j);
        ModUnique(n, 1, 0, n);
        DivMono(n, total, n);
        OccursIff(e, j);
      }
    } else {
      // The position just behind the cursor is the last to be reached.
      var j := (cursor + n - 1) % n;
      HitsExactly(cursor, n - 1, j, n);
      ModUnique(n - 1, 0, n - 1, n);
      WindowCount(cursor, total, n, j);
      ModUnique(total, 0, total, n);
      OccursIff(e, j);
      assert j !in e;
    }
  }

  /** The slice is a fair share: `slice` ticks' worth of thousandths of the list. */
  lemma SliceShare(n: nat, r: nat)
    requires n > 0
    ensures SlicePerTick(n, r) >= 1
    ensures SlicePerTick(n, r) * 1000 >= n * r
  {
  }

  /** ... and no larger than it must be. */
  lemma SliceIsLeast(n: nat, r: nat)
    ensures SlicePerTick(n, r) == 0 <==> n == 0
    ensures SlicePerTick(n, r) <= 1 || (SlicePerTick(n, r) - 1) * 1000 < n * r
  {
  }

  /** With a tick no longer than the cadence no satellite is emitted twice in one tick. */
  lemma AtMostOncePerTick(cursor: nat, n: nat, r: nat, j: nat)
    requires r <= 1000 && j < n
    ensures SlicePerTick(n, r) <= n
    ensures Occurrences(Window(cursor, SlicePerTick(n, r), n), j) <= 1
  {
    var slice := SlicePerTick(n, r);
    MulMono(r, 1000, n);
    assert n * r == r * n;
    CeilLeast(n * r, 1000, n);
    WindowCount(cursor, slice, n, j);
    var a := slice + n - 1 - Ahead(cursor, j, n);
    DivMono(a, 2 * n - 1, n);
    ModUnique(2 * n - 1, 1, n - 1, n);
  }

  /** Every satellite is emitted within any ceil(n/slice) consecutive ticks, at most ceil(1000/r). */
  lemma EmittedWithin(cursor: nat, n: nat, r: nat, j: nat)
    requires r >= 1 && j < n
    ensures var slice := SlicePerTick(n, r);
            && slice > 0
            && j in Emissions(cursor, n, slice, CeilDiv(n, slice))
            && CeilDiv(n, slice) <= CeilDiv(1000, r)
  {
    var slice := SlicePerTick(n, r);
    SliceShare(n, r);
    CoversIff(cursor, n, slice, CeilDiv(n, slice));
    EnoughTicks(n, r, slice, CeilDiv(1000, r));
    CeilLeast(n, slice, CeilDiv(1000, r));
  }

  lemma EnoughTicks(n: nat, r: nat, slice: nat, k: nat)
    requires slice * 1000 >= n * r && k * r >= 1000
    ensures k * slice >= n
  {
  }

  lemma CeilLeast(a: nat, b: nat, k: nat)
    requires b > 0 && k * b >= a
    ensures CeilDiv(a, b) <= k
  {
  }

  /** The ratio 5 s / 30 s becomes 166 thousandths, and six ticks then miss part of a list of 1000. */
  lemma SixTicksCanMiss(cursor: nat)
    ensures SlicePerTick(1000, 166) == 166 && CeilDiv(1000, 166) == 7
    ensures exists j: nat :: j < 1000 && j !in Emissions(cursor, 1000, 166, 6)
    ensures forall j: nat :: j < 1000 ==> j in Emissions(cursor, 1000, 166, 7)
  {
    CoversIff(cursor, 1000, 166, 6);
    CoversIff(cursor, 1000, 166, 7);
  }

  // ---- The loop's variables ----

  class Scheduler {
    const ratio: nat
    var bulkIds: seq<string>
    var cursor: nat

    constructor (ids: seq<string>, ratio: nat)
      ensures bulkIds == ids && cursor == 0 && this.ratio == ratio
    {
      bulkIds, cursor, this.ratio := ids, 0, ratio;
    }

    /** A refresh replaces the list and leaves the cursor where it is, possibly past the end. */
    method Refresh(ids: seq<string>)
      modifies this`bulkIds
      ensures bulkIds == ids
    {
      bulkIds := ids;
    }

    /** One tick: the slice it emits, whatever the cursor was. */
    method Tick() returns (slice: seq<string>)
      modifies this`cursor
      ensures bulkIds == [] ==> slice == [] && cursor == old(cursor)
      ensures bulkIds != [] ==>
                var n, k := |bulkIds|, SlicePerTick(|bulkIds|, ratio);
                && |slice| == k
                && (forall i :: 0 <= i < k ==> slice[i] == bulkIds[Window(old(cursor), k, n)[i]])
                && cursor == (old(cursor) + k) % n < n
    {
      slice := [];
      if bulkIds != [] {
        var k := SlicePerTick(|bulkIds|, ratio);
        for i := 0 to k
          invariant |slice| == i
          invariant forall m :: 0 <= m < i ==> slice[m] == bulkIds[(cursor + m) % |bulkIds|]
        {
          slice := slice + [bulkIds[(cursor + i) % |bulkIds|]];
        }
        cursor := (cursor + k) % |bulkIds|;
      }
    }

    /** Consecutive ticks on one list emit the ring's positions in one unbroken window. */
    method Ticks(count: nat) returns (emitted: seq<string>)
      requires bulkIds != []
      modifies this`cursor
      ensures var n, k := |bulkIds|, SlicePerTick(|bulkIds|, ratio);
              && |emitted| == count * k
              && (forall i :: 0 <= i < |emitted| ==> emitted[i] == bulkIds[Window(old(cursor), count * k, n)[i]])
              && (count > 0 ==> cursor < n)
    {
      emitted := [];
      var n, k := |bulkIds|, SlicePerTick(|bulkIds|, ratio);
      for t := 0 to count
        invariant |emitted| == t * k
        invariant forall i :: 0 <= i < |emitted| ==> emitted[i] == bulkIds[(old(cursor) + i) % n]
        invariant if t == 0 then cursor == old(cursor) else cursor == (old(cursor) + t * k) % n
      {
        var before := cursor;
        var slice := Tick();
        assert (t + 1) * k == t * k + k;
        forall i | 0 <= i < k
          ensures slice[i] == bulkIds[(old(cursor) + (t * k + i)) % n]
        {
          if t > 0 { ModAdd(old(cursor) + t * k, i, n); }
        }
        if t > 0 { ModAdd(old(cursor) + t * k, k, n); }
        emitted := emitted + slice;
      }
    }
  }
}

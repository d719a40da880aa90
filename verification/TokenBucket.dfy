/**
 The per-key token bucket. Tokens are counted in 1/60000 of a token, which makes
 the script's arithmetic exact: one elapsed millisecond refills `capacity` units.
 */
module TokenBucket {
  import opened Seqs

  const UNIT: int := 60000

  datatype Entry = Entry(tokens: int, last: int)

  /** Lua answers infinity when the capacity is zero. */
  datatype Retry = Ms(ms: int) | Infinite

  datatype Answer = Admitted | Denied(retry: Retry)

  datatype Request = Request(capacity: int, now: int)

  function MinInt(a: int, b: int): int { if a < b then a else b }

  function MaxInt(a: int, b: int): int { if a < b then b else a }

  function Elapsed(e: Entry, now: int): int { MaxInt(0, now - e.last) }

  function Refilled(st: Option<Entry>, q: Request): int {
    match st
    case None => q.capacity * UNIT
    case Some(e) => MinInt(q.capacity * UNIT, e.tokens + Elapsed(e, q.now) * q.capacity)
  }

  /** `math.ceil(a / b)`. */
  function CeilDiv(a: int, b: int): int
    requires b != 0
  {
    if b > 0 then -((-a) / b) else a / b
  }

  function RetryHint(need: int, capacity: int): Retry {
    if capacity == 0 then Infinite else Ms(CeilDiv(need, capacity))
  }

  function Admits(st: Option<Entry>, q: Request): bool { Refilled(st, q) >= UNIT }

  /** One evaluation of the script: the entry it writes back and its answer. */
  function Eval(st: Option<Entry>, q: Request): (Entry, Answer) {
    var r := Refilled(st, q);
    if r >= UNIT then (Entry(r - UNIT, q.now), Admitted)
    else (Entry(r, q.now), Denied(RetryHint(UNIT - r, q.capacity)))
  }

  // ---- The scaling is exact ----

  /** The scaled refill is the script's own formula over real tokens and `refill_ms_per_token`. */
  lemma ScalingIsExact(e: Entry, q: Request)
    requires q.capacity != 0
    ensures var perToken := UNIT as real / q.capacity as real;
            var tokens := e.tokens as real / UNIT as real;
            var grown := tokens + Elapsed(e, q.now) as real / perToken;
            Refilled(Some(e), q) as real / UNIT as real == if grown < q.capacity as real then grown else q.capacity as real
  {
  }

  /** The scaled hint is the script's ceiling of the missing fraction times `refill_ms_per_token`. */
  lemma HintIsCeiling(refilled: int, capacity: int)
    requires capacity != 0
    ensures var perToken := UNIT as real / capacity as real;
            var exact := (1.0 - refilled as real / UNIT as real) * perToken;
            exact <= CeilDiv(UNIT - refilled, capacity) as real < exact + 1.0
  {
  }

  class RateLimiter {
    // Redis: the bucket hashes, and whether the script is in the script cache.
    var entries: map<string, Entry>
    var scriptLoaded: bool
    // The process: whether the script's digest is known.
    var shaKnown: bool

    constructor ()
      ensures entries == map[] && !shaKnown
    {
      entries, scriptLoaded, shaKnown := map[], false, false;
    }

    method LoadScript()
      modifies this`scriptLoaded, this`shaKnown
      ensures scriptLoaded && shaKnown
    {
      if !shaKnown {
        scriptLoaded, shaKnown := true, true;
      } else if !scriptLoaded {
        scriptLoaded := true;
      }
    }

    /** EVALSHA on one key: expired entries read as missing; the write renews the expiry. */
    method EvalScript(key: string, q: Request, expired: bool) returns (a: Answer)
      requires scriptLoaded
      modifies this`entries
      ensures var st := if expired then None else Get(old(entries), key);
              entries == old(entries)[key := Eval(st, q).0] && a == Eval(st, q).1
    {
      var tokens, last := q.capacity * UNIT, q.now;
      if key in entries && !expired {
        tokens, last := entries[key].tokens, entries[key].last;
      }
      var elapsed := if q.now - last > 0 then q.now - last else 0;
      var refilled := tokens + elapsed * q.capacity;
      if refilled > q.capacity * UNIT {
        refilled := q.capacity * UNIT;
      }
      if refilled >= UNIT {
        entries := entries[key := Entry(refilled - UNIT, q.now)];
        a := Admitted;
      } else {
        entries := entries[key := Entry(refilled, q.now)];
        a := Denied(RetryHint(UNIT - refilled, q.capacity));
      }
    }

    /**
     `check`: a flushed script cache makes the first call fail before touching the
     bucket, so the retry still charges exactly once.
     */
    method Check(key: string, q: Request, expired: bool, flushed: bool) returns (a: Answer)
      modifies this
      ensures var st := if expired then None else Get(old(entries), key);
              entries == old(entries)[key := Eval(st, q).0] && a == Eval(st, q).1
      ensures shaKnown && scriptLoaded
    {
      if !shaKnown { LoadScript(); }
      if flushed { scriptLoaded := false; }
      if !scriptLoaded {
        shaKnown := false;
        LoadScript();
      }
      a := EvalScript(key, q, expired);
    }

    /**
     The check before a request is served. A denial carries a Retry-After header: the
     whole seconds of the hint, at least one.
     */
    method Admit(key: string, q: Request, expired: bool, flushed: bool) returns (a: Answer, retryAfter: Option<int>)
      modifies this
      ensures var st := if expired then None else Get(old(entries), key);
              entries == old(entries)[key := Eval(st, q).0] && a == Eval(st, q).1
      ensures retryAfter.Some? <==> a.Denied? && a.retry.Ms?
      ensures retryAfter.Some? ==>
                var ms, sec := a.retry.ms, retryAfter.value;
                if ms < 1000 then sec == 1 else 1000 * sec <= ms < 1000 * (sec + 1)
    {
      a := Check(key, q, expired, flushed);
      retryAfter := None;
      if a.Denied? && a.retry.Ms? {
        HeaderIsWholeSeconds(a.retry.ms);
        retryAfter := Some(RetryAfterSeconds(a.retry.ms));
      }
    }

    /** Checks of many keys one after another: each key sees exactly its own requests. */
    method CheckAll(calls: seq<Call>) returns (answers: seq<Answer>)
      modifies this
      ensures |answers| == |calls|
      ensures forall key :: Get(entries, key) == AfterExpiring(Get(old(entries), key), Own(calls, key))
      ensures forall key :: OwnAnswers(calls, answers, key) == AnswersExpiring(Get(old(entries), key), Own(calls, key))
    {
      answers := [];
      for i := 0 to |calls|
        invariant |answers| == i
        invariant forall key :: Get(entries, key) == AfterExpiring(Get(old(entries), key), Own(calls[..i], key))
        invariant forall key ::
                    OwnAnswers(calls[..i], answers, key) == AnswersExpiring(Get(old(entries), key), Own(calls[..i], key))
      {
        var c := calls[i];
        assert Front(calls[..i + 1]) == calls[..i];
        var a := Check(c.key, c.timed.q, c.timed.dropped, c.flushed);
        assert Front(answers + [a]) == answers;
        answers := answers + [a];
        forall key
          ensures Get(entries, key) == AfterExpiring(Get(old(entries), key), Own(calls[..i + 1], key))
          ensures OwnAnswers(calls[..i + 1], answers, key)
               == AnswersExpiring(Get(old(entries), key), Own(calls[..i + 1], key))
        {
          if key == c.key {
            assert Front(Own(calls[..i + 1], key)) == Own(calls[..i], key);
          } else {
            assert Own(calls[..i + 1], key) == Own(calls[..i], key);
          }
        }
      }
      assert calls[..|calls|] == calls;
    }
  }

  // ---- Calls on many keys ----

  /** A check of one key; `flushed` says that Redis had lost its script cache just before. */
  datatype Call = Call(key: string, timed: Timed, flushed: bool)

  /** The requests of one key, in order. */
  function Own(calls: seq<Call>, key: string): seq<Timed> {
    if calls == [] then []
    else Own(Front(calls), key) + (if Last(calls).key == key then [Last(calls).timed] else [])
  }

  /** The answers to the requests of one key, in order. */
  function OwnAnswers(calls: seq<Call>, answers: seq<Answer>, key: string): seq<Answer>
    requires |answers| == |calls|
  {
    if calls == [] then []
    else
      OwnAnswers(Front(calls), Front(answers), key) + (if Last(calls).key == key then [Last(answers)] else [])
  }

  // ---- Runs on one key ----

  function After(st: Option<Entry>, qs: seq<Request>): Option<Entry> {
    if qs == [] then st else Some(Eval(After(st, Front(qs)), Last(qs)).0)
  }

  /** Which requests of the run are admitted. */
  function Admissions(st: Option<Entry>, qs: seq<Request>): (as_: seq<bool>)
    ensures |as_| == |qs|
  {
    if qs == [] then [] else Admissions(st, Front(qs)) + [Admits(After(st, Front(qs)), Last(qs))]
  }

  /** The answers of the run. */
  function Answers(st: Option<Entry>, qs: seq<Request>): (answers: seq<Answer>)
    ensures |answers| == |qs|
  {
    if qs == [] then [] else Answers(st, Front(qs)) + [Eval(After(st, Front(qs)), Last(qs)).1]
  }

  function Count(bs: seq<bool>): nat {
    if bs == [] then 0 else Count(Front(bs)) + (if Last(bs) then 1 else 0)
  }

  function Fixed(capacity: int, times: seq<int>): (qs: seq<Request>)
    ensures |qs| == |times| && forall i :: 0 <= i < |qs| ==> qs[i] == Request(capacity, times[i])
  {
    seq(|times|, i requires 0 <= i < |times| => Request(capacity, times[i]))
  }

  ghost predicate NonNegative(st: Option<Entry>) { st.Some? ==> st.value.tokens >= 0 }

  lemma MulMono(a: int, b: int, c: int)
    requires a <= b && c >= 0
    ensures a * c <= b * c
  {
  }

  lemma EvalNonNegative(st: Option<Entry>, q: Request)
    requires NonNegative(st) && q.capacity >= 0
    ensures NonNegative(Some(Eval(st, q).0))
    ensures 0 <= Refilled(st, q) <= q.capacity * UNIT
  {
  }

  // ---- Admissions are bounded by capacity plus refill ----

  /** How far the clock moved forward along the requests, backward steps counted as none. */
  function Forward(times: seq<int>): int {
    if |times| < 2 then 0
    else Forward(Front(times)) + MaxInt(0, Last(times) - times[|times| - 2])
  }

  /** A full bucket and what each step of the clock refills. */
  function Supply(capacity: int, times: seq<int>): int {
    if |times| < 2 then UNIT * capacity
    else Supply(capacity, Front(times)) + MaxInt(0, Last(times) - times[|times| - 2]) * capacity
  }

  lemma {:induction false} SupplyIsRefill(capacity: int, times: seq<int>)
    ensures Supply(capacity, times) == (UNIT + Forward(times)) * capacity
    decreases |times|
  {
    if |times| >= 2 {
      var step := MaxInt(0, Last(times) - times[|times| - 2]);
      SupplyIsRefill(capacity, Front(times));
      assert (UNIT + Forward(Front(times)) + step) * capacity == (UNIT + Forward(Front(times))) * capacity + step * capacity;
    }
  }

  /** Tokens spent and left are covered by the supply. */
  ghost predicate WithinBudget(st: Option<Entry>, capacity: int, times: seq<int>) {
    var qs := Fixed(capacity, times);
    && NonNegative(After(st, qs))
    && (times != [] ==>
          && After(st, qs).Some? && After(st, qs).value.last == Last(times)
          && Count(Admissions(st, qs)) * 60000 + After(st, qs).value.tokens <= Supply(capacity, times))
  }

  lemma BudgetFirst(st: Option<Entry>, capacity: int, times: seq<int>)
    requires capacity >= 0 && NonNegative(st) && |times| == 1
    ensures WithinBudget(st, capacity, times)
  {
    assert Fixed(capacity, []) == [] && times == [] + [times[0]];
    RequestExtend(st, capacity, [], times[0]);
    EvalNonNegative(st, Request(capacity, times[0]));
  }

  /** One request spends no more than the tokens left and the refill since. */
  lemma Spends(e: Entry, capacity: int, now: int)
    requires capacity >= 0 && e.tokens >= 0
    ensures var q := Request(capacity, now);
            var left := Eval(Some(e), q).0;
            && left.last == now && left.tokens >= 0
            && (if Admits(Some(e), q) then 60000 else 0) + left.tokens <= e.tokens + Elapsed(e, now) * capacity
  {
    EvalNonNegative(Some(e), Request(capacity, now));
  }

  lemma BudgetMore(st: Option<Entry>, capacity: int, times: seq<int>)
    requires capacity >= 0 && |times| > 1 && WithinBudget(st, capacity, Front(times))
    ensures WithinBudget(st, capacity, times)
  {
    var front, now := Front(times), Last(times);
    var e := After(st, Fixed(capacity, front)).value;
    FrontAndLast(times);
    assert Last(front) == times[|times| - 2];
    RequestExtend(st, capacity, front, now);
    Spends(e, capacity, now);
    assert Supply(capacity, times) == Supply(capacity, front) + Elapsed(e, now) * capacity;
  }

  lemma {:induction false} Budget(st: Option<Entry>, capacity: int, times: seq<int>)
    requires capacity >= 0 && NonNegative(st)
    ensures WithinBudget(st, capacity, times)
    decreases |times|
  {
    if times == [] {
      assert Fixed(capacity, times) == [];
    } else if |times| == 1 {
      BudgetFirst(st, capacity, times);
    } else {
      Budget(st, capacity, Front(times));
      BudgetMore(st, capacity, times);
    }
  }

  /** Any window of requests admits at most the capacity plus what the clock's forward movement refills. */
  lemma AdmissionsBounded(st: Option<Entry>, capacity: int, before: seq<int>, window: seq<int>)
    requires capacity >= 0 && NonNegative(st)
    ensures var now := After(st, Fixed(capacity, before));
            Count(Admissions(now, Fixed(capacity, window))) * UNIT <= (UNIT + Forward(window)) * capacity
  {
    Budget(st, capacity, before);
    Budget(After(st, Fixed(capacity, before)), capacity, window);
    SupplyIsRefill(capacity, window);
    if window == [] { assert UNIT * capacity >= 0; }
  }

  ghost predicate NonDecreasing(times: seq<int>) {
    forall i, j :: 0 <= i < j < |times| ==> times[i] <= times[j]
  }

  lemma {:induction false} ForwardIsElapsed(times: seq<int>)
    requires NonDecreasing(times) && times != []
    ensures Forward(times) == Last(times) - times[0]
    decreases |times|
  {
    if |times| > 1 {
      ForwardIsElapsed(Front(times));
    }
  }

  /** With a clock that never steps back: at most capacity + elapsed * capacity / 60000 admissions. */
  lemma AdmissionsBoundedByElapsed(st: Option<Entry>, capacity: int, before: seq<int>, window: seq<int>)
    requires capacity >= 0 && NonNegative(st) && NonDecreasing(window) && window != []
    ensures var now := After(st, Fixed(capacity, before));
            Count(Admissions(now, Fixed(capacity, window))) * 60000
            <= capacity * 60000 + (Last(window) - window[0]) * capacity
  {
    AdmissionsBounded(st, capacity, before, window);
    ForwardIsElapsed(window);
    Distribute(Last(window) - window[0], capacity);
  }

  lemma Distribute(elapsed: int, capacity: int)
    ensures (UNIT + elapsed) * capacity == capacity * 60000 + elapsed * capacity
  {
  }

  function Repeat(t: int, n: nat): (ts: seq<int>)
    ensures |ts| == n && forall i :: 0 <= i < n ==> ts[i] == t
  {
    if n == 0 then [] else Repeat(t, n - 1) + [t]
  }

  /** One more request at the end of a run. */
  lemma RequestExtend(st: Option<Entry>, capacity: int, times: seq<int>, now: int)
    ensures var before, q := After(st, Fixed(capacity, times)), Request(capacity, now);
            && After(st, Fixed(capacity, times + [now])) == Some(Eval(before, q).0)
            && Count(Admissions(st, Fixed(capacity, times + [now])))
            == Count(Admissions(st, Fixed(capacity, times))) + (if Admits(before, q) then 1 else 0)
  {
    var qs, q := Fixed(capacity, times), Request(capacity, now);
    FixedExtend(capacity, times, now);
    RunExtend(st, qs, q);
    assert Front(Admissions(st, qs) + [Admits(After(st, qs), q)]) == Admissions(st, qs);
  }

  /** A request on a full bucket, or at the instant of the last one, takes one of the tokens left. */
  lemma TakesOne(st: Option<Entry>, capacity: int, left: int, t: int)
    requires 1 <= left <= capacity
    requires st == Some(Entry(left * 60000, t)) || (st == None && left == capacity)
    ensures Admits(st, Request(capacity, t))
    ensures Eval(st, Request(capacity, t)).0 == Entry((left - 1) * 60000, t)
  {
    assert Elapsed(Entry(left * 60000, t), t) * capacity == 0;
  }

  lemma OneMoreTaken(capacity: int, times: seq<int>, left: int, t: int)
    requires 1 <= left <= capacity
    requires var st := After(None, Fixed(capacity, times));
             st == Some(Entry(left * 60000, t)) || (st == None && left == capacity)
    ensures After(None, Fixed(capacity, times + [t])) == Some(Entry((left - 1) * 60000, t))
    ensures Count(Admissions(None, Fixed(capacity, times + [t]))) == Count(Admissions(None, Fixed(capacity, times))) + 1
  {
    TakesOne(After(None, Fixed(capacity, times)), capacity, left, t);
    RequestExtend(None, capacity, times, t);
  }

  /** The first `n` of a burst at time `t` are all admitted and taken from a full bucket. */
  ghost predicate Spent(capacity: int, n: nat, t: int) {
    var qs := Fixed(capacity, Repeat(t, n));
    && After(None, qs) == (if n == 0 then None else Some(Entry((capacity - n) * 60000, t)))
    && Count(Admissions(None, qs)) == n
  }

  lemma SpentNone(capacity: int, t: int)
    ensures Spent(capacity, 0, t)
  {
    assert Fixed(capacity, Repeat(t, 0)) == [];
  }

  lemma SpentMore(capacity: int, n: nat, t: int)
    requires n < capacity && Spent(capacity, n, t)
    ensures Spent(capacity, n + 1, t)
  {
    OneMoreTaken(capacity, Repeat(t, n), capacity - n, t);
  }

  /** A burst of up to `capacity` requests on a full bucket is admitted in full. */
  lemma {:induction false} Drained(capacity: int, n: nat, t: int)
    requires n <= capacity
    ensures Spent(capacity, n, t)
    decreases n
  {
    if n == 0 {
      SpentNone(capacity, t);
    } else {
      Drained(capacity, n - 1, t);
      SpentMore(capacity, n - 1, t);
    }
  }

  /** An empty bucket asked at a time no later than its last request stays empty, at the new time. */
  lemma StaysEmpty(capacity: int, t: int, now: int)
    requires capacity >= 1 && now <= t
    ensures !Admits(Some(Entry(0, t)), Request(capacity, now))
    ensures Eval(Some(Entry(0, t)), Request(capacity, now)).0 == Entry(0, now)
  {
    assert Elapsed(Entry(0, t), now) * capacity == 0;
  }

  /** A clock that steps back and forth refills a second time: more than the capacity with no net elapsed time. */
  lemma BackwardClockRefillsTwice(capacity: int, high: int, low: int)
    requires capacity >= 1 && (high - low) * capacity >= UNIT
    ensures var times := Repeat(high, capacity) + [low] + [high];
            && Count(Admissions(None, Fixed(capacity, times))) == capacity + 1
            && Last(times) - times[0] == 0
  {
    if low >= high { MulMono(high - low, 0, capacity); }
    BurstThenBack(capacity, high, low);
    RequestExtend(None, capacity, Repeat(high, capacity) + [low], high);
    assert (Repeat(high, capacity) + [low] + [high])[0] == high;
    MulMono(1, capacity, UNIT);
  }

  lemma BurstThenBack(capacity: int, high: int, low: int)
    requires capacity >= 1 && low <= high
    ensures var qs := Fixed(capacity, Repeat(high, capacity) + [low]);
            After(None, qs) == Some(Entry(0, low)) && Count(Admissions(None, qs)) == capacity
  {
    Drained(capacity, capacity, high);
    RequestExtend(None, capacity, Repeat(high, capacity), low);
    StaysEmpty(capacity, high, low);
  }

  /** At most capacity + elapsed * capacity / 60000 of these requests are admitted. */
  ghost predicate WithinElapsed(st: Option<Entry>, capacity: int, window: seq<int>) {
    window != [] ==>
      Count(Admissions(st, Fixed(capacity, window))) * 60000
      <= capacity * 60000 + (Last(window) - window[0]) * capacity
  }

  /** Positions of a clock's readings, each used any number of times, in order. */
  ghost predicate InOrder(at: seq<nat>, readings: nat) {
    (forall i :: 0 <= i < |at| ==> at[i] < readings) && forall i, j :: 0 <= i < j < |at| ==> at[i] <= at[j]
  }

  function Readings(clock: seq<int>, at: seq<nat>): (times: seq<int>)
    requires forall i :: 0 <= i < |at| ==> at[i] < |clock|
    ensures |times| == |at| && forall i :: 0 <= i < |at| ==> times[i] == clock[at[i]]
  {
    seq(|at|, i requires 0 <= i < |at| => clock[at[i]])
  }

  /** The elapsed-time bound holds for every pattern of requests along this clock, after any requests on the key. */
  ghost predicate AlwaysWithinElapsed(capacity: int, clock: seq<int>) {
    forall before: seq<int>, at: seq<nat> :: InOrder(at, |clock|) ==>
      WithinElapsed(After(None, Fixed(capacity, before)), capacity, Readings(clock, at))
  }

  lemma BackwardStepBreaksBound(capacity: int, clock: seq<int>, i: nat, j: nat)
    requires capacity >= 1 && i < j < |clock| && clock[i] > clock[j]
    ensures !AlwaysWithinElapsed(capacity, clock)
  {
    var at: seq<nat> := seq(capacity, _ => i) + [j];
    var window := Repeat(clock[i], capacity) + [clock[j]];
    assert InOrder(at, |clock|) && Readings(clock, at) == window;
    BurstThenBack(capacity, clock[i], clock[j]);
    assert window[0] == clock[i] && Last(window) == clock[j];
    MulMono(clock[j] - clock[i], -1, capacity);
    assert !WithinElapsed(None, capacity, window);
    assert Fixed(capacity, []) == [] && After(None, []) == None;
    assert !WithinElapsed(After(None, Fixed(capacity, [])), capacity, Readings(clock, at));
  }

  lemma ReadingsNonDecreasing(clock: seq<int>, at: seq<nat>)
    requires NonDecreasing(clock) && InOrder(at, |clock|)
    ensures NonDecreasing(Readings(clock, at))
  {
    var window := Readings(clock, at);
    forall i, j | 0 <= i < j < |window|
      ensures window[i] <= window[j]
    {
      assert at[i] == at[j] || at[i] < at[j];
    }
  }

  lemma NonDecreasingIsWithin(capacity: int, clock: seq<int>, before: seq<int>, at: seq<nat>)
    requires capacity >= 1 && NonDecreasing(clock) && InOrder(at, |clock|)
    ensures WithinElapsed(After(None, Fixed(capacity, before)), capacity, Readings(clock, at))
  {
    ReadingsNonDecreasing(clock, at);
    if at != [] { AdmissionsBoundedByElapsed(None, capacity, before, Readings(clock, at)); }
  }

  /** The bound holds along a clock, whatever the requests, if and only if the clock never steps back. */
  lemma ElapsedBoundIff(capacity: int, clock: seq<int>)
    requires capacity >= 1
    ensures AlwaysWithinElapsed(capacity, clock) <==> NonDecreasing(clock)
  {
    if NonDecreasing(clock) {
      forall before: seq<int>, at: seq<nat> | InOrder(at, |clock|)
        ensures WithinElapsed(After(None, Fixed(capacity, before)), capacity, Readings(clock, at))
      {
        NonDecreasingIsWithin(capacity, clock, before, at);
      }
    } else {
      var i, j :| 0 <= i < j < |clock| && clock[i] > clock[j];
      BackwardStepBreaksBound(capacity, clock, i, j);
    }
  }

  // ---- Greedy is optimal ----

  /** The bucket under an arbitrary choice of which requests to admit. */
  function AfterChoice(st: Option<Entry>, qs: seq<Request>, choice: seq<bool>): Option<Entry>
    requires |choice| == |qs|
  {
    if qs == [] then st
    else
      var r := Refilled(AfterChoice(st, Front(qs), Front(choice)), Last(qs));
      Some(Entry(if Last(choice) then r - UNIT else r, Last(qs).now))
  }

  /** Every admission of the choice leaves the bucket non-negative. */
  ghost predicate Feasible(st: Option<Entry>, qs: seq<Request>, choice: seq<bool>)
    requires |choice| == |qs|
  {
    qs != [] ==>
      && Feasible(st, Front(qs), Front(choice))
      && (Last(choice) ==> Refilled(AfterChoice(st, Front(qs), Front(choice)), Last(qs)) >= UNIT)
  }

  function TokensOf(st: Option<Entry>): int { if st.Some? then st.value.tokens else 0 }

  /** The script's own choice is feasible and leads to its own bucket. */
  lemma {:induction false} GreedyIsFeasible(st: Option<Entry>, qs: seq<Request>)
    ensures Feasible(st, qs, Admissions(st, qs))
    ensures AfterChoice(st, qs, Admissions(st, qs)) == After(st, qs)
    decreases |qs|
  {
    if qs != [] {
      GreedyIsFeasible(st, Front(qs));
      assert Front(Admissions(st, qs)) == Admissions(st, Front(qs));
    }
  }

  /** A choice can be richer in tokens only by what it has admitted less. */
  lemma {:induction false} GreedyAhead(st: Option<Entry>, qs: seq<Request>, choice: seq<bool>)
    requires |choice| == |qs| && Feasible(st, qs, choice)
    ensures Count(choice) <= Count(Admissions(st, qs))
    ensures TokensOf(AfterChoice(st, qs, choice)) - TokensOf(After(st, qs))
         <= UNIT * (Count(Admissions(st, qs)) - Count(choice))
    decreases |qs|
  {
    if qs != [] {
      var front := Front(qs);
      GreedyAhead(st, front, Front(choice));
      assert Front(Admissions(st, qs)) == Admissions(st, front);
      var g, o := After(st, front), AfterChoice(st, front, Front(choice));
      SameClock(st, front, Front(choice));
      assert Refilled(o, Last(qs)) - Refilled(g, Last(qs)) <= MaxInt(0, TokensOf(o) - TokensOf(g));
    }
  }

  lemma {:induction false} SameClock(st: Option<Entry>, qs: seq<Request>, choice: seq<bool>)
    requires |choice| == |qs|
    ensures var g, o := After(st, qs), AfterChoice(st, qs, choice);
            (g.Some? <==> o.Some?) && (g.Some? ==> g.value.last == o.value.last)
  {
  }

  lemma {:induction false} PrefixFeasible(st: Option<Entry>, qs: seq<Request>, choice: seq<bool>, k: nat)
    requires |choice| == |qs| && Feasible(st, qs, choice) && k <= |qs|
    ensures Feasible(st, qs[..k], choice[..k])
    ensures Admissions(st, qs[..k]) == Admissions(st, qs)[..k]
    decreases |qs|
  {
    if k == |qs| {
      assert qs[..k] == qs && choice[..k] == choice;
    } else {
      PrefixFeasible(st, Front(qs), Front(choice), k);
      assert Front(qs)[..k] == qs[..k] && Front(choice)[..k] == choice[..k];
      assert Front(Admissions(st, qs)) == Admissions(st, Front(qs));
    }
  }

  /**
   On every prefix of any run, with any clock and even with capacities that change
   per request, no feasible choice admits more than the script does.
   */
  lemma GreedyIsOptimal(st: Option<Entry>, qs: seq<Request>, choice: seq<bool>, k: nat)
    requires |choice| == |qs| && Feasible(st, qs, choice) && k <= |qs|
    ensures Count(choice[..k]) <= Count(Admissions(st, qs)[..k])
  {
    PrefixFeasible(st, qs, choice, k);
    GreedyAhead(st, qs[..k], choice[..k]);
  }

  // ---- The key expiry is unobservable ----

  /** A request, and whether Redis had dropped the key just before it. */
  datatype Timed = Timed(q: Request, dropped: bool)

  function AfterExpiring(st: Option<Entry>, ts: seq<Timed>): Option<Entry> {
    if ts == [] then st
    else Some(Eval(if Last(ts).dropped then None else AfterExpiring(st, Front(ts)), Last(ts).q).0)
  }

  function AnswersExpiring(st: Option<Entry>, ts: seq<Timed>): (answers: seq<Answer>)
    ensures |answers| == |ts|
  {
    if ts == [] then []
    else
      AnswersExpiring(st, Front(ts))
      + [Eval(if Last(ts).dropped then None else AfterExpiring(st, Front(ts)), Last(ts).q).1]
  }

  function Keeping(ts: seq<Timed>): (ks: seq<Timed>)
    ensures |ks| == |ts| && forall i :: 0 <= i < |ks| ==> ks[i] == Timed(ts[i].q, false)
  {
    seq(|ts|, i requires 0 <= i < |ts| => Timed(ts[i].q, false))
  }

  /** Keys are dropped only after `idle` milliseconds without a request, and capacities are not negative. */
  ghost predicate DropsWhenIdle(idle: int, st: Option<Entry>, ts: seq<Timed>) {
    ts != [] ==>
      && DropsWhenIdle(idle, st, Front(ts))
      && Last(ts).q.capacity >= 0
      && var e := AfterExpiring(st, Front(ts));
         Last(ts).dropped && e.Some? ==> Last(ts).q.now - e.value.last >= idle
  }

  /** A bucket refills completely within a minute, even for a capacity other than the one that drained it. */
  lemma IdleEntryIsFull(e: Entry, q: Request)
    requires e.tokens >= 0 && q.capacity >= 0 && q.now - e.last >= 60000
    ensures Refilled(Some(e), q) == Refilled(None, q)
  {
    MulMono(60000, Elapsed(e, q.now), q.capacity);
  }

  /** Dropping keys after a minute or more without a request changes no answer and no later entry; the script's expiry is two. */
  lemma {:induction false} ExpiryUnobservable(idle: int, st: Option<Entry>, ts: seq<Timed>)
    requires idle >= 60000 && NonNegative(st) && DropsWhenIdle(idle, st, ts)
    ensures AnswersExpiring(st, ts) == AnswersExpiring(st, Keeping(ts))
    ensures AfterExpiring(st, ts) == AfterExpiring(st, Keeping(ts))
    ensures NonNegative(AfterExpiring(st, ts))
    decreases |ts|
  {
    if ts != [] {
      ExpiryUnobservable(idle, st, Front(ts));
      assert Front(Keeping(ts)) == Keeping(Front(ts));
      var e := AfterExpiring(st, Front(ts));
      EvalNonNegative(e, Last(ts).q);
      EvalNonNegative(None, Last(ts).q);
      if Last(ts).dropped && e.Some? {
        IdleEntryIsFull(e.value, Last(ts).q);
      }
    }
  }

  ghost predicate NeverSeen(idle: int) {
    forall ts: seq<Timed> :: DropsWhenIdle(idle, None, ts) ==> AnswersExpiring(None, ts) == AnswersExpiring(None, Keeping(ts))
  }

  /** Two requests of capacity one, the key dropped between them. */
  function DroppedOnce(idle: int): seq<Timed> {
    [Timed(Request(1, 0), false), Timed(Request(1, idle), true)]
  }

  lemma DroppedTooSoon(idle: int)
    requires 0 <= idle < 60000
    ensures DropsWhenIdle(idle, None, DroppedOnce(idle))
    ensures AnswersExpiring(None, DroppedOnce(idle)) != AnswersExpiring(None, Keeping(DroppedOnce(idle)))
  {
    var ts := DroppedOnce(idle);
    var first := [ts[0]];
    assert Front(ts) == first && Front(first) == [] && Front(Keeping(ts)) == first;
    assert AfterExpiring(None, first) == Some(Eval(None, ts[0].q).0);
    assert AfterExpiring(None, first) == Some(Entry(0, 0));
    assert AnswersExpiring(None, ts)[1] == Eval(None, ts[1].q).1 == Admitted;
    assert AnswersExpiring(None, Keeping(ts))[1] == Eval(Some(Entry(0, 0)), ts[1].q).1;
    assert Eval(Some(Entry(0, 0)), ts[1].q).1.Denied?;
  }

  /** A minute is exactly what it takes. */
  lemma ExpiryUnobservableIff(idle: int)
    requires idle >= 0
    ensures NeverSeen(idle) <==> idle >= 60000
  {
    if idle >= 60000 {
      forall ts: seq<Timed> | DropsWhenIdle(idle, None, ts)
        ensures AnswersExpiring(None, ts) == AnswersExpiring(None, Keeping(ts))
      {
        ExpiryUnobservable(idle, None, ts);
      }
    } else {
      DroppedTooSoon(idle);
    }
  }

  // ---- Denied requests leave no trace ----

  function Filter<T>(s: seq<T>, keep: seq<bool>): seq<T>
    requires |keep| == |s|
  {
    if s == [] then [] else Filter(Front(s), Front(keep)) + (if Last(keep) then [Last(s)] else [])
  }

  /** From `t` on the two buckets refill alike. */
  ghost predicate SameRefill(a: Option<Entry>, b: Option<Entry>, capacity: int, t: int) {
    forall now :: now >= t ==> Refilled(a, Request(capacity, now)) == Refilled(b, Request(capacity, now))
  }

  lemma DenialKeepsRefill(a: Option<Entry>, capacity: int, now: int, later: int)
    requires capacity >= 1 && !Admits(a, Request(capacity, now)) && now <= later
    requires a.Some? ==> a.value.last <= now
    ensures var e := Eval(a, Request(capacity, now)).0;
            Refilled(Some(e), Request(capacity, later)) == Refilled(a, Request(capacity, later))
  {
  }

  lemma BothAsked(a: Option<Entry>, b: Option<Entry>, capacity: int, now: int)
    requires SameRefill(a, b, capacity, now)
    ensures Eval(a, Request(capacity, now)) == Eval(b, Request(capacity, now))
    ensures Admits(a, Request(capacity, now)) == Admits(b, Request(capacity, now))
  {
  }

  lemma OneDenied(a: Option<Entry>, b: Option<Entry>, capacity: int, now: int)
    requires capacity >= 1 && SameRefill(a, b, capacity, now) && !Admits(a, Request(capacity, now))
    requires a.Some? ==> a.value.last <= now
    ensures SameRefill(Some(Eval(a, Request(capacity, now)).0), b, capacity, now)
  {
    forall later | later >= now
      ensures Refilled(Some(Eval(a, Request(capacity, now)).0), Request(capacity, later))
           == Refilled(b, Request(capacity, later))
    {
      DenialKeepsRefill(a, capacity, now, later);
    }
  }

  lemma FixedExtend(capacity: int, times: seq<int>, now: int)
    ensures Fixed(capacity, times + [now]) == Fixed(capacity, times) + [Request(capacity, now)]
  {
  }

  lemma RunExtend(st: Option<Entry>, qs: seq<Request>, q: Request)
    ensures After(st, qs + [q]) == Some(Eval(After(st, qs), q).0)
    ensures Admissions(st, qs + [q]) == Admissions(st, qs) + [Admits(After(st, qs), q)]
    ensures Answers(st, qs + [q]) == Answers(st, qs) + [Eval(After(st, qs), q).1]
  {
  }

  ghost predicate ClockFrom(st: Option<Entry>, times: seq<int>) {
    NonDecreasing(times) && (st.Some? && times != [] ==> st.value.last <= times[0])
  }

  ghost predicate KeepsAdmitted(st: Option<Entry>, capacity: int, times: seq<int>, keep: seq<bool>) {
    && |keep| == |times|
    && forall i :: 0 <= i < |times| && Admissions(st, Fixed(capacity, times))[i] ==> keep[i]
  }

  lemma KeepsAdmittedFront(st: Option<Entry>, capacity: int, times: seq<int>, keep: seq<bool>)
    requires times != [] && KeepsAdmitted(st, capacity, times, keep)
    ensures KeepsAdmitted(st, capacity, Front(times), Front(keep))
    ensures Admissions(st, Fixed(capacity, times))
         == Admissions(st, Fixed(capacity, Front(times)))
            + [Admits(After(st, Fixed(capacity, Front(times))), Request(capacity, Last(times)))]
    ensures Last(keep) || !Admits(After(st, Fixed(capacity, Front(times))), Request(capacity, Last(times)))
  {
    FixedExtend(capacity, Front(times), Last(times));
    assert times == Front(times) + [Last(times)];
    RunExtend(st, Fixed(capacity, Front(times)), Request(capacity, Last(times)));
    var as_ := Admissions(st, Fixed(capacity, times));
    forall i | 0 <= i < |times| - 1 && Admissions(st, Fixed(capacity, Front(times)))[i]
      ensures Front(keep)[i]
    {
      assert as_[i] && keep[i] == Front(keep)[i];
    }
    assert as_[|times| - 1] ==> keep[|times| - 1];
  }

  /** The run on the kept requests answers them alike and ends with a bucket that refills alike. */
  ghost predicate Erased(st: Option<Entry>, capacity: int, times: seq<int>, keep: seq<bool>)
    requires |keep| == |times|
  {
    var qs, kept := Fixed(capacity, times), Fixed(capacity, Filter(times, keep));
    && Admissions(st, kept) == Filter(Admissions(st, qs), keep)
    && Answers(st, kept) == Filter(Answers(st, qs), keep)
    && (if times == [] then After(st, qs) == After(st, kept)
        else
          && SameRefill(After(st, qs), After(st, kept), capacity, Last(times))
          && After(st, qs).Some? && After(st, qs).value.last == Last(times))
  }

  lemma FilterExtend<T>(s: seq<T>, keep: seq<bool>, x: T, k: bool)
    requires |keep| == |s|
    ensures Filter(s + [x], keep + [k]) == Filter(s, keep) + (if k then [x] else [])
  {
  }

  /** The two buckets before the next request refill alike from then on. */
  lemma ErasedSoFar(st: Option<Entry>, capacity: int, front: seq<int>, fkeep: seq<bool>, now: int)
    requires |fkeep| == |front| && Erased(st, capacity, front, fkeep) && ClockFrom(st, front + [now])
    ensures var a, b := After(st, Fixed(capacity, front)), After(st, Fixed(capacity, Filter(front, fkeep)));
            SameRefill(a, b, capacity, now) && (a.Some? ==> a.value.last <= now)
  {
    var times := front + [now];
    if front != [] {
      assert times[|front| - 1] == Last(front) && times[|front|] == now;
    } else {
      assert Fixed(capacity, front) == [] && times[0] == now;
    }
  }

  lemma ErasedKeeps(st: Option<Entry>, capacity: int, front: seq<int>, fkeep: seq<bool>, now: int)
    requires |fkeep| == |front| && Erased(st, capacity, front, fkeep) && ClockFrom(st, front + [now])
    ensures Erased(st, capacity, front + [now], fkeep + [true])
  {
    var kept, q := Filter(front, fkeep), Request(capacity, now);
    var a, b := After(st, Fixed(capacity, front)), After(st, Fixed(capacity, kept));
    ErasedSoFar(st, capacity, front, fkeep, now);
    FixedExtend(capacity, front, now);
    RunExtend(st, Fixed(capacity, front), q);
    FilterExtend(front, fkeep, now, true);
    FilterExtend(Admissions(st, Fixed(capacity, front)), fkeep, Admits(a, q), true);
    FilterExtend(Answers(st, Fixed(capacity, front)), fkeep, Eval(a, q).1, true);
    FixedExtend(capacity, kept, now);
    RunExtend(st, Fixed(capacity, kept), q);
    BothAsked(a, b, capacity, now);
  }

  lemma ErasedDrops(st: Option<Entry>, capacity: int, front: seq<int>, fkeep: seq<bool>, now: int)
    requires capacity >= 1 && |fkeep| == |front| && Erased(st, capacity, front, fkeep)
    requires ClockFrom(st, front + [now])
    requires !Admits(After(st, Fixed(capacity, front)), Request(capacity, now))
    ensures Erased(st, capacity, front + [now], fkeep + [false])
  {
    var kept, q := Filter(front, fkeep), Request(capacity, now);
    var a, b := After(st, Fixed(capacity, front)), After(st, Fixed(capacity, kept));
    ErasedSoFar(st, capacity, front, fkeep, now);
    FixedExtend(capacity, front, now);
    RunExtend(st, Fixed(capacity, front), q);
    FilterExtend(front, fkeep, now, false);
    FilterExtend(Admissions(st, Fixed(capacity, front)), fkeep, Admits(a, q), false);
    FilterExtend(Answers(st, Fixed(capacity, front)), fkeep, Eval(a, q).1, false);
    OneDenied(a, b, capacity, now);
    assert kept + [] == kept;
  }

  lemma ClockFromFront(st: Option<Entry>, times: seq<int>)
    requires times != [] && ClockFrom(st, times)
    ensures ClockFrom(st, Front(times))
  {
  }

  lemma {:induction false} ErasedRun(st: Option<Entry>, capacity: int, times: seq<int>, keep: seq<bool>)
    requires capacity >= 1 && ClockFrom(st, times) && KeepsAdmitted(st, capacity, times, keep)
    ensures Erased(st, capacity, times, keep)
    decreases |times|
  {
    if times == [] {
      assert Fixed(capacity, []) == [];
    } else {
      KeepsAdmittedFront(st, capacity, times, keep);
      ClockFromFront(st, times);
      ErasedRun(st, capacity, Front(times), Front(keep));
      ErasedLast(st, capacity, times, keep);
    }
  }

  lemma ErasedLast(st: Option<Entry>, capacity: int, times: seq<int>, keep: seq<bool>)
    requires capacity >= 1 && times != [] && |keep| == |times| && ClockFrom(st, times)
    requires Erased(st, capacity, Front(times), Front(keep))
    requires Last(keep) || !Admits(After(st, Fixed(capacity, Front(times))), Request(capacity, Last(times)))
    ensures Erased(st, capacity, times, keep)
  {
    FrontAndLast(times);
    FrontAndLast(keep);
    if Last(keep) {
      ErasedKeeps(st, capacity, Front(times), Front(keep), Last(times));
    } else {
      ErasedDrops(st, capacity, Front(times), Front(keep), Last(times));
    }
  }

  /** Without capacity every request is denied, and told to wait forever if the capacity is zero. */
  lemma {:induction false} NoneAdmitted(st: Option<Entry>, capacity: int, times: seq<int>)
    requires capacity <= 0
    ensures forall i :: 0 <= i < |times| ==> !Admissions(st, Fixed(capacity, times))[i]
    ensures capacity == 0 ==>
              forall i :: 0 <= i < |times| ==> Answers(st, Fixed(capacity, times))[i] == Denied(Infinite)
    decreases |times|
  {
    if times != [] {
      assert Front(Fixed(capacity, times)) == Fixed(capacity, Front(times));
      NoneAdmitted(st, capacity, Front(times));
    }
  }

  lemma {:induction false} FilterLength<S, T>(s: seq<S>, t: seq<T>, keep: seq<bool>)
    requires |keep| == |s| == |t|
    ensures |Filter(s, keep)| == |Filter(t, keep)|
    decreases |s|
  {
    if s != [] { FilterLength(Front(s), Front(t), Front(keep)); }
  }

  /** A sequence of one value keeps that value when filtered. */
  lemma {:induction false} FilterSame<T>(s: seq<T>, keep: seq<bool>, x: T)
    requires |keep| == |s| && forall i :: 0 <= i < |s| ==> s[i] == x
    ensures forall i :: 0 <= i < |Filter(s, keep)| ==> Filter(s, keep)[i] == x
    decreases |s|
  {
    if s != [] { FilterSame(Front(s), Front(keep), x); }
  }

  lemma UniformRuns<T>(a: seq<T>, b: seq<T>, keep: seq<bool>, x: T)
    requires |keep| == |b| && |a| == |Filter(b, keep)|
    requires (forall i :: 0 <= i < |a| ==> a[i] == x) && forall i :: 0 <= i < |b| ==> b[i] == x
    ensures a == Filter(b, keep)
  {
    FilterSame(b, keep, x);
  }

  /** Erasing any of the denied requests from a run changes no other answer, retry hints included. */
  lemma DeniedLeaveNoTrace(st: Option<Entry>, capacity: int, times: seq<int>, keep: seq<bool>)
    requires ClockFrom(st, times) && KeepsAdmitted(st, capacity, times, keep)
    ensures Admissions(st, Fixed(capacity, Filter(times, keep)))
         == Filter(Admissions(st, Fixed(capacity, times)), keep)
    ensures capacity >= 0 ==>
              Answers(st, Fixed(capacity, Filter(times, keep))) == Filter(Answers(st, Fixed(capacity, times)), keep)
  {
    if capacity >= 1 {
      ErasedRun(st, capacity, times, keep);
    } else {
      var qs, kept := Fixed(capacity, times), Fixed(capacity, Filter(times, keep));
      NoneAdmitted(st, capacity, times);
      NoneAdmitted(st, capacity, Filter(times, keep));
      FilterLength(times, Admissions(st, qs), keep);
      UniformRuns(Admissions(st, kept), Admissions(st, qs), keep, false);
      if capacity == 0 {
        FilterLength(times, Answers(st, qs), keep);
        UniformRuns(Answers(st, kept), Answers(st, qs), keep, Denied(Infinite));
      }
    }
  }

  // ---- The retry hint ----

  lemma CeilDivIsLeast(a: int, b: int, w: int)
    requires b > 0
    ensures w * b >= a <==> w >= CeilDiv(a, b)
  {
    var q := (-a) / b;
    assert q * b <= -a < q * b + b;
    if w >= -q {
      MulMono(-q, w, b);
      assert (-q) * b == -(q * b);
    } else {
      MulMono(w, -q - 1, b);
      assert (-q - 1) * b == -(q * b) - b;
    }
  }

  /** On a denial the hint is the least wait after which the next request is admitted. */
  lemma RetryIsLeastWait(st: Option<Entry>, q: Request, wait: int)
    requires q.capacity >= 1 && !Admits(st, q)
    ensures Eval(st, q).1.Denied? && Eval(st, q).1.retry.Ms?
    ensures Admits(Some(Eval(st, q).0), Request(q.capacity, q.now + wait)) <==> wait >= Eval(st, q).1.retry.ms
    ensures Eval(st, q).1.retry.ms >= 1
  {
    var r := Refilled(st, q);
    CeilDivIsLeast(UNIT - r, q.capacity, wait);
    CeilDivIsLeast(UNIT - r, q.capacity, 0);
    if wait <= 0 {
      assert Elapsed(Eval(st, q).0, q.now + wait) * q.capacity == 0;
    }
    MulMono(1, q.capacity, UNIT);
  }

  /** The whole-second header sent with a denial. */
  function RetryAfterSeconds(ms: int): int { MaxInt(1, ms / 1000) }

  /** It is the hint's whole seconds, at least one; so it exceeds only a hint of under a second. */
  lemma HeaderIsWholeSeconds(ms: int)
    ensures var sec := RetryAfterSeconds(ms);
            if ms < 1000 then sec == 1 else 1000 * sec <= ms < 1000 * (sec + 1)
  {
  }

  /** If this request is denied, one that waits as long as the header says is admitted. */
  predicate HeaderSuffices(st: Option<Entry>, q: Request) {
    Admits(st, q) ||
    match Eval(st, q).1
    case Denied(Ms(ms)) =>
      Admits(Some(Eval(st, q).0), Request(q.capacity, q.now + 1000 * RetryAfterSeconds(ms)))
    case _ => false
  }

  lemma HeaderSufficesIff(st: Option<Entry>, q: Request)
    requires q.capacity >= 1 && !Admits(st, q)
    ensures var ms := CeilDiv(UNIT - Refilled(st, q), q.capacity);
            HeaderSuffices(st, q) <==> ms <= 1000 || ms % 1000 == 0
  {
    var ms := CeilDiv(UNIT - Refilled(st, q), q.capacity);
    RetryIsLeastWait(st, q, 1000 * RetryAfterSeconds(ms));
  }

  lemma HeaderSufficesFrom60(st: Option<Entry>, q: Request)
    requires q.capacity >= 60 && NonNegative(st)
    ensures HeaderSuffices(st, q)
  {
  }

  lemma HintBelow60(capacity: int)
    requires 1 <= capacity < 60
    ensures CeilDiv(UNIT, capacity) >= 1017
    ensures CeilDiv(UNIT - capacity, capacity) == CeilDiv(UNIT, capacity) - 1
  {
    var n := CeilDiv(UNIT, capacity);
    MulMono(capacity, 59, 1016);
    CeilDivIsLeast(UNIT, capacity, 1016);
    CeilDivIsLeast(UNIT, capacity, n);
    CeilDivIsLeast(UNIT, capacity, n - 1);
    CeilDivIsLeast(UNIT - capacity, capacity, n - 1);
    CeilDivIsLeast(UNIT - capacity, capacity, n - 2);
    assert (n - 1) * capacity == n * capacity - capacity;
    assert (n - 2) * capacity == n * capacity - 2 * capacity;
  }

  lemma HeaderFailsBelow60(capacity: int) returns (now: int)
    requires 1 <= capacity < 60
    ensures now >= 0
    ensures !HeaderSuffices(After(None, Fixed(capacity, Repeat(0, capacity))), Request(capacity, now))
  {
    Drained(capacity, capacity, 0);
    HintBelow60(capacity);
    var st := Some(Entry(0, 0));
    now := if CeilDiv(UNIT, capacity) % 1000 != 0 then 0 else 1;
    assert Elapsed(st.value, now) == now;
    assert Refilled(st, Request(capacity, now)) == now * capacity;
    HeaderSufficesIff(st, Request(capacity, now));
  }

  ghost predicate HeaderAlwaysSuffices(capacity: int) {
    forall times: seq<int>, now: int {:trigger HeaderSuffices(After(None, Fixed(capacity, times)), Request(capacity, now))} ::
      HeaderSuffices(After(None, Fixed(capacity, times)), Request(capacity, now))
  }

  /** The Retry-After header is always long enough exactly for capacities of at least 60 per minute. */
  lemma HeaderLongEnoughIff(capacity: int)
    requires capacity >= 1
    ensures HeaderAlwaysSuffices(capacity) <==> capacity >= 60
  {
    if capacity >= 60 {
      forall times: seq<int>, now: int
        ensures HeaderSuffices(After(None, Fixed(capacity, times)), Request(capacity, now))
      {
        Budget(None, capacity, times);
        HeaderSufficesFrom60(After(None, Fixed(capacity, times)), Request(capacity, now));
      }
    } else {
      var now := HeaderFailsBelow60(capacity);
    }
  }
}

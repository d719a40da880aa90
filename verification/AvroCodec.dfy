/** The codec's loading methods, which fill a shared dict by recursion and then parse it in insertion order. */
module AvroCodec {
  import opened Seqs
  import opened SchemaLoader

  /** The local dict of one load: payloads by subject, in insertion order, and the requests made. */
  class FetchCache {
    var payloads: map<string, Payload>
    var order: seq<string>
    var gets: seq<string>

    function Value(): Cache
      reads this
    {
      Cache(order, gets)
    }

    ghost predicate Valid(reg: Registry)
      reads this
    {
      forall s :: (s in order <==> s in payloads) && (s in payloads ==> s in reg && payloads[s] == reg[s])
    }

    constructor ()
      ensures Value() == EMPTY && payloads == map[]
    {
      payloads, order, gets := map[], [], [];
    }

    method Store(s: string, payload: Payload)
      modifies this`payloads, this`order
      ensures payloads == old(payloads)[s := payload]
      ensures old(forall x :: x in order <==> x in payloads) ==> order == Put(old(order), s)
    {
      if s !in payloads {
        order := order + [s];
      }
      payloads := payloads[s := payload];
    }
  }

  lemma {:induction false} RefsFailureSticks(reg: Registry, refs: seq<string>, c: Cache, depth: nat, k: nat)
    requires k <= |refs| && !FetchRefs(reg, refs[..k], c, depth).Done?
    ensures FetchRefs(reg, refs, c, depth) == FetchRefs(reg, refs[..k], c, depth)
    decreases |refs|
  {
    if k == |refs| {
      assert refs[..k] == refs;
    } else {
      assert Front(refs)[..k] == refs[..k];
      RefsFailureSticks(reg, Front(refs), c, depth, k);
    }
  }

  /** What a codec has parsed: the names defined and, by subject, id and schema. */
  datatype Known = Known(named: set<string>, bySubject: map<string, (int, string)>)

  function Register(k: Known, s: string, payload: Payload): Known {
    Known(k.named + {s}, k.bySubject[s := (payload.id, payload.schema)])
  }

  /** From `a` to `b` these new subjects were registered as the registry has them, the others are as before. */
  ghost predicate Registered(reg: Registry, a: Known, b: Known, order: seq<string>) {
    && b.named == a.named + (set s | s in order)
    && (forall s :: s in order ==> s !in a.named)
    && (forall s :: s in order ==> s in reg && s in b.bySubject && b.bySubject[s] == (reg[s].id, reg[s].schema))
    && (forall s :: s in b.bySubject && s !in order ==> s in a.bySubject && b.bySubject[s] == a.bySubject[s])
  }

  lemma RegisterOne(reg: Registry, a: Known, b: Known, order: seq<string>, s: string)
    requires Registered(reg, a, b, order) && s in reg && s !in a.named
    ensures Registered(reg, a, Register(b, s, reg[s]), order + [s])
  {
  }

  class Codec {
    const registry: Registry
    var named: set<string>
    var bySubject: map<string, (int, string)>

    constructor (registry: Registry)
      ensures this.registry == registry && named == {} && bySubject == map[]
    {
      this.registry := registry;
      named, bySubject := {}, map[];
    }

    function Value(): Known
      reads this
    {
      Known(named, bySubject)
    }

    /** Fetch a subject unless it is in the dict; recurse into its references before inserting it. */
    method FetchWithRefs(subject: string, cache: FetchCache, depth: nat) returns (out: Outcome)
      requires cache.Valid(registry)
      modifies cache
      ensures cache.Valid(registry)
      ensures out == Fetch(registry, subject, old(cache.Value()), depth)
      ensures out.Done? ==> cache.Value() == out.cache
      decreases depth
    {
      if depth == 0 {
        return RecursionLimit;
      }
      if subject in cache.payloads {
        return Done(cache.Value());
      }
      if subject !in registry {
        return NotFound(subject);
      }
      cache.gets := cache.gets + [subject];
      var payload := registry[subject];
      var refs := payload.refs;
      ghost var begun := cache.Value();
      for i := 0 to |refs|
        invariant cache.Valid(registry)
        invariant FetchRefs(registry, refs[..i], begun, depth - 1) == Done(cache.Value())
      {
        TakeOneMore(refs, i);
        out := FetchWithRefs(refs[i], cache, depth - 1);
        if !out.Done? {
          RefsFailureSticks(registry, refs, begun, depth - 1, i + 1);
          return;
        }
      }
      assert refs[..|refs|] == refs;
      cache.Store(subject, payload);
      out := Done(cache.Value());
    }

    /**
     `load`: when the fetch completes and reaches no subject of an earlier load,
     exactly the subjects reached by the request are registered, with the registry's
     ids; when it reaches one, the parse pass fails there.
     */
    method Load(subjects: seq<string>, depth: nat) returns (out: Outcome, parsed: bool)
      modifies this
      ensures out == LoadAll(registry, subjects, depth)
      ensures parsed <==> out.Done? && forall s :: Reachable(registry, subjects, s) ==> s !in old(named)
      ensures parsed ==>
                && named == old(named) + (set s | s in out.cache.order)
                && (forall s :: Reachable(registry, subjects, s) ==>
                      s in registry && s in bySubject && bySubject[s] == (registry[s].id, registry[s].schema))
                && (forall s :: s in bySubject && !Reachable(registry, subjects, s) ==>
                      s in old(bySubject) && bySubject[s] == old(bySubject)[s])
      ensures !out.Done? ==> unchanged(this)
    {
      parsed := false;
      var cache := new FetchCache();
      for i := 0 to |subjects|
        invariant fresh(cache) && cache.Valid(registry) && unchanged(this)
        invariant LoadAll(registry, subjects[..i], depth) == Done(cache.Value())
      {
        TakeOneMore(subjects, i);
        out := FetchWithRefs(subjects[i], cache, depth);
        if !out.Done? {
          RefsFailureSticks(registry, subjects, EMPTY, depth, i + 1);
          return;
        }
      }
      assert subjects[..|subjects|] == subjects;
      out := Done(cache.Value());
      LoadCorrect(registry, subjects, depth);
      FetchRefsExtends(registry, subjects, EMPTY, depth);
      var done := ParseAll(cache);
      parsed := done == |cache.order|;
      assert parsed ==> cache.order[..done] == cache.order;
    }

    /**
     `parse_schema`: fails on a reference to a name not parsed before and on a name
     that is already taken, otherwise registers the subject.
     */
    method Parse(s: string, payload: Payload) returns (parsed: bool)
      modifies this
      ensures parsed <==> s !in old(named) && forall r :: r in payload.refs ==> r in old(named)
      ensures parsed ==> Value() == Register(old(Value()), s, payload)
      ensures !parsed ==> unchanged(this)
    {
      for i := 0 to |payload.refs|
        invariant forall r :: r in payload.refs[..i] ==> r in named
        invariant unchanged(this)
      {
        if payload.refs[i] !in named {
          return false;
        }
      }
      if s in named {
        return false;
      }
      named := named + {s};
      bySubject := bySubject[s := (payload.id, payload.schema)];
      return true;
    }

    /** The next subject in insertion order, everything before it having been registered on top of `a`. */
    method ParseNext(cache: FetchCache, i: nat, ghost a: Known) returns (parsed: bool)
      requires cache.Valid(registry) && Ordered(registry, cache.order) && NoDup(cache.order) && i < |cache.order|
      requires Registered(registry, a, Value(), cache.order[..i])
      modifies this
      ensures parsed <==> cache.order[i] !in a.named
      ensures if parsed then Registered(registry, a, Value(), cache.order[..i + 1]) else unchanged(this)
    {
      var s := cache.order[i];
      assert s in cache.order;
      ghost var before := Value();
      NextParses(registry, a, before, cache.order, i);
      parsed := Parse(s, cache.payloads[s]);
      if parsed {
        RegisterOne(registry, a, before, cache.order[..i], s);
        assert cache.order[..i + 1] == cache.order[..i] + [s];
      }
    }

    /**
     The parse pass in insertion order: no reference is ever unknown, so it stops
     early exactly at a subject registered by an earlier load. Those before it are
     registered all the same.
     */
    method ParseAll(cache: FetchCache) returns (done: nat)
      requires cache.Valid(registry) && Ordered(registry, cache.order) && NoDup(cache.order)
      modifies this
      ensures done <= |cache.order| && Registered(registry, old(Value()), Value(), cache.order[..done])
      ensures done < |cache.order| ==> cache.order[done] in old(named)
    {
      done := 0;
      while done < |cache.order|
        invariant done <= |cache.order| && Registered(registry, old(Value()), Value(), cache.order[..done])
      {
        var parsed := ParseNext(cache, done, old(Value()));
        if !parsed {
          return;
        }
        done := done + 1;
      }
    }
  }

  /** With everything before it registered, the next subject's references are known, and its own name is as before. */
  lemma NextParses(reg: Registry, a: Known, b: Known, order: seq<string>, i: nat)
    requires Ordered(reg, order) && NoDup(order) && i < |order| && order[i] in reg
    requires Registered(reg, a, b, order[..i])
    ensures forall r :: r in reg[order[i]].refs ==> r in b.named
    ensures order[i] in b.named <==> order[i] in a.named
  {
    forall r | r in reg[order[i]].refs
      ensures r in order[..i]
    {
      assert Refers(reg, order[i], r);
    }
    assert forall j :: 0 <= j < i ==> order[..i][j] == order[j] != order[i];
  }
}

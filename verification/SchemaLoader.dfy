/**
 Loading Avro schemas with their references: a post-order depth-first fetch whose
 insertion order has to be a dependency order, then a parse in that order.
 */
module SchemaLoader {
  import opened Seqs

  datatype Payload = Payload(id: int, schema: string, refs: seq<string>)

  type Registry = map<string, Payload>

  /** The subjects in insertion order, and the subjects requested from the registry, in order. */
  datatype Cache = Cache(order: seq<string>, gets: seq<string>)

  datatype Outcome = Done(cache: Cache) | NotFound(subject: string) | RecursionLimit

  /** A dict keeps the position of a key that is assigned again. */
  function Put(order: seq<string>, s: string): seq<string> { if s in order then order else order + [s] }

  /** `_fetch_with_refs` with `depth` stack frames left. */
  function Fetch(reg: Registry, s: string, c: Cache, depth: nat): Outcome
    decreases depth, 0
  {
    if depth == 0 then RecursionLimit
    else if s in c.order then Done(c)
    else if s !in reg then NotFound(s)
    else
      match FetchRefs(reg, reg[s].refs, Cache(c.order, c.gets + [s]), depth - 1)
      case Done(c') => Done(Cache(Put(c'.order, s), c'.gets))
      case failed => failed
  }

  function FetchRefs(reg: Registry, refs: seq<string>, c: Cache, depth: nat): Outcome
    decreases depth, |refs|
  {
    if refs == [] then Done(c)
    else
      match FetchRefs(reg, Front(refs), c, depth)
      case Done(c') => Fetch(reg, Last(refs), c', depth)
      case failed => failed
  }

  const EMPTY: Cache := Cache([], [])

  function LoadAll(reg: Registry, subjects: seq<string>, depth: nat): Outcome {
    FetchRefs(reg, subjects, EMPTY, depth)
  }

  // ---- Graph vocabulary ----

  ghost predicate Refers(reg: Registry, s: string, t: string) { s in reg && t in reg[s].refs }

  ghost predicate IsPath(reg: Registry, p: seq<string>) {
    p != [] && forall i :: 0 <= i < |p| - 1 ==> Refers(reg, p[i], p[i + 1])
  }

  ghost predicate Reaches(reg: Registry, s: string, t: string) {
    exists p :: IsPath(reg, p) && p[0] == s && Last(p) == t
  }

  ghost predicate Reachable(reg: Registry, roots: seq<string>, t: string) {
    exists s :: s in roots && Reaches(reg, s, t)
  }

  ghost predicate OnCycle(reg: Registry, t: string) {
    exists p :: IsPath(reg, p) && |p| >= 2 && p[0] == t && Last(p) == t
  }

  ghost predicate Acyclic(reg: Registry, roots: seq<string>) {
    forall t :: Reachable(reg, roots, t) ==> !OnCycle(reg, t)
  }

  /** Every subject the request can lead to is registered. */
  ghost predicate Complete(reg: Registry, roots: seq<string>) {
    forall t :: Reachable(reg, roots, t) ==> t in reg
  }

  ghost predicate NoDup(s: seq<string>) {
    forall i, j :: 0 <= i < j < |s| ==> s[i] != s[j]
  }

  /** Each subject comes after everything it refers to. */
  ghost predicate Ordered(reg: Registry, order: seq<string>) {
    forall i, t :: 0 <= i < |order| && Refers(reg, order[i], t) ==> t in order[..i]
  }

  lemma ReachesSelf(reg: Registry, s: string)
    ensures Reaches(reg, s, s)
  {
    assert IsPath(reg, [s]);
  }

  lemma ReachesVia(reg: Registry, s: string, r: string, t: string)
    requires Refers(reg, s, r) && Reaches(reg, r, t)
    ensures Reaches(reg, s, t)
    ensures t == s ==> OnCycle(reg, s)
  {
    var p :| IsPath(reg, p) && p[0] == r && Last(p) == t;
    var q := [s] + p;
    forall i | 0 <= i < |q| - 1
      ensures Refers(reg, q[i], q[i + 1])
    {
      if i > 0 { assert q[i] == p[i - 1] && q[i + 1] == p[i]; }
    }
    assert IsPath(reg, q) && q[0] == s && Last(q) == t;
  }

  /** In an ordered list everything reachable from an entry lies at or before it. */
  lemma {:induction false} PathStaysBelow(reg: Registry, order: seq<string>, i: nat, p: seq<string>)
    requires Ordered(reg, order) && i < |order|
    requires IsPath(reg, p) && p[0] == order[i]
    ensures Last(p) in order[..i + 1]
    ensures |p| >= 2 ==> Last(p) in order[..i]
    decreases |p|
  {
    if |p| >= 2 {
      assert Refers(reg, p[0], p[1]);
      var j :| 0 <= j < i && order[j] == p[1];
      var q := p[1..];
      forall k | 0 <= k < |q| - 1
        ensures Refers(reg, q[k], q[k + 1])
      {
        assert Refers(reg, p[k + 1], p[(k + 1) + 1]);
      }
      PathStaysBelow(reg, order, j, q);
      assert order[..j + 1] <= order[..i] && Last(q) == Last(p);
      assert forall x :: x in order[..j + 1] ==> x in order[..i];
    }
  }

  lemma OrderedHasNoCycle(reg: Registry, order: seq<string>, t: string)
    requires Ordered(reg, order) && NoDup(order)
    ensures t in order ==> !OnCycle(reg, t)
  {
    if t in order {
      var i :| 0 <= i < |order| && order[i] == t;
      forall p | IsPath(reg, p) && |p| >= 2 && p[0] == t
        ensures Last(p) != t
      {
        PathStaysBelow(reg, order, i, p);
      }
    }
  }

  // ---- What a completed fetch has done ----

  /** The invariant of the dict between calls. */
  ghost predicate Sound(reg: Registry, c: Cache) {
    NoDup(c.order) && Ordered(reg, c.order) && forall s :: s in c.order ==> s in reg
  }

  /** `c'` extends `c` by exactly what `roots` reach, each new subject requested once. */
  ghost predicate Extends(reg: Registry, roots: seq<string>, c: Cache, c': Cache) {
    && c.order <= c'.order && c.gets <= c'.gets
    && (forall s :: s in roots ==> s in c'.order)
    && (forall t :: t in c'.order ==> t in c.order || Reachable(reg, roots, t))
    && multiset(c'.gets[|c.gets|..]) == multiset(c'.order[|c.order|..])
  }

  lemma AppendSound(reg: Registry, order: seq<string>, s: string)
    requires NoDup(order) && Ordered(reg, order) && (forall x :: x in order ==> x in reg)
    requires s in reg && s !in order && forall r :: r in reg[s].refs ==> r in order
    ensures Sound(reg, Cache(order + [s], []))
  {
    var o := order + [s];
    forall i, t | 0 <= i < |o| && Refers(reg, o[i], t)
      ensures t in o[..i]
    {
      if i < |order| {
        assert o[i] == order[i] && o[..i] == order[..i];
      } else {
        assert o[..i] == order;
      }
    }
  }

  lemma ExtendsNothing(reg: Registry, roots: seq<string>, c: Cache)
    requires forall s :: s in roots ==> s in c.order
    ensures Extends(reg, roots, c, c)
  {
  }

  lemma {:induction false} FetchExtends(reg: Registry, s: string, c: Cache, depth: nat)
    requires Sound(reg, c) && Fetch(reg, s, c, depth).Done?
    ensures Sound(reg, Fetch(reg, s, c, depth).cache)
    ensures Extends(reg, [s], c, Fetch(reg, s, c, depth).cache)
    decreases depth, 0
  {
    if s in c.order {
      ExtendsNothing(reg, [s], c);
    } else {
      var c1 := Cache(c.order, c.gets + [s]);
      var c2 := FetchRefs(reg, reg[s].refs, c1, depth - 1).cache;
      FetchRefsExtends(reg, reg[s].refs, c1, depth - 1);
      NotItsOwnReference(reg, s, c1, c2);
      AppendSound(reg, c2.order, s);
      Finished(reg, s, c, c1, c2);
    }
  }

  /** A subject is not among what its own references brought in: that would be a cycle. */
  lemma NotItsOwnReference(reg: Registry, s: string, c1: Cache, c2: Cache)
    requires s in reg && s !in c1.order
    requires Sound(reg, c2) && Extends(reg, reg[s].refs, c1, c2)
    ensures s !in c2.order
  {
    if s in c2.order {
      var r :| r in reg[s].refs && Reaches(reg, r, s);
      ReachesVia(reg, s, r, s);
    }
    OrderedHasNoCycle(reg, c2.order, s);
  }

  lemma Finished(reg: Registry, s: string, c: Cache, c1: Cache, c2: Cache)
    requires s in reg && c1 == Cache(c.order, c.gets + [s]) && s !in c2.order
    requires Extends(reg, reg[s].refs, c1, c2)
    ensures Extends(reg, [s], c, Cache(Put(c2.order, s), c2.gets))
  {
    var order := c2.order + [s];
    forall t | t in order
      ensures t in c.order || Reachable(reg, [s], t)
    {
      if t == s {
        ReachesSelf(reg, s);
      } else if t !in c.order {
        var r :| r in reg[s].refs && Reaches(reg, r, t);
        ReachesVia(reg, s, r, t);
        assert s in [s] && Reaches(reg, s, t);
      }
    }
    var g, o := c2.gets[|c1.gets|..], c2.order[|c.order|..];
    assert c2.gets[|c.gets|] == c1.gets[|c.gets|] == s;
    assert c2.gets[|c.gets|..] == [s] + g && order[|c.order|..] == o + [s];
    assert c.gets <= c2.gets by { assert c.gets == c1.gets[..|c.gets|] == c2.gets[..|c.gets|]; }
  }

  lemma {:induction false} FetchRefsExtends(reg: Registry, refs: seq<string>, c: Cache, depth: nat)
    requires Sound(reg, c) && FetchRefs(reg, refs, c, depth).Done?
    ensures Sound(reg, FetchRefs(reg, refs, c, depth).cache)
    ensures Extends(reg, refs, c, FetchRefs(reg, refs, c, depth).cache)
    decreases depth, |refs|
  {
    if refs == [] {
      ExtendsNothing(reg, refs, c);
    } else {
      var front, s := Front(refs), Last(refs);
      assert refs == front + [s];
      FetchRefsExtends(reg, front, c, depth);
      var c1 := FetchRefs(reg, front, c, depth).cache;
      FetchExtends(reg, s, c1, depth);
      ExtendsThen(reg, front, s, c, c1, Fetch(reg, s, c1, depth).cache);
    }
  }

  lemma ExtendsThen(reg: Registry, front: seq<string>, s: string, c: Cache, c1: Cache, c2: Cache)
    requires Extends(reg, front, c, c1) && Extends(reg, [s], c1, c2)
    ensures Extends(reg, front + [s], c, c2)
  {
    var roots := front + [s];
    forall t | t in c2.order
      ensures t in c.order || Reachable(reg, roots, t)
    {
      if t in c1.order {
        if t !in c.order {
          var r :| r in front && Reaches(reg, r, t);
          assert r in roots;
        }
      } else {
        var r :| r in [s] && Reaches(reg, r, t);
        assert r in roots;
      }
    }
    assert forall x :: x in c1.order ==> x in c2.order;
    SuffixSplit(c.gets, c1.gets, c2.gets);
    SuffixSplit(c.order, c1.order, c2.order);
  }

  // ---- When it completes ----

  /** A duplicate-free list of members of a set is no longer than the set. */
  lemma {:induction false} NoDupFits(s: seq<string>, domain: set<string>)
    requires NoDup(s) && forall x :: x in s ==> x in domain
    ensures |s| <= |domain|
    decreases |s|
  {
    if s != [] {
      var rest := domain - {Last(s)};
      forall x | x in Front(s)
        ensures x in rest
      {
        var i :| 0 <= i < |Front(s)| && Front(s)[i] == x;
        assert s[i] != s[|s| - 1];
      }
      NoDupFits(Front(s), rest);
    }
  }

  /** The subjects whose fetch is in progress: a path from a root. */
  ghost predicate Stack(reg: Registry, roots: seq<string>, stack: seq<string>) {
    NoDup(stack) && (forall x :: x in stack ==> x in reg) && (stack != [] ==> IsPath(reg, stack) && stack[0] in roots)
  }

  ghost predicate Leads(reg: Registry, roots: seq<string>, stack: seq<string>, s: string) {
    if stack == [] then s in roots else Refers(reg, Last(stack), s)
  }

  lemma StackPath(reg: Registry, roots: seq<string>, stack: seq<string>, s: string)
    requires Stack(reg, roots, stack) && Leads(reg, roots, stack, s)
    ensures IsPath(reg, stack + [s]) && Reachable(reg, roots, s)
  {
    var p := stack + [s];
    forall i | 0 <= i < |p| - 1
      ensures Refers(reg, p[i], p[i + 1])
    {
      assert p[i] == stack[i];
      if i < |stack| - 1 { assert Refers(reg, stack[i], stack[i + 1]); }
    }
    assert p[0] in roots && Last(p) == s;
    assert Reaches(reg, p[0], s);
  }

  /** Coming back to a subject in progress closes a cycle. */
  lemma StackCycle(reg: Registry, roots: seq<string>, stack: seq<string>, s: string)
    requires Stack(reg, roots, stack) && Leads(reg, roots, stack, s) && s in stack
    ensures OnCycle(reg, s)
  {
    StackPath(reg, roots, stack, s);
    var k :| 0 <= k < |stack| && stack[k] == s;
    var p := stack + [s];
    var q := p[k..];
    forall i | 0 <= i < |q| - 1
      ensures Refers(reg, q[i], q[i + 1])
    {
      assert Refers(reg, p[k + i], p[k + i + 1]);
    }
    assert IsPath(reg, q) && |q| >= 2 && q[0] == s && Last(q) == s;
  }

  /** On an acyclic request the stack never repeats a subject, so it stays within the registry's size. */
  lemma StackGrows(reg: Registry, roots: seq<string>, stack: seq<string>, s: string)
    requires Acyclic(reg, roots) && Stack(reg, roots, stack) && Leads(reg, roots, stack, s) && s in reg
    ensures Stack(reg, roots, stack + [s]) && |stack| < |reg|
  {
    StackPath(reg, roots, stack, s);
    assert s !in stack by {
      if s in stack { StackCycle(reg, roots, stack, s); }
    }
    NoDupFits(stack + [s], reg.Keys);
  }

  /** With frames to spare on an acyclic request the stack never runs out; a failure is a missing subject the request leads to. */
  lemma {:induction false} FetchEnds(reg: Registry, roots: seq<string>, stack: seq<string>, s: string, c: Cache, depth: nat)
    requires Acyclic(reg, roots) && Stack(reg, roots, stack) && Leads(reg, roots, stack, s)
    requires depth + |stack| > |reg|
    ensures !Fetch(reg, s, c, depth).RecursionLimit?
    decreases depth, 0
  {
    StackPath(reg, roots, stack, s);
    NoDupFits(stack, reg.Keys);
    if s !in c.order && s in reg {
      StackGrows(reg, roots, stack, s);
      forall r | r in reg[s].refs
        ensures Leads(reg, roots, stack + [s], r)
      {
        assert Last(stack + [s]) == s;
      }
      FetchRefsEnds(reg, roots, stack + [s], reg[s].refs, Cache(c.order, c.gets + [s]), depth - 1);
    }
  }

  lemma {:induction false} FetchRefsEnds(reg: Registry, roots: seq<string>, stack: seq<string>, refs: seq<string>, c: Cache, depth: nat)
    requires Acyclic(reg, roots)
    requires Stack(reg, roots, stack) && forall r :: r in refs ==> Leads(reg, roots, stack, r)
    requires depth + |stack| > |reg|
    ensures !FetchRefs(reg, refs, c, depth).RecursionLimit?
    decreases depth, |refs|
  {
    if refs != [] {
      assert forall r :: r in Front(refs) ==> r in refs;
      FetchRefsEnds(reg, roots, stack, Front(refs), c, depth);
      assert Last(refs) in refs;
      var before := FetchRefs(reg, Front(refs), c, depth);
      if before.Done? { FetchEnds(reg, roots, stack, Last(refs), before.cache, depth); }
    }
  }

  /** A subject reported missing is reached from the ones asked for, and not registered. */
  lemma {:induction false} FetchMisses(reg: Registry, s: string, c: Cache, depth: nat)
    requires Fetch(reg, s, c, depth).NotFound?
    ensures var t := Fetch(reg, s, c, depth).subject; t !in reg && Reaches(reg, s, t)
    decreases depth, 0
  {
    var t := Fetch(reg, s, c, depth).subject;
    if s in reg {
      FetchRefsMisses(reg, reg[s].refs, Cache(c.order, c.gets + [s]), depth - 1);
      var r :| r in reg[s].refs && Reaches(reg, r, t);
      assert Refers(reg, s, r);
      ReachesVia(reg, s, r, t);
    } else {
      ReachesSelf(reg, s);
    }
  }

  lemma {:induction false} FetchRefsMisses(reg: Registry, refs: seq<string>, c: Cache, depth: nat)
    requires FetchRefs(reg, refs, c, depth).NotFound?
    ensures var t := FetchRefs(reg, refs, c, depth).subject; t !in reg && Reachable(reg, refs, t)
    decreases depth, |refs|
  {
    var front := FetchRefs(reg, Front(refs), c, depth);
    FrontAndLast(refs);
    if front.Done? {
      FetchMisses(reg, Last(refs), front.cache, depth);
      assert Last(refs) in refs;
    } else {
      FetchRefsMisses(reg, Front(refs), c, depth);
      var s :| s in Front(refs) && Reaches(reg, s, front.subject);
      assert s in refs;
    }
  }

  // ---- Main results ----

  /**
   Whatever the graph, when the fetch completes it has cached exactly the subjects
   the request reaches, requested each exactly once, and inserted each after
   everything it references, directly or not.
   */
  lemma LoadCorrect(reg: Registry, subjects: seq<string>, depth: nat)
    requires LoadAll(reg, subjects, depth).Done?
    ensures var c := LoadAll(reg, subjects, depth).cache;
            && (forall t :: t in c.order <==> Reachable(reg, subjects, t))
            && NoDup(c.order)
            && multiset(c.gets) == multiset(c.order)
            && (forall i, t :: 0 <= i < |c.order| && t != c.order[i] && Reaches(reg, c.order[i], t) ==> t in c.order[..i])
  {
    FetchRefsExtends(reg, subjects, EMPTY, depth);
    var c := LoadAll(reg, subjects, depth).cache;
    assert c.order[0..] == c.order && c.gets[0..] == c.gets;
    forall t | Reachable(reg, subjects, t)
      ensures t in c.order
    {
      var s :| s in subjects && Reaches(reg, s, t);
      var i :| 0 <= i < |c.order| && c.order[i] == s;
      var p :| IsPath(reg, p) && p[0] == s && Last(p) == t;
      PathStaysBelow(reg, c.order, i, p);
    }
    forall i, t | 0 <= i < |c.order| && t != c.order[i] && Reaches(reg, c.order[i], t)
      ensures t in c.order[..i]
    {
      var p :| IsPath(reg, p) && p[0] == c.order[i] && Last(p) == t;
      PathStaysBelow(reg, c.order, i, p);
    }
  }

  /** A cycle in reach never completes, however deep the stack. */
  lemma CompletedIsAcyclic(reg: Registry, subjects: seq<string>, depth: nat)
    ensures LoadAll(reg, subjects, depth).Done? ==> Acyclic(reg, subjects)
  {
    if LoadAll(reg, subjects, depth).Done? {
      LoadCorrect(reg, subjects, depth);
      FetchRefsExtends(reg, subjects, EMPTY, depth);
      var c := LoadAll(reg, subjects, depth).cache;
      forall t | Reachable(reg, subjects, t)
        ensures !OnCycle(reg, t)
      {
        OrderedHasNoCycle(reg, c.order, t);
      }
    }
  }

  lemma CompletedIsComplete(reg: Registry, subjects: seq<string>, depth: nat)
    ensures LoadAll(reg, subjects, depth).Done? ==> Complete(reg, subjects)
  {
    if LoadAll(reg, subjects, depth).Done? {
      LoadCorrect(reg, subjects, depth);
      FetchRefsExtends(reg, subjects, EMPTY, depth);
    }
  }

  /**
   A load that fails on a missing subject names one that the request reaches and the
   registry lacks; and with one stack frame more than there are subjects it exceeds the
   stack only on a cycle in reach.
   */
  lemma MissingIsReported(reg: Registry, subjects: seq<string>, depth: nat)
    ensures var out := LoadAll(reg, subjects, depth);
            && (out.NotFound? ==> Reachable(reg, subjects, out.subject) && out.subject !in reg)
            && (out.RecursionLimit? && depth > |reg| ==> !Acyclic(reg, subjects))
  {
    var out := LoadAll(reg, subjects, depth);
    if out.NotFound? { FetchRefsMisses(reg, subjects, EMPTY, depth); }
    if Acyclic(reg, subjects) && depth > |reg| { FetchRefsEnds(reg, subjects, [], subjects, EMPTY, depth); }
  }

  /**
   With one stack frame more than there are subjects, the fetch completes if and only
   if everything the request reaches is registered and none of it lies on a cycle.
   */
  lemma LoadCompletesIff(reg: Registry, subjects: seq<string>, depth: nat)
    requires depth > |reg|
    ensures LoadAll(reg, subjects, depth).Done? <==> Acyclic(reg, subjects) && Complete(reg, subjects)
  {
    if Acyclic(reg, subjects) && Complete(reg, subjects) {
      FetchRefsEnds(reg, subjects, [], subjects, EMPTY, depth);
      MissingIsReported(reg, subjects, depth);
    }
    CompletedIsAcyclic(reg, subjects, depth);
    CompletedIsComplete(reg, subjects, depth);
  }

  /** Two subjects that refer to each other never load, however deep the stack. */
  lemma CycleNeverLoads(id: int, schema: string, depth: nat)
    ensures var reg := map["a" := Payload(id, schema, ["b"]), "b" := Payload(id, schema, ["a"])];
            !LoadAll(reg, ["a"], depth).Done?
  {
    var reg := map["a" := Payload(id, schema, ["b"]), "b" := Payload(id, schema, ["a"])];
    var cycle := ["a", "b", "a"];
    assert Refers(reg, "a", "b") && Refers(reg, "b", "a");
    assert IsPath(reg, cycle) && cycle[0] == "a" && Last(cycle) == "a";
    assert OnCycle(reg, "a");
    ReachesSelf(reg, "a");
    assert "a" in ["a"] && Reachable(reg, ["a"], "a");
    CompletedIsAcyclic(reg, ["a"], depth);
  }
}

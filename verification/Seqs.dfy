/** Sequence vocabulary shared by the models. */
module Seqs {

  datatype Option<+T> = None | Some(value: T)

  function Max(a: nat, b: nat): nat { if a < b then b else a }

  function Min(a: nat, b: nat): nat { if a < b then a else b }

  function Last<T>(s: seq<T>): T
    requires |s| > 0
  {
    s[|s| - 1]
  }

  function Front<T>(s: seq<T>): seq<T>
    requires |s| > 0
  {
    s[..|s| - 1]
  }

  function Get<K, V>(m: map<K, V>, k: K): Option<V> {
    if k in m then Some(m[k]) else None
  }

  /** The value stored under a key, the default when the key is missing. */
  function GetOr<K, V>(m: map<K, V>, k: K, d: V): V {
    if k in m then m[k] else d
  }

  // Named so that proofs need not search for them among other sequences.

  lemma NilLeft<T>(s: seq<T>)
    ensures [] + s == s
  {
  }

  lemma NilRight<T>(s: seq<T>)
    ensures s + [] == s
  {
  }

  lemma Associative<T>(a: seq<T>, b: seq<T>, c: seq<T>)
    ensures a + b + c == a + (b + c)
  {
  }

  lemma SuffixSplit<T>(a: seq<T>, b: seq<T>, c: seq<T>)
    requires a <= b <= c
    ensures c[|a|..] == b[|a|..] + c[|b|..]
  {
  }

  lemma FrontAndLast<T>(s: seq<T>)
    requires s != []
    ensures s == Front(s) + [Last(s)]
  {
  }

  lemma TakeOfConcat<T>(a: seq<T>, b: seq<T>, k: nat)
    requires k <= |a|
    ensures (a + b)[..k] == a[..k]
  {
  }

  lemma TakeAll<T>(s: seq<T>)
    ensures s[..|s|] == s
  {
  }

  lemma TakeOneMore<T>(s: seq<T>, i: nat)
    requires i < |s|
    ensures s[..i + 1] == s[..i] + [s[i]]
    ensures Front(s[..i + 1]) == s[..i] && Last(s[..i + 1]) == s[i]
  {
  }

  /** The last `k` elements of `s` (all of them if there are fewer), newest first. */
  function Newest<T>(s: seq<T>, k: nat): (r: seq<T>)
    ensures |r| == Min(k, |s|)
    ensures forall i :: 0 <= i < |r| ==> r[i] == s[|s| - 1 - i]
  {
    seq(Min(k, |s|), i requires 0 <= i < Min(k, |s|) => s[|s| - 1 - i])
  }

  /** Pushing at the head of a capped newest-first list is appending to the history it shows. */
  lemma NewestPush<T>(s: seq<T>, x: T, k: nat)
    requires k > 0
    ensures var list := [x] + Newest(s, k);
            Newest(s + [x], k) == list[..Min(k, |list|)]
  {
  }

  /** The newest `k` of a history do not depend on what precedes its last `k` entries. */
  lemma NewestSuffix<T>(older: seq<T>, s: seq<T>, k: nat)
    requires |s| >= k
    ensures Newest(older + s, k) == Newest(s, k)
  {
  }

  /** `a` can be obtained from `b` by deleting elements, keeping the order. */
  ghost predicate IsSubseq<T>(a: seq<T>, b: seq<T>)
    decreases |b|
  {
    || a == []
    || (b != [] && (
          || (Last(a) == Last(b) && IsSubseq(Front(a), Front(b)))
          || IsSubseq(a, Front(b))))
  }

  lemma {:induction false} SubseqAppendBoth<T>(a: seq<T>, b: seq<T>, c: seq<T>)
    requires IsSubseq(a, b)
    ensures IsSubseq(a + c, b + c)
    decreases |c|
  {
    if c == [] {
      assert a + c == a && b + c == b;
    } else {
      SubseqAppendBoth(a, b, Front(c));
      assert Front(a + c) == a + Front(c) && Front(b + c) == b + Front(c);
    }
  }

  lemma {:induction false} SubseqExtend<T>(a: seq<T>, b: seq<T>, c: seq<T>)
    requires IsSubseq(a, b)
    ensures IsSubseq(a, b + c)
    decreases |c|
  {
    if c == [] {
      assert b + c == b;
    } else {
      SubseqExtend(a, b, Front(c));
      assert Front(b + c) == b + Front(c);
    }
  }

  lemma SubseqGrows<T>(a: seq<T>, b: seq<T>, both: seq<T>, more: seq<T>)
    requires IsSubseq(a, b)
    ensures IsSubseq(a + both, b + (both + more))
  {
    SubseqAppendBoth(a, b, both);
    SubseqExtend(a + both, b + both, more);
    assert b + both + more == b + (both + more);
  }

  lemma {:induction false} SubseqMember<T>(a: seq<T>, b: seq<T>, x: T)
    requires IsSubseq(a, b) && x in a
    ensures x in b
    decreases |b|
  {
    if Last(a) == Last(b) && IsSubseq(Front(a), Front(b)) {
      if x != Last(a) {
        assert x in Front(a) by { assert a == Front(a) + [Last(a)]; }
        SubseqMember(Front(a), Front(b), x);
      }
    } else {
      SubseqMember(a, Front(b), x);
    }
  }

  lemma {:induction false} SubseqShorter<T>(a: seq<T>, b: seq<T>)
    requires IsSubseq(a, b)
    ensures |a| <= |b|
    decreases |b|
  {
    if a != [] {
      if Last(a) == Last(b) && IsSubseq(Front(a), Front(b)) {
        SubseqShorter(Front(a), Front(b));
      } else {
        SubseqShorter(a, Front(b));
      }
    }
  }
}

/** The fixture's TLE parser: three lines a satellite, resynchronising one line at a time. */
module TleParser {
  import opened Seqs

  datatype Record = Record(noradId: string, name: string, line1: string, line2: string, epoch: Option<int>)

  /** The characters Python strips. */
  predicate IsSpace(c: char) {
    var k := c as int;
    || 9 <= k <= 13 || 28 <= k <= 32 || k == 0x85 || k == 0xA0 || k == 0x1680 || 0x2000 <= k <= 0x200A
    || k == 0x2028 || k == 0x2029 || k == 0x202F || k == 0x205F || k == 0x3000
  }

  function RStrip(s: string): (r: string)
    ensures r <= s
    ensures r != "" ==> !IsSpace(Last(r))
  {
    if s != "" && IsSpace(Last(s)) then RStrip(Front(s)) else s
  }

  function LStrip(s: string): (r: string)
    ensures r != "" ==> !IsSpace(r[0])
  {
    if s != "" && IsSpace(s[0]) then LStrip(s[1..]) else s
  }

  function Strip(s: string): string { LStrip(RStrip(s)) }

  /** Stripping at the end removes white space only. */
  lemma {:induction false} RStripped(s: string)
    ensures forall i :: |RStrip(s)| <= i < |s| ==> IsSpace(s[i])
    decreases |s|
  {
    if s != "" && IsSpace(Last(s)) { RStripped(Front(s)); }
  }

  /** Stripping at the front removes white space only. */
  lemma {:induction false} LStripped(s: string)
    ensures |LStrip(s)| <= |s| && LStrip(s) == s[|s| - |LStrip(s)|..]
    ensures forall i :: 0 <= i < |s| - |LStrip(s)| ==> IsSpace(s[i])
    decreases |s|
  {
    if s != "" && IsSpace(s[0]) { LStripped(s[1..]); }
  }

  /** The usual white space, and no other printable ASCII character. */
  lemma SpaceCharacters(c: char)
    ensures c in " \t\n\r" ==> IsSpace(c)
    ensures '!' <= c <= '~' ==> !IsSpace(c)
  {
  }

  function Slice(s: string, lo: nat, hi: nat): string
    requires lo <= hi
  {
    s[Min(lo, |s|)..Min(hi, |s|)]
  }

  /** The lines kept: those not blank, without trailing space. */
  function Clean(raw: seq<string>): seq<string> {
    if raw == [] then []
    else Clean(Front(raw)) + (if Strip(Last(raw)) != "" then [RStrip(Last(raw))] else [])
  }

  predicate IsLine1(s: string) { "1 " <= s }

  predicate IsLine2(s: string) { "2 " <= s }

  /** Lines `j` and `j + 1` are the two element lines of a set. */
  predicate PairAt(lines: seq<string>, j: nat) {
    j + 1 < |lines| && IsLine1(lines[j]) && IsLine2(lines[j + 1])
  }

  function MakeRecord(epochOf: string -> Option<int>, name: string, l1: string, l2: string): Record {
    Record(Strip(Slice(l1, 2, 7)), Strip(name), l1, l2, epochOf(l1))
  }

  /** The record whose first element line is line `j`. */
  function RecordAt(epochOf: string -> Option<int>, lines: seq<string>, j: nat): Record
    requires 0 < j && j + 1 < |lines|
  {
    MakeRecord(epochOf, lines[j - 1], lines[j], lines[j + 1])
  }

  /** The element-line positions the scan emits from line `i` on. */
  function Scan(lines: seq<string>, i: nat): seq<nat>
    decreases |lines| - i
  {
    if i + 2 >= |lines| then []
    else if PairAt(lines, i + 1) then [i + 1] + Scan(lines, i + 3)
    else Scan(lines, i + 1)
  }

  function Records(epochOf: string -> Option<int>, lines: seq<string>, js: seq<nat>): (rs: seq<Record>)
    requires forall k :: 0 <= k < |js| ==> 0 < js[k] && js[k] + 1 < |lines|
    ensures |rs| == |js| && forall k :: 0 <= k < |rs| ==> rs[k] == RecordAt(epochOf, lines, js[k])
  {
    seq(|js|, k requires 0 <= k < |js| => RecordAt(epochOf, lines, js[k]))
  }

  lemma {:induction false} ScanInRange(lines: seq<string>, i: nat)
    ensures forall k :: 0 <= k < |Scan(lines, i)| ==> i < Scan(lines, i)[k] && Scan(lines, i)[k] + 1 < |lines|
    ensures forall k, m :: 0 <= k < m < |Scan(lines, i)| ==> Scan(lines, i)[k] + 3 <= Scan(lines, i)[m]
    decreases |lines| - i
  {
    if i + 2 < |lines| {
      if PairAt(lines, i + 1) {
        ScanInRange(lines, i + 3);
      } else {
        ScanInRange(lines, i + 1);
      }
    }
  }

  function ParseLines(epochOf: string -> Option<int>, lines: seq<string>): (rs: seq<Record>) {
    ScanInRange(lines, 0);
    Records(epochOf, lines, Scan(lines, 0))
  }

  method KeptLines(raw: seq<string>) returns (lines: seq<string>)
    ensures lines == Clean(raw)
  {
    lines := [];
    for k := 0 to |raw|
      invariant lines == Clean(raw[..k])
    {
      assert Front(raw[..k + 1]) == raw[..k];
      if Strip(raw[k]) != "" {
        lines := lines + [RStrip(raw[k])];
      }
    }
    assert raw[..|raw|] == raw;
  }

  /** The scan: emit a record and skip three lines, or skip one line to resynchronise. */
  method ParseKept(epochOf: string -> Option<int>, lines: seq<string>) returns (out: seq<Record>)
    ensures out == ParseLines(epochOf, lines)
  {
    out := [];
    ghost var js: seq<nat> := [];
    var i := 0;
    while i + 2 < |lines| + 1
      invariant 0 <= i
      invariant Scan(lines, 0) == js + Scan(lines, i)
      invariant |out| == |js|
      invariant forall k :: 0 <= k < |js| ==>
                  0 < js[k] && js[k] + 1 < |lines| && out[k] == RecordAt(epochOf, lines, js[k])
      decreases |lines| - i
    {
      if i + 2 >= |lines| {
        break;
      }
      if !(IsLine1(lines[i + 1]) && IsLine2(lines[i + 2])) {
        i := i + 1;
        continue;
      }
      assert js + Scan(lines, i) == js + [i + 1] + Scan(lines, i + 3);
      out := out + [RecordAt(epochOf, lines, i + 1)];
      js := js + [i + 1];
      i := i + 3;
    }
    assert Scan(lines, i) == [] && js + [] == js;
  }

  method ParseTleFile(epochOf: string -> Option<int>, raw: seq<string>) returns (out: seq<Record>)
    ensures out == ParseLines(epochOf, Clean(raw))
  {
    var lines := KeptLines(raw);
    out := ParseKept(epochOf, lines);
  }

  // ---- Exactly which pairs are emitted ----

  /** An independent description: a pair with a line before it that does not directly follow an emitted pair. */
  predicate Emitted(lines: seq<string>, j: nat) {
    0 < j && PairAt(lines, j) && (j < 2 || !Emitted(lines, j - 2))
  }

  lemma PairsDoNotOverlap(lines: seq<string>, j: nat)
    ensures PairAt(lines, j) ==> !PairAt(lines, j + 1)
  {
    if PairAt(lines, j) { assert lines[j + 1][0] == '2'; }
  }

  /** From a line that no emitted pair starts on or just before, the scan emits exactly the emitted pairs beyond it. */
  lemma {:induction false} ScanExactly(lines: seq<string>, i: nat, j: nat)
    requires !Emitted(lines, i) && (i > 0 ==> !Emitted(lines, i - 1))
    ensures j in Scan(lines, i) <==> j > i && Emitted(lines, j)
    decreases |lines| - i
  {
    if i + 2 < |lines| {
      PairsDoNotOverlap(lines, i + 1);
      if PairAt(lines, i + 1) {
        assert Emitted(lines, i + 1) && !Emitted(lines, i + 2) && !Emitted(lines, i + 3);
        ScanExactly(lines, i + 3, j);
        assert j == i + 2 || j == i + 3 ==> !Emitted(lines, j);
      } else {
        ScanExactly(lines, i + 1, j);
      }
    }
  }

  ghost predicate Increasing(js: seq<nat>) { forall k, m :: 0 <= k < m < |js| ==> js[k] < js[m] }

  /**
   For any lines whatever, the parser returns one record for each emitted pair, in
   file order, named by the line before the pair; the three-line groups it takes
   never overlap.
   */
  lemma ParseExactly(epochOf: string -> Option<int>, lines: seq<string>)
    ensures var js := Scan(lines, 0);
            && Increasing(js)
            && (forall j :: j in js <==> Emitted(lines, j))
            && (forall k, m :: 0 <= k < m < |js| ==> js[k] + 1 < js[m] - 1)
            && (forall k :: 0 <= k < |js| ==> 0 < js[k] && js[k] + 1 < |lines|)
            && (forall k :: 0 <= k < |js| ==> "1 " <= lines[js[k]] && "2 " <= lines[js[k] + 1])
            && (forall j :: 0 < j < |lines| - 1 && "1 " <= lines[j] && "2 " <= lines[j + 1] ==> j in js || j - 2 in js)
            && |ParseLines(epochOf, lines)| == |js|
            && (forall k :: 0 <= k < |js| ==> ParseLines(epochOf, lines)[k] == RecordAt(epochOf, lines, js[k]))
  {
    ScanInRange(lines, 0);
    forall j
      ensures j in Scan(lines, 0) <==> Emitted(lines, j)
    {
      ScanExactly(lines, 0, j);
    }
    assert forall k :: 0 <= k < |Scan(lines, 0)| ==> Scan(lines, 0)[k] in Scan(lines, 0);
  }

  // ---- Round trip ----

  datatype Triple = Triple(name: string, line1: string, line2: string)

  /** A non-blank name line and two element lines without trailing space. */
  predicate WellFormed(t: Triple) {
    && Strip(t.name) != "" && RStrip(t.name) == t.name
    && IsLine1(t.line1) && RStrip(t.line1) == t.line1
    && IsLine2(t.line2) && RStrip(t.line2) == t.line2
  }

  function Render(ts: seq<Triple>): (lines: seq<string>)
    ensures |lines| == 3 * |ts|
  {
    if ts == [] then [] else Render(Front(ts)) + [Last(ts).name, Last(ts).line1, Last(ts).line2]
  }

  lemma {:induction false} RenderAt(ts: seq<Triple>, k: nat)
    requires k < |ts|
    ensures Render(ts)[3 * k] == ts[k].name
    ensures Render(ts)[3 * k + 1] == ts[k].line1
    ensures Render(ts)[3 * k + 2] == ts[k].line2
    decreases |ts|
  {
    if k < |ts| - 1 { RenderAt(Front(ts), k); }
  }

  lemma {:induction false} ScanRendered(ts: seq<Triple>, k: nat)
    requires (forall m :: 0 <= m < |ts| ==> WellFormed(ts[m])) && k <= |ts|
    ensures var js := Scan(Render(ts), 3 * k);
            |js| == |ts| - k && forall m :: 0 <= m < |js| ==> js[m] == 3 * (k + m) + 1
    decreases |ts| - k
  {
    if k < |ts| {
      RenderAt(ts, k);
      assert WellFormed(ts[k]) && PairAt(Render(ts), 3 * k + 1);
      ScanRendered(ts, k + 1);
      var js := Scan(Render(ts), 3 * k);
      assert js == [3 * k + 1] + Scan(Render(ts), 3 * (k + 1));
    }
  }

  lemma {:induction false} CleanConcat(a: seq<string>, b: seq<string>)
    ensures Clean(a + b) == Clean(a) + Clean(b)
    decreases |b|
  {
    if b == [] {
      assert a + b == a;
    } else {
      CleanConcat(a, Front(b));
      var tail := if Strip(Last(b)) != "" then [RStrip(Last(b))] else [];
      assert Front(a + b) == a + Front(b) && Last(a + b) == Last(b);
      assert Clean(a) + Clean(Front(b)) + tail == Clean(a) + (Clean(Front(b)) + tail);
    }
  }

  lemma CleanOne(s: string)
    ensures Clean([s]) == if Strip(s) != "" then [RStrip(s)] else []
  {
  }

  lemma StartsVisible(s: string)
    requires s != "" && !IsSpace(s[0]) && RStrip(s) == s
    ensures Strip(s) == s
  {
  }

  lemma TripleIsClean(t: Triple)
    requires WellFormed(t)
    ensures Clean([t.name, t.line1, t.line2]) == [t.name, t.line1, t.line2]
  {
    StartsVisible(t.line1);
    StartsVisible(t.line2);
    CleanOne(t.name);
    CleanOne(t.line1);
    CleanOne(t.line2);
    CleanConcat([t.name], [t.line1]);
    assert [t.name] + [t.line1] == [t.name, t.line1];
    CleanConcat([t.name, t.line1], [t.line2]);
    assert [t.name, t.line1] + [t.line2] == [t.name, t.line1, t.line2];
  }

  lemma {:induction false} RenderIsClean(ts: seq<Triple>)
    requires forall m :: 0 <= m < |ts| ==> WellFormed(ts[m])
    ensures Clean(Render(ts)) == Render(ts)
    decreases |ts|
  {
    if ts != [] {
      var front, t := Front(ts), Last(ts);
      assert forall m :: 0 <= m < |front| ==> front[m] == ts[m];
      RenderIsClean(front);
      assert WellFormed(ts[|ts| - 1]);
      TripleIsClean(t);
      CleanConcat(Render(front), [t.name, t.line1, t.line2]);
    }
  }

  /** Any concatenation of well-formed three-line records parses back to exactly those records. */
  lemma RoundTrip(epochOf: string -> Option<int>, ts: seq<Triple>)
    requires forall m :: 0 <= m < |ts| ==> WellFormed(ts[m])
    ensures var rs := ParseLines(epochOf, Clean(Render(ts)));
            |rs| == |ts|
            && forall k :: 0 <= k < |ts| ==>
                 rs[k] == MakeRecord(epochOf, ts[k].name, ts[k].line1, ts[k].line2)
  {
    RenderIsClean(ts);
    ScanRendered(ts, 0);
    ScanInRange(Render(ts), 0);
    var lines, js := Render(ts), Scan(Render(ts), 0);
    var rs := Records(epochOf, lines, js);
    assert ParseLines(epochOf, lines) == rs;
    forall k | 0 <= k < |ts|
      ensures rs[k] == MakeRecord(epochOf, ts[k].name, ts[k].line1, ts[k].line2)
    {
      assert js[k] == 3 * k + 1;
      RenderAt(ts, k);
      assert rs[k] == RecordAt(epochOf, lines, js[k]);
    }
  }

  /**
   So the parsed record carries the file's lines unchanged, the name stripped, and
   columns 3 to 7 of line 1, or what there is of them, as the catalogue number.
   */
  lemma RecordFields(epochOf: string -> Option<int>, ts: seq<Triple>, k: nat, id: string, rest: string)
    requires forall m :: 0 <= m < |ts| ==> WellFormed(ts[m])
    requires k < |ts| && ts[k].line1 == "1 " + id + rest && (|id| == 5 || (|id| < 5 && rest == ""))
    ensures var rs := ParseLines(epochOf, Clean(Render(ts)));
            && k < |rs|
            && rs[k].noradId == Strip(id) && rs[k].name == Strip(ts[k].name)
            && rs[k].line1 == ts[k].line1 && rs[k].line2 == ts[k].line2 && rs[k].epoch == epochOf(ts[k].line1)
  {
    RoundTrip(epochOf, ts);
    assert Slice(ts[k].line1, 2, 7) == id;
  }

  predicate AllSpace(s: string) { forall i :: 0 <= i < |s| ==> IsSpace(s[i]) }

  lemma {:induction false} RStripPadded(s: string, pad: string)
    requires AllSpace(pad)
    ensures RStrip(s + pad) == RStrip(s)
    decreases |pad|
  {
    if pad == "" {
      NilRight(s);
    } else {
      RStripPadded(s, Front(pad));
      assert Front(s + pad) == s + Front(pad) && Last(s + pad) == Last(pad);
    }
  }

  /** The lines with white space appended to each. */
  function Padded(lines: seq<string>, pads: seq<string>): (raw: seq<string>)
    requires |pads| == |lines|
    ensures |raw| == |lines| && forall i :: 0 <= i < |raw| ==> raw[i] == lines[i] + pads[i]
  {
    seq(|lines|, i requires 0 <= i < |lines| => lines[i] + pads[i])
  }

  /** White space at the end of lines, line terminators among it, makes no difference. */
  lemma {:induction false} PaddingIgnored(lines: seq<string>, pads: seq<string>)
    requires |pads| == |lines| && forall i :: 0 <= i < |pads| ==> AllSpace(pads[i])
    ensures Clean(Padded(lines, pads)) == Clean(lines)
    decreases |lines|
  {
    if lines != [] {
      assert forall i :: 0 <= i < |pads| - 1 ==> Front(pads)[i] == pads[i];
      PaddingIgnored(Front(lines), Front(pads));
      PaddedFront(lines, pads);
      RStripPadded(Last(lines), Last(pads));
    }
  }

  lemma PaddedFront(lines: seq<string>, pads: seq<string>)
    requires |pads| == |lines| > 0
    ensures Front(Padded(lines, pads)) == Padded(Front(lines), Front(pads))
    ensures Last(Padded(lines, pads)) == Last(lines) + Last(pads)
  {
  }

  /** So the round trip holds of padded lines too. */
  lemma PaddedRoundTrip(epochOf: string -> Option<int>, ts: seq<Triple>, pads: seq<string>)
    requires forall m :: 0 <= m < |ts| ==> WellFormed(ts[m])
    requires |pads| == 3 * |ts| && forall i :: 0 <= i < |pads| ==> AllSpace(pads[i])
    ensures var rs := ParseLines(epochOf, Clean(Padded(Render(ts), pads)));
            |rs| == |ts|
            && forall k :: 0 <= k < |ts| ==>
                 rs[k] == MakeRecord(epochOf, ts[k].name, ts[k].line1, ts[k].line2)
  {
    PaddingIgnored(Render(ts), pads);
    RoundTrip(epochOf, ts);
  }

  /** Blank lines anywhere in the file make no difference. */
  lemma BlankLinesIgnored(epochOf: string -> Option<int>, a: seq<string>, blank: string, b: seq<string>)
    requires Strip(blank) == ""
    ensures ParseLines(epochOf, Clean(a + [blank] + b)) == ParseLines(epochOf, Clean(a + b))
  {
    CleanOne(blank);
    CleanConcat(a, [blank]);
    CleanConcat(a + [blank], b);
    CleanConcat(a, b);
    assert Clean(a) + [] == Clean(a);
  }
}

/**
 What calls on a writer mean, without buffers and pages: bytes that are out, and
 while something is being built, a record of each build with the bytes that follow
 its header. The result about it is that every plan emits the encoding of the value
 it means, built or not.
 */
module Drafts {
  import opened MsgPack
  import opened Encoding
  import opened Plans
  import opened BuildPages

  /** The bookkeeping of one build; the byte counts are kept apart. `parent` is -1 for the outermost. */
  datatype Record = Record(kind: Kind, parent: int, count: u32, nested: nat, keyNeedsValue: bool)

  /** Bytes written out, and the builds since the outermost was opened; `current` is -1 when nothing is built. */
  datatype Draft = Draft(out: seq<byte>, records: seq<Record>, segs: seq<seq<byte>>, current: int)

  function Head(r: Record): (s: seq<byte>)
    ensures s != []
  {
    EncodeTag(TagFor(r.kind, r.count))
  }

  function Heads(rs: seq<Record>): (hs: seq<seq<byte>>)
    ensures |hs| == |rs| && forall i: nat :: i < |rs| ==> hs[i] == Head(rs[i])
  {
    if rs == [] then [] else Heads(rs[..|rs| - 1]) + [Head(rs[|rs| - 1])]
  }

  /** Parents come before their children. */
  predicate Rooted(rs: seq<Record>, c: int) {
    -1 <= c < |rs| && forall i: nat :: i < |rs| ==> -1 <= rs[i].parent < i
  }

  predicate Sound(d: Draft) {
    && |d.records| == |d.segs| && Rooted(d.records, d.current)
    && (d.current == -1 ==> d.records == [])
    && (forall i: nat :: 0 < i < |d.records| ==> d.records[i].parent != -1)
  }

  /** The number of open builds: the `c`-th, its parent, and so on. */
  function Chain(rs: seq<Record>, c: int): nat
    requires Rooted(rs, c)
    decreases c
  {
    if c < 0 then 0 else 1 + Chain(rs, rs[c].parent)
  }

  lemma {:induction false} ChainSame(rs: seq<Record>, qs: seq<Record>, c: int)
    requires Rooted(rs, c) && Rooted(qs, c) && |rs| <= |qs|
    requires forall i: nat :: i < |rs| ==> qs[i].parent == rs[i].parent
    ensures Chain(qs, c) == Chain(rs, c)
    decreases c
  {
    if c >= 0 { ChainSame(rs, qs, rs[c].parent); }
  }

  /** One more element in the build that is open, if no known container is open within it. */
  function Counted(r: Record): Record {
    if r.nested > 0 then r
    else if r.kind == ArrayKind then r.(count := (r.count + 1) % U32)
    else if r.keyNeedsValue then r.(count := (r.count + 1) % U32, keyNeedsValue := false)
    else r.(keyNeedsValue := true)
  }

  function Tracked(d: Draft): (e: Draft)
    requires Sound(d)
    ensures Sound(e)
  {
    if d.current < 0 then d else d.(records := d.records[d.current := Counted(d.records[d.current])])
  }

  /** Bytes written: out, or behind the header of the latest build. */
  function Added(d: Draft, b: seq<byte>): (e: Draft)
    requires Sound(d)
    ensures Sound(e)
  {
    if d.current < 0 then d.(out := d.out + b)
    else var l := |d.segs| - 1; d.(segs := d.segs[l := d.segs[l] + b])
  }

  function Opened(d: Draft, kind: Kind): (e: Draft)
    requires Sound(d)
    ensures Sound(e)
  {
    d.(records := d.records + [Record(kind, d.current, 0, 0, false)], segs := d.segs + [[]], current := |d.records|)
  }

  /** A known container is started (1) or finished (-1) within the open build. */
  function Deepened(d: Draft, n: int): (e: Draft)
    requires Sound(d) && (d.current >= 0 ==> d.records[d.current].nested + n >= 0)
    ensures Sound(e)
  {
    if d.current < 0 then d
    else var r := d.records[d.current]; d.(records := d.records[d.current := r.(nested := r.nested + n)])
  }

  /** The open build can be completed: nothing is open within it, and no key is without a value. */
  predicate Closable(d: Draft) {
    0 <= d.current < |d.records| && !d.records[d.current].keyNeedsValue && d.records[d.current].nested == 0
  }

  function Closed(d: Draft): (e: Draft)
    requires Sound(d) && Closable(d)
    ensures Sound(e)
  {
    var p := d.records[d.current].parent;
    if p >= 0 then d.(current := p) else Draft(d.out + Flat(Heads(d.records), d.segs, 0), [], [], -1)
  }

  /** The demands on a caller: finish what was started, complete what is being built and of the right kind. */
  predicate Allowed(d: Draft, c: Call) {
    && Sound(d) && Typed(c)
    && match c
       case Finish(_) => d.current >= 0 ==> d.records[d.current].nested > 0
       case Complete(kind) => Closable(d) && d.records[d.current].kind == kind
       case _ => true
  }

  function TextBytes(s: seq<byte>): seq<byte>
    requires |s| < U32
  {
    EncodeTag(StrTag(|s|)) + s
  }

  function Step(d: Draft, c: Call): (e: Draft)
    requires Allowed(d, c)
    ensures Sound(e)
  {
    match c
    case Put(v) => Added(Tracked(d), EncodeTag(TagOf(v)))
    case PutStr(s) => Added(Tracked(d), TextBytes(s))
    case StartRaw(bin, n) => Added(Tracked(d), EncodeTag(if bin then BinTag(n) else StrTag(n)))
    case Bytes(s) => Added(d, s)
    case FinishRaw(_) => d
    case Start(kind, n) => Deepened(Added(Tracked(d), EncodeTag(TagFor(kind, n))), 1)
    case Finish(_) => Deepened(d, -1)
    case Build(kind) => Opened(Tracked(d), kind)
    case Complete(_) => Closed(d)
  }

  datatype Ran = Stuck | At(d: Draft)

  /** A run of calls, stuck at the first one that is not allowed. */
  function Run(d: Draft, cs: seq<Call>): Ran
    decreases |cs|
  {
    if cs == [] then At(d) else
    match Run(d, cs[..|cs| - 1])
    case Stuck => Stuck
    case At(m) => if Allowed(m, cs[|cs| - 1]) then At(Step(m, cs[|cs| - 1])) else Stuck
  }

  lemma {:induction false} RunsOn(d: Draft, cs: seq<Call>, m: Draft, c: Call)
    requires Run(d, cs) == At(m) && Allowed(m, c)
    ensures Run(d, cs + [c]) == At(Step(m, c))
  {
    hide Step, Allowed;
    assert (cs + [c])[..|cs|] == cs;
  }

  lemma {:induction false} RunsThrough(d: Draft, a: seq<Call>, m: Draft, b: seq<Call>)
    requires Run(d, a) == At(m)
    ensures Run(d, a + b) == Run(m, b)
    decreases |b|
  {
    hide Step, Allowed;
    if b == [] {
      assert a + b == a;
    } else {
      RunsThrough(d, a, m, b[..|b| - 1]);
      assert (a + b)[..|a + b| - 1] == a + b[..|b| - 1];
    }
  }

  /** Every part of a run that got through got through. */
  lemma {:induction false} RunsPrefix(d: Draft, cs: seq<Call>, i: nat)
    requires Run(d, cs).At? && i < |cs|
    ensures Run(d, cs[..i]).At? && Allowed(Run(d, cs[..i]).d, cs[i])
    ensures Run(d, cs[..i + 1]) == At(Step(Run(d, cs[..i]).d, cs[i]))
    decreases |cs|
  {
    hide Step, Allowed;
    if i < |cs| - 1 {
      RunsPrefix(d, cs[..|cs| - 1], i);
      assert cs[..|cs| - 1][..i] == cs[..i] && cs[..|cs| - 1][..i + 1] == cs[..i + 1];
    } else {
      assert cs[..i + 1] == cs;
    }
  }

  // ---- what a plan adds

  /** `n` more elements. */
  function CountedBy(r: Record, n: nat): (q: Record)
    ensures r.nested > 0 ==> q == r
    ensures q.nested == r.nested && q.kind == r.kind && q.parent == r.parent
  {
    if n == 0 then r else Counted(CountedBy(r, n - 1))
  }

  /** Counting elements, a map's by pairs, gives the number of items modulo 2^32. */
  lemma {:induction false} CountsItems(kind: Kind, parent: int, n: nat)
    ensures var r := CountedBy(Record(kind, parent, 0, 0, false), n);
            r == Record(kind, parent, SizeFor(kind, n) % U32, 0, !Sizes(kind, n))
  {
    if n > 0 {
      CountsItems(kind, parent, n - 1);
      if kind == ArrayKind { Wraps(n - 1); } else if n % 2 == 0 { Wraps(n / 2 - 1); }
    }
  }

  lemma Wraps(n: int)
    ensures (n % U32 + 1) % U32 == (n + 1) % U32
  {
  }

  /** Everything behind the header of the c-th build, later headers with their final sizes. */
  ghost function Tail(d: Draft, c: nat): seq<byte>
    requires |d.records| == |d.segs| && c < |d.segs|
  {
    d.segs[c] + Flat(Heads(d.records), d.segs, c + 1)
  }

  /** `e` is `d` with `b` more bytes behind the open header, or out, and `n` more elements. */
  ghost predicate Grows(d: Draft, e: Draft, b: seq<byte>, n: nat) {
    && Sound(d) && Sound(e) && d.current == e.current
    && if d.current < 0 then e == d.(out := d.out + b) else
         var c := d.current;
         && e.out == d.out && c < |e.records|
         && e.records[..c] == d.records[..c] && e.segs[..c] == d.segs[..c]
         && e.records[c] == CountedBy(d.records[c], n)
         && Tail(e, c) == Tail(d, c) + b
  }

  lemma {:induction false} CountedTwice(r: Record, m: nat, n: nat)
    ensures CountedBy(CountedBy(r, m), n) == CountedBy(r, m + n)
  {
    if n > 0 { CountedTwice(r, m, n - 1); }
  }

  lemma {:induction false} GrowsOn(d: Draft, e: Draft, f: Draft, a: seq<byte>, b: seq<byte>, m: nat, n: nat)
    requires Grows(d, e, a, m) && Grows(e, f, b, n)
    ensures Grows(d, f, a + b, m + n)
  {
    hide Tail, CountedBy;
    if d.current >= 0 {
      var c := d.current;
      CountedTwice(d.records[c], m, n);
      assert Tail(d, c) + (a + b) == Tail(d, c) + a + b;
    } else {
      assert d.out + (a + b) == d.out + a + b;
    }
  }

  lemma {:induction false} FlatSame(hs: seq<seq<byte>>, ss: seq<seq<byte>>, ks: seq<seq<byte>>,
        ts: seq<seq<byte>>, i: nat)
    requires |hs| == |ss| == |ks| == |ts| && forall j: nat :: i <= j < |hs| ==> hs[j] == ks[j] && ss[j] == ts[j]
    ensures Flat(hs, ss, i) == Flat(ks, ts, i)
    decreases |hs| - i
  {
    if i < |hs| { FlatSame(hs, ss, ks, ts, i + 1); }
  }

  lemma {:induction false} FlatAdds(hs: seq<seq<byte>>, ss: seq<seq<byte>>, i: nat, b: seq<byte>)
    requires |hs| == |ss| && i < |ss|
    ensures var l := |ss| - 1; Flat(hs, ss[l := ss[l] + b], i) == Flat(hs, ss, i) + b
    decreases |ss| - i
  {
    var l := |ss| - 1;
    var ts := ss[l := ss[l] + b];
    if i < l {
      FlatAdds(hs, ss, i + 1, b);
      assert hs[i] + ss[i] + (Flat(hs, ss, i + 1) + b) == hs[i] + ss[i] + Flat(hs, ss, i + 1) + b;
    } else {
      assert Flat(hs, ss, i + 1) == [] && Flat(hs, ts, i + 1) == [];
      assert hs[i] + (ss[i] + b) == hs[i] + ss[i] + b;
    }
  }

  /** The first `n` builds, and the others. */
  lemma {:induction false} FlatSplits(hs: seq<seq<byte>>, ss: seq<seq<byte>>, i: nat, n: nat)
    requires |hs| == |ss| && i <= n <= |hs|
    ensures Flat(hs, ss, i) == Flat(hs[..n], ss[..n], i) + Flat(hs, ss, n)
    decreases n - i
  {
    if i < n {
      FlatSplits(hs, ss, i + 1, n);
      assert hs[i] + ss[i] + (Flat(hs[..n], ss[..n], i + 1) + Flat(hs, ss, n))
          == hs[i] + ss[i] + Flat(hs[..n], ss[..n], i + 1) + Flat(hs, ss, n);
    }
  }

  /** Bytes of one element. */
  lemma {:induction false} ElementGrows(d: Draft, b: seq<byte>)
    requires Sound(d)
    ensures Grows(d, Added(Tracked(d), b), b, 1)
  {
    hide Flat, Head;
    if d.current >= 0 {
      var c, e := d.current, Tracked(d);
      FlatSame(Heads(d.records), d.segs, Heads(e.records), e.segs, c + 1);
      if c + 1 < |d.segs| { FlatAdds(Heads(e.records), e.segs, c + 1, b); }
      AddedTail(e, b);
      assert CountedBy(d.records[c], 0) == d.records[c];
    }
  }

  lemma {:induction false} AddedTail(d: Draft, b: seq<byte>)
    requires Sound(d) && d.current >= 0
    ensures Tail(Added(d, b), d.current) == Tail(d, d.current) + b
  {
    hide Head;
    var c := d.current;
    if c + 1 < |d.segs| {
      FlatAdds(Heads(d.records), d.segs, c + 1, b);
    } else {
      assert Flat(Heads(d.records), d.segs, c + 1) == [];
      assert d.segs[c] + b + [] == d.segs[c] + [] + b;
    }
  }

  lemma {:induction false} BytesGrow(d: Draft, b: seq<byte>)
    requires Sound(d)
    ensures Grows(d, Added(d, b), b, 0)
  {
    hide Flat, Head;
    if d.current >= 0 { AddedTail(d, b); }
  }

  lemma {:induction false} PiecesRun(d: Draft, parts: seq<seq<byte>>) returns (e: Draft)
    requires Sound(d)
    ensures Run(d, Pieces(parts)) == At(e) && Grows(d, e, Concat(parts), 0)
  {
    hide Grows, Allowed, Step;
    if parts == [] {
      e := d;
      NothingGrows(d);
    } else {
      var m := PiecesRun(d, parts[..|parts| - 1]);
      var c := Bytes(parts[|parts| - 1]);
      GrowsSound(d, m, Concat(parts[..|parts| - 1]), 0);
      e := Added(m, c.s);
      BytesAllowed(m, c.s);
      RunsOn(d, Pieces(parts[..|parts| - 1]), m, c);
      BytesGrow(m, c.s);
      GrowsOn(d, m, e, Concat(parts[..|parts| - 1]), c.s, 0, 0);
    }
  }

  lemma BytesAllowed(d: Draft, b: seq<byte>)
    requires Sound(d)
    ensures Allowed(d, Bytes(b)) && Step(d, Bytes(b)) == Added(d, b)
  {
  }

  lemma GrowsSound(d: Draft, e: Draft, b: seq<byte>, n: nat)
    requires Grows(d, e, b, n)
    ensures Sound(d) && Sound(e) && d.current == e.current
  {
  }

  lemma {:induction false} NothingGrows(d: Draft)
    requires Sound(d)
    ensures Grows(d, d, [], 0)
  {
    if d.current >= 0 { assert Tail(d, d.current) + [] == Tail(d, d.current); }
  }

  lemma {:induction false} DeepenedTail(d: Draft, n: int)
    requires Sound(d) && d.current >= 0 && d.records[d.current].nested + n >= 0
    ensures Tail(Deepened(d, n), d.current) == Tail(d, d.current)
  {
    hide Head;
    FlatSame(Heads(Deepened(d, n).records), d.segs, Heads(d.records), d.segs, d.current + 1);
  }

  /** A known container within a build counts as one element, whatever is in it. */
  lemma {:induction false} KnownGrows(d: Draft, e: Draft, m: Draft, tag: seq<byte>, b: seq<byte>, n: nat)
    requires Sound(d) && e == Deepened(Added(Tracked(d), tag), 1) && Grows(e, m, b, n)
    ensures m.current >= 0 ==> m.records[m.current].nested > 0
    ensures Grows(d, Deepened(m, -1), tag + b, 1)
  {
    hide Tail, Head;
    var t, f := Added(Tracked(d), tag), Deepened(m, -1);
    ElementGrows(d, tag);
    if d.current >= 0 {
      var c := d.current;
      DeepenedTail(t, 1);
      DeepenedTail(m, -1);
      assert Tail(d, c) + (tag + b) == Tail(d, c) + tag + b;
    } else {
      assert d.out + (tag + b) == d.out + tag + b;
    }
  }

  /** A build has in its header the number of its items, modulo 2^32. */
  lemma {:induction false} BuiltCounts(d: Draft, kind: Kind, m: Draft, b: seq<byte>, n: nat)
    requires Sound(d) && Grows(Opened(Tracked(d), kind), m, b, n)
    requires Sizes(kind, n)
    ensures Sound(m)
    ensures m.current == |d.records| < |m.records|
    ensures var r := m.records[m.current];
            r.kind == kind && r.parent == d.current && r.count == SizeFor(kind, n) % U32 && r.nested == 0
            && !r.keyNeedsValue && Closable(m)
    ensures m.records[..m.current] == Tracked(d).records && m.segs[..m.current] == d.segs && m.out == d.out
    ensures Tail(m, m.current) == b
  {
    hide Tail, CountedBy, Counted, Heads, Head;
    CountsItems(kind, d.current, n);
    var e := Opened(Tracked(d), kind);
    assert e.records[..e.current] == Tracked(d).records && e.segs[..e.current] == d.segs;
    TailOfLast(e, e.current);
    assert [] + b == b;
  }

  /** A build counts as one element of the build around it. */
  lemma {:induction false} BuiltGrows(d: Draft, m: Draft, tag: seq<byte>, b: seq<byte>)
    requires Sound(d) && Sound(m) && Closable(m) && m.current == |d.records| && m.records[m.current].parent == d.current
    requires m.records[..m.current] == Tracked(d).records && m.segs[..m.current] == d.segs && m.out == d.out
    requires Head(m.records[m.current]) == tag && Tail(m, m.current) == b
    ensures Grows(d, Closed(m), tag + b, 1)
  {
    hide Tail, Head, Flat;
    HeadThenTail(m, m.current);
    if d.current >= 0 {
      BuiltTail(d, m, tag + b);
      var c, f := d.current, m.(current := d.current);
      assert m.records[c] == m.records[..m.current][c];
      assert m.records[..c] == m.records[..m.current][..c] && m.segs[..c] == m.segs[..m.current][..c];
      assert CountedBy(d.records[c], 0) == d.records[c];
      assert Closed(m) == f;
    } else {
      assert d.out + (tag + b) == d.out + tag + b;
    }
  }

  lemma {:induction false} BuiltTail(d: Draft, m: Draft, x: seq<byte>)
    requires Sound(d) && d.current >= 0 && |m.records| == |m.segs| > |d.records|
    requires m.records[..|d.records|] == Tracked(d).records && m.segs[..|d.records|] == d.segs
    requires Flat(Heads(m.records), m.segs, |d.records|) == x
    ensures Tail(m.(current := d.current), d.current) == Tail(d, d.current) + x
  {
    hide Head, Flat;
    var c, k, hs := d.current, |d.records|, Heads(m.records);
    FlatSplits(hs, m.segs, c + 1, k);
    assert forall j: nat :: c < j < k ==> m.records[..k][j] == d.records[j];
    FlatSame(hs[..k], m.segs[..k], Heads(d.records), d.segs, c + 1);
    assert m.segs[c] == m.segs[..k][c];
    assert d.segs[c] + (Flat(Heads(d.records), d.segs, c + 1) + x)
        == d.segs[c] + Flat(Heads(d.records), d.segs, c + 1) + x;
  }

  lemma {:induction false} TailOfLast(d: Draft, c: nat)
    requires |d.records| == |d.segs| == c + 1
    ensures Tail(d, c) == d.segs[c]
  {
    assert Flat(Heads(d.records), d.segs, c + 1) == [];
  }

  lemma {:induction false} HeadThenTail(d: Draft, c: nat)
    requires |d.records| == |d.segs| && c < |d.segs|
    ensures Flat(Heads(d.records), d.segs, c) == Head(d.records[c]) + Tail(d, c)
  {
    var f := Flat(Heads(d.records), d.segs, c + 1);
    assert Head(d.records[c]) + (d.segs[c] + f) == Head(d.records[c]) + d.segs[c] + f;
  }

  // ---- every plan emits the value it means

  lemma {:induction false} RunsOne(d: Draft, c: Call)
    requires Allowed(d, c)
    ensures Run(d, [c]) == At(Step(d, c))
  {
    RunsOn(d, [], d, c);
    assert [] + [c] == [c];
  }

  /** A call, a run, and another call. */
  lemma {:induction false} RunsAround(d: Draft, c: Call, cs: seq<Call>, m: Draft, z: Call)
    requires Allowed(d, c) && Run(Step(d, c), cs) == At(m) && Allowed(m, z)
    ensures Run(d, [c] + cs + [z]) == At(Step(m, z))
  {
    hide Run, Step, Allowed;
    RunsOne(d, c);
    RunsThrough(d, [c], Step(d, c), cs);
    RunsOn(d, [c] + cs, m, z);
  }

  lemma {:induction false} LeafRuns(d: Draft, p: Plan) returns (e: Draft)
    requires Sound(d) && Balanced(p) && !p.Known? && !p.Built?
    ensures Run(d, Calls(p)) == At(e) && Grows(d, e, Emitted(p), 1)
  {
    hide Run, Grows, EncodeTag;
    match p
    case Scalar(v) =>
      e := Step(d, Put(v));
      RunsOne(d, Put(v));
      ElementGrows(d, EncodeTag(TagOf(v)));
    case Text(s) =>
      e := Step(d, PutStr(s));
      RunsOne(d, PutStr(s));
      ElementGrows(d, TextBytes(s));
    case Chunked(bin, parts) =>
      var s := Concat(parts);
      var t := if bin then BinTag(|s|) else StrTag(|s|);
      ElementGrows(d, EncodeTag(t));
      var m := Step(d, StartRaw(bin, |s|));
      e := PiecesRun(m, parts);
      GrowsSound(m, e, s, 0);
      RunsAround(d, StartRaw(bin, |s|), Pieces(parts), e, FinishRaw(bin));
      GrowsOn(d, m, e, EncodeTag(t), s, 1, 0);
  }

  lemma {:induction false} ItemsRun(d: Draft, ps: seq<Plan>) returns (e: Draft)
    requires Sound(d) && AllBalanced(ps)
    ensures Run(d, CallsAll(ps)) == At(e) && Grows(d, e, EmittedAll(ps), |ps|)
    decreases SizeAll(ps), 0
  {
    hide Run, Grows, Emitted;
    if ps == [] {
      e := d;
      NothingGrows(d);
      NoCalls(d);
    } else {
      var front, last := ps[..|ps| - 1], ps[|ps| - 1];
      var m := ItemsRun(d, front);
      GrowsSound(d, m, EmittedAll(front), |front|);
      e := PlanRuns(m, last);
      RunsThrough(d, CallsAll(front), m, Calls(last));
      GrowsOn(d, m, e, EmittedAll(front), Emitted(last), |front|, 1);
    }
  }

  lemma NoCalls(d: Draft)
    ensures Run(d, []) == At(d)
  {
  }

  lemma {:induction false} KnownRuns(d: Draft, kind: Kind, items: seq<Plan>) returns (e: Draft)
    requires var p := Known(kind, items); Sound(d) && Balanced(p)
    ensures var p := Known(kind, items); Run(d, Calls(p)) == At(e) && Grows(d, e, Emitted(p), 1)
    decreases Size(Known(kind, items)), 0
  {
    hide Run, Grows, EncodeTag, EmittedAll, Added, Tracked;
    var n := SizeFor(kind, |items|);
    var s := Step(d, Start(kind, n));
    var m := ItemsRun(s, items);
    KnownGrows(d, s, m, EncodeTag(TagFor(kind, n)), EmittedAll(items), |items|);
    GrowsSound(s, m, EmittedAll(items), |items|);
    e := Deepened(m, -1);
    RunsAround(d, Start(kind, n), CallsAll(items), m, Finish(kind));
  }

  lemma {:induction false} BuiltRuns(d: Draft, kind: Kind, items: seq<Plan>) returns (e: Draft)
    requires var p := Built(kind, items); Sound(d) && Balanced(p)
    ensures var p := Built(kind, items); Run(d, Calls(p)) == At(e) && Grows(d, e, Emitted(p), 1)
    decreases Size(Built(kind, items)), 0
  {
    hide Run, Grows, EncodeTag, EmittedAll, Tracked, Closed, Opened, Tail;
    var s := Step(d, Call.Build(kind));
    var m := ItemsRun(s, items);
    BuiltCounts(d, kind, m, EmittedAll(items), |items|);
    BuiltGrows(d, m, EncodeTag(TagFor(kind, SizeFor(kind, |items|) % U32)), EmittedAll(items));
    e := Closed(m);
    RunsAround(d, Call.Build(kind), CallsAll(items), m, Complete(kind));
  }

  /** Whatever mix of built and known containers: the calls of a plan add its bytes, as one element. */
  lemma {:induction false} PlanRuns(d: Draft, p: Plan) returns (e: Draft)
    requires Sound(d) && Balanced(p)
    ensures Run(d, Calls(p)) == At(e) && Grows(d, e, Emitted(p), 1)
    decreases Size(p), 1
  {
    hide Run, Grows, Emitted, Balanced;
    match p
    case Known(kind, items) => e := KnownRuns(d, kind, items);
    case Built(kind, items) => e := BuiltRuns(d, kind, items);
    case _ => e := LeafRuns(d, p);
  }

  /** With nothing being built before, plans one after the other put out their bytes one after the other. */
  lemma {:induction false} BuiltAsDirect(d: Draft, ps: seq<Plan>, e: Draft)
    requires Sound(d) && d.current == -1 && AllBalanced(ps)
    requires Run(d, CallsAll(ps)) == At(e)
    ensures e == d.(out := d.out + EmittedAll(ps))
  {
    hide Run;
    var f := ItemsRun(d, ps);
  }
}

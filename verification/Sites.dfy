/**
 Where calls put bytes and headers in the builder's pages, as a function of the
 calls alone. It tells before a run whether resolving will overlook a header.
 */
module Sites {
  import opened MsgPack
  import opened Encoding
  import opened Plans
  import opened BuildPages
  import opened Drafts

  /**
   * Nothing is being built, or the writer's place: a page and an offset, the end of the bytes behind the latest header,
   * the number of open builds, and whether some header since the outermost is not where it will be looked for.
   * `missed`: that was so when an outermost build was completed.
   */
  datatype Site =
    | Outside(missed: bool)
    | Inside(page: nat, off: nat, end: Spot, depth: nat, hidden: bool, missed: bool)

  /** A place the writer can be at. */
  predicate Tenable(g: Geometry, s: Site) {
    s.Inside? ==>
      && Usable(g) && g.pageHeader <= s.off <= g.pageSize && s.depth > 0
      && (s.end == Spot(s.page, s.off)
          || (s.off == g.pageHeader && s.end.page + 1 == s.page && g.pageSize < s.end.off + MINIMUM_BUFFER))
  }

  /** A new page. */
  function Turned(g: Geometry, s: Site): Site
    requires s.Inside?
  {
    s.(page := s.page + 1, off := g.pageHeader)
  }

  /** `n` bytes for which there is room. */
  function Moved(s: Site, n: nat): Site {
    if s.Outside? || n == 0 then s else s.(off := s.off + n, end := Spot(s.page, s.off + n))
  }

  /** A tag, or a tag with a short string, which stays in one page. */
  function Tagged(g: Geometry, s: Site, n: nat): Site {
    if s.Outside? || s.off + n <= g.pageSize then Moved(s, n) else Moved(Turned(g, s), n)
  }

  /** Raw bytes, which go on at the next page. */
  function Spread(g: Geometry, s: Site, n: nat): Site
    requires Tenable(g, s)
    decreases n, s.Inside? && s.off == g.pageSize
  {
    if s.Outside? || s.off + n <= g.pageSize then Moved(s, n) else
    var room := g.pageSize - s.off;
    Spread(g, Turned(g, Moved(s, room)), n - room)
  }

  /** The room that must be left behind a header. */
  function Secured(g: Geometry, s: Site): Site
    requires s.Inside?
  {
    if g.pageSize < s.off + MINIMUM_BUFFER then Turned(g, s) else s
  }

  /** Behind the outermost header. */
  function FirstHeader(g: Geometry, missed: bool): Site
    requires Usable(g)
  {
    var off := Align(g, g.pageHeader) + g.buildSize;
    Inside(0, off, Spot(0, off), 1, false, missed)
  }

  /** The place of the next header. */
  function HeaderSpot(g: Geometry, s: Site): Spot
    requires Usable(g) && s.Inside?
  {
    if Align(g, s.off) + g.buildSize > g.pageSize then FirstSpot(g, s.page + 1) else Spot(s.page, Align(g, s.off))
  }

  /** Behind a further header. */
  function NextHeader(g: Geometry, s: Site): Site
    requires Usable(g) && s.Inside?
  {
    var h := HeaderSpot(g, s);
    var off := h.off + g.buildSize;
    Inside(h.page, off, Spot(h.page, off), s.depth + 1, s.hidden || NextSpot(g, s.end) != h, s.missed)
  }

  function Headed(g: Geometry, s: Site): Site
    requires Usable(g)
  {
    Secured(g, if s.Outside? then FirstHeader(g, s.missed) else NextHeader(g, s))
  }

  /** Raw bytes of a string behind its tag, or both at once if the string is short. */
  function Texted(g: Geometry, s: Site, n: u32): Site
    requires Tenable(g, s)
  {
    var t := |EncodeTag(StrTag(n))|;
    if n <= 31 then Tagged(g, s, t + n) else
    TaggedTenable(g, s, t);
    Spread(g, Tagged(g, s, t), n)
  }

  function Ended(s: Site): Site {
    if s.Outside? then s else if s.depth <= 1 then Outside(s.missed || s.hidden) else s.(depth := s.depth - 1)
  }

  /** Where a call leads. */
  function SiteStep(g: Geometry, s: Site, c: Call): Site
    requires Usable(g) && Tenable(g, s) && Typed(c)
  {
    match c
    case Put(v) => Tagged(g, s, |EncodeTag(TagOf(v))|)
    case PutStr(b) => Texted(g, s, |b|)
    case StartRaw(bin, n) => Tagged(g, s, |EncodeTag(if bin then BinTag(n) else StrTag(n))|)
    case Bytes(b) => Spread(g, s, |b|)
    case FinishRaw(_) => s
    case Start(kind, n) => Tagged(g, s, |EncodeTag(TagFor(kind, n))|)
    case Finish(_) => s
    case Build(_) => Headed(g, s)
    case Complete(_) => Ended(s)
  }

  lemma TaggedTenable(g: Geometry, s: Site, n: nat)
    requires Tenable(g, s) && 0 < n <= MINIMUM_BUFFER
    ensures Tenable(g, Tagged(g, s, n))
  {
  }

  lemma {:induction false} SpreadTenable(g: Geometry, s: Site, n: nat)
    requires Tenable(g, s)
    ensures Tenable(g, Spread(g, s, n))
    decreases n, s.Inside? && s.off == g.pageSize
  {
    if s.Inside? && s.off + n > g.pageSize {
      var room := g.pageSize - s.off;
      SpreadTenable(g, Turned(g, Moved(s, room)), n - room);
    }
  }

  lemma StepTenable(g: Geometry, s: Site, c: Call)
    requires Usable(g) && Tenable(g, s) && Typed(c)
    ensures Tenable(g, SiteStep(g, s, c))
  {
    hide EncodeTag, Spread, Tagged;
    match c
    case Put(v) => TaggedTenable(g, s, |EncodeTag(TagOf(v))|);
    case PutStr(b) =>
      ShortTag(|b|);
      var t := |EncodeTag(StrTag(|b|))|;
      if |b| <= 31 {
        TaggedTenable(g, s, t + |b|);
      } else {
        TaggedTenable(g, s, t);
        SpreadTenable(g, Tagged(g, s, t), |b|);
      }
    case StartRaw(bin, n) => TaggedTenable(g, s, |EncodeTag(if bin then BinTag(n) else StrTag(n))|);
    case Bytes(b) => SpreadTenable(g, s, |b|);
    case Start(kind, n) => TaggedTenable(g, s, |EncodeTag(TagFor(kind, n))|);
    case _ =>
  }

  lemma ShortTag(n: u32)
    ensures n <= 31 ==> |EncodeTag(StrTag(n))| == 1
  {
  }

  /** Where a run of calls leads. */
  function SiteRun(g: Geometry, s: Site, cs: seq<Call>): (e: Site)
    requires Usable(g) && Tenable(g, s) && forall i :: 0 <= i < |cs| ==> Typed(cs[i])
    ensures Tenable(g, e)
    decreases |cs|
  {
    if cs == [] then s else
    var m := SiteRun(g, s, cs[..|cs| - 1]);
    StepTenable(g, m, cs[|cs| - 1]);
    SiteStep(g, m, cs[|cs| - 1])
  }

  /** A header is overlooked in the course of a run that starts with nothing being built. */
  predicate Misses(g: Geometry, cs: seq<Call>)
    requires Usable(g) && forall i :: 0 <= i < |cs| ==> Typed(cs[i])
  {
    SiteRun(g, Outside(false), cs).missed
  }

  lemma {:induction false} SiteRunThrough(g: Geometry, s: Site, a: seq<Call>, b: seq<Call>)
    requires Usable(g) && Tenable(g, s)
    requires (forall i :: 0 <= i < |a| ==> Typed(a[i])) && (forall i :: 0 <= i < |b| ==> Typed(b[i]))
    ensures SiteRun(g, s, a + b) == SiteRun(g, SiteRun(g, s, a), b)
    decreases |b|
  {
    hide SiteStep;
    if b == [] {
      assert a + b == a;
    } else {
      SiteRunThrough(g, s, a, b[..|b| - 1]);
      assert (a + b)[..|a + b| - 1] == a + b[..|b| - 1];
    }
  }

  lemma {:induction false} SiteRunOn(g: Geometry, s: Site, cs: seq<Call>, c: Call)
    requires Usable(g) && Tenable(g, s) && Typed(c) && forall i :: 0 <= i < |cs| ==> Typed(cs[i])
    ensures SiteRun(g, s, cs + [c]) == SiteStep(g, SiteRun(g, s, cs), c)
  {
    hide SiteStep;
    assert (cs + [c])[..|cs|] == cs;
  }

  // ---- with the default sizes

  /**
   * Where headers go with pages of 4096 bytes that begin with 16, and headers of 32 bytes at multiples of eight, and
   * which are hidden.
   */
  lemma DefaultHeaders(page: nat, off: nat, end: Spot, depth: nat, hidden: bool, missed: bool, kind: Kind)
    requires 16 <= off <= 4096 && depth > 0
    requires end == Spot(page, off) || (off == 16 && end.page + 1 == page && 4064 < end.off)
    ensures var g, s := DEFAULT_GEOMETRY, Inside(page, off, end, depth, hidden, missed);
            && Usable(g) && Tenable(g, s)
            && SiteStep(g, Outside(missed), Call.Build(kind)) == Inside(0, 48, Spot(0, 48), 1, false, missed)
            && var a := (off + 7) / 8 * 8;
               var h := if a > 4064 then Spot(page + 1, 16) else Spot(page, a);
               var t := SiteStep(g, s, Call.Build(kind));
               && t.Inside? && t.end == Spot(h.page, h.off + 32) && t.depth == depth + 1 && t.missed == missed
               && t.hidden == (hidden || h.off == 4064)
               && (if h.off > 4032 then t.page == h.page + 1 && t.off == 16
                   else t.page == h.page && t.off == h.off + 32)
               && SiteStep(g, s, Complete(kind)) ==
                    if depth == 1 then Outside(missed || hidden) else s.(depth := depth - 1)
  {
    assert ((off + 7) / 8 * 8) == Align(DEFAULT_GEOMETRY, off);
    assert Align(DEFAULT_GEOMETRY, 16) == 16;
  }

  /** Where bytes go: tags stay in one page, and strings go on at the next. */
  lemma {:induction false} DefaultBytes(page: nat, off: nat, end: Spot, depth: nat, hidden: bool, missed: bool,
        v: Value, b: seq<byte>)
    requires 16 <= off <= 4096 && depth > 0 && Typed(Call.Put(v)) && 0 < |b| <= 8176 - off
    requires end == Spot(page, off) || (off == 16 && end.page + 1 == page && 4064 < end.off)
    ensures var g, s := DEFAULT_GEOMETRY, Inside(page, off, end, depth, hidden, missed);
            var n := |EncodeTag(TagOf(v))|;
            && Usable(g) && Tenable(g, s)
            && SiteStep(g, s, Call.Put(v)) ==
                 if off + n <= 4096 then s.(off := off + n, end := Spot(page, off + n))
                 else s.(page := page + 1, off := 16 + n, end := Spot(page + 1, 16 + n))
    ensures var g, s := DEFAULT_GEOMETRY, Inside(page, off, end, depth, hidden, missed);
            var n, m := off + |b|, off + |b| - 4080;
            && Usable(g) && Tenable(g, s) && Typed(Call.Bytes(b))
            && SiteStep(g, s, Call.Bytes(b)) ==
                 if n <= 4096 then s.(off := n, end := Spot(page, n))
                 else s.(page := page + 1, off := m, end := Spot(page + 1, m))
  {
    hide EncodeTag;
    var g, s := DEFAULT_GEOMETRY, Inside(page, off, end, depth, hidden, missed);
    var room := 4096 - off;
    if |b| > room {
      var t := Turned(g, Moved(s, room));
      assert Spread(g, t, |b| - room) == Moved(t, |b| - room);
    }
  }

  // ---- which runs overlook a header

  /** A call puts the header of an inner build flush with the end of its page. */
  predicate PutsFlush(g: Geometry, s: Site, c: Call)
    requires Usable(g)
  {
    c.Build? && s.Inside? && HeaderSpot(g, s).off + g.buildSize == g.pageSize
  }

  /** Some call of a run does. */
  predicate Flushes(g: Geometry, cs: seq<Call>)
    requires Usable(g) && forall i :: 0 <= i < |cs| ==> Typed(cs[i])
  {
    exists i: nat :: i < |cs| && FlushesAt(g, cs, i)
  }

  predicate FlushesAt(g: Geometry, cs: seq<Call>, i: nat)
    requires Usable(g) && i < |cs| && forall j :: 0 <= j < |cs| ==> Typed(cs[j])
  {
    PutsFlush(g, SiteRun(g, Outside(false), cs[..i]), cs[i])
  }

  /**
   * With headers of at least the minimum buffer size a further header is hidden exactly if it is put flush with its
   * page.
   */
  lemma HidesFlush(g: Geometry, s: Site)
    requires Tenable(g, s) && s.Inside? && g.buildSize >= MINIMUM_BUFFER
    ensures Headed(g, s).hidden <==> s.hidden || HeaderSpot(g, s).off + g.buildSize == g.pageSize
  {
    hide NextSpot;
    assert Follows(g, s.end, HeaderSpot(g, s));
    OverlooksOnlyFlush(g, s.end, HeaderSpot(g, s));
  }

  /** Some header was not where it will be, or was, looked for. */
  predicate Flawed(s: Site) {
    s.missed || (s.Inside? && s.hidden)
  }

  lemma FlawStep(g: Geometry, s: Site, c: Call)
    requires Usable(g) && Tenable(g, s) && Typed(c) && g.buildSize >= MINIMUM_BUFFER
    ensures Flawed(SiteStep(g, s, c)) <==> Flawed(s) || PutsFlush(g, s, c)
  {
    hide EncodeTag, NextSpot, HeaderSpot;
    match c
    case PutStr(b) =>
      ShortTag(|b|);
      if |b| > 31 {
        TaggedTenable(g, s, |EncodeTag(StrTag(|b|))|);
        SpreadFlaw(g, Tagged(g, s, |EncodeTag(StrTag(|b|))|), |b|);
      }
    case Bytes(b) => SpreadFlaw(g, s, |b|);
    case Build(_) => if s.Inside? { HidesFlush(g, s); }
    case _ =>
  }

  lemma {:induction false} SpreadFlaw(g: Geometry, s: Site, n: nat)
    requires Tenable(g, s)
    ensures var e := Spread(g, s, n); Flawed(e) == Flawed(s) && DepthOf(e) == DepthOf(s)
    decreases n, s.Inside? && s.off == g.pageSize
  {
    if s.Inside? && s.off + n > g.pageSize {
      var room := g.pageSize - s.off;
      SpreadFlaw(g, Turned(g, Moved(s, room)), n - room);
    }
  }

  lemma {:induction false} FlawedExactly(g: Geometry, cs: seq<Call>)
    requires Usable(g) && g.buildSize >= MINIMUM_BUFFER && forall i :: 0 <= i < |cs| ==> Typed(cs[i])
    ensures Flawed(SiteRun(g, Outside(false), cs)) <==> Flushes(g, cs)
    decreases |cs|
  {
    hide SiteStep, PutsFlush;
    if cs != [] {
      var l := |cs| - 1;
      var front := cs[..l];
      FlawedExactly(g, front);
      FlawStep(g, SiteRun(g, Outside(false), front), cs[l]);
      forall i: nat | i < l ensures FlushesAt(g, front, i) == FlushesAt(g, cs, i) {
        assert front[..i] == cs[..i];
      }
      if FlushesAt(g, cs, l) { assert Flushes(g, cs); }
    }
  }

  // ---- plans end where they began

  function DepthOf(s: Site): nat {
    if s.Outside? then 0 else s.depth
  }

  lemma StepDepth(g: Geometry, s: Site, c: Call)
    requires Usable(g) && Tenable(g, s) && Typed(c)
    ensures var n := DepthOf(s);
            DepthOf(SiteStep(g, s, c)) == if c.Build? then n + 1 else if c.Complete? && n > 0 then n - 1 else n
  {
    hide EncodeTag, NextSpot, HeaderSpot;
    match c
    case PutStr(b) =>
      ShortTag(|b|);
      if |b| > 31 {
        TaggedTenable(g, s, |EncodeTag(StrTag(|b|))|);
        SpreadFlaw(g, Tagged(g, s, |EncodeTag(StrTag(|b|))|), |b|);
      }
    case Bytes(b) => SpreadFlaw(g, s, |b|);
    case _ =>
  }

  lemma {:induction false} RunAround(g: Geometry, s: Site, a: Call, cs: seq<Call>, z: Call)
    requires Usable(g) && Tenable(g, s) && Typed(a) && Typed(z) && forall i :: 0 <= i < |cs| ==> Typed(cs[i])
    ensures Tenable(g, SiteStep(g, s, a))
    ensures SiteRun(g, s, [a] + cs + [z]) == SiteStep(g, SiteRun(g, SiteStep(g, s, a), cs), z)
  {
    hide SiteStep;
    StepTenable(g, s, a);
    SiteRunOn(g, s, [], a);
    assert [] + [a] == [a];
    SiteRunThrough(g, s, [a], cs);
    SiteRunOn(g, s, [a] + cs, z);
  }

  lemma {:induction false} PiecesDepth(g: Geometry, s: Site, parts: seq<seq<byte>>)
    requires Usable(g) && Tenable(g, s)
    ensures (forall i :: 0 <= i < |Pieces(parts)| ==> Typed(Pieces(parts)[i]))
    ensures DepthOf(SiteRun(g, s, Pieces(parts))) == DepthOf(s)
  {
    hide SiteStep;
    if parts != [] {
      var front, c := Pieces(parts[..|parts| - 1]), Bytes(parts[|parts| - 1]);
      PiecesDepth(g, s, parts[..|parts| - 1]);
      SiteRunOn(g, s, front, c);
      StepDepth(g, SiteRun(g, s, front), c);
    }
  }

  lemma {:induction false} PlanDepth(g: Geometry, s: Site, p: Plan)
    requires Usable(g) && Tenable(g, s) && Balanced(p)
    ensures (forall i :: 0 <= i < |Calls(p)| ==> Typed(Calls(p)[i])) && DepthOf(SiteRun(g, s, Calls(p))) == DepthOf(s)
    decreases Size(p), 1
  {
    hide SiteStep, SiteRun, AllBalanced, CallsAll, Pieces;
    match p
    case Scalar(v) => OneDepth(g, s, Put(v));
    case Text(b) => OneDepth(g, s, PutStr(b));
    case Chunked(bin, parts) =>
      StepTenable(g, s, StartRaw(bin, |Concat(parts)|));
      PiecesDepth(g, SiteStep(g, s, StartRaw(bin, |Concat(parts)|)), parts);
      AroundDepth(g, s, StartRaw(bin, |Concat(parts)|), Pieces(parts), FinishRaw(bin));
    case Known(kind, items) =>
      var a := Start(kind, SizeFor(kind, |items|));
      StepTenable(g, s, a);
      PlansDepth(g, SiteStep(g, s, a), items);
      AroundDepth(g, s, a, CallsAll(items), Finish(kind));
    case Built(kind, items) =>
      StepTenable(g, s, Call.Build(kind));
      PlansDepth(g, SiteStep(g, s, Call.Build(kind)), items);
      AroundDepth(g, s, Call.Build(kind), CallsAll(items), Complete(kind));
  }

  lemma {:induction false} OneDepth(g: Geometry, s: Site, c: Call)
    requires Usable(g) && Tenable(g, s) && Typed(c) && !c.Build? && !c.Complete?
    ensures DepthOf(SiteRun(g, s, [c])) == DepthOf(s)
  {
    hide SiteStep;
    SiteRunOn(g, s, [], c);
    assert [] + [c] == [c];
    StepDepth(g, s, c);
  }

  lemma {:induction false} AroundDepth(g: Geometry, s: Site, a: Call, cs: seq<Call>, z: Call)
    requires Usable(g) && Tenable(g, s) && Typed(a) && Typed(z) && forall i :: 0 <= i < |cs| ==> Typed(cs[i])
    requires Tenable(g, SiteStep(g, s, a))
    requires DepthOf(SiteRun(g, SiteStep(g, s, a), cs)) == DepthOf(SiteStep(g, s, a))
    requires a.Build? == z.Complete? && !a.Complete? && !z.Build?
    ensures DepthOf(SiteRun(g, s, [a] + cs + [z])) == DepthOf(s)
  {
    hide SiteStep, SiteRun;
    RunAround(g, s, a, cs, z);
    StepDepth(g, s, a);
    StepDepth(g, SiteRun(g, SiteStep(g, s, a), cs), z);
  }

  lemma {:induction false} PlansDepth(g: Geometry, s: Site, ps: seq<Plan>)
    requires Usable(g) && Tenable(g, s) && AllBalanced(ps)
    ensures (forall i :: 0 <= i < |CallsAll(ps)| ==> Typed(CallsAll(ps)[i]))
    ensures DepthOf(SiteRun(g, s, CallsAll(ps))) == DepthOf(s)
    decreases SizeAll(ps), 0
  {
    hide SiteStep, SiteRun, Balanced, Calls;
    if ps == [] {
      NoCallsRun(g, s);
    } else {
      var front, last := ps[..|ps| - 1], ps[|ps| - 1];
      PlansDepth(g, s, front);
      PlanDepth(g, SiteRun(g, s, CallsAll(front)), last);
      SiteRunThrough(g, s, CallsAll(front), Calls(last));
    }
  }

  lemma NoCallsRun(g: Geometry, s: Site)
    requires Usable(g) && Tenable(g, s)
    ensures SiteRun(g, s, []) == s
  {
  }

  /**
   * With headers of at least the minimum buffer size plans overlook a header exactly if they put one flush with its
   * page.
   */
  lemma {:induction false} MissesExactly(g: Geometry, ps: seq<Plan>)
    requires Usable(g) && g.buildSize >= MINIMUM_BUFFER && AllBalanced(ps)
    ensures (forall i :: 0 <= i < |CallsAll(ps)| ==> Typed(CallsAll(ps)[i]))
    ensures Misses(g, CallsAll(ps)) <==> Flushes(g, CallsAll(ps))
  {
    hide SiteRun, Flushes, CallsAll;
    PlansDepth(g, Outside(false), ps);
    FlawedExactly(g, CallsAll(ps));
  }

  // ---- small runs

  /** Bytes a call may take of the first page. */
  function Cost(g: Geometry, c: Call): nat {
    match c
    case Put(_) => 9
    case PutStr(s) => 9 + |s|
    case StartRaw(_, _) => 9
    case Bytes(s) => |s|
    case Start(_, _) => 9
    case Build(_) => g.alignment + g.buildSize
    case _ => 0
  }

  function CostAll(g: Geometry, cs: seq<Call>): nat {
    if cs == [] then 0 else CostAll(g, cs[..|cs| - 1]) + Cost(g, cs[|cs| - 1])
  }

  /** Everything is on the first page, within `n` bytes, and where it will be looked for. */
  predicate Early(g: Geometry, s: Site, n: nat) {
    !s.missed && (s.Inside? ==> s.page == 0 && s.off <= n && s.end == Spot(0, s.off) && !s.hidden)
  }

  lemma EarlyStep(g: Geometry, s: Site, n: nat, c: Call)
    requires Usable(g) && Tenable(g, s) && Typed(c) && Early(g, s, n)
    requires g.pageHeader <= n && n + Cost(g, c) + MINIMUM_BUFFER <= g.pageSize
    ensures Early(g, SiteStep(g, s, c), n + Cost(g, c))
  {
    hide EncodeTag;
    if c.PutStr? { ShortTag(|c.s|); }
  }

  /** A run that fits the first page, with a header's room to spare, overlooks nothing. */
  lemma {:induction false} SmallRunSeen(g: Geometry, cs: seq<Call>)
    requires Usable(g) && forall i :: 0 <= i < |cs| ==> Typed(cs[i])
    requires g.pageHeader + CostAll(g, cs) + MINIMUM_BUFFER <= g.pageSize
    ensures !Misses(g, cs) && Early(g, SiteRun(g, Outside(false), cs), g.pageHeader + CostAll(g, cs))
    decreases |cs|
  {
    hide SiteStep, Cost;
    if cs != [] {
      var front, c := cs[..|cs| - 1], cs[|cs| - 1];
      SmallRunSeen(g, front);
      EarlyStep(g, SiteRun(g, Outside(false), front), g.pageHeader + CostAll(g, front), c);
    }
  }

  // ---- a plan that overlooks a header

  /** An array of 4013 bytes and an empty array, both arrays left to the builder. */
  function FlushPlan(b: seq<byte>): Plan {
    Built(ArrayKind, [Chunked(true, [b]), Built(ArrayKind, [])])
  }

  function FlushCalls(b: seq<byte>): seq<Call>
    requires |b| < U32
  {
    [Call.Build(ArrayKind), StartRaw(true, |b|), Bytes(b), FinishRaw(true), Call.Build(ArrayKind), Complete(ArrayKind),
     Complete(ArrayKind)]
  }

  lemma FlushPlanCalls(b: seq<byte>)
    requires |b| < U32
    ensures var p := FlushPlan(b);
            && Proper(p) && Balanced(p) && Calls(p) == FlushCalls(b)
            && AllProper([p]) && AllBalanced([p]) && CallsAll([p]) == FlushCalls(b) && MeantAll([p]) == [Meant(p)]
  {
    hide Balanced, Proper, AllBalanced, AllProper, Calls, CallsAll, Meant, MeantAll;
    var c, e := Chunked(true, [b]), Built(ArrayKind, []);
    OneChunk(true, b);
    NoPlans();
    BuiltParts(ArrayKind, []);
    TwoItems(c, e);
    BuiltParts(ArrayKind, [c, e]);
    OneItem(FlushPlan(b));
  }

  lemma {:induction false} OneChunk(bin: bool, b: seq<byte>)
    requires |b| < U32
    ensures var p := Chunked(bin, [b]);
            Proper(p) && Balanced(p) && Calls(p) == [StartRaw(bin, |b|), Bytes(b), FinishRaw(bin)]
  {
    assert [b][..0] == [];
    assert Concat([b]) == Concat([]) + b && Concat([]) == [] && Pieces([b]) == Pieces([]) + [Bytes(b)]
        && Pieces([]) == [];
  }

  lemma NoPlans()
    ensures AllProper([]) && AllBalanced([]) && CallsAll([]) == [] && MeantAll([]) == []
  {
  }

  /** With the default sizes the header of the inner array lies at 4064 to 4096 of the first page, and is overlooked. */
  lemma FlushCallsMiss(b: seq<byte>)
    requires |b| == 4013
    ensures Misses(DEFAULT_GEOMETRY, FlushCalls(b)) && FlushesAt(DEFAULT_GEOMETRY, FlushCalls(b), 4)
    ensures SiteRun(DEFAULT_GEOMETRY, Outside(false), FlushCalls(b)[..6])
              == Inside(1, 16, Spot(0, 4096), 1, true, false)
  {
    hide SiteStep, SiteRun, PutsFlush;
    var g, cs := DEFAULT_GEOMETRY, FlushCalls(b);
    NoCallsRun(g, Outside(false));
    FlushSteps(b);
    var s1, s2, s3, s5 := At0(48), At0(51), At0(4064), Inside(1, 16, Spot(0, 4096), 2, true, false);
    assert cs[..0] == [] && cs[..7] == cs;
    SiteFrom(g, cs, 0, Outside(false), s1);
    SiteFrom(g, cs, 1, s1, s2);
    SiteFrom(g, cs, 2, s2, s3);
    SiteFrom(g, cs, 3, s3, s3);
    SiteFrom(g, cs, 4, s3, s5);
    SiteFrom(g, cs, 5, s5, s5.(depth := 1));
    SiteFrom(g, cs, 6, s5.(depth := 1), Outside(true));
  }

  function At0(off: nat): Site {
    Inside(0, off, Spot(0, off), 1, false, false)
  }

  lemma {:induction false} FlushSteps(b: seq<byte>)
    requires |b| == 4013
    ensures var g, cs, s5 := DEFAULT_GEOMETRY, FlushCalls(b), Inside(1, 16, Spot(0, 4096), 2, true, false);
            && SiteStep(g, Outside(false), cs[0]) == At0(48) && SiteStep(g, At0(48), cs[1]) == At0(51)
            && SiteStep(g, At0(51), cs[2]) == At0(4064) && SiteStep(g, At0(4064), cs[3]) == At0(4064)
            && SiteStep(g, At0(4064), cs[4]) == s5 && PutsFlush(g, At0(4064), cs[4])
            && SiteStep(g, s5, cs[5]) == s5.(depth := 1) && SiteStep(g, s5.(depth := 1), cs[6]) == Outside(true)
  {
    var g := DEFAULT_GEOMETRY;
    assert Align(g, 16) == 16 && Align(g, 4064) == 4064;
  }

  lemma {:induction false} SiteFrom(g: Geometry, cs: seq<Call>, i: nat, s: Site, e: Site)
    requires Usable(g) && i < |cs| && forall j :: 0 <= j < |cs| ==> Typed(cs[j])
    requires SiteRun(g, Outside(false), cs[..i]) == s && SiteStep(g, s, cs[i]) == e
    ensures SiteRun(g, Outside(false), cs[..i + 1]) == e
  {
    hide SiteStep;
    assert cs[..i + 1][..i] == cs[..i];
  }
}

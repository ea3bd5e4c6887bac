/**
 The paged storage of the builder. Headers of open-ended containers lie in
 linked pages between the encoded bytes; resolving finds them again by redoing
 the offset arithmetic. `Stored` says where headers and bytes are; `NextSpot` is
 the rule by which resolving looks for the next header.
 */
module BuildPages {
  import opened MsgPack
  import opened Probing

  /** Sizes the builder depends on: a page, its own header, the header of a build, and the build's alignment. */
  datatype Geometry = Geometry(pageSize: nat, pageHeader: nat, buildSize: nat, alignment: nat)

  const MINIMUM_BUFFER: nat := 32

  /** The size checks of the builder; the alignment is that of a pointer or integer type. */
  predicate Usable(g: Geometry) {
    && 0 < g.alignment <= MINIMUM_BUFFER && g.buildSize > 0
    && g.pageSize >= g.pageHeader + g.buildSize + MINIMUM_BUFFER
  }

  /** `mpack_builder_align_build`. */
  function Align(g: Geometry, n: nat): (r: nat)
    requires g.alignment > 0
    ensures n <= r < n + g.alignment && r % g.alignment == 0
  {
    var x, a := n + g.alignment - 1, g.alignment;
    ModUnique(x - x % a, x / a, 0, a);
    x - x % a
  }

  datatype Page = Page(mem: seq<byte>, used: nat)

  /** A place in the linked pages. */
  datatype Spot = Spot(page: nat, off: nat)

  /** Reading order of places. */
  predicate Before(s: Spot, t: Spot) {
    s.page < t.page || (s.page == t.page && s.off < t.off)
  }

  ghost predicate PagesOk(g: Geometry, pages: seq<Page>) {
    && pages != []
    && forall k: nat :: k < |pages| ==>
         |pages[k].mem| == g.pageSize && g.pageHeader <= pages[k].used <= g.pageSize
  }

  datatype Collected = Lost | Collected(bytes: seq<byte>, end: Spot)

  /** The bytes in use of a page from `off` on. */
  function Here(p: Page, off: nat): (s: seq<byte>)
    requires p.used <= |p.mem|
    ensures |s| == if off < p.used then p.used - off else 0
  {
    if off < p.used then p.mem[off..p.used] else []
  }

  /** The copy loop of resolving: `left` bytes from `s` on, going on at the next page where a page's bytes end. */
  ghost function Collect(g: Geometry, pages: seq<Page>, s: Spot, left: nat): (c: Collected)
    requires PagesOk(g, pages)
    ensures c.Collected? ==> |c.bytes| == left && !Before(c.end, s)
    decreases |pages| - s.page
  {
    if left == 0 then Collected([], s) else
    if s.page >= |pages| then Lost else
    var h := Here(pages[s.page], s.off);
    if left <= |h| then Collected(h[..left], Spot(s.page, s.off + left)) else
    var rest := Collect(g, pages, Spot(s.page + 1, g.pageHeader), left - |h|);
    if rest.Lost? then Lost else Collected(h + rest.bytes, rest.end)
  }

  /** Pages as they may become by further writes: bytes in use stay, the last page may fill up, pages may follow. */
  ghost predicate Grown(pages: seq<Page>, more: seq<Page>) {
    && 0 < |pages| <= |more|
    && (forall k: nat :: k + 1 < |pages| ==> more[k] == pages[k])
    && Filled(pages[|pages| - 1], more[|pages| - 1])
  }

  ghost predicate Filled(p: Page, q: Page) {
    p.used <= q.used && p.used <= |p.mem| && q.used <= |q.mem| && q.mem[..p.used] == p.mem[..p.used]
  }

  lemma {:induction false} HereFilled(p: Page, q: Page, off: nat)
    requires Filled(p, q)
    ensures Here(p, off) <= Here(q, off)
    ensures off <= p.used ==> Here(q, off) == Here(p, off) + q.mem[p.used..q.used]
  {
    if off < p.used {
      assert q.mem[off..q.used] == q.mem[..p.used][off..] + q.mem[p.used..q.used];
      assert p.mem[off..p.used] == p.mem[..p.used][off..];
    }
  }

  /** Bytes that were stored stay what they are. */
  lemma {:induction false} CollectStable(g: Geometry, pages: seq<Page>, more: seq<Page>, s: Spot, left: nat)
    requires PagesOk(g, pages) && PagesOk(g, more) && Grown(pages, more)
    requires Collect(g, pages, s, left).Collected?
    ensures Collect(g, more, s, left) == Collect(g, pages, s, left)
    decreases |pages| - s.page
  {
    if left > 0 {
      var h := Here(pages[s.page], s.off);
      if s.page + 1 < |pages| {
        if |h| < left { CollectStable(g, pages, more, Spot(s.page + 1, g.pageHeader), left - |h|); }
      } else {
        HereFilled(pages[s.page], more[s.page], s.off);
        assert Here(more[s.page], s.off)[..left] == h[..left];
      }
    }
  }

  /** The writer's place: the end of the bytes in use of the last page. */
  ghost function Cursor(pages: seq<Page>): Spot
    requires pages != []
  {
    Spot(|pages| - 1, pages[|pages| - 1].used)
  }

  /**
   * Collecting up to `e` has reached the writer's place: it is there, or at the end of a page with too little room
   * before an unused last page.
   */
  ghost predicate AtCursor(g: Geometry, pages: seq<Page>, e: Spot)
    requires pages != []
  {
    || e == Cursor(pages)
    || (Cursor(pages) == Spot(e.page + 1, g.pageHeader) && pages[e.page].used == e.off
        && g.pageSize < e.off + MINIMUM_BUFFER)
  }

  /** Bytes written at the writer's place are collected behind what was collected before. */
  lemma {:induction false} CollectMore(g: Geometry, pages: seq<Page>, more: seq<Page>, s: Spot, was: seq<byte>,
        e: Spot, b: seq<byte>)
    requires PagesOk(g, pages) && PagesOk(g, more) && Grown(pages, more) && |more| == |pages|
    requires Collect(g, pages, s, |was|) == Collected(was, e) && AtCursor(g, pages, e)
    requires more[|pages| - 1].mem[pages[|pages| - 1].used..more[|pages| - 1].used] == b && b != []
    ensures Collect(g, more, s, |was| + |b|) == Collected(was + b, Cursor(more))
    decreases |pages| - s.page
  {
    hide Collect, Here;
    PageOfCursor(g, pages, s, was, e);
    if s.page == |pages| - 1 {
      CollectHere(g, pages, more, s, was, e, b);
    } else {
      var h, next := Here(pages[s.page], s.off), Spot(s.page + 1, g.pageHeader);
      CollectReached(g, pages, s, was, e);
      var rest := was[|h|..];
      CollectMore(g, pages, more, next, rest, if was == h then next else e, b);
      assert more[s.page] == pages[s.page];
      CollectOn(g, more, s, rest + b, Cursor(more));
      assert was + b == h + (rest + b);
    }
  }

  lemma PageOfCursor(g: Geometry, pages: seq<Page>, s: Spot, was: seq<byte>, e: Spot)
    requires PagesOk(g, pages) && Collect(g, pages, s, |was|) == Collected(was, e) && AtCursor(g, pages, e)
    ensures s.page < |pages|
  {
  }

  /** Collecting that goes on at the next page. */
  lemma CollectOn(g: Geometry, pages: seq<Page>, s: Spot, bytes: seq<byte>, e: Spot)
    requires PagesOk(g, pages) && s.page < |pages| && bytes != []
    requires Collect(g, pages, Spot(s.page + 1, g.pageHeader), |bytes|) == Collected(bytes, e)
    ensures var h := Here(pages[s.page], s.off);
            Collect(g, pages, s, |h + bytes|) == Collected(h + bytes, e)
  {
  }

  /** Collecting that reached the writer's place from an earlier page has taken all of that page. */
  lemma {:induction false} CollectReached(g: Geometry, pages: seq<Page>, s: Spot, was: seq<byte>, e: Spot)
    requires PagesOk(g, pages) && s.page < |pages| - 1
    requires Collect(g, pages, s, |was|) == Collected(was, e) && AtCursor(g, pages, e)
    ensures var h, next := Here(pages[s.page], s.off), Spot(s.page + 1, g.pageHeader);
            && h <= was
            && Collect(g, pages, next, |was[|h|..]|) == Collected(was[|h|..], if was == h then next else e)
            && AtCursor(g, pages, if was == h then next else e)
  {
    var h := Here(pages[s.page], s.off);
    if |was| <= |h| {
      assert h == was by { assert h[..|was|] == was; }
    } else {
      assert was[|h|..] == Collect(g, pages, Spot(s.page + 1, g.pageHeader), |was| - |h|).bytes;
    }
  }

  lemma {:induction false} EndsHere(g: Geometry, pages: seq<Page>, s: Spot, was: seq<byte>, e: Spot)
    requires PagesOk(g, pages) && s.page == |pages| - 1
    requires Collect(g, pages, s, |was|) == Collected(was, e) && AtCursor(g, pages, e)
    ensures s.off <= pages[s.page].used && was == Here(pages[s.page], s.off)
  {
    var h := Here(pages[s.page], s.off);
    if |was| > 0 { assert was == h[..|was|] && e == Spot(s.page, s.off + |was|); }
  }

  lemma {:induction false} CollectHere(g: Geometry, pages: seq<Page>, more: seq<Page>, s: Spot, was: seq<byte>,
        e: Spot, b: seq<byte>)
    requires PagesOk(g, pages) && PagesOk(g, more) && Grown(pages, more) && |more| == |pages| && s.page == |pages| - 1
    requires Collect(g, pages, s, |was|) == Collected(was, e) && AtCursor(g, pages, e)
    requires more[|pages| - 1].mem[pages[|pages| - 1].used..more[|pages| - 1].used] == b && b != []
    ensures Collect(g, more, s, |was| + |b|) == Collected(was + b, Cursor(more))
  {
    var p, q := pages[s.page], more[s.page];
    EndsHere(g, pages, s, was, e);
    HereFilled(p, q, s.off);
    hide Here;
    var h := Here(q, s.off);
    assert h == was + b && h[..|was| + |b|] == h;
  }

  // ---- headers

  /** Where the bytes behind a header start. */
  function Body(g: Geometry, s: Spot): Spot {
    Spot(s.page, s.off + g.buildSize)
  }

  /** A header lies within the bytes in use of its page. */
  predicate HeaderIn(g: Geometry, pages: seq<Page>, s: Spot) {
    s.page < |pages| && s.off + g.buildSize <= pages[s.page].used
  }

  /** The first place of a page a header can have. */
  function FirstSpot(g: Geometry, page: nat): Spot
    requires g.alignment > 0
  {
    Spot(page, Align(g, g.pageHeader))
  }

  /** Where the builder puts a header when the bytes before it end at `e`. */
  ghost predicate Follows(g: Geometry, e: Spot, s: Spot)
    requires g.alignment > 0
  {
    || (s == Spot(e.page, Align(g, e.off)) && s.off + g.buildSize <= g.pageSize)
    || (s == FirstSpot(g, e.page + 1)
        && (Align(g, e.off) + g.buildSize > g.pageSize || g.pageSize < e.off + MINIMUM_BUFFER))
  }

  /** Where resolving looks for the next header. */
  function NextSpot(g: Geometry, e: Spot): Spot
    requires g.alignment > 0
  {
    if Align(g, e.off) + g.buildSize >= g.pageSize then FirstSpot(g, e.page + 1) else Spot(e.page, Align(g, e.off))
  }

  /**
   * Resolving overlooks exactly the headers that end flush with their page, and those on a page that was added although
   * the page before it still had room for a header.
   */
  lemma OverlooksFlush(g: Geometry, e: Spot, s: Spot)
    requires Usable(g) && Follows(g, e, s)
    ensures NextSpot(g, e) != s <==>
              || (s.page == e.page && s.off + g.buildSize == g.pageSize)
              || (s.page != e.page && Align(g, e.off) + g.buildSize < g.pageSize)
  {
  }

  /** With headers of at least the minimum buffer size only flush headers are overlooked. */
  lemma OverlooksOnlyFlush(g: Geometry, e: Spot, s: Spot)
    requires Usable(g) && g.buildSize >= MINIMUM_BUFFER && Follows(g, e, s)
    ensures NextSpot(g, e) != s <==> s.off + g.buildSize == g.pageSize
  {
  }

  /** The i-th header lies in its page, and its bytes are collected from behind it. */
  ghost predicate Kept(g: Geometry, pages: seq<Page>, spots: seq<Spot>, segs: seq<seq<byte>>, ends: seq<Spot>, i: nat)
    requires PagesOk(g, pages) && |spots| == |segs| == |ends| && i < |spots|
  {
    && HeaderIn(g, pages, spots[i])
    && Collect(g, pages, Body(g, spots[i]), |segs[i]|) == Collected(segs[i], ends[i])
  }

  /** The i-th header was put where the bytes of the one before it ended. */
  ghost predicate Chained(g: Geometry, spots: seq<Spot>, ends: seq<Spot>, i: nat)
    requires g.alignment > 0 && 0 < i < |spots| == |ends|
  {
    Follows(g, ends[i - 1], spots[i])
  }

  /** Build headers, in the order of their creation, with the bytes behind each and where those end. */
  ghost predicate Stored(g: Geometry, pages: seq<Page>, spots: seq<Spot>, segs: seq<seq<byte>>, ends: seq<Spot>) {
    && Usable(g) && PagesOk(g, pages)
    && |spots| == |segs| == |ends| > 0
    && spots[0] == FirstSpot(g, 0)
    && (forall i: nat {:trigger Kept(g, pages, spots, segs, ends, i)} :: i < |spots| ==>
        Kept(g, pages, spots, segs, ends, i))
    && (forall i: nat {:trigger Chained(g, spots, ends, i)} :: 0 < i < |spots| ==> Chained(g, spots, ends, i))
    && AtCursor(g, pages, ends[|ends| - 1])
  }

  /** Places grow with the order of creation. */
  lemma {:induction false} SpotsIncrease(g: Geometry, pages: seq<Page>, spots: seq<Spot>, segs: seq<seq<byte>>,
        ends: seq<Spot>, i: nat, j: nat)
    requires Stored(g, pages, spots, segs, ends) && i < j < |spots|
    ensures Before(spots[i], spots[j])
    decreases j
  {
    assert Chained(g, spots, ends, j) && Kept(g, pages, spots, segs, ends, j - 1);
    if i < j - 1 { SpotsIncrease(g, pages, spots, segs, ends, i, j - 1); }
  }

  /** Bytes written at the writer's place belong to the latest header. */
  lemma {:induction false} StoredWrite(g: Geometry, pages: seq<Page>, more: seq<Page>, spots: seq<Spot>,
        segs: seq<seq<byte>>,
                                       ends: seq<Spot>, b: seq<byte>)
    requires Stored(g, pages, spots, segs, ends) && PagesOk(g, more) && Grown(pages, more) && |more| == |pages|
    requires more[|pages| - 1].mem[pages[|pages| - 1].used..more[|pages| - 1].used] == b && b != []
    ensures var l := |spots| - 1;
            Stored(g, more, spots, segs[l := segs[l] + b], ends[l := Cursor(more)])
  {
    hide Collect, Follows, NextSpot;
    var l := |spots| - 1;
    assert Kept(g, pages, spots, segs, ends, l);
    CollectMore(g, pages, more, Body(g, spots[l]), segs[l], ends[l], b);
    var segs', ends' := segs[l := segs[l] + b], ends[l := Cursor(more)];
    forall i: nat | i < |spots| ensures Kept(g, more, spots, segs', ends', i) {
      if i < l {
        assert Kept(g, pages, spots, segs, ends, i);
        CollectStable(g, pages, more, Body(g, spots[i]), |segs[i]|);
      }
    }
    forall i: nat | 0 < i < |spots| ensures Chained(g, spots, ends', i) {
      assert Chained(g, spots, ends, i);
    }
  }

  /** A page is added when the one before has too little room. */
  lemma {:induction false} StoredPage(g: Geometry, pages: seq<Page>, p: Page, spots: seq<Spot>,
        segs: seq<seq<byte>>, ends: seq<Spot>)
    requires Stored(g, pages, spots, segs, ends) && g.pageSize < pages[|pages| - 1].used + MINIMUM_BUFFER
    requires |p.mem| == g.pageSize && p.used == g.pageHeader
    ensures Stored(g, pages + [p], spots, segs, ends)
  {
    hide Collect, Follows, NextSpot;
    forall i: nat | i < |spots| ensures Kept(g, pages + [p], spots, segs, ends, i) {
      assert Kept(g, pages, spots, segs, ends, i);
      CollectStable(g, pages, pages + [p], Body(g, spots[i]), |segs[i]|);
    }
  }

  /** Where a new header goes: into the last page if it fits there, else into a fresh page. */
  ghost predicate Placed(g: Geometry, pages: seq<Page>, more: seq<Page>)
    requires g.alignment > 0 && pages != []
  {
    var l := |pages| - 1;
    var off := Align(g, pages[l].used);
    if off + g.buildSize <= g.pageSize then more == pages[l := Page(pages[l].mem, off + g.buildSize)]
    else
      && |more| == |pages| + 1 && more[..|pages|] == pages && |more[l + 1].mem| == g.pageSize
      && more[l + 1].used == Align(g, g.pageHeader) + g.buildSize
  }

  lemma {:induction false} StoredHeader(g: Geometry, pages: seq<Page>, more: seq<Page>, spots: seq<Spot>,
        segs: seq<seq<byte>>, ends: seq<Spot>)
    requires Stored(g, pages, spots, segs, ends) && Placed(g, pages, more)
    ensures var s := Spot(|more| - 1, more[|more| - 1].used - g.buildSize);
            && Stored(g, more, spots + [s], segs + [[]], ends + [Body(g, s)])
            && forall i: nat :: i < |spots| ==> spots[i] != s
  {
    hide Collect, NextSpot, Follows;
    var s := Spot(|more| - 1, more[|more| - 1].used - g.buildSize);
    var n, spots', segs', ends' := |spots|, spots + [s], segs + [[]], ends + [Body(g, s)];
    assert PagesOk(g, more) && Grown(pages, more);
    PlacedFollows(g, pages, more, ends[n - 1]);
    CollectNothing(g, more, Body(g, s));
    forall i: nat | i < n + 1 ensures Kept(g, more, spots', segs', ends', i) && (i < n ==> spots[i] != s) {
      if i < n {
        assert Kept(g, pages, spots, segs, ends, i);
        CollectStable(g, pages, more, Body(g, spots[i]), |segs[i]|);
      }
    }
    forall i: nat | 0 < i < n + 1 ensures Chained(g, spots', ends', i) {
      if i < n { assert Chained(g, spots, ends, i); }
    }
  }

  lemma PlacedFollows(g: Geometry, pages: seq<Page>, more: seq<Page>, e: Spot)
    requires Usable(g) && PagesOk(g, pages) && AtCursor(g, pages, e) && Placed(g, pages, more)
    ensures Follows(g, e, Spot(|more| - 1, more[|more| - 1].used - g.buildSize))
  {
  }

  lemma CollectNothing(g: Geometry, pages: seq<Page>, s: Spot)
    requires PagesOk(g, pages)
    ensures Collect(g, pages, s, 0) == Collected([], s)
  {
  }

  lemma StoredFirst(g: Geometry, p: Page)
    requires Usable(g) && |p.mem| == g.pageSize && p.used == Align(g, g.pageHeader) + g.buildSize <= g.pageSize
    ensures Stored(g, [p], [FirstSpot(g, 0)], [[]], [Body(g, FirstSpot(g, 0))])
  {
  }

  // ---- resolving

  datatype Outcome = Garbage | Output(bytes: seq<byte>)

  /**
   * What resolving emits from the header at `s` on: its tag, its bytes, and what follows from the next header found.
   * `heads` are the encoded tags and `lens` the byte counts; a place that holds no header yields garbage.
   */
  ghost function Resolved(g: Geometry, pages: seq<Page>, at: map<Spot, nat>, heads: seq<seq<byte>>,
        lens: seq<nat>, s: Spot): Outcome
    requires Usable(g) && PagesOk(g, pages)
    decreases |pages| - s.page, g.pageSize - s.off
  {
    if s !in at || at[s] >= |heads| || at[s] >= |lens| || s.page >= |pages| then Garbage else
    var i := at[s];
    var c := Collect(g, pages, Body(g, s), lens[i]);
    if c.Lost? then Garbage else
    var next := NextSpot(g, c.end);
    if !HeaderIn(g, pages, next) then Output(heads[i] + c.bytes) else
    var rest := Resolved(g, pages, at, heads, lens, next);
    if rest.Garbage? then Garbage else Output(heads[i] + c.bytes + rest.bytes)
  }

  /** The tags and bytes of all builds from the i-th on. */
  function Flat(heads: seq<seq<byte>>, segs: seq<seq<byte>>, i: nat): seq<byte>
    requires |heads| == |segs|
    decreases |heads| - i
  {
    if i >= |heads| then [] else heads[i] + segs[i] + Flat(heads, segs, i + 1)
  }

  /** The i-th header is where resolving looks for it. */
  ghost predicate SeenFrom(g: Geometry, spots: seq<Spot>, ends: seq<Spot>, i: nat)
    requires g.alignment > 0 && |spots| == |ends|
  {
    forall j: nat :: i <= j && j + 1 < |spots| ==> NextSpot(g, ends[j]) == spots[j + 1]
  }

  ghost predicate Indexed(spots: seq<Spot>, segs: seq<seq<byte>>, at: map<Spot, nat>, heads: seq<seq<byte>>,
        lens: seq<nat>) {
    && |heads| == |lens| == |spots| == |segs|
    && (forall i: nat :: i < |spots| ==> spots[i] in at && at[spots[i]] == i && lens[i] == |segs[i]| && heads[i] != [])
    && (forall s <- at :: at[s] < |spots| && spots[at[s]] == s)
  }

  /** If every header is where it is looked for, resolving emits everything in order. */
  lemma {:induction false} ResolvesAll(g: Geometry, pages: seq<Page>, spots: seq<Spot>, segs: seq<seq<byte>>,
        ends: seq<Spot>,
                                       at: map<Spot, nat>, heads: seq<seq<byte>>, lens: seq<nat>, i: nat)
    requires Stored(g, pages, spots, segs, ends) && Indexed(spots, segs, at, heads, lens) && i < |spots|
    requires SeenFrom(g, spots, ends, i)
    ensures Resolved(g, pages, at, heads, lens, spots[i]) == Output(Flat(heads, segs, i))
    decreases |spots| - i
  {
    hide Collect, NextSpot, Follows;
    assert Kept(g, pages, spots, segs, ends, i);
    if i + 1 < |spots| {
      assert Kept(g, pages, spots, segs, ends, i + 1);
      ResolvesAll(g, pages, spots, segs, ends, at, heads, lens, i + 1);
    } else {
      NothingAfter(g, pages, ends[i]);
      assert Flat(heads, segs, i + 1) == [];
    }
  }

  /** Behind the last bytes there is no header. */
  lemma NothingAfter(g: Geometry, pages: seq<Page>, e: Spot)
    requires Usable(g) && PagesOk(g, pages) && AtCursor(g, pages, e)
    ensures !HeaderIn(g, pages, NextSpot(g, e))
  {
  }

  lemma {:induction false} FlatShrinks(heads: seq<seq<byte>>, segs: seq<seq<byte>>, i: nat, k: nat)
    requires |heads| == |segs| && i < k <= |heads| && forall j: nat :: j < |heads| ==> heads[j] != []
    ensures |Flat(heads, segs, k)| < |Flat(heads, segs, i)|
    decreases k - i
  {
    if i + 1 < k { FlatShrinks(heads, segs, i + 1, k); }
  }

  /** A place found behind the bytes of the i-th header that is not the next header belongs to a later one. */
  lemma {:induction false} FindsLater(g: Geometry, pages: seq<Page>, spots: seq<Spot>, segs: seq<seq<byte>>,
        ends: seq<Spot>, i: nat, k: nat)
    requires Stored(g, pages, spots, segs, ends) && i < |spots| && k < |spots|
    requires NextSpot(g, ends[i]) == spots[k]
    ensures i < k
  {
    assert Kept(g, pages, spots, segs, ends, i);
    if k < i { SpotsIncrease(g, pages, spots, segs, ends, k, i); }
  }

  /** Resolving never emits more than was stored, and less once a header is overlooked. */
  lemma {:induction false} ResolvesShort(g: Geometry, pages: seq<Page>, spots: seq<Spot>, segs: seq<seq<byte>>,
        ends: seq<Spot>,
                                         at: map<Spot, nat>, heads: seq<seq<byte>>, lens: seq<nat>, i: nat)
    requires Stored(g, pages, spots, segs, ends) && Indexed(spots, segs, at, heads, lens) && i < |spots|
    requires Resolved(g, pages, at, heads, lens, spots[i]).Output?
    ensures var n := |Resolved(g, pages, at, heads, lens, spots[i]).bytes|;
            n <= |Flat(heads, segs, i)| && (!SeenFrom(g, spots, ends, i) ==> n < |Flat(heads, segs, i)|)
    decreases |spots| - i
  {
    hide NextSpot, Collect, Follows;
    assert Kept(g, pages, spots, segs, ends, i);
    var next := NextSpot(g, ends[i]);
    if i + 1 < |spots| { FlatShrinks(heads, segs, i + 1, |spots|); }
    if HeaderIn(g, pages, next) {
      var k := at[next];
      FindsLater(g, pages, spots, segs, ends, i, k);
      ResolvesShort(g, pages, spots, segs, ends, at, heads, lens, k);
      if i + 1 < k { FlatShrinks(heads, segs, i + 1, k); }
    }
  }

  /** Resolving emits all tags and bytes in order exactly when no header is overlooked. */
  lemma {:induction false} ResolvesExactly(g: Geometry, pages: seq<Page>, spots: seq<Spot>,
        segs: seq<seq<byte>>, ends: seq<Spot>,
                                           at: map<Spot, nat>, heads: seq<seq<byte>>, lens: seq<nat>)
    requires Stored(g, pages, spots, segs, ends) && Indexed(spots, segs, at, heads, lens)
    ensures Resolved(g, pages, at, heads, lens, spots[0]) == Output(Flat(heads, segs, 0)) <==>
              SeenFrom(g, spots, ends, 0)
  {
    hide Resolved;
    if SeenFrom(g, spots, ends, 0) {
      ResolvesAll(g, pages, spots, segs, ends, at, heads, lens, 0);
    } else if Resolved(g, pages, at, heads, lens, spots[0]).Output? {
      ResolvesShort(g, pages, spots, segs, ends, at, heads, lens, 0);
    }
  }

  /** If behind the `k`-th build a header is looked for where no bytes are, resolving emits the builds up to it. */
  lemma {:induction false} ResolvesCut(g: Geometry, pages: seq<Page>, spots: seq<Spot>, segs: seq<seq<byte>>,
        ends: seq<Spot>, at: map<Spot, nat>, heads: seq<seq<byte>>, lens: seq<nat>, i: nat, k: nat)
    requires Stored(g, pages, spots, segs, ends) && Indexed(spots, segs, at, heads, lens) && i <= k < |spots|
    requires forall j: nat :: i <= j < k ==> NextSpot(g, ends[j]) == spots[j + 1]
    requires !HeaderIn(g, pages, NextSpot(g, ends[k]))
    ensures Resolved(g, pages, at, heads, lens, spots[i]) == Output(Flat(heads[..k + 1], segs[..k + 1], i))
    decreases k - i
  {
    hide Collect, NextSpot, Follows;
    assert Kept(g, pages, spots, segs, ends, i);
    if i < k {
      assert Kept(g, pages, spots, segs, ends, i + 1);
      ResolvesCut(g, pages, spots, segs, ends, at, heads, lens, i + 1, k);
    } else {
      var hs, ss := heads[..k + 1], segs[..k + 1];
      assert Flat(hs, ss, k + 1) == [] && hs[k] + ss[k] + [] == heads[k] + segs[k];
    }
  }

  /** As long as everything stays on the first page, and does not fill it, nothing is overlooked. */
  lemma {:induction false} SeenOnOnePage(g: Geometry, pages: seq<Page>, spots: seq<Spot>, segs: seq<seq<byte>>,
        ends: seq<Spot>)
    requires Stored(g, pages, spots, segs, ends) && |pages| == 1 && pages[0].used < g.pageSize
    ensures SeenFrom(g, spots, ends, 0)
  {
    forall j: nat | j + 1 < |spots| ensures NextSpot(g, ends[j]) == spots[j + 1] {
      assert Chained(g, spots, ends, j + 1) && Kept(g, pages, spots, segs, ends, j + 1);
    }
  }

  /**
   * With headers of at least the minimum buffer size, nothing is overlooked exactly if no header ends flush with its
   * page.
   */
  lemma {:induction false} SeenUnlessFlush(g: Geometry, pages: seq<Page>, spots: seq<Spot>,
        segs: seq<seq<byte>>, ends: seq<Spot>)
    requires Stored(g, pages, spots, segs, ends) && g.buildSize >= MINIMUM_BUFFER
    ensures SeenFrom(g, spots, ends, 0) <==>
              forall i: nat :: 0 < i < |spots| ==> spots[i].off + g.buildSize != g.pageSize
  {
    hide NextSpot, Follows;
    forall j: nat | j + 1 < |spots|
      ensures NextSpot(g, ends[j]) == spots[j + 1] <==> spots[j + 1].off + g.buildSize != g.pageSize
    {
      assert Chained(g, spots, ends, j + 1);
      OverlooksOnlyFlush(g, ends[j], spots[j + 1]);
    }
    forall i: nat | SeenFrom(g, spots, ends, 0) && 0 < i < |spots| ensures spots[i].off + g.buildSize != g.pageSize {
      assert NextSpot(g, ends[i - 1]) == spots[i - 1 + 1];
    }
  }

  /** The sizes of a 64-bit build with default settings. */
  const DEFAULT_GEOMETRY := Geometry(4096, 16, 32, 8)
}

/**
 The writer and its builder. Writes go to the caller's buffer, which is fixed or
 grown by the flush function, or while something is being built to the current
 page of the builder; completing the outermost build walks the pages again and
 writes everything to the caller's buffer. `View` is what a state means.
 */
module Writing {
  import opened MsgPack
  import opened Encoding
  import opened Plans
  import opened BuildPages
  import opened Drafts
  import opened Sites

  /** Where headers lie, and how many of the bytes behind each are accounted for; the last may lack `pending`. */
  ghost predicate Filed(spots: seq<Spot>, segs: seq<seq<byte>>, at: map<Spot, nat>, lens: seq<nat>, pending: int) {
    && |spots| == |segs| == |lens|
    && (forall i: nat :: i < |spots| ==> FiledAt(spots, segs, at, lens, pending, i))
    && (forall s <- at :: at[s] < |spots| && spots[at[s]] == s)
  }

  ghost predicate FiledAt(spots: seq<Spot>, segs: seq<seq<byte>>, at: map<Spot, nat>, lens: seq<nat>,
        pending: int, i: nat)
    requires |spots| == |segs| == |lens| && i < |spots|
  {
    spots[i] in at && at[spots[i]] == i && lens[i] + (if i == |spots| - 1 then pending else 0) == |segs[i]|
  }

  lemma {:induction false} FiledIndexed(spots: seq<Spot>, segs: seq<seq<byte>>, at: map<Spot, nat>,
        lens: seq<nat>, rs: seq<Record>)
    requires Filed(spots, segs, at, lens, 0) && |rs| == |spots|
    ensures Indexed(spots, segs, at, Heads(rs), lens)
  {
    hide Head;
    forall i: nat | i < |spots|
      ensures spots[i] in at && at[spots[i]] == i && lens[i] == |segs[i]| && Heads(rs)[i] != []
    {
      assert FiledAt(spots, segs, at, lens, 0, i);
    }
  }

  lemma NothingFiled()
    ensures Filed([], [], map[], [], 0)
  {
  }

  lemma {:induction false} FiledWrite(spots: seq<Spot>, segs: seq<seq<byte>>, at: map<Spot, nat>,
        lens: seq<nat>, pending: int, b: seq<byte>)
    requires Filed(spots, segs, at, lens, pending) && |spots| > 0
    ensures var l := |spots| - 1; Filed(spots, segs[l := segs[l] + b], at, lens, pending + |b|)
  {
    var l, n := |spots| - 1, pending + |b|;
    var segs' := segs[l := segs[l] + b];
    forall i: nat | i < |spots| ensures FiledAt(spots, segs', at, lens, n, i) {
      assert FiledAt(spots, segs, at, lens, pending, i);
    }
  }

  lemma {:induction false} FiledApply(spots: seq<Spot>, segs: seq<seq<byte>>, at: map<Spot, nat>,
        lens: seq<nat>, pending: nat)
    requires Filed(spots, segs, at, lens, pending) && |spots| > 0
    ensures var l := |spots| - 1; Filed(spots, segs, at, lens[l := lens[l] + pending], 0)
  {
    var l := |spots| - 1;
    var lens' := lens[l := lens[l] + pending];
    forall i: nat | i < |spots| ensures FiledAt(spots, segs, at, lens', 0, i) {
      assert FiledAt(spots, segs, at, lens, pending, i);
    }
  }

  lemma {:induction false} FiledHeader(spots: seq<Spot>, segs: seq<seq<byte>>, at: map<Spot, nat>,
        lens: seq<nat>, s: Spot)
    requires Filed(spots, segs, at, lens, 0) && forall i: nat :: i < |spots| ==> spots[i] != s
    ensures Filed(spots + [s], segs + [[]], at[s := |spots|], lens + [0], 0)
  {
    var spots', segs', at', lens' := spots + [s], segs + [[]], at[s := |spots|], lens + [0];
    forall i: nat | i <= |spots| ensures FiledAt(spots', segs', at', lens', 0, i) {
      if i < |spots| { assert FiledAt(spots, segs, at, lens, 0, i); }
    }
  }

  const BUFFER_SIZE: nat := 4096

  class Writer {
    const g: Geometry
    const growable: bool
    const home: array<byte>   // the caller's buffer, if it is fixed
    const capacity: nat
    var error: Error
    // where writes go: the caller's buffer, or the rest of the current page
    var buffer: array<byte>
    var base: nat
    var position: nat
    var end: nat
    // the builder
    var full: seq<Page>       // pages before the current one
    var used: nat             // bytes in use of the current page
    var records: seq<Record>
    var lens: seq<nat>        // bytes behind each header
    var current: int
    var at: map<Spot, nat>    // the builds whose headers lie in the pages
    var stash: array<byte>    // the caller's buffer while something is being built
    var stashPosition: nat
    var stashEnd: nat
    var lost: bool            // resolving took a place for a header that holds none
    ghost var spots: seq<Spot>
    ghost var segs: seq<seq<byte>>
    ghost var ends: seq<Spot>
    ghost var overlooked: bool // some outermost build was completed with a header where it is not looked for

    /** `mpack_writer_init`: a fixed buffer. */
    constructor Fixed(g: Geometry, buffer: array<byte>)
      requires Usable(g)
      ensures Valid() && error == Ok && !overlooked && !lost && View() == Draft([], [], [], -1)
      ensures this.g == g && !growable && home == buffer && capacity == buffer.Length && this.buffer == stash == buffer
    {
      this.g, growable, home, capacity, error := g, false, buffer, buffer.Length, Ok;
      this.buffer, base, position, end := buffer, 0, 0, buffer.Length;
      stash, stashPosition, stashEnd := buffer, 0, 0;
      full, used, records, lens, current, at, lost := [], 0, [], [], -1, map[], false;
      spots, segs, ends, overlooked := [], [], [], false;
    }

    /** `mpack_writer_init_growable`. */
    constructor Growable(g: Geometry)
      requires Usable(g)
      ensures Valid() && error == Ok && !overlooked && !lost && View() == Draft([], [], [], -1)
      ensures this.g == g && growable && fresh(buffer) && stash == buffer && buffer.Length == end == 4096
    {
      this.g, growable, capacity, error := g, true, 0, Ok;
      buffer := new byte[BUFFER_SIZE];
      home := buffer;
      base, position, end := 0, 0, BUFFER_SIZE;
      stash, stashPosition, stashEnd := buffer, 0, 0;
      full, used, records, lens, current, at, lost := [], 0, [], [], -1, map[], false;
      spots, segs, ends, overlooked := [], [], [], false;
    }

    // ---- what a state means

    ghost predicate Readable()
      reads this
    {
      if current < 0 then position <= buffer.Length else stashPosition <= stash.Length
    }

    ghost function View(): Draft
      reads this, buffer, stash
      requires Readable()
    {
      if current < 0 then Draft(buffer[..position], [], [], -1)
      else Draft(stash[..stashPosition], records, segs, current)
    }

    /** A place in the caller's buffer. */
    ghost predicate Home(b: array<byte>, p: nat, e: nat)
      reads this
    {
      p <= e <= b.Length && if growable then e == b.Length && e >= MINIMUM_BUFFER else b == home && e == capacity
    }

    ghost predicate Direct()
      reads this
    {
      current == -1 && base == 0 && Home(buffer, position, end) && NoBuilds()
    }

    ghost predicate NoBuilds()
      reads this
    {
      full == [] && records == [] && lens == [] && at == map[] && spots == [] && segs == [] && ends == []
    }

    /** All pages, `n` bytes of the last one in use. */
    ghost function Pages(n: nat): seq<Page>
      reads this, buffer
    {
      full + [Page(buffer[..], n)]
    }

    /**
     * The builder's pages and records with `n` bytes of the last page in use, `pending` of them not accounted for yet.
     */
    ghost predicate Storing(n: nat, pending: int)
      reads this, buffer, stash
    {
      && 0 <= current && Home(stash, stashPosition, stashEnd) && Sound(View())
      && buffer != stash && buffer.Length == g.pageSize
      && |records| == |spots| && Filed(spots, segs, at, lens, pending)
      && Stored(g, Pages(n), spots, segs, ends)
    }

    ghost predicate Building()
      reads this, buffer, stash
    {
      base == used <= position <= end == g.pageSize && Storing(position, position - base)
    }

    ghost predicate Valid(): (v: bool)
      reads this, buffer, stash
      ensures v ==> Usable(g) && Readable() && Sound(View()) && (growable || |View().out| <= capacity)
      ensures v ==> base <= position <= end <= buffer.Length
      ensures v && current < 0 ==> base == 0 && (growable || buffer == home)
      ensures v ==> -1 <= current && (current >= 0 ==> current < |records| && end == g.pageSize)
      ensures v ==> Traced() && Tenable(g, Where())
    {
      Usable(g) && if current >= 0 then Building() && (WhereTenable(); true) else Direct()
    }

    /** The site of a state, with `n` as the offset in the current page. */
    ghost function WhereAt(n: nat): Site
      reads this
      requires Traced()
    {
      if current < 0 then Outside(overlooked) else SiteOf(g, |full|, n, spots, ends, records, current, overlooked)
    }

    ghost predicate Traced()
      reads this
    {
      Usable(g) && (current >= 0 ==> |spots| == |ends| > 0 && Rooted(records, current))
    }

    ghost function Where(): (w: Site)
      reads this
      requires Traced()
      ensures if current < 0 then w == Outside(overlooked) else w.Inside? && w.off == position
    {
      WhereAt(position)
    }

    lemma WhereTenable()
      requires Usable(g) && Building()
      ensures Traced() && Tenable(g, Where())
    {
      hide Kept, Chained, Filed, SeenFrom;
      assert Pages(position)[|full|].used == position;
    }

    /**
     * An error stays; without one, the state means `d` afterwards if the buffer can hold it, and the error is TooBig
     * otherwise.
     */
    ghost predicate Outcome(was: Error, d: Draft)
      reads this, buffer, stash
      requires Readable()
    {
      if was != Ok then error == was
      else if growable || |d.out| <= capacity then error == Ok && View() == d
      else error == TooBig
    }

    method FlagError(e: Error)
      modifies this`error
      ensures error == if old(error) == Ok then e else old(error)
    {
      if error == Ok { error := e; }
    }

    // ---- the caller's buffer, and copying into the current buffer

    /** memcpy to the writer's position. */
    method Copy(b: seq<byte>)
      requires position + |b| <= buffer.Length
      modifies this`position, buffer
      ensures position == old(position) + |b|
      ensures buffer[..old(position)] == old(buffer[..position]) && buffer[old(position)..position] == b
      ensures buffer[..position] == old(buffer[..position]) + b
      ensures b == [] ==> buffer[..] == old(buffer[..])
    {
      ghost var was := buffer[..];
      forall i | 0 <= i < |b| { buffer[position + i] := b[i]; }
      position := position + |b|;
      Written(was, buffer[..], position - |b|, b);
    }

    /** Bytes for which there is room. */
    method Put(b: seq<byte>)
      requires Valid() && |b| <= end - position
      modifies this`position, this`segs, this`ends, buffer
      ensures Valid() && View() == Added(old(View()), b)
      ensures position == old(position) + |b| && Where() == Moved(old(Where()), |b|)
    {
      hide Stored, Filed, Sound, Tenable, SiteOf;
      Copy(b);
      if current >= 0 {
        SiteMoved(g, |full|, position - |b|, |b|, spots, ends, records, current, overlooked);
        StoredPut(g, full, old(buffer[..]), buffer[..], position - |b|, b, spots, segs, ends);
        FiledWrite(spots, segs, at, lens, position - |b| - base, b);
        if b != [] { ends := ends[|ends| - 1 := Spot(|full|, position)]; }
        segs := segs[|segs| - 1 := segs[|segs| - 1] + b];
      }
      assert View() == Added(old(View()), b);
    }

    // ---- pages

    method ApplyWrites()
      requires Building() && Traced()
      modifies this`used, this`lens
      ensures used == position && Storing(used, 0) && View() == old(View())
      ensures Traced() && WhereAt(used) == old(Where()) && ResolutionAt(used, lens) == old(Resolution())
    {
      hide Stored, Filed, Sound, SiteOf, Resolved, PagesOk;
      UsableSizes(g, Pages(position), spots, segs, ends);
      FiledSizes(spots, segs, at, lens, position - base);
      FiledApply(spots, segs, at, lens, position - base);
      lens := lens[|lens| - 1 := lens[|lens| - 1] + (position - base)];
      used := position;
    }

    method AddPage()
      requires used <= buffer.Length
      modifies this`full, this`buffer, this`used
      ensures fresh(buffer) && buffer.Length == g.pageSize && used == g.pageHeader
      ensures full == old(full + [Page(buffer[..], used)])
    {
      full := full + [Page(buffer[..], used)];
      buffer := new byte[g.pageSize];
      used := g.pageHeader;
    }

    method ConfigureBuffer()
      modifies this`base, this`position, this`end
      ensures base == position == used && end == buffer.Length
    {
      base, position, end := used, used, buffer.Length;
    }

    /** `mpack_builder_flush`, called when there is less room than every tag needs. */
    method BuilderFlush()
      requires Building() && Traced() && g.pageSize < position + MINIMUM_BUFFER
      modifies this`full, this`buffer, this`used, this`lens, this`base, this`position, this`end
      ensures Building() && View() == old(View()) && fresh(buffer)
      ensures position == g.pageHeader && end - position >= MINIMUM_BUFFER && Where() == Turned(g, old(Where()))
    {
      hide Stored, Filed, Sound, SeenFrom, Resolution, ResolutionAt;
      ApplyWrites();
      ghost var pages := Pages(used);
      AddPage();
      UsableSizes(g, pages, spots, segs, ends);
      StoredPage(g, pages, Page(buffer[..], used), spots, segs, ends);
      assert pages + [Page(buffer[..], used)] == Pages(used);
      ConfigureBuffer();
    }

    // ---- growing the caller's buffer

    /** The part of `mpack_growable_writer_flush` that chooses a new size. */
    method LargerSize(size: nat, needed: nat) returns (newSize: nat)
      requires size > 0
      ensures newSize == DoubledTo(2 * size, needed)
    {
      newSize := size * 2;
      while newSize < needed
        invariant newSize >= 2 * size && DoubledTo(newSize, needed) == DoubledTo(2 * size, needed)
        decreases needed - newSize
      {
        newSize := newSize * 2;
      }
    }

    /** `mpack_growable_writer_flush`: `own` tells data that is in the buffer from extra data. */
    method GrowFlush(own: bool, data: seq<byte>)
      requires growable && Direct()
      requires own ==> (position == 0 || position == |data|) && |data| <= end && buffer[..|data|] == data
      requires !own ==> |data| > end - position
      modifies this`buffer, this`position, this`end
      ensures Direct() && (buffer == old(buffer) || fresh(buffer))
      ensures buffer[..position] == if own then data else old(buffer[..position]) + data
      ensures own && old(position) == 0 && data != [] ==> end - position >= MINIMUM_BUFFER
      ensures if own && old(position) == |data| then buffer == old(buffer) && end == old(end)
              else end == DoubledTo(2 * old(end), if own then |data| else old(position) + |data|)
    {
      var extra := data;
      if own {
        if position - base == |data| { return; }
        position := base + |data|;
        extra := [];
      }
      var taken, size := position - base, end - base;
      var newSize := LargerSize(size, taken + |extra|);
      Realloc(taken, newSize);
      Copy(extra);
    }

    /** `mpack_realloc`: a new buffer with the bytes in use. */
    method Realloc(taken: nat, newSize: nat)
      requires taken <= buffer.Length && taken <= newSize
      modifies this`buffer, this`end
      ensures fresh(buffer) && buffer.Length == end == newSize && buffer[..taken] == old(buffer[..taken])
    {
      var newBuffer := new byte[newSize];
      forall i | 0 <= i < taken { newBuffer[i] := buffer[i]; }
      assert newBuffer[..taken] == buffer[..taken];
      buffer, end := newBuffer, newSize;
    }

    method FlushUnchecked()
      requires growable && Direct()
      modifies this`buffer, this`position, this`end
      ensures Direct() && (buffer == old(buffer) || fresh(buffer))
      ensures buffer[..position] == old(buffer[..position])
      ensures old(position) > 0 ==> end - position >= MINIMUM_BUFFER
    {
      var taken := position - base;
      position := base;
      GrowFlush(true, buffer[..taken]);
    }

    // ---- writing encoded bytes

    /** `mpack_writer_ensure`, called when there is less room than `count`. */
    method Ensure(count: nat) returns (ok: bool)
      requires Valid() && end - position < count <= MINIMUM_BUFFER
      modifies this
      ensures Valid() && (buffer == old(buffer) || fresh(buffer)) && unchanged(`stash, `spots, `segs, `ends)
      ensures unchanged(`current, `at, `overlooked, `lost)
      ensures View() == old(View())
      ensures ok ==> old(error) == error == Ok && count <= end - position && (growable || current >= 0)
      ensures Where() == if ok && current >= 0 then Turned(g, old(Where())) else old(Where())
      ensures !ok ==> unchanged(this`buffer, this`position, this`full)
      ensures !ok ==> if old(error) == Ok then error == TooBig && !growable && current < 0 else error == old(error)
    {
      hide Stored, Filed, Sound;
      if error != Ok { return false; }
      if current >= 0 {
        BuilderFlush();
        return error == Ok;
      }
      if !growable {
        FlagError(TooBig);
        return false;
      }
      FlushUnchecked();
      // the growing flush always makes enough room
      return end - position >= count;
    }

    /** What every write of bytes keeps. */
    twostate predicate Kept()
      reads this
    {
      && current == old(current) && overlooked == old(overlooked) && lost == old(lost)
      && stash == old(stash) && (buffer == old(buffer) || fresh(buffer))
    }

    /** `MPACK_WRITE_ENCODED` for bytes that fit the minimum buffer. */
    method WriteEncoded(b: seq<byte>)
      requires Valid() && 0 < |b| <= MINIMUM_BUFFER
      modifies this, buffer
      ensures Valid() && Kept() && (old(error) == Ok ==> Where() == Tagged(g, old(Where()), |b|))
      ensures Outcome(old(error), Added(old(View()), b))
    {
      hide Stored, Filed, Sound, Tenable, Where;
      var ok := end - position >= |b|;
      if !ok { ok := Ensure(|b|); }
      if ok { Put(b); }
    }

    /** The current page is full. */
    method TurnPage()
      requires Valid() && current >= 0 && position == end
      modifies this`full, this`buffer, this`used, this`lens, this`base, this`position, this`end
      ensures Valid() && View() == old(View()) && fresh(buffer) && end - position >= MINIMUM_BUFFER
      ensures Where() == Turned(g, old(Where()))
    {
      hide Stored, Filed, Sound, Tenable, Where, Turned;
      BuilderFlush();
    }

    /** As many bytes as the page takes; if there are more, a new page. */
    method FillPage(rest: seq<byte>) returns (step: nat)
      requires Valid() && current >= 0
      modifies this, buffer
      ensures step == if old(end - position) > |rest| then |rest| else old(end - position)
      ensures Valid() && Kept() && error == old(error) && View() == Added(old(View()), rest[..step])
      ensures step < |rest| ==>
                end - position > 0 && Spread(g, Where(), |rest| - step) == Spread(g, old(Where()), |rest|)
      ensures step == |rest| ==> Where() == Spread(g, old(Where()), |rest|)
    {
      hide Valid, Sound, Tenable, Where, Spread, Moved, Turned, Added;
      step := if end - position > |rest| then |rest| else end - position;
      SpreadStep(g, Where(), |rest|);
      Put(rest[..step]);
      if step < |rest| { TurnPage(); }
    }

    /** While something is being built, bytes are spread over as many pages as it takes. */
    method SpreadOverPages(p: seq<byte>)
      requires Valid() && current >= 0 && |p| > end - position
      modifies this, buffer
      ensures Valid() && Kept() && View() == Added(old(View()), p) && error == old(error)
      ensures Where() == Spread(g, old(Where()), |p|)
    {
      hide Valid, Sound, Tenable, Where, Spread, Added;
      var rest := p;
      ghost var done: seq<byte> := [];
      AddedNothing(View());
      while true
        invariant Valid() && Kept() && current >= 0 && error == old(error)
        invariant done + rest == p && View() == Added(old(View()), done)
        invariant Spread(g, Where(), |rest|) == Spread(g, old(Where()), |p|)
        decreases |rest|, end - position == 0
      {
        var step := FillPage(rest);
        AddedTwice(old(View()), done, rest[..step]);
        done := done + rest[..step];
        if step == |rest| {
          assert done == p;
          return;
        }
        rest := rest[step..];
      }
    }

    /** `mpack_write_native_straddle`, called when there is not enough room. */
    method WriteStraddling(p: seq<byte>)
      requires Valid() && |p| > end - position
      modifies this, buffer
      ensures Valid() && Kept() && (old(error) == Ok ==> Where() == Spread(g, old(Where()), |p|))
      ensures Outcome(old(error), Added(old(View()), p))
    {
      hide Stored, Filed, Sound, Tenable, Where;
      if error != Ok { return; }
      if current >= 0 {
        SpreadOverPages(p);
        return;
      }
      if !growable {
        FlagError(TooBig);
        return;
      }
      FlushUnchecked();
      if |p| > end - position {
        GrowFlush(false, p);
      } else {
        Copy(p);
      }
    }

    /** `mpack_write_native`. */
    method WriteNative(p: seq<byte>)
      requires Valid()
      modifies this, buffer
      ensures Valid() && Kept() && (old(error) == Ok ==> Where() == Spread(g, old(Where()), |p|))
      ensures Outcome(old(error), Added(old(View()), p))
    {
      hide Valid, Sound, Tenable, Where;
      if end - position < |p| {
        WriteStraddling(p);
      } else {
        Put(p);
      }
    }

    // ---- the calls of a client

    /** `mpack_writer_track_element`, the part that counts for the builder. */
    method TrackElement()
      requires Valid()
      modifies this`records
      ensures Valid() && View() == Tracked(old(View())) && Where() == old(Where())
    {
      hide Stored, Filed, Sound, SiteOf, Tenable;
      if current >= 0 {
        SiteRecord(g, |full|, position, spots, ends, records, current, Counted(records[current]), overlooked);
        records := records[current := Counted(records[current])];
      }
      assert View() == Tracked(old(View()));
    }

    /** `mpack_write_nil`, `_bool`, `_u64`, `_i64`, `_float`, `_double`. */
    method WriteScalar(v: Value)
      requires Valid() && IsScalar(v)
      modifies this, buffer
      ensures Valid() && Kept() && (old(error) == Ok ==> Where() == SiteStep(g, old(Where()), Call.Put(v)))
      ensures Outcome(old(error), Step(old(View()), Call.Put(v)))
    {
      hide Valid, Sound, Tracked, Added, EncodeTag, Tenable, Where;
      TrackElement();
      WriteEncoded(EncodeTag(TagOf(v)));
    }

    /** `mpack_write_str`: short strings are written together with their tag if there is room. */
    method WriteStr(s: seq<byte>)
      requires Valid() && |s| < U32
      modifies this, buffer
      ensures Valid() && Kept() && (old(error) == Ok ==> Where() == SiteStep(g, old(Where()), PutStr(s)))
      ensures Outcome(old(error), Step(old(View()), PutStr(s)))
    {
      hide Valid, Sound, Tracked, Added, EncodeTag, Tenable, Where;
      TrackElement();
      ShortText(s);
      if |s| <= 31 {
        WriteEncoded(TextBytes(s));
      } else if |s| <= 255 && |TextBytes(s)| <= end - position {
        RoomForBoth(g, Where(), |EncodeTag(StrTag(|s|))|, |s|);
        Put(TextBytes(s));
      } else {
        WriteTagged(EncodeTag(StrTag(|s|)), s);
      }
    }

    /** A tag and then raw bytes. */
    method WriteTagged(tag: seq<byte>, s: seq<byte>)
      requires Valid() && 1 <= |tag| <= 9
      modifies this, buffer
      ensures Valid() && Kept() && Tenable(g, Tagged(g, old(Where()), |tag|))
      ensures old(error) == Ok ==> Where() == Spread(g, Tagged(g, old(Where()), |tag|), |s|)
      ensures Outcome(old(error), Added(old(View()), tag + s))
    {
      hide Valid, Sound, Tenable, Where;
      TaggedTenable(g, Where(), |tag|);
      ghost var was := View();
      WriteEncoded(tag);
      WriteNative(s);
      AddedTwice(was, tag, s);
    }

    /** `mpack_start_str` and `mpack_start_bin`. */
    method StartBytes(bin: bool, n: u32)
      requires Valid()
      modifies this, buffer
      ensures Valid() && Kept() && (old(error) == Ok ==> Where() == SiteStep(g, old(Where()), StartRaw(bin, n)))
      ensures Outcome(old(error), Step(old(View()), StartRaw(bin, n)))
    {
      hide Valid, Sound, Tracked, Added, EncodeTag, Tenable, Where;
      TrackElement();
      WriteEncoded(EncodeTag(if bin then BinTag(n) else StrTag(n)));
    }

    /** `mpack_write_bytes`. */
    method WriteBytes(s: seq<byte>)
      requires Valid()
      modifies this, buffer
      ensures Valid() && Kept() && (old(error) == Ok ==> Where() == SiteStep(g, old(Where()), Bytes(s)))
      ensures Outcome(old(error), Step(old(View()), Bytes(s)))
    {
      hide Valid, Sound, Tenable, Where;
      WriteNative(s);
    }

    /** `mpack_start_array` and `mpack_start_map`. */
    method StartCompound(kind: Kind, n: u32)
      requires Valid()
      modifies this, buffer
      ensures Valid() && Kept() && (old(error) == Ok ==> Where() == SiteStep(g, old(Where()), Start(kind, n)))
      ensures Outcome(old(error), Step(old(View()), Start(kind, n)))
    {
      hide Valid, Sound, Tracked, Added, EncodeTag, Tenable, Where;
      TrackElement();
      WriteEncoded(EncodeTag(TagFor(kind, n)));
      CompoundPush(1);
    }

    /** `mpack_builder_compound_push` and `_pop`. */
    method CompoundPush(n: int)
      requires Valid() && (current >= 0 ==> records[current].nested + n >= 0)
      modifies this`records
      ensures Valid() && View() == Deepened(old(View()), n) && Where() == old(Where())
    {
      hide Stored, Filed, Sound, SiteOf, Tenable;
      if current >= 0 {
        var r := records[current].(nested := records[current].nested + n);
        SiteRecord(g, |full|, position, spots, ends, records, current, r, overlooked);
        records := records[current := r];
      }
      assert View() == Deepened(old(View()), n);
    }

    /** `mpack_finish_array` and `mpack_finish_map`; within a build something must have been started. */
    method FinishCompound(kind: Kind)
      requires Valid() && Allowed(View(), Finish(kind))
      modifies this`records
      ensures Valid() && View() == Step(old(View()), Finish(kind)) && Where() == old(Where())
    {
      hide Valid;
      CompoundPush(-1);
    }

    // ---- opening a build

    /** `mpack_builder_begin`: the caller's buffer is put aside. */
    method Begin()
      requires Direct()
      modifies this`stash, this`stashPosition, this`stashEnd, this`buffer, this`used
      ensures stash == old(buffer) && stashPosition == old(position) && stashEnd == old(end)
      ensures fresh(buffer) && buffer.Length == g.pageSize && used == g.pageHeader
    {
      stash, stashPosition, stashEnd := buffer, position, end;
      buffer := new byte[g.pageSize];
      used := g.pageHeader;
    }

    /** Aligned room for a header: in this page, or else in a new one. */
    method FindRoom() returns (offset: nat)
      requires Usable(g) && buffer.Length == g.pageSize && used <= g.pageSize
      modifies this`full, this`buffer, this`used
      ensures buffer.Length == g.pageSize && offset + g.buildSize <= g.pageSize
                && (buffer == old(buffer) || fresh(buffer))
      ensures offset == Align(g, used) && Placed(g, old(Pages(used)), Pages(offset + g.buildSize))
      ensures if Align(g, old(used)) + g.buildSize <= g.pageSize then full == old(full) && used == old(used)
              else |full| == |old(full)| + 1 && used == g.pageHeader
    {
      offset := Align(g, used);
      if offset + g.buildSize > g.pageSize {
        AddPage();
        offset := Align(g, used);
        assert Pages(offset + g.buildSize)[..|old(Pages(used))|] == old(Pages(used));
      } else {
        ghost var pages := Pages(used);
        assert pages[|pages| - 1 := Page(buffer[..], offset + g.buildSize)] == Pages(offset + g.buildSize);
      }
    }

    /** A header has been put at `offset` of the current page: it gets a record. */
    method AddRecord(kind: Kind, offset: nat)
      modifies this`used, this`records, this`lens, this`at, this`current, this`spots, this`segs, this`ends
      ensures used == offset + g.buildSize && current == old(|records|)
      ensures records == old(records + [Record(kind, current, 0, 0, false)]) && lens == old(lens) + [0]
      ensures var s := Spot(|full|, offset);
              && at == old(at)[s := old(|lens|)] && spots == old(spots) + [s]
              && segs == old(segs) + [[]] && ends == old(ends) + [Body(g, s)]
    {
      used := offset + g.buildSize;
      at := at[Spot(|full|, offset) := |lens|];
      records, lens, current := records + [Record(kind, current, 0, 0, false)], lens + [0], |records|;
      ghost var s := Spot(|full|, offset);
      spots, segs, ends := spots + [s], segs + [[]], ends + [Body(g, s)];
    }

    /** The first header of the first page. */
    method PlaceFirst(kind: Kind)
      requires current == -1 && NoBuilds() && Usable(g) && Home(stash, stashPosition, stashEnd)
      requires buffer != stash && buffer.Length == g.pageSize && used == g.pageHeader
      modifies this`full, this`buffer, this`used, this`records, this`lens, this`at, this`current
      modifies this`spots, this`segs, this`ends
      ensures Storing(used, 0) && View() == Opened(Draft(stash[..stashPosition], [], [], -1), kind)
      ensures buffer == old(buffer) || fresh(buffer)
      ensures Traced() && WhereAt(used) == FirstHeader(g, overlooked)
    {
      hide Stored, Filed, Placed, Sound;
      var offset := FindRoom();
      assert full == [];
      StoredFirst(g, Page(buffer[..], offset + g.buildSize));
      NothingFiled();
      FiledHeader([], [], map[], [], Spot(0, offset));
      AddRecord(kind, offset);
      assert spots == [FirstSpot(g, 0)] && segs == [[]] && ends == [Body(g, FirstSpot(g, 0))];
      NothingBuilt(stash[..stashPosition]);
      assert View() == Opened(Draft(stash[..stashPosition], [], [], -1), kind);
      assert Pages(used) == [Page(buffer[..], offset + g.buildSize)];
    }

    /** A further header. */
    method PlaceNext(kind: Kind)
      requires Storing(used, 0) && Traced()
      modifies this`full, this`buffer, this`used, this`records, this`lens, this`at, this`current
      modifies this`spots, this`segs, this`ends
      ensures Storing(used, 0) && View() == Opened(old(View()), kind)
      ensures buffer == old(buffer) || fresh(buffer)
      ensures Traced() && WhereAt(used) == NextHeader(g, old(WhereAt(used)))
    {
      hide Stored, Filed, Placed, Sound, SiteOf, NextHeader;
      ghost var pages := Pages(used);
      UsableSizes(g, pages, spots, segs, ends);
      FiledSizes(spots, segs, at, lens, 0);
      assert pages[|full|].used == used;
      var offset := FindRoom();
      StoredHeader(g, pages, Pages(offset + g.buildSize), spots, segs, ends);
      FiledHeader(spots, segs, at, lens, Spot(|full|, offset));
      SiteNext(g, |pages| - 1, pages[|pages| - 1].used, spots, ends, records, current, overlooked, kind);
      AddRecord(kind, offset);
      assert View() == Opened(old(View()), kind);
    }

    /** The first half of opening a build: a header with its record. */
    method PlaceHeader(kind: Kind)
      requires Valid()
      modifies this
      ensures Storing(used, 0) && error == old(error) && lost == old(lost) && overlooked == old(overlooked)
      ensures fresh({buffer, stash} - old({buffer, stash}))
      ensures current >= 0 && Readable() && View() == Opened(old(View()), kind)
      ensures Traced() && Secured(g, WhereAt(used)) == Headed(g, old(Where()))
    {
      hide Stored, Filed, Sound, Opened, SiteOf, Tenable, Secured, Resolution, ResolutionAt;
      if current < 0 {
        Begin();
        PlaceFirst(kind);
      } else {
        ApplyWrites();
        PlaceNext(kind);
      }
    }

    /** The second half: room for any tag. */
    method SecureRoom()
      requires Storing(used, 0) && used <= g.pageSize && Traced()
      modifies this`full, this`buffer, this`used, this`base, this`position, this`end
      ensures Building() && View() == old(View()) && (buffer == old(buffer) || fresh(buffer))
      ensures end - position >= MINIMUM_BUFFER && Where() == Secured(g, old(WhereAt(used)))
    {
      hide Stored, Filed, Sound, SeenFrom;
      UsableSizes(g, Pages(used), spots, segs, ends);
      if g.pageSize - used < MINIMUM_BUFFER {
        ghost var pages := Pages(used);
        AddPage();
        StoredPage(g, pages, Page(buffer[..], used), spots, segs, ends);
        assert pages + [Page(buffer[..], used)] == Pages(used);
      }
      ConfigureBuffer();
    }

    /** `mpack_builder_build`: opens an array or map of unknown size. */
    method OpenBuild(kind: Kind)
      requires Valid()
      modifies this
      ensures Valid() && error == old(error) && lost == old(lost) && overlooked == old(overlooked)
      ensures fresh({buffer, stash} - old({buffer, stash}))
      ensures old(error) == Ok ==> View() == Step(old(View()), Call.Build(kind))
      ensures old(error) != Ok ==> unchanged(this)
      ensures old(error) == Ok ==> Where() == SiteStep(g, old(Where()), Call.Build(kind))
    {
      hide Storing, Direct, Home, Sound, Tracked, Opened, Headed, Secured, Tenable, Where, WhereAt;
      if error != Ok { return; }
      TrackElement();
      PlaceHeader(kind);
      UsedFits();
      SecureRoom();
    }

    lemma UsedFits()
      requires Storing(used, 0)
      ensures used <= g.pageSize
    {
      hide Kept, Filed, Sound;
      assert Pages(used)[|full|].used == used;
    }

    // ---- resolving

    /** Copies `left` bytes that start at `s` to the caller's buffer, page by page. */
    method CopyOut(ps: seq<Page>, s: Spot, left: nat) returns (found: bool, e: Spot)
      requires Valid() && current < 0 && PagesOk(g, ps)
      modifies this, buffer
      ensures Valid() && Kept()
      ensures found <==> Collect(g, ps, s, left).Collected?
      ensures found ==> e == Collect(g, ps, s, left).end
      ensures found ==> Outcome(old(error), Added(old(View()), Collect(g, ps, s, left).bytes))
    {
      hide Stored, Filed, HeaderIn, Collect, Here;
      e := s;
      var rest: nat := left;
      ghost var done: seq<byte> := [];
      ghost var whole := Collect(g, ps, s, left);
      AddedNothing(View());
      CollectsNothing(whole);
      while rest > 0
        invariant Valid() && Kept() && current < 0
        invariant var c := Collect(g, ps, e, rest);
                  if c.Lost? then whole.Lost? else whole == Collected(done + c.bytes, c.end)
        invariant Outcome(old(error), Added(old(View()), done))
        decreases rest, |ps| - e.page
      {
        if e.page >= |ps| {
          NothingCollected(g, ps, e, rest);
          return false, e;
        }
        var h := Here(ps[e.page], e.off);
        var step := if |h| > rest then rest else |h|;
        CollectStep(g, ps, e, rest, step, done, whole);
        if step > 0 {
          WriteNative(h[..step]);
          AddedTwice(old(View()), done, h[..step]);
          done := done + h[..step];
        }
        rest := rest - step;
        e := if rest == 0 then Spot(e.page, e.off + step) else Spot(e.page + 1, g.pageHeader);
      }
      found := true;
      CollectNothing(g, ps, e);
      assert done + [] == done;
    }

    /** Writes the tag of a build, and the bytes behind its header. */
    method EmitBuild(r: Record, ps: seq<Page>, s: Spot, left: nat) returns (found: bool, e: Spot)
      requires Valid() && current < 0 && PagesOk(g, ps)
      modifies this, buffer
      ensures Valid() && Kept()
      ensures found <==> Collect(g, ps, s, left).Collected?
      ensures found ==> e == Collect(g, ps, s, left).end
      ensures found ==> Outcome(old(error), Added(old(View()), Head(r) + Collect(g, ps, s, left).bytes))
    {
      hide Collect, Valid, EncodeTag;
      WriteEncoded(EncodeTag(TagFor(r.kind, r.count)));
      found, e := CopyOut(ps, s, left);
      if found { AddedTwice(old(View()), Head(r), Collect(g, ps, s, left).bytes); }
    }

    /** A place without a header was taken for one; what a C program does then is not defined, the model stops. */
    method Lose()
      requires Valid()
      modifies this`lost
      ensures Valid() && lost
    {
      hide Stored, Filed, Sound;
      lost := true;
    }

    /** Walks over the headers that are found, writing tags with their final counts and the bytes between them. */
    method Walk(ps: seq<Page>, rs: seq<Record>, ls: seq<nat>, index: map<Spot, nat>)
      requires Valid() && current < 0 && PagesOk(g, ps)
      modifies this, buffer
      ensures Valid() && current == -1 && overlooked == old(overlooked)
      ensures stash == old(stash) && (buffer == old(buffer) || fresh(buffer))
      ensures var r := Resolved(g, ps, index, Heads(rs), ls, FirstSpot(g, 0));
              if r.Garbage? then lost else lost == old(lost) && Outcome(old(error), Added(old(View()), r.bytes))
    {
      hide Valid, Resolved, Collect, HeaderIn, Align, Head, Heads;
      var s := FirstSpot(g, 0);
      ghost var done: seq<byte> := [];
      ghost var whole := Resolved(g, ps, index, Heads(rs), ls, s);
      AddedNothing(View());
      EmitsNothing(whole);
      while true
        invariant Valid() && Kept() && current == -1 && s.off <= g.pageSize
        invariant Ahead(done, whole, Resolved(g, ps, index, Heads(rs), ls, s))
        invariant Outcome(old(error), Added(old(View()), done))
        decreases |ps| - s.page, g.pageSize - s.off
      {
        WalkStep(g, ps, index, Heads(rs), ls, s, done, whole);
        if s !in index || index[s] >= |rs| || index[s] >= |ls| || s.page >= |ps| {
          Lose();
          return;
        }
        var i := index[s];
        var found, e := EmitBuild(rs[i], ps, Body(g, s), ls[i]);
        if !found {
          Lose();
          return;
        }
        ghost var b := Head(rs[i]) + Collect(g, ps, Body(g, s), ls[i]).bytes;
        AddedTwice(old(View()), done, b);
        done := done + b;
        var next := NextSpot(g, e);
        if !HeaderIn(g, ps, next) { return; }
        s := next;
      }
    }

    /** The headers of the builds are all where they are looked for. */
    ghost predicate Seen()
      reads this
      requires Usable(g)
    {
      |spots| == |ends| && SeenFrom(g, spots, ends, 0)
    }

    /** The caller's buffer comes back. */
    method Restore()
      requires Home(stash, stashPosition, stashEnd)
      modifies this`buffer, this`base, this`position, this`end, this`current
      ensures current == -1 && base == 0 && Home(buffer, position, end) && buffer == stash
      ensures buffer[..position] == old(stash[..stashPosition])
    {
      buffer, base, position, end := stash, 0, stashPosition, stashEnd;
      current := -1;
    }

    method DropBuilds()
      modifies this`full, this`records, this`lens, this`at, this`spots, this`segs, this`ends
      ensures NoBuilds()
    {
      full, records, lens, at := [], [], [], map[];
      spots, segs, ends := [], [], [];
    }

    /** The builder is closed, and the caller's buffer takes writes again. */
    method EndBuilding()
      requires Usable(g) && Storing(used, 0)
      modifies this
      ensures Valid() && current == -1 && error == old(error) && lost == old(lost)
      ensures overlooked == (old(overlooked) || !old(Seen()))
      ensures buffer == stash == old(stash) && View() == Draft(old(stash[..stashPosition]), [], [], -1)
    {
      hide Stored, Filed, SeenFrom, Sound;
      overlooked := overlooked || !Seen();
      Restore();
      DropBuilds();
      NothingBuilt(buffer[..position]);
    }

    /** What resolving would emit now. */
    ghost function Resolution(): BuildPages.Outcome
      reads this, buffer
    {
      if base <= position && lens != [] then
        ResolutionAt(position, lens[|lens| - 1 := lens[|lens| - 1] + (position - base)])
      else Garbage
    }

    /** The same with `n` bytes of the last page in use, and `ls` behind the headers. */
    ghost function ResolutionAt(n: nat, ls: seq<nat>): BuildPages.Outcome
      reads this, buffer
    {
      if Usable(g) && PagesOk(g, Pages(n)) then Resolved(g, Pages(n), at, Heads(records), ls, FirstSpot(g, 0))
      else Garbage
    }

    /** If the header behind the first build is looked for where there are no bytes, only the first build comes out. */
    lemma {:induction false} CutResolution()
      requires Valid() && current >= 0 && ends != [] && !HeaderIn(g, Pages(position), NextSpot(g, ends[0]))
      ensures records != [] && segs != [] && Resolution() == Output(Head(records[0]) + segs[0])
    {
      hide Stored, Filed, Resolved, HeaderIn, NextSpot, Heads, Head, Sound, Indexed;
      UsableSizes(g, Pages(position), spots, segs, ends);
      FiledSizes(spots, segs, at, lens, position - base);
      FiledApply(spots, segs, at, lens, position - base);
      var l := |lens| - 1;
      var ls, heads := lens[l := lens[l] + (position - base)], Heads(records);
      FiledIndexed(spots, segs, at, ls, records);
      FirstStored(g, Pages(position), spots, segs, ends);
      ResolvesCut(g, Pages(position), spots, segs, ends, at, heads, ls, 0, 0);
      FirstOnly(heads, segs);
      FirstHead(records);
    }

    /** That is so before the last call of the flush plan. */
    lemma {:induction false} FlushCut(b: seq<byte>)
      requires Valid() && g == DEFAULT_GEOMETRY && |b| == 4013
      requires View() == FlushEnd([EncodeTag(BinTag(4013)) + b, []])
      requires Where() == Inside(1, 16, Spot(0, 4096), 1, true, false)
      ensures Resolution() == Output(EncodeTag(ArrayTag(2)) + (EncodeTag(BinTag(4013)) + b))
    {
      hide Stored, Filed, Resolved, HeaderIn, NextSpot, SeenFrom, Chain;
      BinTagSize();
      FlushEnds(Pages(position), spots, segs, ends);
      CutResolution();
    }

    /** Resolving emitted `r` behind `out`, or took a place for a header that holds none. */
    ghost predicate Resolves(r: BuildPages.Outcome, out: seq<byte>, wasLost: bool)
      reads this, buffer, stash
      requires Readable()
    {
      if r.Garbage? then lost else lost == wasLost && Outcome(Ok, Draft(out + r.bytes, [], [], -1))
    }

    /** `mpack_builder_resolve`. */
    method Resolve()
      requires Usable(g) && Storing(used, 0) && error == Ok
      modifies this, buffer, stash
      ensures Valid() && current == -1 && overlooked == (old(overlooked) || !old(Seen()))
      ensures fresh({buffer, stash} - old({buffer, stash}))
      ensures var out := old(stash[..stashPosition]) + old(Flat(Heads(records), segs, 0));
              if old(Seen()) then lost == old(lost) && Outcome(Ok, Draft(out, [], [], -1))
              else lost || (!old(lost) && (error != Ok || |View().out| < |out|))
      ensures Resolves(old(ResolutionAt(used, lens)), old(stash[..stashPosition]), old(lost))
    {
      hide Stored, Valid, Resolved, Flat, SeenFrom, Heads, Align, Filed;
      var ps, rs, ls, index := full + [Page(buffer[..], used)], records, lens, at;
      ResolveEmits(g, ps, spots, segs, ends, index, rs, ls);
      EndBuilding();
      Walk(ps, rs, ls, index);
    }

    /** Completing an outermost build leads outside. */
    lemma Outermost()
      requires Traced() && current >= 0 && records[current].parent < 0
      ensures Ended(WhereAt(used)) == Outside(overlooked || !Seen())
    {
      hide SeenFrom;
      assert Chain(records, records[current].parent) == 0;
    }

    /** `mpack_builder_complete`. */
    method CompleteBuild(kind: Kind)
      requires Valid() && (error == Ok ==> current >= 0 && records[current].kind == kind)
      modifies this, buffer, stash
      ensures Valid() && fresh({buffer, stash} - old({buffer, stash}))
      ensures old(error) == Ok && old(Closable(View())) ==> Where() == Ended(old(Where()))
      ensures old(error) != Ok ==> unchanged(this)
      ensures old(error) == Ok && old(records[current].keyNeedsValue || records[current].nested != 0) ==>
                error == Bug && !old(Closable(View()))
      ensures old(error) == Ok && !old(Closable(View())) ==>
                error == Bug && View() == old(View()) && lost == old(lost) && overlooked == old(overlooked)
      ensures old(error) == Ok && old(Closable(View())) ==>
                Completed(old(View()), old(records[current].parent), old(Seen()), old(lost), old(overlooked))
      ensures old(error) == Ok && old(Closable(View())) && old(records[current].parent) < 0 ==>
                Resolves(old(Resolution()), old(View()).out, old(lost))
    {
      hide Stored, Filed, SeenFrom, Flat, Heads, Tenable, Resolution, Resolves;
      if error != Ok { return; }
      if records[current].keyNeedsValue {
        FlagError(Bug);
        return;
      }
      if records[current].nested != 0 {
        FlagError(Bug);
        return;
      }
      PopBuild();
    }

    /** The end of completing: back to the build around it, or resolving. */
    method PopBuild()
      requires Valid() && error == Ok && current >= 0 && Closable(View())
      modifies this, buffer, stash
      ensures Valid() && fresh({buffer, stash} - old({buffer, stash})) && Where() == Ended(old(Where()))
      ensures Completed(old(View()), old(records[current].parent), old(Seen()), old(lost), old(overlooked))
      ensures old(records[current].parent) < 0 ==> Resolves(old(Resolution()), old(View()).out, old(lost))
    {
      hide Stored, Filed, SeenFrom, Flat, Heads, Sound, ResolutionAt;
      ApplyWrites();
      if records[current].parent >= 0 {
        BackToParent();
      } else {
        Outermost();
        Resolve();
      }
    }

    /** The build around the one just completed takes further elements. */
    method BackToParent()
      requires Storing(used, 0) && used <= g.pageSize && Closable(View()) && records[current].parent >= 0 && Traced()
      modifies this`current, this`base, this`position, this`end
      ensures Building() && View() == Closed(old(View())) && Where() == Ended(old(WhereAt(used)))
    {
      hide Stored, Filed, Flat, Heads, Sound, SeenFrom;
      assert Sound(Closed(View()));
      current := records[current].parent;
      ConfigureBuffer();
    }

    /** What completing a build that can be completed does. */
    ghost predicate Completed(was: Draft, parent: int, seen: bool, wasLost: bool, wasOverlooked: bool)
      reads this, buffer, stash
      requires Readable() && Sound(was) && Closable(was)
    {
      if parent >= 0 then error == Ok && View() == Closed(was) && lost == wasLost && overlooked == wasOverlooked
      else current == -1 && overlooked == (wasOverlooked || !seen) &&
           if seen then lost == wasLost && Outcome(Ok, Closed(was))
           else lost || (!wasLost && (error != Ok || |View().out| < |Closed(was).out|))
    }

    // ---- runs of calls

    /** Nothing is being built once there is an error; so it is unless a build was completed that could not be. */
    ghost predicate Settled()
      reads this
    {
      error == Ok || current == -1
    }

    /** What is out is not longer than it should be, and shorter if a header was overlooked or something was lost. */
    ghost predicate Short(d: Draft, wasOverlooked: bool)
      reads this, buffer, stash
      requires Readable()
    {
      lost || (|View().out| <= |d.out| && (overlooked && !wasOverlooked ==> |View().out| < |d.out|))
    }

    /** One call. */
    method Do(c: Call)
      requires Valid() && Settled() && Typed(c) && (error == Ok ==> Allowed(View(), c))
      modifies this, buffer, stash
      ensures Valid() && Settled() && fresh({buffer, stash} - old({buffer, stash}))
      ensures if old(error) == Ok then Where() == SiteStep(g, old(Where()), c)
              else error == old(error) && Where() == old(Where()) && lost == old(lost)
      ensures old(error) == Ok && !overlooked ==> lost == old(lost) && Outcome(Ok, Step(old(View()), c))
      ensures old(error) == error == Ok ==> View() == Step(old(View()), c).(out := View().out)
      ensures old(error) == error == Ok ==> (old(lost) ==> lost) && Short(Step(old(View()), c), old(overlooked))
    {
      hide Opened, Sound, Valid, Flat, EncodeTag, Tenable, SeenFrom, Headed;
      match c
      case Put(v) => WriteScalar(v);
      case PutStr(s) => WriteStr(s);
      case StartRaw(bin, n) => StartBytes(bin, n);
      case Bytes(s) => WriteBytes(s);
      case FinishRaw(_) =>
      case Start(kind, n) => StartCompound(kind, n);
      case Finish(kind) => FinishCompound(kind);
      case Build(kind) => OpenBuild(kind);
      case Complete(kind) => CompleteBuild(kind);
    }

    /** The state after the calls `cs`, made without an error at the draft `d` and the site `s`. */
    ghost predicate Followed(d: Draft, s: Site, cs: seq<Call>, wasLost: bool, wasOverlooked: bool)
      reads this, buffer, stash
      requires Readable() && Traced() && Tenable(g, s) && forall i :: 0 <= i < |cs| ==> Typed(cs[i])
    {
      && Run(d, cs).At? && (overlooked ==> SiteRun(g, s, cs).missed)
      && (error == Ok ==>
            && Where() == SiteRun(g, s, cs) && View() == Run(d, cs).d.(out := View().out)
            && Short(Run(d, cs).d, wasOverlooked))
      && (!overlooked ==> lost == wasLost && Outcome(Ok, Run(d, cs).d))
    }

    /** One more call, if `on` one that is allowed; only after an error it need not be. */
    method Follow(c: Call, ghost on: bool, ghost d: Draft, ghost s: Site, ghost cs: seq<Call>, ghost wasLost: bool,
          ghost wasOverlooked: bool)
      requires Valid() && Settled() && Typed(c) && Tenable(g, s) && forall i :: 0 <= i < |cs| ==> Typed(cs[i])
      requires if on then Followed(d, s, cs, wasLost, wasOverlooked) && Run(d, cs + [c]).At? else error != Ok
      modifies this, buffer, stash
      ensures Valid() && Settled() && fresh({buffer, stash} - old({buffer, stash}))
      ensures on ==> Followed(d, s, cs + [c], wasLost, wasOverlooked)
      ensures old(error) != Ok ==> error == old(error)
    {
      hide Valid, Sound, Step, Allowed, SiteStep, SeenFrom, Tenable, Chain;
      if on {
        assert (cs + [c])[..|cs|] == cs;
        MissedStays(g, SiteRun(g, s, cs), c);
        RunsPrefix(d, cs + [c], |cs|);
        var m := Run(d, cs).d;
        if error == Ok { OutAside(m, c, View().out); }
        StepOut(m, c);
      }
      Do(c);
    }

    /** `mpack_writer_flag_if_error`, for a call that the nesting checker refuses. */
    method Refuse(e: Error)
      requires Valid() && e != Ok
      modifies this`error
      ensures Valid() && error != Ok && (old(error) != Ok ==> error == old(error))
    {
      hide Stored, Filed, Sound, SiteOf;
      FlagError(e);
    }

    /** Calls one after the other; none of them may be out of place. */
    method Execute(cs: seq<Call>)
      requires Valid() && Settled() && forall i :: 0 <= i < |cs| ==> Typed(cs[i])
      requires error == Ok ==> Run(View(), cs).At?
      modifies this, buffer, stash
      ensures Valid() && Settled() && fresh({buffer, stash} - old({buffer, stash}))
      ensures old(error) != Ok ==> error == old(error)
      ensures old(error) == Ok && !SiteRun(g, old(Where()), cs).missed ==> !overlooked
      ensures old(error) == error == Ok ==> Where() == SiteRun(g, old(Where()), cs)
      ensures old(error) == Ok && !overlooked ==> lost == old(lost) && Outcome(Ok, Run(old(View()), cs).d)
      ensures old(error) == error == Ok ==> View() == Run(old(View()), cs).d.(out := View().out)
      ensures old(error) == error == Ok ==> Short(Run(old(View()), cs).d, old(overlooked))
    {
      hide Valid, Sound, Step, Allowed, SiteStep, SeenFrom, Tenable, Chain;
      ghost var d, s := View(), Where();
      ghost var on := error == Ok;
      for i := 0 to |cs|
        invariant Valid() && Settled() && fresh({buffer, stash} - old({buffer, stash}))
        invariant if on then Followed(d, s, cs[..i], old(lost), old(overlooked)) else error == old(error)
      {
        assert cs[..i + 1] == cs[..i] + [cs[i]];
        if on { RunsPrefix(d, cs, i); }
        Follow(cs[i], on, d, s, cs[..i], old(lost), old(overlooked));
      }
      assert cs[..|cs|] == cs;
    }

    /**
     * Plans, one after the other, by the calls of a client. Whether a header will be overlooked is decided by the
     * calls: if none is, the bytes of the plans are appended, and with a fixed buffer the error stays Ok if and only if
     * all of them fit; if one is, they are not. Below the size limit of the format they are the encodings of the values
     * meant.
     */
    method WritePlans(ps: seq<Plan>)
      requires Valid() && error == Ok && current == -1 && !overlooked && AllBalanced(ps)
      modifies this, buffer, stash
      ensures Valid() && current == -1 && fresh({buffer, stash} - old({buffer, stash}))
      ensures forall i :: 0 <= i < |CallsAll(ps)| ==> Typed(CallsAll(ps)[i])
      ensures error == Ok ==> (overlooked <==> Misses(g, CallsAll(ps)))
      ensures g.buildSize >= MINIMUM_BUFFER ==> (Misses(g, CallsAll(ps)) <==> Flushes(g, CallsAll(ps)))
      ensures var out := old(View()).out + EmittedAll(ps);
              if Misses(g, CallsAll(ps)) then lost || error != Ok || |View().out| < |out|
              else if growable || |out| <= capacity then error == Ok && View().out == out && lost == old(lost)
              else error == TooBig && lost == old(lost)
      ensures AllProper(ps) ==> AllWellFormed(MeantAll(ps)) && EmittedAll(ps) == EncodeAll(MeantAll(ps))
    {
      hide Valid, Sound, Run, EncodeAll, CallsAll, SeenFrom, Tenable, SiteRun, Chain, Flushes, EmittedAll, AllBalanced,
           AllProper, AllWellFormed;
      ghost var e := ItemsRun(View(), ps);
      BuiltAsDirect(View(), ps, e);
      CallsTyped(ps);
      if g.buildSize >= MINIMUM_BUFFER { MissesExactly(g, ps); }
      if AllProper(ps) { AllProperEmit(ps); }
      Execute(CallsAll(ps));
    }

    /**
     * `mpack_writer_destroy`: a growable writer, which must have nothing being built, is flushed and torn down, and
     * hands over what was written; with a fixed buffer there is nothing to do.
     */
    method Destroy() returns (data: array<byte>, size: nat)
      requires Valid() && (growable ==> current == -1)
      modifies this
      ensures error == old(error) && size <= data.Length && (error == Ok ==> data[..size] == old(View()).out)
      ensures !growable ==> data == home && unchanged(this)
      ensures growable && error == Ok ==>
                data.Length == if size >= old(end) / 2 then old(end) else if size != 0 then size else 1
    {
      if current >= 0 { return stash, stashPosition; }
      if growable && error == Ok && position - base != 0 { GrowFlush(true, buffer[..position]); }
      data, size := buffer, position;
      if growable && error == Ok && position < end / 2 {
        data := new byte[if size != 0 then size else 1];
        forall i | 0 <= i < size { data[i] := buffer[i]; }
        assert data[..size] == buffer[..size];
      }
    }
  }

  /** What was missed stays missed. */
  lemma {:induction false} MissedStays(g: Geometry, s: Site, c: Call)
    requires Usable(g) && Tenable(g, s) && Typed(c)
    ensures s.missed ==> SiteStep(g, s, c).missed
  {
    hide EncodeTag, NextSpot, HeaderSpot;
    if c.PutStr? {
      ShortTag(|c.s|);
      if |c.s| > 31 {
        TaggedTenable(g, s, |EncodeTag(StrTag(|c.s|))|);
        SpreadMissed(g, Tagged(g, s, |EncodeTag(StrTag(|c.s|))|), |c.s|);
      }
    } else if c.Bytes? {
      SpreadMissed(g, s, |c.s|);
    }
  }

  lemma {:induction false} SpreadMissed(g: Geometry, s: Site, n: nat)
    requires Tenable(g, s)
    ensures Spread(g, s, n).missed == s.missed
    decreases n, s.Inside? && s.off == g.pageSize
  {
    if s.Inside? && s.off + n > g.pageSize {
      var room := g.pageSize - s.off;
      SpreadMissed(g, Turned(g, Moved(s, room)), n - room);
    }
  }

  /** The site of a state in the middle of a build. */
  ghost function SiteOf(g: Geometry, page: nat, off: nat, spots: seq<Spot>, ends: seq<Spot>, rs: seq<Record>, c: int,
        missed: bool): (s: Site)
    requires Usable(g) && |spots| == |ends| > 0 && Rooted(rs, c)
    ensures s.Inside? && s.page == page && s.off == off
  {
    Inside(page, off, ends[|ends| - 1], Chain(rs, c), !SeenFrom(g, spots, ends, 0), missed)
  }

  /** Bytes in the same page. */
  lemma {:induction false} SiteMoved(g: Geometry, page: nat, off: nat, n: nat, spots: seq<Spot>, ends: seq<Spot>,
        rs: seq<Record>, c: int, missed: bool)
    requires Usable(g) && |spots| == |ends| > 0 && Rooted(rs, c)
    ensures var l := |ends| - 1;
            Moved(SiteOf(g, page, off, spots, ends, rs, c, missed), n) ==
              SiteOf(g, page, off + n, spots, if n == 0 then ends else ends[l := Spot(page, off + n)], rs, c, missed)
  {
    var l := |ends| - 1;
    var more := ends[l := Spot(page, off + n)];
    forall j: nat | j + 1 < |spots|
      ensures NextSpot(g, more[j]) == spots[j + 1] <==> NextSpot(g, ends[j]) == spots[j + 1]
    {
    }
    assert SeenFrom(g, spots, ends, 0) <==> SeenFrom(g, spots, more, 0);
  }

  /** A record may change in anything but its parent. */
  lemma {:induction false} SiteRecord(g: Geometry, page: nat, off: nat, spots: seq<Spot>, ends: seq<Spot>,
        rs: seq<Record>, c: int, r: Record, missed: bool)
    requires Usable(g) && |spots| == |ends| > 0 && Rooted(rs, c) && 0 <= c < |rs| && r.parent == rs[c].parent
    ensures Rooted(rs[c := r], c)
    ensures SiteOf(g, page, off, spots, ends, rs[c := r], c, missed) == SiteOf(g, page, off, spots, ends, rs, c, missed)
  {
    hide SeenFrom;
    ChainSame(rs, rs[c := r], c);
  }

  /** A further header. */
  lemma {:induction false} SiteNext(g: Geometry, page: nat, off: nat, spots: seq<Spot>, ends: seq<Spot>,
        rs: seq<Record>, c: int, missed: bool, kind: Kind)
    requires Usable(g) && |spots| == |ends| > 0 && Rooted(rs, c)
    ensures var s, r := SiteOf(g, page, off, spots, ends, rs, c, missed), Record(kind, c, 0, 0, false);
            var h := HeaderSpot(g, s);
            && Rooted(rs + [r], |rs|)
            && NextHeader(g, s) == SiteOf(g, h.page, h.off + g.buildSize, spots + [h], ends + [Body(g, h)],
                                          rs + [r], |rs|, missed)
  {
    hide SeenFrom;
    var h := HeaderSpot(g, SiteOf(g, page, off, spots, ends, rs, c, missed));
    ChainSame(rs, rs + [Record(kind, c, 0, 0, false)], c);
    SeenNext(g, spots, ends, h, Body(g, h));
  }

  /** A header is added. */
  lemma {:induction false} SeenNext(g: Geometry, spots: seq<Spot>, ends: seq<Spot>, s: Spot, e: Spot)
    requires Usable(g) && |spots| == |ends| > 0
    ensures SeenFrom(g, spots + [s], ends + [e], 0) <==>
              SeenFrom(g, spots, ends, 0) && NextSpot(g, ends[|ends| - 1]) == s
  {
    var o, f := spots + [s], ends + [e];
    forall j: nat | j + 1 < |spots| ensures NextSpot(g, f[j]) == o[j + 1] <==> NextSpot(g, ends[j]) == spots[j + 1] {
    }
    if SeenFrom(g, o, f, 0) {
      var l: nat := |spots| - 1;
      assert NextSpot(g, f[l]) == o[l + 1];
      forall j: nat | j + 1 < |spots| ensures NextSpot(g, ends[j]) == spots[j + 1] {
        assert NextSpot(g, f[j]) == o[j + 1];
      }
    }
  }

  /** One page of a spread. */
  lemma SpreadStep(g: Geometry, s: Site, n: nat)
    requires Tenable(g, s) && s.Inside?
    ensures if s.off + n <= g.pageSize then Spread(g, s, n) == Moved(s, n) else
            var t := Turned(g, Moved(s, g.pageSize - s.off));
            Tenable(g, t) && Spread(g, s, n) == Spread(g, t, n - (g.pageSize - s.off))
  {
  }

  /** A tag and its string that fit together go where they would go one after the other. */
  lemma RoomForBoth(g: Geometry, s: Site, t: nat, n: nat)
    requires Tenable(g, s) && 0 < t <= MINIMUM_BUFFER && 0 < n && (s.Inside? ==> s.off + t + n <= g.pageSize)
    ensures Tenable(g, Tagged(g, s, t)) && Spread(g, Tagged(g, s, t), n) == Moved(s, t + n)
  {
  }

  /** What is out plays no part in what is allowed and what is added. */
  lemma {:induction false} OutAside(d: Draft, c: Call, out: seq<byte>)
    requires Allowed(d, c)
    ensures Allowed(d.(out := out), c)
    ensures Step(d.(out := out), c) == Step(d, c).(out := Step(d.(out := out), c).out)
    ensures |Step(d.(out := out), c).out| - |out| == |Step(d, c).out| - |d.out|
  {
    hide Flat, Head, EncodeTag;
  }

  /** Nothing that is out is taken back. */
  lemma {:induction false} StepOut(d: Draft, c: Call)
    requires Allowed(d, c)
    ensures |d.out| <= |Step(d, c).out|
  {
    hide Flat, Head, EncodeTag;
  }

  lemma {:induction false} ResolveEmits(g: Geometry, pages: seq<Page>, spots: seq<Spot>, segs: seq<seq<byte>>,
        ends: seq<Spot>,
                                        at: map<Spot, nat>, rs: seq<Record>, lens: seq<nat>)
    requires Stored(g, pages, spots, segs, ends) && Filed(spots, segs, at, lens, 0) && |rs| == |spots|
    ensures Usable(g) && PagesOk(g, pages) && |spots| == |ends| && |rs| == |segs|
    ensures var r, flat := Resolved(g, pages, at, Heads(rs), lens, FirstSpot(g, 0)), Flat(Heads(rs), segs, 0);
            if SeenFrom(g, spots, ends, 0) then r == Output(flat) else r.Output? ==> |r.bytes| < |flat|
  {
    hide Filed, Resolved, Flat, SeenFrom, Heads;
    FiledIndexed(spots, segs, at, lens, rs);
    FiledSizes(spots, segs, at, lens, 0);
    if SeenFrom(g, spots, ends, 0) {
      ResolvesAll(g, pages, spots, segs, ends, at, Heads(rs), lens, 0);
    } else if Resolved(g, pages, at, Heads(rs), lens, FirstSpot(g, 0)).Output? {
      ResolvesShort(g, pages, spots, segs, ends, at, Heads(rs), lens, 0);
    }
  }

  /** What is still to be emitted follows what was emitted. */
  ghost predicate Ahead(done: seq<byte>, whole: BuildPages.Outcome, rest: BuildPages.Outcome) {
    if rest.Garbage? then whole.Garbage? else whole == Output(done + rest.bytes)
  }

  lemma {:induction false} EmitsNothing(o: BuildPages.Outcome)
    ensures Ahead([], o, o)
  {
    if o.Output? { assert [] + o.bytes == o.bytes; }
  }

  /** One step of the walk. */
  lemma {:induction false} WalkStep(g: Geometry, ps: seq<Page>, at: map<Spot, nat>, heads: seq<seq<byte>>,
        lens: seq<nat>, s: Spot,
                                    done: seq<byte>, whole: BuildPages.Outcome)
    requires Usable(g) && PagesOk(g, ps) && Ahead(done, whole, Resolved(g, ps, at, heads, lens, s))
    ensures s !in at || at[s] >= |heads| || at[s] >= |lens| || s.page >= |ps| ==> whole.Garbage?
    ensures s in at && at[s] < |heads| && at[s] < |lens| && s.page < |ps| ==>
              var c := Collect(g, ps, Body(g, s), lens[at[s]]);
              if c.Lost? then whole.Garbage? else
              var next, more := NextSpot(g, c.end), done + (heads[at[s]] + c.bytes);
              if !HeaderIn(g, ps, next) then whole == Output(more)
              else Ahead(more, whole, Resolved(g, ps, at, heads, lens, next))
  {
    hide Collect, NextSpot, HeaderIn;
    if s in at && at[s] < |heads| && at[s] < |lens| && s.page < |ps| {
      var c := Collect(g, ps, Body(g, s), lens[at[s]]);
      if c.Collected? {
        var h, next := heads[at[s]], NextSpot(g, c.end);
        if HeaderIn(g, ps, next) {
          var rest := Resolved(g, ps, at, heads, lens, next);
          if rest.Output? { assert done + (h + c.bytes + rest.bytes) == done + (h + c.bytes) + rest.bytes; }
        }
      }
    }
  }

  lemma {:induction false} CollectsNothing(c: Collected)
    ensures c.Collected? ==> c == Collected([] + c.bytes, c.end)
  {
    if c.Collected? { assert [] + c.bytes == c.bytes; }
  }

  /** Past the last page nothing can be collected. */
  lemma NothingCollected(g: Geometry, ps: seq<Page>, e: Spot, rest: nat)
    requires PagesOk(g, ps) && e.page >= |ps| && rest > 0
    ensures Collect(g, ps, e, rest).Lost?
  {
  }

  /** One step of the copy loop. */
  lemma {:induction false} CollectStep(g: Geometry, ps: seq<Page>, e: Spot, rest: nat, step: nat,
        done: seq<byte>, whole: Collected)
    requires PagesOk(g, ps) && e.page < |ps| && rest > 0
    requires var c := Collect(g, ps, e, rest);
             if c.Lost? then whole.Lost? else whole == Collected(done + c.bytes, c.end)
    requires var h := Here(ps[e.page], e.off); step == if |h| > rest then rest else |h|
    ensures var h := Here(ps[e.page], e.off);
            var next := if rest == step then Spot(e.page, e.off + step) else Spot(e.page + 1, g.pageHeader);
            var c := Collect(g, ps, next, rest - step);
            if c.Lost? then whole.Lost? else whole == Collected(done + h[..step] + c.bytes, c.end)
  {
    hide Here;
    var h := Here(ps[e.page], e.off);
    assert h[..step] + [] == h[..step];
    if |h| < rest {
      var c := Collect(g, ps, Spot(e.page + 1, g.pageHeader), rest - step);
      assert h[..step] == h;
      if c.Collected? { assert done + (h + c.bytes) == done + h + c.bytes; }
    } else {
      assert done + h[..step] == done + h[..step] + [];
    }
  }

  lemma ShortText(s: seq<byte>)
    requires |s| < U32
    ensures |TextBytes(s)| == |EncodeTag(StrTag(|s|))| + |s|
    ensures |s| <= 31 ==> |EncodeTag(StrTag(|s|))| == 1
  {
  }

  lemma {:induction false} AddedNothing(d: Draft)
    requires Sound(d)
    ensures Added(d, []) == d
  {
    if d.current >= 0 {
      var l := |d.segs| - 1;
      assert d.segs[l] + [] == d.segs[l];
    } else {
      assert d.out + [] == d.out;
    }
  }

  lemma {:induction false} AddedTwice(d: Draft, a: seq<byte>, b: seq<byte>)
    requires Sound(d)
    ensures Added(Added(d, a), b) == Added(d, a + b)
  {
    if d.current >= 0 {
      var l := |d.segs| - 1;
      assert d.segs[l] + a + b == d.segs[l] + (a + b);
    } else {
      assert d.out + a + b == d.out + (a + b);
    }
  }

  lemma FiledSizes(spots: seq<Spot>, segs: seq<seq<byte>>, at: map<Spot, nat>,
        lens: seq<nat>, pending: int)
    requires Filed(spots, segs, at, lens, pending)
    ensures |lens| == |segs| == |spots|
  {
  }

  lemma UsableSizes(g: Geometry, pages: seq<Page>, spots: seq<Spot>, segs: seq<seq<byte>>,
        ends: seq<Spot>)
    requires Stored(g, pages, spots, segs, ends)
    ensures Usable(g) && |spots| == |segs| == |ends| > 0 && PagesOk(g, pages)
  {
  }

  lemma FirstStored(g: Geometry, pages: seq<Page>, spots: seq<Spot>, segs: seq<seq<byte>>, ends: seq<Spot>)
    requires Stored(g, pages, spots, segs, ends)
    ensures spots[0] == FirstSpot(g, 0)
  {
  }

  lemma {:induction false} FirstOnly(heads: seq<seq<byte>>, segs: seq<seq<byte>>)
    requires |heads| == |segs| > 0
    ensures Flat(heads[..1], segs[..1], 0) == heads[0] + segs[0]
  {
    assert Flat(heads[..1], segs[..1], 1) == [];
    assert heads[0] + segs[0] + [] == heads[0] + segs[0];
  }

  lemma {:induction false} FirstHead(rs: seq<Record>)
    requires rs != []
    ensures |Heads(rs)| == |rs| && Heads(rs)[0] == Head(rs[0])
  {
    hide Head;
    if |rs| > 1 { FirstHead(rs[..|rs| - 1]); }
  }

  lemma NothingBuilt(out: seq<byte>)
    ensures Sound(Draft(out, [], [], -1))
  {
  }

  lemma {:induction false} StoredPut(g: Geometry, full: seq<Page>, was: seq<byte>, now: seq<byte>, p: nat, b: seq<byte>,
                                     spots: seq<Spot>, segs: seq<seq<byte>>, ends: seq<Spot>)
    requires Stored(g, full + [Page(was, p)], spots, segs, ends) && |was| == |now| && p + |b| <= |was|
    requires now[..p] == was[..p] && now[p..p + |b|] == b && (b == [] ==> now == was)
    ensures |spots| == |segs| == |ends| > 0
    ensures var l := |segs| - 1;
            Stored(g, full + [Page(now, p + |b|)], spots, segs[l := segs[l] + b],
                   if b == [] then ends else ends[l := Spot(|full|, p + |b|)])
  {
    hide Kept, Chained, AtCursor;
    var l := |segs| - 1;
    if b == [] {
      assert segs[l := segs[l] + b] == segs by { assert segs[l] + b == segs[l]; }
      assert Page(now, p + |b|) == Page(was, p);
    } else {
      var pages, more := full + [Page(was, p)], full + [Page(now, p + |b|)];
      StillOk(g, pages, more);
      StoredWrite(g, pages, more, spots, segs, ends, b);
    }
  }

  lemma {:induction false} StillOk(g: Geometry, pages: seq<Page>, more: seq<Page>)
    requires PagesOk(g, pages) && |more| == |pages| && more[..|pages| - 1] == pages[..|pages| - 1]
    requires var q, p := more[|pages| - 1], pages[|pages| - 1];
             |q.mem| == |p.mem| && p.used <= q.used <= |q.mem| && q.mem[..p.used] == p.mem[..p.used]
    ensures PagesOk(g, more) && Grown(pages, more)
  {
    forall k: nat | k + 1 < |pages| ensures more[k] == pages[k] {
      assert more[..|pages| - 1][k] == pages[..|pages| - 1][k];
    }
  }

  lemma Written(was: seq<byte>, now: seq<byte>, p: nat, b: seq<byte>)
    requires |was| == |now| && p + |b| <= |was|
    requires forall i :: 0 <= i < |was| ==> now[i] == if p <= i < p + |b| then b[i - p] else was[i]
    ensures now[..p] == was[..p] && now[p..p + |b|] == b && now[..p + |b|] == was[..p] + b
  {
  }

  lemma BinTagSize()
    ensures |EncodeTag(BinTag(4013))| == 3
  {
  }

  /** Where the bytes of the outer array end in the pages of the flush plan. */
  lemma {:induction false} FlushEnds(pages: seq<Page>, spots: seq<Spot>, segs: seq<seq<byte>>, ends: seq<Spot>)
    requires Stored(DEFAULT_GEOMETRY, pages, spots, segs, ends) && |segs| == 2 && |segs[0]| == 4016 && segs[1] == []
    requires |pages| == 2 && pages[1].used == 16 && ends[1] == Spot(0, 4096)
    ensures !HeaderIn(DEFAULT_GEOMETRY, pages, NextSpot(DEFAULT_GEOMETRY, ends[0]))
  {
    var g := DEFAULT_GEOMETRY;
    assert Kept(g, pages, spots, segs, ends, 0) && Kept(g, pages, spots, segs, ends, 1);
    assert Align(g, 16) == 16 && Align(g, 4064) == 4064;
    assert spots[0] == Spot(0, 16) && spots[1] == Spot(0, 4064);
    assert ends[0] == Spot(0, 4064);
  }

  /** What the calls before the last one of the flush plan mean. */
  lemma {:induction false} FlushDraft(b: seq<byte>)
    requires |b| == 4013
    ensures Run(Draft([], [], [], -1), FlushCalls(b)[..6]) == At(FlushEnd([EncodeTag(BinTag(4013)) + b, []]))
  {
    hide Run, Step, Allowed, EncodeTag;
    var cs, tag := FlushCalls(b), EncodeTag(BinTag(4013));
    var none, r := Draft([], [], [], -1), Record(ArrayKind, -1, 0, 0, false);
    var d, e := Draft([], [r.(count := 1)], [tag + b], 0), FlushEnd([tag + b, []]);
    NothingRun(none);
    assert cs[..0] == [];
    FlushOpens(b);
    FlushFills(b);
    FlushCloses(b);
    RunFrom(none, cs, 0, none, Draft([], [r], [[]], 0));
    RunFrom(none, cs, 1, Draft([], [r], [[]], 0), Draft([], [r.(count := 1)], [tag], 0));
    RunFrom(none, cs, 2, Draft([], [r.(count := 1)], [tag], 0), d);
    RunFrom(none, cs, 3, d, d);
    RunFrom(none, cs, 4, d, e.(current := 1));
    RunFrom(none, cs, 5, e.(current := 1), e);
  }

  /** Two builds, the outer one open, with what was written behind their headers. */
  function FlushEnd(segs: seq<seq<byte>>): Draft {
    Draft([], [Record(ArrayKind, -1, 2, 0, false), Record(ArrayKind, 0, 0, 0, false)], segs, 0)
  }

  lemma NothingRun(d: Draft)
    ensures Run(d, []) == At(d)
  {
  }

  lemma {:induction false} RunFrom(d: Draft, cs: seq<Call>, i: nat, m: Draft, e: Draft)
    requires i < |cs| && Run(d, cs[..i]) == At(m) && Allowed(m, cs[i]) && Step(m, cs[i]) == e
    ensures Run(d, cs[..i + 1]) == At(e)
  {
    hide Run, Step, Allowed;
    RunsOn(d, cs[..i], m, cs[i]);
    assert cs[..i] + [cs[i]] == cs[..i + 1];
  }

  lemma {:induction false} FlushOpens(b: seq<byte>)
    requires |b| == 4013
    ensures var cs, tag, r := FlushCalls(b), EncodeTag(BinTag(4013)), Record(ArrayKind, -1, 0, 0, false);
            var d, e := Draft([], [], [], -1), Draft([], [r], [[]], 0);
            && Allowed(d, cs[0]) && Step(d, cs[0]) == e
            && Allowed(e, cs[1]) && Step(e, cs[1]) == Draft([], [r.(count := 1)], [tag], 0)
  {
    hide EncodeTag;
    var tag := EncodeTag(BinTag(4013));
    assert [] + tag == tag;
  }

  lemma {:induction false} FlushFills(b: seq<byte>)
    requires |b| == 4013
    ensures var cs, tag, r := FlushCalls(b), EncodeTag(BinTag(4013)), Record(ArrayKind, -1, 1, 0, false);
            var d, e := Draft([], [r], [tag], 0), Draft([], [r], [tag + b], 0);
            && Allowed(d, cs[2]) && Step(d, cs[2]) == e
            && Allowed(e, cs[3]) && Step(e, cs[3]) == e
  {
    hide EncodeTag;
  }

  lemma {:induction false} FlushCloses(b: seq<byte>)
    requires |b| == 4013
    ensures var cs, tag, r := FlushCalls(b), EncodeTag(BinTag(4013)), Record(ArrayKind, -1, 1, 0, false);
            var d, e := Draft([], [r], [tag + b], 0), FlushEnd([tag + b, []]);
            && Allowed(d, cs[4]) && Step(d, cs[4]) == e.(current := 1)
            && Allowed(e.(current := 1), cs[5]) && Step(e.(current := 1), cs[5]) == e
  {
    hide EncodeTag;
  }

  /** The encoding of the value that the flush plan means. */
  lemma {:induction false} FlushEncoded(b: seq<byte>)
    requires |b| == 4013
    ensures WellFormed(Meant(FlushPlan(b)))
    ensures Encode(Meant(FlushPlan(b))) ==
              EncodeTag(ArrayTag(2)) + (EncodeTag(BinTag(4013)) + b) + EncodeTag(ArrayTag(0))
  {
    hide EncodeTag, Encode, Emitted, EmittedAll, Balanced, AllBalanced, Proper, Meant;
    var p, c, e := FlushPlan(b), Chunked(true, [b]), Built(ArrayKind, []);
    FlushPlanCalls(b);
    ProperEmits(p);
    OneChunk(true, b);
    NoPlans();
    BuiltParts(ArrayKind, []);
    TwoItems(c, e);
    TwoEmitted(c, e);
    BuiltEmitted([]);
    BuiltEmitted([c, e]);
    ChunkEmitted(b);
    assert EncodeTag(ArrayTag(0)) + [] == EncodeTag(ArrayTag(0));
    assert EncodeTag(ArrayTag(2)) + (Emitted(c) + Emitted(e)) == EncodeTag(ArrayTag(2)) + Emitted(c) + Emitted(e);
  }

  lemma {:induction false} TwoEmitted(p: Plan, q: Plan)
    requires Balanced(p) && Balanced(q) && AllBalanced([p, q])
    ensures EmittedAll([p, q]) == Emitted(p) + Emitted(q) && EmittedAll([]) == []
  {
    hide Balanced, Emitted;
    assert [p, q][..1] == [p] && [p][..0] == [];
    assert EmittedAll([p]) == [] + Emitted(p) == Emitted(p);
  }

  lemma BuiltEmitted(ps: seq<Plan>)
    requires AllBalanced(ps) && |ps| < U32
    ensures var p := Built(ArrayKind, ps);
            Balanced(p) && Emitted(p) == EncodeTag(ArrayTag(|ps|)) + EmittedAll(ps)
  {
    hide EncodeTag, EmittedAll, AllBalanced;
    NoWrap(|ps|);
  }

  lemma NoWrap(n: nat)
    requires n < U32
    ensures n % U32 == n
  {
  }

  lemma ChunkEmitted(b: seq<byte>)
    requires Balanced(Chunked(true, [b])) && |b| < U32
    ensures Emitted(Chunked(true, [b])) == EncodeTag(BinTag(|b|)) + b
  {
    hide EncodeTag;
    assert [b][..0] == [] && Concat([b]) == Concat([]) + b == b;
  }

  /**
   * It does happen: a growable writer with the default sizes puts out this plan without the tag of the inner array, and
   * reports no error.
   */
  method WriteFlushPlan(b: seq<byte>) returns (w: Writer)
    requires |b| == 4013
    ensures fresh(w) && w.Valid() && WellFormed(Meant(FlushPlan(b)))
    ensures w.error == Ok && w.overlooked && !w.lost
    ensures w.View().out == EncodeTag(ArrayTag(2)) + (EncodeTag(BinTag(4013)) + b)
    ensures Encode(Meant(FlushPlan(b))) == w.View().out + EncodeTag(ArrayTag(0))
  {
    hide Encode, EncodeTag, WellFormed, Meant, Run, SiteRun, Stored, Filed, Resolved, SeenFrom, Heads, Flat, Sound,
         Writer.Valid, Writer.Resolution;
    FlushEncoded(b);
    FlushDraft(b);
    FlushCallsMiss(b);
    w := new Writer.Growable(DEFAULT_GEOMETRY);
    w.Execute(FlushCalls(b)[..6]);
    w.FlushCut(b);
    w.CompleteBuild(ArrayKind);
  }
}

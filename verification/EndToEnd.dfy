/**
 From values to bytes and back: what the writer puts out, with whatever mix of
 built and announced containers, is what the tree parser makes a tree of.
 */
module EndToEnd {
  import opened MsgPack
  import opened Encoding
  import opened Plans
  import BuildPages
  import Sites
  import Writing
  import opened ParseState
  import opened TreeParser

  /** Every object takes at least a byte. */
  lemma {:induction false} NodesWithinBytes(v: Value)
    requires WellFormed(v)
    ensures Encoding.Nodes(v) <= |Encode(v)|
    decreases Encoding.Nodes(v), 0
  {
    hide Encode, EncodeTag;
    EncodeParts(v);
    TagNotEmpty(TagOf(v));
    if v.Array? || v.Map? { AllNodesWithinBytes(Kids(v)); }
  }

  lemma TagNotEmpty(t: Tag)
    requires InRange(t)
    ensures |EncodeTag(t)| > 0
  {
  }

  lemma {:induction false} AllNodesWithinBytes(vs: seq<Value>)
    requires AllWellFormed(vs)
    ensures NodesAll(vs) <= |EncodeAll(vs)|
    decreases NodesAll(vs), 1
  {
    hide Encode, Encoding.Nodes, WellFormed;
    if vs != [] {
      NodesWithinBytes(vs[0]);
      AllNodesWithinBytes(vs[1..]);
    }
  }

  lemma {:induction false} NormalNarrow(v: Value)
    ensures Narrow(Normal(v)) <==> Narrow(v)
    decreases v
  {
    match v
    case Array(es) =>
      AllNormalNarrow(es);
      assert AllNarrow(NormalAll(es)) <==> AllNarrow(es);
    case Map(kvs) =>
      AllNormalNarrow(kvs);
      assert AllNarrow(NormalAll(kvs)) <==> AllNarrow(kvs);
    case _ =>
  }

  lemma {:induction false} AllNormalNarrow(vs: seq<Value>)
    ensures AllNarrow(NormalAll(vs)) <==> AllNarrow(vs)
    decreases vs
  {
    hide Narrow, Normal;
    if vs != [] {
      NormalNarrow(vs[0]);
      AllNormalNarrow(vs[1..]);
      NarrowParts(vs);
      NarrowParts(NormalAll(vs));
      assert NormalAll(vs)[1..] == NormalAll(vs[1..]);
    }
  }

  lemma NarrowParts(vs: seq<Value>)
    requires vs != []
    ensures AllNarrow(vs) <==> Narrow(vs[0]) && AllNarrow(vs[1..])
  {
    assert AllNarrow(vs[1..]) ==> forall k: nat :: 0 < k < |vs| ==> vs[k] == vs[1..][k - 1];
  }

  /** In fewer bytes than 4 GiB, or objects than 2^32, there is no such map. */
  lemma {:induction false} SmallNarrow(v: Value)
    requires WellFormed(v) && (|Encode(v)| <= U32 || Encoding.Nodes(v) <= U32)
    ensures Narrow(v)
  {
    hide Encode, Decode, WellFormed, Normal, Encoding.Nodes, Narrow;
    RoundTripPrefix(v, []);
    NormalNarrow(v);
    if !Narrow(v) {
      assert !Narrow([Normal(v)][0]);
      SmallIsNarrow(Encode(v) + [], 0, 1);
    }
  }

  /**
   * An encoded value, with anything behind it, parsed with a node pool: it is accepted exactly if its nodes fit and
   * none of its maps has 2^31 entries or more (`SmallNarrow`).
   */
  method ParseEncoded(v: Value, tail: seq<byte>, count: nat) returns (t: Tree)
    requires WellFormed(v) && 0 < count <= SIZE_MAX
    ensures fresh(t) && t.Valid() && (t.error == Ok <==> Encoding.Nodes(v) <= count && Narrow(v))
    ensures t.error != Ok && Encoding.Nodes(v) <= count ==> t.error == Undefined
    ensures t.error == Ok ==> t.size == |Encode(v)| && |t.nodes| == Encoding.Nodes(v) && t.data == Encode(v) + tail
    ensures t.error == Ok ==> Represents(t.nodes, t.data, 0, Normal(v))
  {
    hide Encode, Decode, Tree.Valid, WellFormed, Normal, Encoding.Nodes, Represents, Narrow;
    RoundTripPrefix(v, tail);
    NormalNarrow(v);
    t := new Tree.Pool(Encode(v) + tail, count);
    t.Parse();
  }

  /** The same with nodes in pages: only large maps matter. */
  method ParsePaged(v: Value, tail: seq<byte>, perPage: nat) returns (t: Tree)
    requires WellFormed(v) && |Encode(v) + tail| <= SIZE_MAX && perPage > 0
    ensures fresh(t) && t.Valid() && t.data == Encode(v) + tail && t.error == if Narrow(v) then Ok else Undefined
    ensures t.error == Ok ==> t.size == |Encode(v)| && |t.nodes| == Encoding.Nodes(v)
    ensures t.error == Ok ==> Represents(t.nodes, t.data, 0, Normal(v))
  {
    hide Encode, Decode, Tree.Valid, WellFormed, Normal, Encoding.Nodes, Represents, Narrow;
    RoundTripPrefix(v, tail);
    NodesWithinBytes(v);
    NormalNarrow(v);
    t := new Tree.Paged(Encode(v) + tail, perPage);
    t.Parse();
  }

  lemma {:induction false} HugeMap(count: nat)
    requires 0x8000_0000 <= count < U32
    ensures var v := Map(Nils(2 * count));
            WellFormed(v) && !Narrow(v) && |Encode(v)| == 5 + 2 * count
  {
    hide EncodeAll, NodesAll, AllWellFormed;
    NilsEncoded(2 * count);
  }

  /** A map of nils that decodes, and in which the parser loses its place. */
  method LosesPlace(count: nat, tail: seq<byte>, perPage: nat) returns (t: Tree)
    requires 0x8000_0000 <= count < U32 && 5 + 2 * count + |tail| <= SIZE_MAX && perPage > 0
    ensures var v := Map(Nils(2 * count));
            && WellFormed(v) && t.data == Encode(v) + tail && Decode(t.data, 0, 1).Done?
            && t.error == Undefined
  {
    hide WellFormed, Encode, Narrow, Decode, Tree.Valid;
    HugeMap(count);
    var v := Map(Nils(2 * count));
    t := ParsePaged(v, tail, perPage);
    RoundTripPrefix(v, tail);
  }

  /**
   * A plan written by a growable writer with the default sizes, and parsed: if the calls put no header flush with its
   * page, the tree denotes the value meant, however its containers were written. The pool must be large enough, and no
   * map have 2^31 entries or more.
   */
  method WriteThenParse(p: Plan, count: nat) returns (t: Tree)
    requires Balanced(p) && Proper(p) && 0 < count <= SIZE_MAX
    requires forall i :: 0 <= i < |Calls(p)| ==> Typed(Calls(p)[i])
    requires !Sites.Flushes(BuildPages.DEFAULT_GEOMETRY, Calls(p))
    ensures fresh(t) && t.Valid() && (t.error == Ok <==> Encoding.Nodes(Meant(p)) <= count && Narrow(Meant(p)))
    ensures t.error == Ok ==> Represents(t.nodes, t.data, 0, Normal(Meant(p)))
  {
    hide Encode, EncodeAll, EmittedAll, Decode, Tree.Valid, Writing.Writer.Valid, WellFormed, AllWellFormed, Proper,
         AllProper, Balanced, AllBalanced, Calls, CallsAll, Meant, MeantAll, Normal, Encoding.Nodes, Sites.Flushes,
         Sites.Misses, Represents, Narrow;
    MeansWellFormed(p);
    OneItem(p);
    OneEncoded(Meant(p));
    RoundTripPrefix(Meant(p), []);
    NormalNarrow(Meant(p));
    assert Encode(Meant(p)) + [] == Encode(Meant(p));
    var w := new Writing.Writer.Growable(BuildPages.DEFAULT_GEOMETRY);
    w.WritePlans([p]);
    var data, size := w.Destroy();
    t := new Tree.Pool(data[..size], count);
    t.Parse();
  }

  /** Objects that are decoded from encodings are the values, or the first of them. */
  lemma {:induction false} FirstDecoded(vs: seq<Value>, count: nat)
    requires AllWellFormed(vs) && Decode(EncodeAll(vs), 0, count).Done?
    ensures count <= |vs| && Decode(EncodeAll(vs), 0, count).vals == NormalAll(vs)[..count]
  {
    hide Encode, EncodeAll, Decode, AllWellFormed, NormalAll, NodesAll;
    var d := EncodeAll(vs);
    assert d[0..0 + |d|] == d;
    RoundTripAll(vs, d, 0);
    if count <= |vs| {
      DecodeSplit(d, 0, count, |vs| - count);
    } else {
      var more := count - |vs|;
      NothingBehind(d, more);
      DecodeSplit(d, 0, |vs|, more);
    }
  }

  lemma NothingBehind(d: seq<byte>, n: nat)
    requires n > 0
    ensures Decode(d, |d|, n).Fail?
  {
  }

  /** Where the `k`-th value starts. */
  function Offset(vs: seq<Value>, k: nat): nat
    requires AllWellFormed(vs) && k <= |vs|
  {
    if k == 0 then 0 else |Encode(vs[0])| + Offset(vs[1..], k - 1)
  }

  /** The first `k` of encoded values are decoded up to the next one, which follows. */
  lemma {:induction false} DecodedUpTo(vs: seq<Value>, k: nat, d: seq<byte>, p: nat)
    requires AllWellFormed(vs) && Holds(d, p, EncodeAll(vs)) && k < |vs|
    ensures var q := p + Offset(vs, k);
            && WellFormed(vs[k]) && Holds(d, q, Encode(vs[k]))
            && Decode(d, p, k).Done? && Decode(d, p, k).next == q
  {
    hide Encode, EncodeAll, Decode, WellFormed, AllWellFormed, Holds;
    ListHeld(vs, d, p);
    if k == 0 {
      NothingYet(d, p);
    } else {
      var q := p + |Encode(vs[0])|;
      RoundTrip(vs[0], d, p);
      DecodedUpTo(vs[1..], k - 1, d, q);
      DecodeSplit(d, p, 1, k - 1);
    }
  }

  lemma NothingYet(d: seq<byte>, p: nat)
    ensures Decode(d, p, 0) == Done([], p, 0)
  {
  }

  /** Marks in a range. */
  function Within(marks: seq<nat>, lo: nat, hi: nat): nat {
    if marks == [] then 0 else (if lo <= marks[0] < hi then 1 else 0) + Within(marks[1..], lo, hi)
  }

  /** They are counted one by one. */
  lemma {:induction false} WithinAdds(a: seq<nat>, b: seq<nat>, lo: nat, hi: nat)
    ensures Within(a + b, lo, hi) == Within(a, lo, hi) + Within(b, lo, hi)
    ensures |a| == 1 ==> Within(a, lo, hi) == if lo <= a[0] < hi then 1 else 0
  {
    if a == [] {
      assert a + b == b;
    } else {
      assert (a + b)[1..] == a[1..] + b;
      WithinAdds(a[1..], b, lo, hi);
    }
  }

  lemma {:induction false} WithinAll(before: seq<nat>, waits: seq<nat>, rest: seq<nat>, lo: nat, hi: nat)
    requires forall m <- waits :: lo <= m < hi
    ensures |waits| <= Within(before + waits + rest, lo, hi)
    decreases |before| + |waits|
  {
    var all := before + waits + rest;
    if before != [] {
      assert all[1..] == before[1..] + waits + rest;
      WithinAll(before[1..], waits, rest, lo, hi);
    } else if waits != [] {
      assert waits[0] in waits && all[0] == waits[0] && forall m <- waits[1..] :: m in waits;
      assert all[1..] == [] + waits[1..] + rest;
      WithinAll([], waits[1..], rest, lo, hi);
    }
  }

  /**
   * The limits are ample for a message if it has at most half of the bytes, roughly, and no more nodes than allowed
   * when all but the root are counted again each time its bytes are interrupted. Nor may a map have 2^31 entries.
   */
  predicate Ample(v: Value, waits: nat, maxBytes: nat, maxCount: nat)
    requires WellFormed(v)
  {
    && 2 * |Encode(v)| - 2 <= maxBytes && Encoding.Nodes(v) + waits * (Encoding.Nodes(v) - 1) <= maxCount
    && Narrow(v)
  }

  /** An interruption of a message that starts with an encoded value lies within it. */
  lemma {:induction false} InterruptsWithin(s: seq<byte>, v: Value, a: nat, m: nat)
    requires WellFormed(v) && Holds(s, a, Encode(v)) && Interrupts(s, a, m)
    ensures a <= m < a + |Encode(v)|
  {
    hide Encode, Decode, WellFormed;
    var d := s[a..m];
    if m >= a + |Encode(v)| {
      assert d[0..0 + |Encode(v)|] == s[a..a + |Encode(v)|];
      RoundTrip(v, d, 0);
    }
  }

  /** An encoded value that follows what was decoded is the next one. */
  lemma {:induction false} NextDecodes(s: seq<byte>, past: seq<byte>, d: seq<byte>, v: Value)
    requires WellFormed(v) && s == past + d && Holds(s, |past|, Encode(v))
    ensures Decode(d, 0, 1) == Done([Normal(v)], |Encode(v)|, Encoding.Nodes(v))
  {
    hide Encode, Decode, WellFormed, Normal, Encoding.Nodes;
    assert d[0..0 + |Encode(v)|] == s[|past|..|past| + |Encode(v)|];
    RoundTrip(v, d, 0);
  }

  /** With ample limits a message that was not interrupted more often cannot have been refused. */
  lemma {:induction false} NoTrouble(t: Tree, v: Value, waits: nat, more: nat)
    requires WellFormed(v)
    requires Decode(t.data + FeedBytes(t.feed), 0, 1) == Done([Normal(v)], |Encode(v)|, Encoding.Nodes(v))
    requires waits <= more && Ample(v, more, t.maxSize, t.maxNodes) && t.Troubled(waits, 0)
    ensures t.error == Ok
  {
    hide Encode, Decode, WellFormed, Normal, Encoding.Nodes, FeedBytes, Failures, Narrow;
    NormalNarrow(v);
    assert t.data <= t.data + FeedBytes(t.feed);
    if t.error in {Invalid, Unsupported} { SpoiledIsHopeless(t.data, t.error, t.data + FeedBytes(t.feed)); }
    Times(Encoding.Nodes(v) - 1, waits, more);
  }

  lemma Times(i: nat, m: nat, n: nat)
    requires m <= n
    ensures m * i <= n * i
  {
    assert n * i == m * i + (n - m) * i;
  }

  /**
   * Encoded values that arrive in any pieces and with any delays come out one by one, in order and unchanged. All of
   * them do if the read function does not fail, the limits are ample for each of them with its own interruptions, and
   * the parser is called more often than there are values and delays.
   */
  method Deliver(vs: seq<Value>, source: seq<Event>, maxBytes: nat, maxCount: nat, perPage: nat, calls: nat)
    returns (count: nat, ghost messages: seq<Value>)
    requires AllWellFormed(vs) && (forall v <- vs :: WellFormed(v)) && FeedBytes(source) == EncodeAll(vs)
    requires maxBytes > 0 && maxCount > 0 && perPage > 0
    ensures count <= |vs| && messages == NormalAll(vs)[..count]
    ensures (forall e <- source :: e.Bytes?) && |vs| + |Marks(source, 0)| < calls ==>
              (forall k: nat :: k < |vs| ==>
                  var n, nodes, a := |Encode(vs[k])|, Encoding.Nodes(vs[k]), Offset(vs, k);
                  && 2 * n - 2 <= maxBytes && nodes + Within(Marks(source, 0), a, a + n) * (nodes - 1) <= maxCount
                  && Narrow(vs[k])) ==>
              count == |vs|
  {
    hide Encode, EncodeAll, Decode, Tree.Valid, WellFormed, AllWellFormed, NormalAll, NodesAll, FeedBytes, Failures,
         Marks, Offset, Ample, Interrupts, Within, Tree.Troubled, Narrow, Encoding.Nodes;
    var t := new Tree.Streamed(source, maxBytes, maxCount, perPage);
    assert t.Stream() == EncodeAll(vs);
    ghost var ended, before, waits;
    count, messages, ended, before, waits := t.Poll(calls);
    FirstDecoded(vs, count);
    if count < |vs| && (forall e <- source :: e.Bytes?) && |vs| + |Marks(source, 0)| < calls {
      NoneBroken(source);
      Undelivered(t, vs, count, ended, before, waits);
      ghost var a := Offset(vs, count);
      AmpleMeans(vs[count], Within(Marks(source, 0), a, a + |Encode(vs[count])|), maxBytes, maxCount);
    }
  }

  lemma AmpleMeans(v: Value, waits: nat, maxBytes: nat, maxCount: nat)
    requires WellFormed(v)
    ensures var n, nodes := |Encode(v)|, Encoding.Nodes(v);
            2 * n - 2 <= maxBytes && nodes + waits * (nodes - 1) <= maxCount && Narrow(v) ==>
              Ample(v, waits, maxBytes, maxCount)
  {
  }

  lemma {:induction false} NoneBroken(feed: seq<Event>)
    requires forall e <- feed :: e.Bytes?
    ensures Failures(feed) == 0
  {
    if feed != [] {
      assert feed[0] in feed && forall e <- feed[1..] :: e in feed;
      NoneBroken(feed[1..]);
    }
  }

  /** A parser that stopped before all values came out was refused one for which the limits are not ample. */
  lemma {:induction false} Undelivered(t: Tree, vs: seq<Value>, k: nat, ended: bool, before: seq<nat>, waits: seq<nat>)
    requires AllWellFormed(vs) && k < |vs| && WellFormed(vs[k]) && t.Stream() == EncodeAll(vs)
    requires var r := Decode(EncodeAll(vs), 0, k);
             r.Done? && (t.error != Ok || t.status != ParseStatus.Parsed ==> r.next == |t.past|)
    requires ended ==> t.feed == [] && !Decode(t.data, 0, 1).Done? && (t.error != Ok || t.status != ParseStatus.Parsed)
    requires t.error != Ok || t.status != ParseStatus.Parsed ==>
               forall m <- waits :: Interrupts(t.Stream(), |t.past|, m)
    requires !ended ==> t.error != Ok && t.Troubled(|waits|, 0)
    ensures var marks := before + waits + t.Marked();
            !Ample(vs[k], Within(marks, Offset(vs, k), Offset(vs, k) + |Encode(vs[k])|), t.maxSize, t.maxNodes)
  {
    hide Encode, EncodeAll, Decode, WellFormed, AllWellFormed, FeedBytes, Failures, Marks, Offset, Ample, Within,
         Interrupts, Tree.Troubled, Normal, Encoding.Nodes;
    var s, d, v := t.Stream(), t.data + FeedBytes(t.feed), vs[k];
    var a, b := Offset(vs, k), Offset(vs, k) + |Encode(vs[k])|;
    assert s == t.past + d && s[0..0 + |s|] == s;
    NothingFed(t.feed, 0);
    assert t.feed == [] ==> d == t.data;
    DecodedUpTo(vs, k, s, 0);
    NextDecodes(s, t.past, d, v);
    if !ended {
      forall m <- waits ensures a <= m < b { InterruptsWithin(s, v, a, m); }
      WithinAll(before, waits, t.Marked(), a, b);
      var more := Within(before + waits + t.Marked(), a, b);
      if Ample(v, more, t.maxSize, t.maxNodes) { NoTrouble(t, v, |waits|, more); }
    }
  }

  // ---- streams that are refused within their limits

  /** A value whose children, if any, are single bytes. */
  predicate Flat(v: Value)
    requires WellFormed(v)
  {
    var t := TagOf(v);
    Payload(t) + Children(t) > 0 && |Encode(v)| == |EncodeTag(t)| + Payload(t) + Children(t)
  }

  /** Strings, binaries and arrays of nils are. */
  lemma {:induction false} FlatKinds(s: seq<byte>, n: nat)
    requires 0 < |s| < U32 && 0 < n < U32
    ensures WellFormed(Str(s)) && Flat(Str(s)) && WellFormed(Bin(s)) && Flat(Bin(s))
    ensures WellFormed(Array(Nils(n))) && Flat(Array(Nils(n)))
  {
    hide EncodeTag, EncodeAll, AllWellFormed;
    NilsEncoded(n);
  }

  /**
   * Half of the bytes is all that can be relied on: a message within the limit, but with more than half of it, is
   * refused if its last byte arrives after the others. That is so for every string and binary that fits the first
   * buffer, and for every container with single bytes in it.
   */
  method BytesRefused(v: Value, limit: nat) returns (t: Tree)
    requires WellFormed(v) && Flat(v) && |Encode(v)| <= 4097
    requires |Encode(v)| <= limit < 2 * |Encode(v)| - 2
    ensures fresh(t) && t.error == TooBig && t.maxSize == limit && t.maxNodes == Encoding.Nodes(v)
    ensures t.Stream() == Encode(v)
  {
    hide Encode, EncodeTag, WellFormed, Encoding.Nodes, HeaderAt, Tree.Running, Tree.Valid, Tree.Blameless, Failures,
         Decode;
    var enc, n := Encode(v), |Encode(v)| - 1;
    t := new Tree.Streamed([Event.Bytes(enc[..n]), Event.Bytes(enc[n..])], limit, Encoding.Nodes(v), 1);
    TwoPieces(enc[..n], enc[n..]);
    assert enc[..n] + enc[n..] == enc;
    FirstPiece(v, n);
    var ok := t.ParseStart();
    ok := t.Resume();
  }

  lemma TwoPieces(a: seq<byte>, b: seq<byte>)
    ensures FeedBytes([Event.Bytes(a), Event.Bytes(b)]) == a + b
  {
    var feed := [Event.Bytes(a), Event.Bytes(b)];
    assert feed[1..] == [Event.Bytes(b)] && feed[1..][1..] == [];
    assert FeedBytes(feed[1..]) == b + FeedBytes([]) == b;
  }

  /** Any part of an encoding that has the tag has its header. */
  lemma {:induction false} FirstPiece(v: Value, n: nat)
    requires WellFormed(v) && n <= |Encode(v)| && Flat(v)
    ensures InRange(TagOf(v)) && 0 < |EncodeTag(TagOf(v))| <= |Encode(v)|
    ensures |EncodeTag(TagOf(v))| <= n ==> HeaderAt(Encode(v)[..n], 0) == Header(TagOf(v), |EncodeTag(TagOf(v))|)
  {
    hide EncodeTag, Encode, HeaderAt;
    EncodeParts(v);
    TagNotEmpty(TagOf(v));
    var tag, d := EncodeTag(TagOf(v)), Encode(v)[..n];
    if |tag| <= n {
      assert d[0..0 + |tag|] == tag;
      TagRoundTrip(TagOf(v), d, 0);
    }
  }

  function Nils(n: nat): (vs: seq<Value>)
    ensures |vs| == n
  {
    seq(n, _ => Nil)
  }

  function NilBytes(n: nat): (b: seq<byte>)
    ensures |b| == n
  {
    seq(n, _ => 0xc0)
  }

  lemma {:induction false} NilsEncoded(n: nat)
    ensures AllWellFormed(Nils(n)) && EncodeAll(Nils(n)) == NilBytes(n) && NodesAll(Nils(n)) == n
  {
    hide EncodeTag;
    if n > 0 {
      NilsEncoded(n - 1);
      NilEncoded();
      assert Nils(n)[1..] == Nils(n - 1) && NilBytes(n) == [0xc0] + NilBytes(n - 1);
    }
  }

  lemma NilEncoded()
    ensures WellFormed(Nil) && Encode(Nil) == [0xc0] && Encoding.Nodes(Nil) == 1
  {
  }

  /** A short array of nils. */
  lemma {:induction false} ShortArray(n: nat)
    requires n < 16
    ensures var v := Array(Nils(n));
            WellFormed(v) && Encode(v) == [0x90 + n] + NilBytes(n) && Encoding.Nodes(v) == n + 1
  {
    hide EncodeTag, EncodeAll, NodesAll, AllWellFormed;
    NilsEncoded(n);
    ShortArrayTag(n);
    assert [0x90 + n] + [] == [0x90 + n];
  }

  function Delays(n: nat): (feed: seq<Event>)
    ensures |feed| == n
  {
    seq(n, _ => Event.Bytes([]))
  }

  /** Bytes behind delays. */
  lemma {:induction false} Delayed(n: nat, b: seq<byte>, at: nat)
    ensures var feed := Delays(n) + [Event.Bytes(b)];
            FeedBytes(feed) == b && (b != [] ==> Marks(feed, at) == seq(n, _ => at))
  {
    var feed := Delays(n) + [Event.Bytes(b)];
    if n > 0 {
      Delayed(n - 1, b, at);
      assert feed[1..] == Delays(n - 1) + [Event.Bytes(b)];
      assert [] + b == b && [at] + seq(n - 1, _ => at) == seq(n, _ => at);
    } else {
      assert feed[1..] == [] && b + [] == b;
    }
  }

  /** A container's header is read, and then nothing for a while. */
  function LateNils(n: nat, waits: nat): seq<Event>
    requires n < 16
  {
    [Event.Bytes([0x90 + n])] + (Delays(waits) + [Event.Bytes(NilBytes(n))])
  }

  lemma {:induction false} LateNilsFed(n: nat, waits: nat)
    requires 0 < n < 16
    ensures var feed := LateNils(n, waits);
            && feed[0] == Event.Bytes([0x90 + n]) && feed[1..] == Delays(waits) + [Event.Bytes(NilBytes(n))]
            && FeedBytes(feed) == [0x90 + n] + NilBytes(n) && Marks(feed, 0) == seq(waits, _ => 1)
  {
    Delayed(waits, NilBytes(n), 1);
    var feed := LateNils(n, waits);
    assert feed[1..] == Delays(waits) + [Event.Bytes(NilBytes(n))];
    assert Marks(feed, 0) == [] + Marks(feed[1..], 1);
  }

  /** The parser has the header of the array, and the read function nothing yet. */
  method WaitForNils(n: nat, waits: nat, limit: nat) returns (t: Tree)
    requires 0 < n < 16 && limit > 0
    ensures fresh(t) && t.maxSize == 100 && t.maxNodes == limit && t.streaming
    ensures t.Stream() == [0x90 + n] + NilBytes(n)
    ensures t.Valid() && t.error == Ok && t.status == InProgress && t.data == [0x90 + n] && t.size == 0
    ensures t.nodeCount == 1 && t.feed == Delays(waits) + [Event.Bytes(NilBytes(n))]
  {
    hide Tree.Running, Tree.Valid, Tree.Blameless, FeedBytes, FeedSize, Marks, Failures, Decode;
    LateNilsFed(n, waits);
    t := new Tree.Streamed(LateNils(n, waits), 100, limit, 1);
    var ok := t.ParseStart();
  }

  /**
   * Nor can more nodes be relied on: an array of nils is refused, although there are no more nodes than allowed, if the
   * parser has to wait for its elements often enough.
   */
  method NodesRefused(n: nat, waits: nat, limit: nat) returns (t: Tree)
    requires 0 < n < 16 && n + 1 <= limit < n + 1 + waits * n
    ensures fresh(t) && t.error == TooBig && t.maxSize == 100 && t.maxNodes == limit
    ensures var v := Array(Nils(n)); WellFormed(v) && t.Stream() == Encode(v) && Encoding.Nodes(v) == n + 1
    ensures FeedBytes(LateNils(n, waits)) == t.Stream() && Marks(LateNils(n, waits), 0) == seq(waits, _ => 1)
  {
    hide Encode, Encoding.Nodes, Tree.Running, Tree.Valid, Tree.Blameless, FeedBytes, FeedSize, Marks, Failures, Decode;
    ShortArray(n);
    LateNilsFed(n, waits);
    t := WaitForNils(n, waits, limit);
    var j := 0;
    while t.nodeCount + n <= limit
      invariant t.maxSize == 100 && t.maxNodes == limit && t.streaming && t.Stream() == [0x90 + n] + NilBytes(n)
      invariant t.Valid() && t.error == Ok && t.status == InProgress && t.data == [0x90 + n] && t.size == 0
      invariant j <= waits && t.nodeCount == 1 + j * n && t.feed == Delays(waits - j) + [Event.Bytes(NilBytes(n))]
      decreases limit - t.nodeCount
    {
      Fewer(j, waits, n);
      ArrayHeader(n);
      StillRunning(t);
      assert t.feed[1..] == Delays(waits - j - 1) + [Event.Bytes(NilBytes(n))];
      var ok := t.Resume();
      j := j + 1;
    }
    ArrayHeader(n);
    StillRunning(t);
    var ok := t.Resume();
  }

  lemma Fewer(j: nat, waits: nat, n: nat)
    ensures n > 0 && 1 + j * n + n < n + 1 + waits * n ==> j < waits
    ensures (j + 1) * n == j * n + n
  {
    if j >= waits { assert j * n == waits * n + (j - waits) * n; }
  }

  lemma ArrayHeader(n: nat)
    requires n < 16
    ensures HeaderAt([0x90 + n], 0) == Header(ArrayTag(n), 1) && Switch(0x90 + n) == FixedGroup(ArrayTag(n))
  {
  }

  lemma StillRunning(t: Tree)
    requires t.Valid() && t.error == Ok && t.status == InProgress && |t.data| == 1
    ensures t.possibleNodesLeft == 0
  {
    hide Laid, TracksAll;
    t.RootAlone();
  }
}

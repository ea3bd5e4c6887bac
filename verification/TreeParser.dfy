/**
 The non-recursive tree parser. Nodes are kept in the order of their allocation:
 in a caller's pool that is their index, in pages it is the order in which the
 page allocator handed them out. The data buffer holds the bytes of the current
 message and whatever arrived after it.
 */
module TreeParser {
  import opened MsgPack
  import opened ParseState

  /** What the read function has in store: bytes (none: not available yet) or a failure. */
  datatype Event = Bytes(b: seq<byte>) | Broken

  function FeedBytes(feed: seq<Event>): seq<byte> {
    if feed == [] then [] else (if feed[0].Bytes? then feed[0].b else []) + FeedBytes(feed[1..])
  }

  function Failures(feed: seq<Event>): nat {
    if feed == [] then 0 else (if feed[0].Broken? then 1 else 0) + Failures(feed[1..])
  }

  /** Where a stream, of which `at` bytes have been read, has nothing to give yet. */
  function Marks(feed: seq<Event>, at: nat): seq<nat> {
    if feed == [] then [] else
    match feed[0]
    case Broken => Marks(feed[1..], at)
    case Bytes(b) => (if b == [] then [at] else []) + Marks(feed[1..], at + |b|)
  }

  const SIZE_MAX: nat := 0xffff_ffff_ffff_ffff

  datatype ParseStatus = NotStarted | InProgress | Parsed

  // ---- the parser's own switch over the type byte

  datatype Action =
    | Fixed(tag: Tag)
    | FixedBlob(tag: Tag)
    | FixedGroup(tag: Tag)
    | Number(width: nat)
    | SizedBlob(width: nat)
    | SizedGroup(width: nat)
    | ReservedType
    | ExtType

  function Switch(b: byte): Action {
    if b <= 0x7f then Fixed(UIntTag(b))
    else if b >= 0xe0 then Fixed(IntTag(b - 0x100))
    else if b <= 0x8f then FixedGroup(MapTag(b % 0x10))
    else if b <= 0x9f then FixedGroup(ArrayTag(b % 0x10))
    else if b <= 0xbf then FixedBlob(StrTag(b % 0x20))
    else match b
      case 0xc0 => Fixed(NilTag)
      case 0xc2 => Fixed(BoolTag(false))
      case 0xc3 => Fixed(BoolTag(true))
      case 0xc4 => SizedBlob(1)
      case 0xc5 => SizedBlob(2)
      case 0xc6 => SizedBlob(4)
      case 0xca => Number(4)
      case 0xcb => Number(8)
      case 0xcc => Number(1)
      case 0xcd => Number(2)
      case 0xce => Number(4)
      case 0xcf => Number(8)
      case 0xd0 => Number(1)
      case 0xd1 => Number(2)
      case 0xd2 => Number(4)
      case 0xd3 => Number(8)
      case 0xd9 => SizedBlob(1)
      case 0xda => SizedBlob(2)
      case 0xdb => SizedBlob(4)
      case 0xdc => SizedGroup(2)
      case 0xdd => SizedGroup(4)
      case 0xde => SizedGroup(2)
      case 0xdf => SizedGroup(4)
      case 0xc1 => ReservedType
      case _ => ExtType
  }

  /** The tag made of the number `n` of width `w` behind type byte `b`. */
  function SwitchTag(b: byte, w: nat, n: nat): Tag
    requires n < Pow256(w)
  {
    match b
    case 0xc4 => BinTag(n)
    case 0xc5 => BinTag(n)
    case 0xc6 => BinTag(n)
    case 0xca => FloatTag(n)
    case 0xcb => DoubleTag(n)
    case 0xd0 => IntTag(Signed(n, w))
    case 0xd1 => IntTag(Signed(n, w))
    case 0xd2 => IntTag(Signed(n, w))
    case 0xd3 => IntTag(Signed(n, w))
    case 0xd9 => StrTag(n)
    case 0xda => StrTag(n)
    case 0xdb => StrTag(n)
    case 0xdc => ArrayTag(n)
    case 0xdd => ArrayTag(n)
    case 0xde => MapTag(n)
    case 0xdf => MapTag(n)
    case _ => UIntTag(n)
  }

  /** The switch is the header format of the reference decoder. */
  lemma SwitchAgrees(b: byte)
    ensures var a := Switch(b);
            if a.ReservedType? then b == 0xc1
            else if a.ExtType? then IsExt(b)
            else
              && b != 0xc1 && !IsExt(b)
              && (a.Fixed? || a.FixedBlob? || a.FixedGroup? ==> Width(b) == 0 && Meaning(b, 0) == a.tag)
              && (a.Number? || a.SizedBlob? || a.SizedGroup? ==>
                    && Width(b) == a.width
                    && forall n: nat :: n < Pow256(a.width) ==> Meaning(b, n) == SwitchTag(b, a.width, n))
              && (a.Fixed? ==> Children(a.tag) == 0 == Payload(a.tag))
              && (a.FixedBlob? ==> a.tag.StrTag?)
              && (a.FixedGroup? ==> Payload(a.tag) == 0)
              && (a.Number? ==> forall n: nat :: n < Pow256(a.width) ==>
                    Children(SwitchTag(b, a.width, n)) == 0 == Payload(SwitchTag(b, a.width, n)))
              && (a.SizedBlob? ==> forall n: nat :: n < Pow256(a.width) ==>
                    var t := SwitchTag(b, a.width, n); t.StrTag? || t.BinTag?)
              && (a.SizedGroup? ==> forall n: nat :: n < Pow256(a.width) ==> Payload(SwitchTag(b, a.width, n)) == 0)
  {
  }

  /** The bytes that no message may have. */
  lemma SwitchRejects(d: seq<byte>, p: nat)
    requires p < |d|
    ensures HeaderAt(d, p) == ReservedByte <==> Switch(d[p]).ReservedType?
    ensures HeaderAt(d, p) == ExtByte <==> Switch(d[p]).ExtType?
  {
    SwitchAgrees(d[p]);
  }

  /** The header at `p`, once the number of width `w` behind the type byte is in the buffer. */
  lemma {:induction false} HeaderHere(d: seq<byte>, p: nat, w: nat)
    requires p + 1 + w <= |d|
    requires var a := Switch(d[p]);
             (w == 0 && (a.Fixed? || a.FixedBlob? || a.FixedGroup?))
             || ((a.Number? || a.SizedBlob? || a.SizedGroup?) && w == a.width)
    ensures var a := Switch(d[p]);
            var tag := if a.Fixed? || a.FixedBlob? || a.FixedGroup? then a.tag
                       else SwitchTag(d[p], w, Load(d, p + 1, w));
            HeaderAt(d, p) == Header(tag, 1 + w)
  {
    SwitchAgrees(d[p]);
  }

  /** A header that decodes is as wide as the switch says. */
  lemma {:induction false} HeaderWidth(d: seq<byte>, p: nat)
    requires p < |d|
    ensures HeaderAt(d, p).Header? ==>
              var a := Switch(d[p]);
              && !a.ReservedType? && !a.ExtType?
              && HeaderAt(d, p).size == 1 + if a.Number? || a.SizedBlob? || a.SizedGroup? then a.width else 0
    ensures ItemAt(d, p).Item? ==> HeaderAt(d, p).Header? && p + HeaderAt(d, p).size <= ItemAt(d, p).next
  {
    SwitchAgrees(d[p]);
  }

  /** The item at `p`, from its header, and the node for it. */
  lemma HeaderItem(d: seq<byte>, p: nat, tag: Tag, h: nat, nodes: seq<Node>, link: nat)
    requires HeaderAt(d, p) == Header(tag, h)
    ensures ItemAt(d, p).Item? <==> p + h + Payload(tag) <= |d|
    ensures ItemAt(d, p).Item? ==> ItemAt(d, p).tag == tag && ItemAt(d, p).next == p + h + Payload(tag)
    ensures ItemAt(d, p).Item? && (Payload(tag) > 0 ==> link == p + h) && (Children(tag) > 0 ==> link == |nodes|) ==>
              && Linked(nodes, d, ItemAt(d, p), link)
              && ItemAt(d, p).raw == RawOf(Node(tag, link), d)
  {
  }

  class Tree {
    const streaming: bool        // a read function is set
    const poolCount: nat         // 0: nodes are allocated in pages
    const maxSize: nat
    const maxNodes: nat
    const nodesPerPage: nat

    var error: Error
    var data: seq<byte>
    var bufferCapacity: nat
    var feed: seq<Event>
    var size: nat
    var nodeCount: nat
    var nodes: seq<Node>

    var status: ParseStatus
    var possibleNodesLeft: nat
    var nodesLeft: nat
    var currentNodeReserved: nat
    var stack: seq<Level>
    var stackCapacity: nat

    ghost var owner: seq<nat>
    ghost var past: seq<byte>        // the bytes of earlier messages of the stream
    ghost var earlier: seq<Value>    // and what they decode to

    method FlagError(e: Error)
      requires e != Ok
      modifies this`error
      ensures error == if old(error) == Ok then e else old(error)
    {
      if error == Ok { error := e; }
    }

    /**
     * What feeding data may change: bytes arrive at the end of the data, each one room for one more node, and a failure
     * of the read function becomes an error.
     */
    twostate predicate Fed()
      reads this
    {
      && Failures(feed) <= old(Failures(feed)) && FeedSize(feed) <= old(FeedSize(feed))
      && (error == Io && old(error) == Ok ==> Failures(feed) < old(Failures(feed)))
      && old(data) <= data
      && possibleNodesLeft - |data| == old(possibleNodesLeft) - |old(data)|
      && data + FeedBytes(feed) == old(data + FeedBytes(feed))
      && (!streaming ==> data == old(data))
    }

    /** Where the stream has nothing to give yet, of what is in store. */
    ghost function Marked(): seq<nat>
      reads this`feed, this`past, this`data
    {
      Marks(feed, |past| + |data|)
    }

    /** A call that waits has come to the first such place, or to the end; any other passes none. */
    ghost predicate Noted(waits: bool, marks: seq<nat>)
      reads this`feed, this`past, this`data
    {
      if waits then (feed == [] && marks == []) || marks == [|past| + |data|] + Marked() else Marked() == marks
    }

    /** The read function: at most `max` of the bytes in store, of which `at` have been read before. */
    method Read(max: nat, ghost at: nat) returns (failed: bool, got: seq<byte>)
      modifies this`feed
      ensures failed ==> got == []
      ensures got + FeedBytes(feed) == old(FeedBytes(feed)) && |got| <= max
      ensures FeedSize(feed) < old(FeedSize(feed)) || (feed == old(feed) && got == [] && (feed == [] || max == 0))
      ensures Failures(feed) == old(Failures(feed)) - if failed then 1 else 0
      ensures failed || got != [] ==> Marks(feed, at + |got|) == old(Marks(feed, at))
      ensures !failed && got == [] && max > 0 ==>
                (feed == [] && old(Marks(feed, at)) == []) || old(Marks(feed, at)) == [at] + Marks(feed, at)
      ensures old(feed != [] && feed[0].Bytes?) && old(|feed[0].b|) <= max ==>
                !failed && got == old(feed[0].b) && feed == old(feed[1..])
    {
      if feed == [] { return false, []; }
      if feed[0].Broken? {
        feed := feed[1..];
        return true, [];
      }
      var b := feed[0].b;
      if |b| <= max {
        feed := feed[1..];
        return false, b;
      }
      got := b[..max];
      assert b == got + b[max..];
      ghost var rest := feed[1..];
      feed := [Bytes(b[max..])] + feed[1..];
      assert feed[1..] == rest;
      return false, got;
    }

    /** The part of `mpack_tree_reserve_fill` that makes room for `needed` bytes. */
    method GrowBuffer(needed: nat)
      requires bufferCapacity < needed <= maxSize
      modifies this`bufferCapacity
      ensures needed <= bufferCapacity <= maxSize
      ensures var c := DoubledTo(if old(bufferCapacity) == 0 then 4096 else old(bufferCapacity), needed);
              bufferCapacity == if c > maxSize then maxSize else c
    {
      var capacity := if bufferCapacity == 0 then 4096 else bufferCapacity;
      ghost var start := capacity;
      while capacity < needed
        invariant capacity > 0 && DoubledTo(capacity, needed) == DoubledTo(start, needed)
      {
        capacity := 2 * capacity;
      }
      bufferCapacity := if capacity > maxSize then maxSize else capacity;
    }

    /** The read function has nothing to give yet. */
    ghost predicate Dry()
      reads this
    {
      streaming && feed != [] && feed[0] == Bytes([])
    }

    /** The first read covers the reservation of a tree with an empty buffer, and fits it. */
    ghost predicate Gulp(n: nat)
      reads this
    {
      && streaming && data == [] && bufferCapacity == possibleNodesLeft == 0
      && feed != [] && feed[0].Bytes? && 0 < n <= |feed[0].b| <= maxSize && |feed[0].b| <= 4096
    }

    /** What follows the header of a node is refused, with `r` bytes reserved for it: too many nodes, or bytes. */
    ghost predicate Refuses(tag: Tag, r: nat)
      reads this
    {
      var k, c := Payload(tag) + Children(tag), Children(tag);
      && streaming && k > 0
      && ((c > 0 && maxNodes < nodeCount + c) || (possibleNodesLeft < r + k && maxSize < |data| + r + k))
    }

    /** It is within the limits, but has to wait. */
    ghost predicate Pauses(r: nat, k: nat)
      reads this
    {
      Dry() && nodeCount + k <= maxNodes && possibleNodesLeft < r + k && |data| + r + k <= maxSize
    }

    /** The header of the next node is there, and the rest is refused. */
    ghost predicate Refused()
      reads this
    {
      var h := HeaderAt(data, size);
      h.Header? && h.size - 1 <= possibleNodesLeft && Refuses(h.tag, h.size - 1)
    }

    /** The children of the next node, if it is a small container. */
    ghost function NextChildren(): nat
      reads this
    {
      if size < |data| && Switch(data[size]).FixedGroup? then Children(Switch(data[size]).tag) else 0
    }

    /** The next node is a small container that has to wait. */
    ghost predicate Paused()
      reads this
    {
      size < |data| && var a := Switch(data[size]); a.FixedGroup? && Pauses(0, Children(a.tag))
    }

    /** Fills the buffer until the current node's reservation is covered. */
    method ReserveFill() returns (ok: bool)
      requires error == Ok && currentNodeReserved > possibleNodesLeft
      requires streaming ==> |data| <= bufferCapacity <= maxSize
      modifies this`data, this`feed, this`bufferCapacity, this`possibleNodesLeft, this`error
      ensures Fed() && (streaming ==> |data| <= bufferCapacity <= maxSize)
      ensures ok ==> error == Ok && currentNodeReserved <= possibleNodesLeft
      ensures !ok && error == Ok ==> streaming && currentNodeReserved > possibleNodesLeft
      ensures Noted(!ok && error == Ok, old(Marked()))
      ensures error in {Ok, TooBig, Io, Invalid} && (error == Invalid ==> !streaming)
      ensures error == TooBig ==> data == old(data) && currentNodeReserved > possibleNodesLeft
      ensures error == TooBig <==> old(|data|) + currentNodeReserved > maxSize
      ensures old(Dry()) && error != TooBig ==> !ok && error == Ok && data == old(data) && feed == old(feed[1..])
      ensures old(Gulp(currentNodeReserved)) ==> ok && data == old(feed[0].b) && feed == old(feed[1..])
    {
      hide FeedBytes, FeedSize, Marks, Failures;
      var bytes := currentNodeReserved;
      if |data| + bytes > maxSize {
        FlagError(TooBig);
        return false;
      }
      if !streaming {
        FlagError(Invalid);
        return false;
      }
      if |data| + bytes > bufferCapacity { GrowBuffer(|data| + bytes); }
      ok := ReadUntil(bytes);
    }

    /** The loop that reads until there are enough bytes, or none. */
    method ReadUntil(bytes: nat) returns (ok: bool)
      requires error == Ok && streaming && possibleNodesLeft < bytes && |data| + bytes <= bufferCapacity <= maxSize
      modifies this`data, this`feed, this`possibleNodesLeft, this`error
      ensures Fed() && |data| <= bufferCapacity && error in {Ok, Io}
      ensures ok ==> error == Ok && bytes <= possibleNodesLeft
      ensures !ok && error == Ok ==> bytes > possibleNodesLeft
      ensures Noted(!ok && error == Ok, old(Marked()))
      ensures old(Dry()) ==> !ok && error == Ok && data == old(data) && feed == old(feed[1..])
      ensures old(feed != [] && feed[0].Bytes? && bytes <= possibleNodesLeft + |feed[0].b|) &&
              old(|data| + |feed[0].b|) <= bufferCapacity ==>
                ok && data == old(data + feed[0].b) && feed == old(feed[1..])
    {
      hide FeedBytes, FeedSize, Marks, Failures;
      ghost var once := feed != [] && feed[0].Bytes? && bytes <= possibleNodesLeft + |feed[0].b| &&
                        |data| + |feed[0].b| <= bufferCapacity;
      while true
        invariant Fed() && error == Ok && |data| <= bufferCapacity && possibleNodesLeft < bytes
        invariant old(|data|) + bytes <= bufferCapacity
        invariant (data == old(data) && feed == old(feed)) || (!once && !old(Dry()))
        invariant Marked() == old(Marked())
        decreases FeedSize(feed)
      {
        var failed, got := Read(bufferCapacity - |data|, |past| + |data|);
        if failed {
          FlagError(Io);
          return false;
        }
        if got == [] { return false; }
        assert data + (got + FeedBytes(feed)) == (data + got) + FeedBytes(feed);
        data := data + got;
        possibleNodesLeft := possibleNodesLeft + |got|;
        if possibleNodesLeft >= bytes { return true; }
      }
    }

    /** Adds to the reservation of the current node, reading more data if it is not covered. */
    method ReserveBytes(extra: nat) returns (ok: bool)
      requires error == Ok
      requires streaming ==> |data| <= bufferCapacity <= maxSize
      modifies this`data, this`feed, this`bufferCapacity, this`possibleNodesLeft, this`error, this`currentNodeReserved
      ensures Fed() && (streaming ==> |data| <= bufferCapacity <= maxSize)
      ensures currentNodeReserved == old(currentNodeReserved) + extra
      ensures ok ==> error == Ok && currentNodeReserved <= possibleNodesLeft
      ensures old(currentNodeReserved + extra <= possibleNodesLeft) ==> ok && data == old(data)
      ensures !ok && error == Ok ==> streaming && currentNodeReserved > possibleNodesLeft
      ensures Noted(!ok && error == Ok, old(Marked()))
      ensures !streaming ==> (ok <==> currentNodeReserved <= possibleNodesLeft)
      ensures error in {Ok, TooBig, Io, Invalid} && (error == Invalid ==> !streaming)
      ensures error == TooBig ==> data == old(data) && currentNodeReserved > possibleNodesLeft
      ensures old(currentNodeReserved + extra > possibleNodesLeft) ==>
                (error == TooBig <==> old(|data|) + currentNodeReserved > maxSize)
      ensures old(Dry() && currentNodeReserved + extra > possibleNodesLeft) && error != TooBig ==>
                !ok && error == Ok && data == old(data) && feed == old(feed[1..])
      ensures old(Gulp(currentNodeReserved + extra)) ==> ok && data == old(feed[0].b) && feed == old(feed[1..])
    {
      currentNodeReserved := currentNodeReserved + extra;
      if currentNodeReserved <= possibleNodesLeft { return true; }
      ok := ReserveFill();
    }

    /** Limits, pool and buffer sizes are consistent. */
    ghost predicate Sized()
      reads this
    {
      && Limits()
      && (streaming ==> |data| <= bufferCapacity <= maxSize)
      && (poolCount > 0 ==> |nodes| + nodesLeft == poolCount)
    }

    ghost predicate Limits() {
      (streaming ==> poolCount == 0 && maxSize > 0) && nodesPerPage > 0 && maxNodes > 0
    }

    /** The state between two nodes of a message. */
    ghost predicate Running()
      reads this
    {
      && error == Ok && status == InProgress && Sized()
      && 0 < |stack| <= stackCapacity
      && stack[|stack| - 1].left > 0 && Pending(stack) != []
      && possibleNodesLeft + size + |Pending(stack)| == |data| && |nodes| <= size + |Pending(stack)|
      && (!streaming ==> nodeCount == |nodes| <= maxNodes)
      && Laid(nodes, Pending(stack), owner)
      && TracksAll(data, size, Pending(stack), nodes)
    }

    /** With one byte in the buffer there is none for the children of the root. */
    lemma RootAlone()
      requires Running() && |data| == 1
      ensures possibleNodesLeft == 0
    {
      assert |Pending(stack)| > 0;
    }

    /** Every allocated node and every byte still free for one is covered by a byte of the data. */
    lemma {:induction false} NodesWithinData()
      requires Running()
      ensures |nodes| + possibleNodesLeft <= |data| && size < |data|
      ensures possibleNodesLeft == |data| - size - LeftOver(stack)
    {
      hide Laid, TracksAll;
      PendingCount(stack);
    }

    /** The message at the beginning of `d` decodes, and its nodes stay within the limits. */
    ghost predicate Fits(d: seq<byte>) {
      var r := Decode(d, 0, 1);
      r.Done? && r.nodes <= maxNodes && (poolCount > 0 ==> r.nodes <= poolCount)
    }

    /** Nor has it a map with 2^31 entries or more. */
    ghost predicate Accepts(d: seq<byte>) {
      Fits(d) && Narrow(Decode(d, 0, 1).vals[0])
    }

    /** In data of less than 4 GiB, or with fewer nodes than 2^32 in the pool, there is no such map. */
    lemma {:induction false} AcceptsSmall(d: seq<byte>)
      requires |d| < U32 || 0 < poolCount < U32
      ensures Accepts(d) <==> Fits(d)
    {
      hide Decode, Narrow;
      var r := Decode(d, 0, 1);
      if r.Done? && !Narrow(r.vals[0]) { SmallIsNarrow(d, 0, 1); }
    }

    /** `mpack_tree_push_stack`. */
    method PushStack(firstChild: nat, total: nat)
      requires 0 < |stack| <= stackCapacity
      modifies this`stack, this`stackCapacity
      ensures 0 < |stack| <= stackCapacity
      ensures stack == old(stack) + if total == 0 then [] else [Level(firstChild, total)]
      ensures stackCapacity == old(stackCapacity) * if total > 0 && old(|stack| == stackCapacity) then 2 else 1
    {
      if total == 0 { return; }
      if |stack| == stackCapacity { stackCapacity := stackCapacity * 2; }
      stack := stack + [Level(firstChild, total)];
    }

    /** A reservation that is not covered, and that the limit for messages leaves no room for behind the data. */
    ghost predicate Overlong()
      reads this
    {
      possibleNodesLeft < currentNodeReserved && maxSize < |data| + currentNodeReserved
    }

    /** The part of `mpack_tree_parse_children` that takes nodes from the pool or from a page. */
    method AllocateNodes(total: nat) returns (ok: bool)
      requires error == Ok && nodesPerPage > 0 && (poolCount > 0 ==> |nodes| + nodesLeft == poolCount)
      modifies this`nodes, this`nodesLeft, this`error
      ensures poolCount > 0 ==> |nodes| + nodesLeft == poolCount
      ensures ok <==> poolCount == 0 || old(|nodes|) + total <= poolCount
      ensures if ok then error == Ok && nodes == old(nodes) + seq(total, _ => Blank)
              else error == TooBig && nodes == old(nodes) && nodesLeft == old(nodesLeft)
      ensures ok ==>
                nodesLeft == (if total <= old(nodesLeft) then old(nodesLeft) - total
                              else if total > nodesPerPage || old(nodesLeft) > nodesPerPage / 8 then old(nodesLeft)
                              else nodesPerPage - total)
    {
      if total <= nodesLeft {
        nodesLeft := nodesLeft - total;
      } else {
        if poolCount > 0 {
          FlagError(TooBig);
          return false;
        }
        // A page of their own, or the start of a new shared page; the rest of the old page is given up.
        if !(total > nodesPerPage || nodesLeft > nodesPerPage / 8) { nodesLeft := nodesPerPage - total; }
      }
      nodes := nodes + seq(total, _ => Blank);
      ok := true;
    }

    /** The part of `mpack_tree_parse_children` that counts the children and reserves a byte for each. */
    method CountChildren(total: nat) returns (ok: bool)
      requires error == Ok && (streaming ==> |data| <= bufferCapacity <= maxSize)
      modifies this`data, this`feed, this`bufferCapacity, this`possibleNodesLeft, this`error, this`currentNodeReserved
      modifies this`nodeCount
      ensures Fed() && (streaming ==> |data| <= bufferCapacity <= maxSize) && nodeCount == old(nodeCount) + total
      ensures nodeCount <= maxNodes ==> currentNodeReserved == old(currentNodeReserved) + total
      ensures ok ==> error == Ok && nodeCount <= maxNodes && currentNodeReserved <= possibleNodesLeft
      ensures !ok && error == Ok ==> streaming && nodeCount <= maxNodes && currentNodeReserved > possibleNodesLeft
      ensures !ok && !streaming ==> error != Ok && (nodeCount > maxNodes || currentNodeReserved > possibleNodesLeft)
      ensures Noted(!ok && error == Ok, old(Marked()))
      ensures error in {Ok, TooBig, Io, Invalid} && (error == Invalid ==> !streaming)
      ensures error == TooBig ==> nodeCount > maxNodes || Overlong()
      ensures nodeCount > maxNodes ==> error == TooBig
      ensures nodeCount <= maxNodes && old(possibleNodesLeft < currentNodeReserved + total) ==>
                (error == TooBig <==> old(|data| + currentNodeReserved) + total > maxSize)
      ensures old(Dry() && possibleNodesLeft < currentNodeReserved + total) && error != TooBig ==>
                !ok && error == Ok && data == old(data) && feed == old(feed[1..])
    {
      hide FeedBytes, Failures, FeedSize, Marks, Marked;
      nodeCount := nodeCount + total;
      if nodeCount > maxNodes {
        FlagError(TooBig);
        return false;
      }
      ok := ReserveBytes(total);
    }

    /** `mpack_tree_parse_children`: reserves a byte and allocates a node for every child. */
    method ParseChildren(tag: Tag) returns (ok: bool, link: nat)
      requires Running() && Payload(tag) == 0
      modifies this`data, this`feed, this`bufferCapacity, this`possibleNodesLeft, this`error, this`currentNodeReserved
      modifies this`nodeCount, this`nodes, this`nodesLeft, this`stack, this`stackCapacity
      ensures Fed() && Sized() && 0 < |stack| <= stackCapacity
      ensures ok ==> currentNodeReserved == old(currentNodeReserved) + Children(tag) <= possibleNodesLeft
      ensures ok ==> error == Ok && link == old(|nodes|)
      ensures ok ==> nodes == old(nodes) + seq(Children(tag), _ => Blank)
      ensures ok ==> stack == old(stack) + if Children(tag) == 0 then [] else [Level(link, Children(tag))]
      ensures nodeCount == old(nodeCount) + Children(tag)   // also if it waits, and is called again
      ensures ok && !streaming ==> nodeCount == |nodes| <= maxNodes
      ensures !ok && error == Ok ==> streaming && unchanged(this`nodes, this`nodesLeft, this`stack, this`stackCapacity)
      ensures !ok && error == Ok ==> old(currentNodeReserved) + Children(tag) > possibleNodesLeft
      ensures Noted(!ok && error == Ok, old(Marked()))
      ensures !ok && !streaming ==> error != Ok
      ensures !ok && !streaming ==>
                || old(currentNodeReserved) + Children(tag) > possibleNodesLeft
                || old(|nodes|) + Children(tag) > maxNodes
                || (poolCount > 0 && old(|nodes|) + Children(tag) > poolCount)
      ensures error in {Ok, TooBig, Io, Invalid} && (error == Invalid ==> !streaming)
      ensures error == TooBig && streaming ==> nodeCount > maxNodes || Overlong()
      ensures error == TooBig && streaming && nodeCount <= maxNodes ==>
                currentNodeReserved == old(currentNodeReserved) + Children(tag)
      ensures old(Refuses(tag, currentNodeReserved)) ==> !ok && error == TooBig
      ensures old(Pauses(currentNodeReserved, Children(tag))) ==>
                !ok && error == Ok && data == old(data) && feed == old(feed[1..])
    {
      hide Laid, TracksAll, Tracks, Decode, Pending, FeedBytes, Failures, FeedSize, Marks, Marked;
      var total := Children(tag);
      link := |nodes|;
      ok := CountChildren(total);
      if !ok { return; }
      ok := AllocateNodes(total);
      if ok { PushStack(link, total); }
    }

    /** The next node's header and bytes are there, with a byte for every child and node still to come. */
    ghost predicate Ready()
      reads this
    {
      var i, c := ItemAt(data, size), |Pending(stack)|;
      i.Item? && c > 0 && i.next + Children(i.tag) + (c - 1) <= |data|
    }

    /** The next node is ready, and its children stay within the limits. */
    ghost predicate Room()
      reads this
    {
      var i := ItemAt(data, size);
      && Ready()
      && |nodes| + Children(i.tag) <= maxNodes
      && (poolCount > 0 ==> |nodes| + Children(i.tag) <= poolCount)
    }

    /** A message that is accepted has room at every node: rejecting early loses nothing. */
    lemma {:induction false} AcceptedHasRoom()
      requires Running() && Fits(data)
      ensures Room()
    {
      var c, i := |Pending(stack)|, ItemAt(data, size);
      assert Tracks(data, size, Pending(stack), nodes);
      DecodeFlat(data, size, c);
    }

    /** At every node of a message that is complete in the buffer the node is ready: there is nothing to wait for. */
    lemma {:induction false} CompleteIsReady()
      requires Running() && Decode(data, 0, 1).Done?
      ensures Ready()
    {
      var c := |Pending(stack)|;
      assert Tracks(data, size, Pending(stack), nodes);
      DecodeFlat(data, size, c);
    }

    /** The next node starts with a byte that no message may have, for which `e` is the error. */
    ghost predicate Malformed(e: Error)
      reads this
    {
      HeaderAt(data, size) == if e == Invalid then ReservedByte else ExtByte
    }

    /** Such a byte ends parsing with its own error. */
    ghost predicate Charged()
      reads this
    {
      (Malformed(Invalid) ==> error == Invalid) && (Malformed(Unsupported) ==> error == Unsupported)
    }

    /** The error is one for such a byte: given data that is too short is invalid as well. */
    ghost predicate Bad()
      reads this
    {
      error == Unsupported || (error == Invalid && streaming)
    }

    /** Why a node is too big: with its children there are too many nodes, `n` before, or too many bytes reserved. */
    ghost predicate Excessive(n: nat)
      reads this
    {
      || (nodeCount > maxNodes && nodeCount >= n && Bears(data, size, nodeCount - n))
      || (Overlong() && Claims(data, size, currentNodeReserved))
    }

    /**
     * What parsing the contents of a node achieves, given the nodes, the stack, the room, the node count and the store
     * of the read function there were before.
     */
    ghost predicate Outcome(ok: bool, node: Node, nodes0: seq<Node>, stack0: seq<Level>, room0: bool, n: nat,
          marks: seq<nat>)
      reads this
    {
      && Sized() && 0 < |stack| <= stackCapacity
      && (ok ==>
            && error == Ok && node.Node? && Children(node.tag) <= currentNodeReserved <= possibleNodesLeft
            && (Payload(node.tag) > 0 ==> node.link + Payload(node.tag) <= |data|)
            && var i := ItemAt(data, size);
            && i == Item(node.tag, RawOf(node, data), size + 1 + currentNodeReserved - Children(node.tag))
            && Linked(nodes0, data, i, node.link)
            && nodes == nodes0 + seq(Children(node.tag), _ => Blank)
            && stack == stack0 + (if Children(node.tag) == 0 then [] else [Level(node.link, Children(node.tag))])
            && nodeCount == n + Children(node.tag)
            && (!streaming ==> nodeCount == |nodes| <= maxNodes))
      && (!ok && error == TooBig && streaming ==> Excessive(n))
      && (!ok && error == Ok ==> nodeCount >= n && (nodeCount == n || Bears(data, size, nodeCount - n)))
      && Noted(!ok && error == Ok, marks)
      && error in {Ok, TooBig, Io, Invalid, Unsupported}
      && (!ok && error == Ok ==> streaming && nodes == nodes0 && stack == stack0 && !Ready())
      && (!ok && Bad() ==> Malformed(error)) && Charged()
      && (!ok && !streaming ==> error != Ok && !room0)
    }

    /** The number of width `w` behind the type byte is in the buffer; the header has the meaning `tag`. */
    ghost predicate AtHeader(tag: Tag, w: nat)
      reads this
    {
      currentNodeReserved == w <= possibleNodesLeft && HeaderAt(data, size) == Header(tag, 1 + w)
    }

    /** `mpack_tree_parse_bytes`. */
    method ParseBytes(tag: Tag, ghost w: nat) returns (ok: bool, node: Node)
      requires Running() && AtHeader(tag, w) && (tag.StrTag? || tag.BinTag?)
      modifies this`data, this`feed, this`bufferCapacity, this`possibleNodesLeft, this`error, this`currentNodeReserved
      ensures Fed() && Outcome(ok, node, old(nodes), old(stack), old(Room()), old(nodeCount), old(Marked()))
      ensures old(Refuses(tag, currentNodeReserved)) ==> !ok && error == TooBig
    {
      hide Laid, TracksAll, Tracks, Decode, Pending, HeaderAt, ItemAt, RawOf, Linked, Claims, Bears, FeedBytes,
           Failures, FeedSize, Marks;
      node := Node(tag, size + currentNodeReserved + 1);
      ok := ReserveBytes(tag.len);
      HeaderExtends(old(data), data, size);
      HeaderClaims(data, size, tag, 1 + w);
      HeaderItem(data, size, tag, 1 + w, nodes, node.link);
    }

    /** A container node: `mpack_tree_parse_children` for a header that was read. */
    method ParseGroup(tag: Tag, ghost w: nat) returns (ok: bool, node: Node)
      requires Running() && AtHeader(tag, w) && Payload(tag) == 0
      modifies this`data, this`feed, this`bufferCapacity, this`possibleNodesLeft, this`error, this`currentNodeReserved
      modifies this`nodeCount, this`nodes, this`nodesLeft, this`stack, this`stackCapacity
      ensures Fed() && Outcome(ok, node, old(nodes), old(stack), old(Room()), old(nodeCount), old(Marked()))
      ensures old(Refuses(tag, currentNodeReserved)) ==> !ok && error == TooBig
      ensures old(Pauses(currentNodeReserved, Children(tag))) ==>
                !ok && error == Ok && data == old(data) && feed == old(feed[1..])
      ensures !ok && error == Ok ==> nodeCount == old(nodeCount) + Children(tag)
    {
      hide Laid, TracksAll, Tracks, Decode, Pending, HeaderAt, ItemAt, RawOf, Linked, Claims, Bears, FeedBytes,
           Failures, FeedSize, Marks;
      var link;
      ok, link := ParseChildren(tag);
      node := Node(tag, link);
      HeaderExtends(old(data), data, size);
      HeaderClaims(data, size, tag, 1 + w);
      HeaderItem(data, size, tag, 1 + w, old(nodes), link);
    }

    /** Makes sure the number of width `w` behind the type byte is in the buffer. */
    method ReserveHeader(w: nat) returns (ok: bool)
      requires Running() && currentNodeReserved == 0
      requires var a := Switch(data[size]); (a.Number? || a.SizedBlob? || a.SizedGroup?) && w == a.width
      modifies this`data, this`feed, this`bufferCapacity, this`possibleNodesLeft, this`error, this`currentNodeReserved
      ensures Fed() && data[size] == old(data[size])
      ensures ok ==> Running() && size + 1 + w <= |data| && Marked() == old(Marked())
      ensures ok ==> AtHeader(SwitchTag(data[size], w, Load(data, size + 1, w)), w)
      ensures if ok then !streaming ==> Room() == old(Room())
              else Outcome(false, Blank, nodes, stack, old(Room()), nodeCount, old(Marked()))
      ensures old(w <= possibleNodesLeft) ==> ok && data == old(data) && nodeCount == old(nodeCount)
    {
      hide Laid, TracksAll, Tracks, Decode, Pending, ItemAt, HeaderAt, SwitchTag, Claims, Bears, FeedBytes,
           Failures, FeedSize, Marks;
      HeaderWidth(data, size);
      ok := ReserveBytes(w);
      HeaderWidth(data, size);
      TracksMore(old(data), data, size, Pending(stack), nodes);
      SwitchRejects(data, size);
      if ok { HeaderHere(data, size, w); } else { WidthClaims(data, size, w); }
    }

    /** The number behind the type byte. */
    function LoadedAt(w: nat): nat
      reads this
    {
      if size + 1 + w <= |data| then Load(data, size + 1, w) else 0
    }

    /** The types whose header is the type byte. */
    method ParseFixed(b: byte) returns (ok: bool, node: Node)
      requires Running() && currentNodeReserved == 0 && b == data[size]
      requires Switch(b).Fixed? || Switch(b).FixedBlob? || Switch(b).FixedGroup?
      modifies this`data, this`feed, this`bufferCapacity, this`possibleNodesLeft, this`error, this`currentNodeReserved
      modifies this`nodeCount, this`nodes, this`nodesLeft, this`stack, this`stackCapacity
      ensures Fed() && Outcome(ok, node, old(nodes), old(stack), old(Room()), old(nodeCount), old(Marked()))
      ensures old(Refused()) ==> !ok && error == TooBig
      ensures old(Paused()) ==>
                && !ok && error == Ok && data == old(data) && feed == old(feed[1..])
                && nodeCount == old(nodeCount + NextChildren())
    {
      hide Laid, TracksAll, Tracks, Decode, Pending, HeaderAt, Switch, Claims, Bears, FeedBytes,
           Failures, FeedSize, Marks;
      SwitchAgrees(b);
      HeaderHere(data, size, 0);
      var tag := Switch(b).tag;
      if Switch(b).FixedBlob? {
        ok, node := ParseBytes(tag, 0);
      } else if Switch(b).FixedGroup? {
        ok, node := ParseGroup(tag, 0);
      } else {
        ok, node := true, Node(tag, 0);
        HeaderItem(data, size, tag, 1, nodes, 0);
      }
    }

    /** The number behind the type byte is there. */
    method ParseNumbered(b: byte, tag: Tag) returns (ok: bool, node: Node)
      requires Switch(b).Number? || Switch(b).SizedBlob? || Switch(b).SizedGroup?
      requires var w := Switch(b).width; Running() && AtHeader(tag, w) && tag == SwitchTag(b, w, LoadedAt(w))
      modifies this`data, this`feed, this`bufferCapacity, this`possibleNodesLeft, this`error, this`currentNodeReserved
      modifies this`nodeCount, this`nodes, this`nodesLeft, this`stack, this`stackCapacity
      ensures Fed() && Outcome(ok, node, old(nodes), old(stack), old(Room()), old(nodeCount), old(Marked()))
      ensures old(Refuses(tag, Switch(b).width)) ==> !ok && error == TooBig
    {
      hide Laid, TracksAll, Tracks, Decode, Pending, HeaderAt, Switch, Claims, Bears, FeedBytes, Failures, FeedSize,
           Marks;
      SwitchAgrees(b);
      var w := Switch(b).width;
      if Switch(b).SizedBlob? {
        ok, node := ParseBytes(tag, w);
      } else if Switch(b).SizedGroup? {
        ok, node := ParseGroup(tag, w);
      } else {
        ok, node := true, Node(tag, 0);
        HeaderItem(data, size, tag, 1 + w, nodes, 0);
      }
    }

    /** The types with a number behind the type byte. */
    method ParseSized(b: byte) returns (ok: bool, node: Node)
      requires Running() && currentNodeReserved == 0 && b == data[size]
      requires Switch(b).Number? || Switch(b).SizedBlob? || Switch(b).SizedGroup?
      modifies this`data, this`feed, this`bufferCapacity, this`possibleNodesLeft, this`error, this`currentNodeReserved
      modifies this`nodeCount, this`nodes, this`nodesLeft, this`stack, this`stackCapacity
      ensures Fed() && Outcome(ok, node, old(nodes), old(stack), old(Room()), old(nodeCount), old(Marked()))
      ensures old(Refused()) ==> !ok && error == TooBig
    {
      hide Laid, TracksAll, Tracks, Decode, Pending, HeaderAt, Switch, SwitchTag, Claims, Bears, FeedBytes, Failures,
           FeedSize, Marks, Excessive, Ready;
      HeaderWidth(data, size);
      node := Blank;
      var w := Switch(b).width;
      ok := ReserveHeader(w);
      if ok { ok, node := ParseNumbered(b, SwitchTag(b, w, LoadedAt(w))); }
    }

    /** A type that no message may have. */
    method RejectType()
      requires Running() && (Switch(data[size]).ReservedType? || Switch(data[size]).ExtType?)
      modifies this`error
      ensures error == if Switch(data[size]).ReservedType? then Invalid else Unsupported
      ensures Fed() && Outcome(false, Blank, nodes, stack, old(Room()), nodeCount, Marked())
    {
      hide Laid, TracksAll, Tracks, Decode, Pending, FeedBytes, Failures, FeedSize, Marks;
      SwitchAgrees(data[size]);
      FlagError(if Switch(data[size]).ReservedType? then Invalid else Unsupported);
    }

    /** `mpack_tree_parse_node_contents`. */
    method ParseNodeContents() returns (ok: bool, node: Node)
      requires Running()
      modifies this`data, this`feed, this`bufferCapacity, this`possibleNodesLeft, this`error, this`currentNodeReserved
      modifies this`nodeCount, this`nodes, this`nodesLeft, this`stack, this`stackCapacity
      ensures Fed() && Outcome(ok, node, old(nodes), old(stack), old(Room()), old(nodeCount), old(Marked()))
      ensures old(Refused()) ==> !ok && error == TooBig
      ensures old(Paused()) ==>
                && !ok && error == Ok && data == old(data) && feed == old(feed[1..])
                && nodeCount == old(nodeCount + NextChildren())
    {
      hide Laid, TracksAll, Tracks, Decode, Pending, HeaderAt, ItemAt, Switch, Claims, Bears, FeedBytes, Failures,
           FeedSize, Marks, Excessive;
      var b := data[size];
      node := Blank;
      currentNodeReserved := 0;
      match Switch(b)
      case ReservedType =>
        RejectType();
        ok := false;
      case ExtType =>
        RejectType();
        ok := false;
      case Fixed(_) => ok, node := ParseFixed(b);
      case FixedBlob(_) => ok, node := ParseFixed(b);
      case FixedGroup(_) => ok, node := ParseFixed(b);
      case _ => ok, node := ParseSized(b);
    }

    /** All nodes are parsed: the tree and `size` are settled, whatever bytes follow. */
    ghost predicate Complete()
      reads this
    {
      && error == Ok && Sized() && size + possibleNodesLeft == |data|
      && (!streaming ==> nodeCount == |nodes| <= maxNodes)
      && Laid(nodes, [], owner)
      && TracksAll(data, size, [], nodes)
    }

    /** Bytes only ever move from the read function to the end of the data. */
    twostate predicate Received()
      reads this
    {
      && old(data) <= data
      && data + FeedBytes(feed) == old(data + FeedBytes(feed))
      && (!streaming ==> data == old(data))
      && Failures(feed) <= old(Failures(feed)) && FeedSize(feed) <= old(FeedSize(feed))
      && (error == Io ==> Failures(feed) < old(Failures(feed)))
      && error in {Ok, TooBig, Io, Invalid, Unsupported, Undefined}
    }

    /**
     * The nodes that were counted twice because their parent's header was parsed again: `x` before, and now as many, or
     * the children of the next item more.
     */
    ghost predicate Recounted(x: int)
      reads this
    {
      || nodeCount - |nodes| == x
      || (nodeCount - |nodes| > x && Bears(data, size, nodeCount - |nodes| - x))
    }

    /** `mpack_tree_parse_node`, and the node counted off its level. */
    method ParseNode() returns (ok: bool)
      requires Running()
      modifies this`data, this`feed, this`bufferCapacity, this`possibleNodesLeft, this`error, this`currentNodeReserved
      modifies this`nodeCount, this`nodes, this`nodesLeft, this`stack, this`stackCapacity, this`size, this`owner
      ensures Received() && 0 < |stack| <= stackCapacity
      ensures ok ==> old(size) < size && Between()
      ensures !ok && error == Ok ==> streaming && Running() && unchanged(this`size, this`nodes, this`stack, this`owner)
      ensures !ok && error == Ok ==> !Decode(data, 0, 1).Done?
      ensures !ok ==> (Bad() ==> Spoiled(data, error)) && Charged()
      ensures !ok && error == Undefined ==> Wide(data)
      ensures !ok && !streaming ==> error != Ok && !Accepts(data) && (error == Undefined || !Fits(data))
      ensures ok ==> nodeCount - |nodes| == old(nodeCount - |nodes|)
      ensures !ok && error == Ok ==> Recounted(old(nodeCount - |nodes|))
      ensures Noted(!ok && error == Ok, old(Marked()))
      ensures !ok && error == TooBig && streaming ==> Exceeds(data, maxSize, maxNodes - old(nodeCount - |nodes|))
      ensures old(Refused()) ==> !ok && error == TooBig
      ensures old(Paused()) ==>
                && !ok && error == Ok && data == old(data) && feed == old(feed[1..])
                && nodeCount == old(nodeCount + NextChildren())
    {
      hide Laid, TracksAll, Tracks, Decode, Pending, ItemAt, RawOf, Linked, Claims, Bears, FeedBytes, Failures, Exceeds,
           Marked, Wide, Spoiled, Fits, Excessive, Malformed, Ready, Room, Outcome;
      var level := |stack| - 1;
      ghost var stack0, nodes0, data0, n0, marks := stack, nodes, data, nodeCount, Marked();
      if !streaming && Fits(data) { AcceptedHasRoom(); }
      var node;
      ok, node := ParseNodeContents();
      TracksMore(data0, data, size, Pending(stack0), nodes0);
      if ok {
        ok := MoveOn(level, node, stack0, nodes0, n0, old(Room()), marks);
      } else {
        WhyStopped(node, stack0, nodes0, old(Room()), n0, marks);
      }
    }

    /** The contents of a node are not there, or not acceptable. */
    lemma {:induction false} WhyStopped(node: Node, stack0: seq<Level>, nodes0: seq<Node>, room: bool, n0: nat,
          marks: seq<nat>)
      requires Outcome(false, node, nodes0, stack0, room, n0, marks) && status == InProgress
      requires stack0 != [] && stack0[|stack0| - 1].left > 0 && Pending(stack0) != []
      requires Laid(nodes0, Pending(stack0), owner) && TracksAll(data, size, Pending(stack0), nodes0)
      requires possibleNodesLeft + size + |Pending(stack0)| == |data| && |nodes0| <= size + |Pending(stack0)|
      ensures 0 < |stack| <= stackCapacity && Noted(error == Ok, marks)
      ensures error in {Ok, TooBig, Io, Invalid, Unsupported} && (!streaming ==> error != Ok && !room)
      ensures error == Ok ==> streaming && Running() && nodes == nodes0 && stack == stack0
      ensures error == Ok ==> Recounted(n0 - |nodes0|)
      ensures error == Ok ==> !Decode(data, 0, 1).Done?
      ensures (Bad() ==> Spoiled(data, error)) && Charged()
      ensures error == TooBig && streaming ==> Exceeds(data, maxSize, maxNodes - (n0 - |nodes0|))
    {
      hide Laid, TracksAll, Tracks, Decode, Pending, ItemAt, HeaderAt, Exceeds, Excessive, Spoiled, Bears, Marked;
      if error == Ok {
        if Decode(data, 0, 1).Done? { CompleteIsReady(); }
      } else if Bad() {
        MalformedSpoils(data, size, Pending(stack0), nodes0, error);
      } else if error == TooBig && streaming {
        ExcessiveExceeds(nodes0, Pending(stack0), n0);
      }
    }

    /** What is too big for the parser exceeds a limit, whatever follows. */
    lemma {:induction false} ExcessiveExceeds(nodes0: seq<Node>, pending: seq<nat>, n: nat)
      requires Excessive(n) && TracksAll(data, size, pending, nodes0) && pending != []
      requires possibleNodesLeft + size + |pending| == |data|
      ensures Exceeds(data, maxSize, maxNodes - (n - |nodes0|))
    {
      hide Decode, ItemAt;
      forall d | data <= d && Decode(d, 0, 1).Done?
        ensures 2 * Decode(d, 0, 1).next - 2 > maxSize || Decode(d, 0, 1).nodes > maxNodes - (n - |nodes0|)
      {
        assert Tracks(d, size, pending, nodes0);
        DecodeNeeds(d, size, |pending|);
      }
    }

    /** Moves past a parsed node, unless the next one would be looked for at a wrong place. */
    method MoveOn(level: nat, node: Node, ghost stack0: seq<Level>, ghost nodes0: seq<Node>, ghost n0: nat,
          ghost room: bool, ghost marks: seq<nat>)
      returns (ok: bool)
      requires level + 1 == |stack0| && stack0[level].left > 0 && status == InProgress
      requires Outcome(true, node, nodes0, stack0, room, n0, marks)
      requires Laid(nodes0, Pending(stack0), owner) && TracksAll(data, size, Pending(stack0), nodes0)
      requires possibleNodesLeft + size + |Pending(stack0)| == |data| && |nodes0| <= size + |Pending(stack0)|
      modifies this`size, this`nodes, this`stack, this`owner, this`possibleNodesLeft, this`error
      ensures 0 < |stack| <= stackCapacity && Noted(false, marks)
      ensures if ok then Between() && old(size) < size && nodeCount - |nodes| == n0 - |nodes0|
              else error == Undefined && Wide(data) && !Accepts(data) && Charged()
    {
      hide Laid, TracksAll, Tracks, Decode, Pending, RawOf, Linked, ItemAt, HeaderAt, Huge, NodeSize, Wide, Accepts;
      PendingHead(stack0);
      SizeRight(node, Pending(stack0), nodes0);
      if NodeSize(currentNodeReserved, node.tag) != currentNodeReserved + 1 - Children(node.tag) {
        FlagError(Undefined);
        return false;
      }
      CountNode(level, node, stack0, nodes0, n0, marks);
      ok := true;
    }

    /** Where the size of the next node is computed wrongly, no message that the parser could go on with begins so. */
    lemma {:induction false} SizeRight(node: Node, pending: seq<nat>, nodes0: seq<Node>)
      requires TracksAll(data, size, pending, nodes0) && pending != [] && node.Node?
      requires ItemAt(data, size).Item? && ItemAt(data, size).tag == node.tag
      ensures NodeSize(currentNodeReserved, node.tag) == currentNodeReserved + 1 - Children(node.tag) <==>
                !Huge(node.tag)
      ensures Huge(node.tag) ==> Wide(data) && !Accepts(data)
    {
      hide TracksAll, ItemAt, Decode, Narrow;
      NodeSizeExact(currentNodeReserved, node.tag);
      if Huge(node.tag) {
        HugeIsWide(data, size, pending, nodes0);
        assert data <= data;
      }
    }

    /** Writes the parsed node, moves past it and counts it off its level. */
    method CountNode(level: nat, node: Node, ghost stack0: seq<Level>, ghost nodes0: seq<Node>, ghost n0: nat,
          ghost marks: seq<nat>)
      requires level + 1 == |stack0| && stack0[level].left > 0 && status == InProgress
      requires Outcome(true, node, nodes0, stack0, true, n0, marks) && !Huge(node.tag)
      requires Laid(nodes0, Pending(stack0), owner) && TracksAll(data, size, Pending(stack0), nodes0)
      requires possibleNodesLeft + size + |Pending(stack0)| == |data| && |nodes0| <= size + |Pending(stack0)|
      modifies this`size, this`nodes, this`stack, this`owner, this`possibleNodesLeft
      ensures Between() && old(size) < size && nodeCount - |nodes| == n0 - |nodes0|
    {
      hide Laid, TracksAll, Tracks, Decode, Pending, RawOf, Linked, ItemAt, HeaderAt;
      NodeStep(data, size, stack0, nodes0, owner, node);
      NodeSizeExact(currentNodeReserved, node.tag);
      owner := owner + seq(Children(node.tag), _ => stack0[level].child);
      nodes := nodes[stack[level].child := node];
      stack := stack[level := Level(stack[level].child + 1, stack[level].left - 1)];
      assert nodes == Extended(nodes0, stack0[level].child, node, Children(node.tag));
      assert stack == Counted(stack0, node.link, Children(node.tag));
      size := size + NodeSize(currentNodeReserved, node.tag);
      possibleNodesLeft := possibleNodesLeft - currentNodeReserved;
    }

    /** The state after a node was counted off: the top levels may be exhausted. */
    ghost predicate Between()
      reads this
    {
      && error == Ok && status == InProgress && Sized() && 0 < |stack| <= stackCapacity
      && possibleNodesLeft + size + |Pending(stack)| == |data| && |nodes| <= size + |Pending(stack)|
      && (!streaming ==> nodeCount == |nodes| <= maxNodes)
      && Laid(nodes, Pending(stack), owner)
      && TracksAll(data, size, Pending(stack), nodes)
    }

    /** `mpack_tree_continue_parsing`. */
    method ContinueParsing() returns (ok: bool)
      requires Running()
      modifies this`data, this`feed, this`bufferCapacity, this`possibleNodesLeft, this`error, this`currentNodeReserved
      modifies this`nodeCount, this`nodes, this`nodesLeft, this`stack, this`stackCapacity, this`size, this`owner
      ensures Received()
      ensures ok ==> Complete()
      ensures !ok && error == Ok ==> streaming && Running() && !Decode(data, 0, 1).Done?
      ensures !ok ==> (Bad() ==> Spoiled(data, error)) && Charged()
      ensures !ok && error == Undefined ==> Wide(data)
      ensures !ok && error == TooBig && streaming ==> Exceeds(data, maxSize, maxNodes - old(nodeCount - |nodes|))
      ensures !ok && error == Ok ==> Recounted(old(nodeCount - |nodes|))
      ensures Noted(!ok && error == Ok, old(Marked()))
      ensures !streaming ==> (ok <==> Accepts(data)) && (Fits(data) && !ok ==> error == Undefined)
      ensures old(Refused()) ==> !ok && error == TooBig
      ensures old(Paused()) ==>
                && !ok && error == Ok && data == old(data) && feed == old(feed[1..])
                && nodeCount == old(nodeCount + NextChildren()) && size == old(size)
    {
      hide Laid, TracksAll, Tracks, Decode, Pending, Exceeds, Failures, FeedSize, Marks, Bears, Marked, FeedBytes,
           Wide;
      while true
        invariant Running() && Received() && nodeCount - |nodes| == old(nodeCount - |nodes|)
        invariant unchanged(this) || old(!Refused() && !Paused())
        invariant Marked() == old(Marked())
        decreases |data| + |FeedBytes(feed)| - size
      {
        ghost var all := data + FeedBytes(feed);
        ok := ParseNode();
        assert data + FeedBytes(feed) == all;
        if !ok { return; }
        ok := PopLevels();
        if ok { return; }
      }
    }

    /** Exhausted levels are popped; with none left the message is complete. */
    method PopLevels() returns (finished: bool)
      requires Between()
      modifies this`stack
      ensures if finished then Complete() && (!streaming ==> Accepts(data)) else Running()
    {
      hide Laid, TracksAll, Tracks, Decode, Pending;
      while stack[|stack| - 1].left == 0
        invariant Between()
        decreases |stack|
      {
        PendingPop(stack);
        if |stack| == 1 {
          PendingNone();
          AcceptedWhenComplete();
          return true;
        }
        stack := stack[..|stack| - 1];
      }
      PendingHead(stack);
      return false;
    }

    /**
     * The nodes of a parsed message: every slot is parsed and, but for the root, a child of an earlier node; the
     * children of a node are one range behind it within the pool, and no two nodes have a child in common.
     */
    lemma {:induction false} PoolLayout(a: nat, b: nat)
      requires Complete() && a < b < |nodes|
      ensures nodes[a].Node? && nodes[b].Node? && (poolCount > 0 ==> |nodes| <= poolCount)
      ensures |owner| == |nodes| && owner[b] < b
      ensures var m := nodes[owner[b]]; m.Node? && m.link <= b < m.link + Children(m.tag)
      ensures var m, n := nodes[a], nodes[b];
              && (Children(m.tag) > 0 ==> a < m.link && m.link + Children(m.tag) <= |nodes|)
              && (Children(m.tag) > 0 && Children(n.tag) > 0 ==>
                    m.link + Children(m.tag) <= n.link || n.link + Children(n.tag) <= m.link)
    {
      hide TracksAll;
      assert a !in [] && b !in [];
      var m, n := nodes[a], nodes[b];
      if Children(m.tag) > 0 && Children(n.tag) > 0 {
        var x := if m.link < n.link then n.link else m.link;
        assert 0 < x < |nodes|;
        assert owner[x] == a <==> m.link <= x < m.link + Children(m.tag);
        assert owner[x] == b <==> n.link <= x < n.link + Children(n.tag);
      }
    }

    lemma {:induction false} AcceptedWhenComplete()
      requires Complete()
      ensures !streaming ==> Accepts(data)
      ensures Message()
    {
      assert data <= data;
      TracksEnd(data, size, nodes);
    }

    /** The bytes up to `size` are one message, and the tree denotes its value. */
    ghost predicate Message()
      reads this
    {
      var m := Decode(data, 0, 1);
      && m.Done? && m.next == size && m.nodes == |nodes|
      && Represents(nodes, data, 0, m.vals[0])
    }

    /** The bytes of earlier messages decode to those messages, in order. */
    ghost predicate History()
      reads this
    {
      var r := Decode(past, 0, |earlier|);
      r.Done? && r.vals == earlier && r.next == |past|
    }

    /** The value of the message at the front of the buffer. */
    ghost function Current(): Value
      reads this
    {
      var m := Decode(data, 0, 1);
      if m.Done? then m.vals[0] else Nil
    }

    /** Every byte of the stream: of earlier messages, in the buffer, and still to be read. */
    ghost function Stream(): seq<byte>
      reads this
    {
      past + data + FeedBytes(feed)
    }

    /** The invariant between calls. */
    ghost predicate Valid()
      reads this
    {
      error == Ok ==>
        && Sized() && History()
        && (status == NotStarted ==> size == 0)
        && (status == InProgress ==> Running())
        && (status == Parsed ==> Complete() && size > 0)
    }

    /** No message has been looked at, and nothing been read. */
    ghost predicate Unused()
      reads this
    {
      && size == nodeCount == bufferCapacity == possibleNodesLeft == currentNodeReserved == 0
      && nodes == [] && stack == [] && stackCapacity == 8 && past == [] && earlier == []
    }

    /** `mpack_tree_init_pool`. */
    constructor Pool(input: seq<byte>, count: nat)
      ensures Valid() && data == input && poolCount == count && !streaming && maxNodes == 0xffff_ffff_ffff_ffff
      ensures status == NotStarted && error == if count == 0 then Bug else Ok
      ensures maxSize == SIZE_MAX && nodesLeft == count && Unused()
    {
      streaming, poolCount, nodesPerPage := false, count, 1;
      maxSize, maxNodes := SIZE_MAX, SIZE_MAX;
      error := if count == 0 then Bug else Ok;
      data, feed, bufferCapacity := input, [], 0;
      size, nodeCount, nodes, nodesLeft := 0, 0, [], count;
      status, possibleNodesLeft, currentNodeReserved := NotStarted, 0, 0;
      stack, stackCapacity, owner, past, earlier := [], 8, [], [], [];
    }

    /** `mpack_tree_init_data`: given data, nodes in pages. */
    constructor Paged(input: seq<byte>, perPage: nat)
      requires perPage > 0
      ensures Valid() && data == input && poolCount == 0 && !streaming && maxNodes == 0xffff_ffff_ffff_ffff
      ensures status == NotStarted && error == Ok
      ensures maxSize == SIZE_MAX && nodesPerPage == perPage && nodesLeft == 0 && Unused()
    {
      streaming, poolCount, nodesPerPage := false, 0, perPage;
      maxSize, maxNodes := SIZE_MAX, SIZE_MAX;
      error, data, feed, bufferCapacity := Ok, input, [], 0;
      size, nodeCount, nodes, nodesLeft := 0, 0, [], 0;
      status, possibleNodesLeft, currentNodeReserved := NotStarted, 0, 0;
      stack, stackCapacity, owner, past, earlier := [], 8, [], [], [];
    }

    /** `mpack_tree_init_stream`. */
    constructor Streamed(source: seq<Event>, maxBytes: nat, maxCount: nat, perPage: nat)
      requires maxBytes > 0 && maxCount > 0 && perPage > 0
      ensures Valid() && data == [] && feed == source && streaming && maxSize == maxBytes && maxNodes == maxCount
      ensures status == NotStarted && error == Ok && past == [] && earlier == []
      ensures nodesPerPage == perPage && nodesLeft == 0 && Unused()
    {
      streaming, poolCount, nodesPerPage := true, 0, perPage;
      maxSize, maxNodes := maxBytes, maxCount;
      error, data, feed, bufferCapacity := Ok, [], source, 0;
      size, nodeCount, nodes, nodesLeft := 0, 0, [], 0;
      status, possibleNodesLeft, currentNodeReserved := NotStarted, 0, 0;
      stack, stackCapacity, owner, past, earlier := [], 8, [], [], [];
    }

    /** Drops a parsed message from the front of the buffer. */
    method NextMessage()
      requires Valid() && error == Ok && status != InProgress
      modifies this`data, this`size, this`nodeCount, this`past, this`earlier
      ensures size == 0 && History() && Stream() == old(Stream())
      ensures nodeCount == if old(status) == Parsed then 0 else old(nodeCount)
      ensures streaming ==> |data| <= bufferCapacity <= maxSize
      ensures |data| <= |old(data)|
      ensures if old(status) == Parsed
              then data == old(data[size..]) && past == old(past + data[..size])
                   && earlier == old(earlier + [Current()])
              else unchanged(this`data, this`past, this`earlier)
    {
      hide Laid, TracksAll, Tracks, Decode, Pending;
      if size > 0 {
        AcceptedWhenComplete();
        HistoryGrows(past, earlier, data, size);
        assert past + data == (past + data[..size]) + data[size..];
        past, earlier := past + data[..size], earlier + [Current()];
        data := data[size..];
        size, nodeCount := 0, 0;
      }
    }

    /** The part of `mpack_tree_parse_start` that reserves the root's byte. */
    method ReserveFirst() returns (ok: bool)
      requires error == Ok && Sized() && size == 0
      modifies this`data, this`feed, this`bufferCapacity, this`possibleNodesLeft, this`error, this`currentNodeReserved
      modifies this`status
      ensures Sized() && status == InProgress && data + FeedBytes(feed) == old(data + FeedBytes(feed))
      ensures ok ==> error == Ok && 0 < possibleNodesLeft == |data|
      ensures !ok && error == Ok ==> streaming && data == []
      ensures old(Gulp(1)) ==> ok && data == old(feed[0].b) && feed == old(feed[1..])
      ensures !ok ==> error in {Ok, TooBig, Io, Invalid} && (error == Invalid ==> !streaming)
      ensures error == TooBig && streaming ==> Exceeds(data, maxSize, maxNodes)
      ensures Failures(feed) <= old(Failures(feed)) && (error == Io ==> Failures(feed) < old(Failures(feed)))
      ensures FeedSize(feed) <= old(FeedSize(feed))
      ensures Noted(!ok && error == Ok, old(Marked()))
      ensures !streaming ==> data == old(data) && (ok <==> data != [])
    {
      hide Decode, FeedBytes, Failures, FeedSize, Marks;
      status := InProgress;
      currentNodeReserved := 0;
      possibleNodesLeft := |data|;
      ok := ReserveBytes(1);
    }

    /** `mpack_tree_parse_start`. */
    method ParseStart() returns (ok: bool)
      requires Valid() && error == Ok && status != InProgress
      modifies this
      ensures Valid() && Stream() == old(Stream())
      ensures ok ==> error == Ok && Running()
      ensures !ok && error == Ok ==> streaming && status == NotStarted && data == []
      ensures ok ==> status == InProgress && nodeCount == |nodes| == 1 && size == 0 && possibleNodesLeft + 1 == |data|
      ensures old(status == NotStarted && Gulp(1)) ==> ok && data == old(feed[0].b) && feed == old(feed[1..])
      ensures !ok ==> status == NotStarted && error in {Ok, TooBig, Io, Invalid} && (error == Invalid ==> !streaming)
      ensures error == TooBig && streaming ==> Exceeds(data, maxSize, maxNodes)
      ensures Failures(feed) <= old(Failures(feed)) && (error == Io ==> Failures(feed) < old(Failures(feed)))
      ensures FeedSize(feed) <= old(FeedSize(feed))
      ensures Noted(!ok && error == Ok, old(Marked()))
      ensures !streaming ==> data == old(if status == Parsed then data[size..] else data) && (ok <==> data != [])
      ensures if old(status) == Parsed
              then past == old(past + data[..size]) && earlier == old(earlier + [Current()])
              else past == old(past) && earlier == old(earlier)
    {
      hide Laid, TracksAll, Tracks, Decode, Pending, FeedBytes, Failures, FeedSize, Marks, Exceeds;
      NextMessage();
      ghost var data0, rest0 := data, FeedBytes(feed);
      ok := ReserveFirst();
      Regroup(past, data, FeedBytes(feed), data0, rest0);
      if !ok {
        status := NotStarted;
        return;
      }
      OpenRoot();
    }

    /** The root node, alone on the stack. */
    method OpenRoot()
      requires error == Ok && status == InProgress && size == 0 && 0 < possibleNodesLeft == |data|
      requires streaming ==> |data| <= bufferCapacity <= maxSize
      requires Limits()
      modifies this`possibleNodesLeft, this`nodeCount, this`nodes, this`owner, this`nodesLeft
      modifies this`stack, this`stackCapacity
      ensures Running() && nodeCount == |nodes| == 1 && possibleNodesLeft + 1 == |data|
      ensures nodesLeft == (if poolCount == 0 then nodesPerPage else poolCount) - 1 && stackCapacity == 8
    {
      hide Laid, TracksAll, Pending;
      possibleNodesLeft := possibleNodesLeft - 1;
      nodeCount := 1;
      nodes, owner := [Blank], [0];
      nodesLeft := if poolCount == 0 then nodesPerPage - 1 else poolCount - 1;
      stack, stackCapacity := [Level(0, 1)], 8;
      StartState(data);
    }

    /** How many nodes of the current message were counted more than once. */
    ghost function Surplus(): int
      reads this
    {
      if status == InProgress then nodeCount - |nodes| else 0
    }

    /** What may have gone wrong with a stream, with `x` nodes counted twice and `failures` in store before. */
    ghost predicate Blameless(x: int, failures: nat)
      reads this
    {
      && (error == Ok ==> Recounted(x) || status != InProgress)
      && error in {Ok, TooBig, Io, Invalid, Unsupported, Undefined}
      && (error in {Invalid, Unsupported} ==> Spoiled(data, error))
      && (error == Undefined ==> Wide(data))
      && (error == TooBig ==> Exceeds(data, maxSize, maxNodes - x))
      && (error == Io ==> Failures(feed) < failures)
    }

    /** `mpack_tree_try_parse`. */
    method TryParse() returns (ok: bool)
      requires Valid()
      modifies this
      ensures Valid() && Stream() == old(Stream())
      ensures ok ==> error == Ok && status == Parsed && Message()
      ensures !ok && error == Ok ==> streaming && status != Parsed && !Decode(data, 0, 1).Done?
      ensures !ok && old(error) == Ok && streaming ==> Blameless(old(Surplus()), old(Failures(feed)))
      ensures !ok && old(error) == Ok ==>
                (error == Unsupported ==> Spoiled(data, error)) && (status == InProgress ==> Charged())
      ensures Failures(feed) <= old(Failures(feed)) && FeedSize(feed) <= old(FeedSize(feed))
      ensures Noted(!ok && error == Ok, old(Marked()))
      ensures old(error) == Ok && old(status) == InProgress ==> old(data) <= data
      ensures old(error) != Ok ==> !ok && error == old(error)
      ensures old(error) == Ok ==>
                if old(status) == Parsed
                then past == old(past + data[..size]) && earlier == old(earlier + [Current()])
                else past == old(past) && earlier == old(earlier)
      ensures old(error) == Ok && !streaming ==>
                && data == old(if status == Parsed then data[size..] else data)
                && (ok <==> Accepts(data)) && (Fits(data) && !ok ==> error == Undefined)
    {
      hide Laid, TracksAll, Tracks, Decode, Pending, Represents, Exceeds, Bears, Failures, FeedSize, Marks, Spoiled,
           Wide;
      if error != Ok { return false; }
      if status != InProgress {
        ok := ParseStart();
        if !ok { return; }
      }
      ok := Resume();
    }

    /** Goes on with a started message. */
    method Resume() returns (ok: bool)
      requires Valid() && error == Ok && status == InProgress
      modifies this
      ensures Valid() && Stream() == old(Stream()) && past == old(past) && earlier == old(earlier)
      ensures ok ==> error == Ok && status == Parsed && Message()
      ensures !ok && error == Ok ==> streaming && status != Parsed && !Decode(data, 0, 1).Done?
      ensures !ok && streaming ==> Blameless(old(nodeCount - |nodes|), old(Failures(feed)))
      ensures !ok ==> (error == Unsupported ==> Spoiled(data, error)) && Charged()
      ensures Failures(feed) <= old(Failures(feed)) && FeedSize(feed) <= old(FeedSize(feed)) && old(data) <= data
      ensures Noted(!ok && error == Ok, old(Marked()))
      ensures !streaming ==> data == old(data) && (ok <==> Accepts(data)) && (Fits(data) && !ok ==> error == Undefined)
      ensures old(Refused()) ==> !ok && error == TooBig
      ensures old(Paused()) ==>
                && !ok && error == Ok && data == old(data) && feed == old(feed[1..])
                && nodeCount == old(nodeCount + NextChildren()) && size == old(size) && status == InProgress
    {
      hide Laid, TracksAll, Tracks, Decode, Pending, Represents, FeedBytes, Exceeds, Bears, Failures, FeedSize, Marks,
           Spoiled, Wide;
      ok := ContinueParsing();
      Regroup(past, data, FeedBytes(feed), old(data), FeedBytes(old(feed)));
      if ok {
        AcceptedWhenComplete();
        status := Parsed;
      }
    }

    /** `mpack_tree_parse`: an incomplete message is an error. */
    method Parse()
      requires Valid()
      modifies this
      ensures Valid() && Stream() == old(Stream())
      ensures error == Ok ==> status == Parsed && Message()
      ensures old(error) != Ok ==> error == old(error)
      ensures old(error) == Ok && streaming && error != Ok && error != Io ==>
                Blameless(old(Surplus()), old(Failures(feed)))
      ensures old(error) == Ok != error ==>
                && (error == Unsupported ==> Spoiled(data, error))
                && (status == InProgress && HeaderAt(data, size) == ExtByte ==> error == Unsupported)
                && (status == InProgress && HeaderAt(data, size) == ReservedByte ==> error == Invalid)
      ensures old(error) == Ok && streaming && error == Io ==>
                Failures(feed) < old(Failures(feed)) || !Decode(data, 0, 1).Done?
      ensures old(error) == Ok && !streaming ==>
                && data == old(if status == Parsed then data[size..] else data)
                && (error == Ok <==> Accepts(data)) && (Fits(data) && error != Ok ==> error == Undefined)
    {
      hide Laid, TracksAll, Tracks, Decode, Pending, Represents, FeedBytes, Exceeds, Bears, Failures, FeedSize, Marks,
           Spoiled, Wide;
      if error != Ok { return; }
      var ok := TryParse();
      if !ok { FlagError(if streaming then Io else Invalid); }
    }

    /** After `i` calls that waited, no node of the current message but the root was counted more often again. */
    ghost predicate Doubled(i: nat)
      reads this
    {
      Few(if status == InProgress then data else [], Surplus(), i)
    }

    /** An error when `i` calls have waited: the data is hopeless, a limit is strained, or the read function failed. */
    ghost predicate Troubled(i: nat, failures: nat)
      reads this
    {
      && error in {Ok, TooBig, Io, Invalid, Unsupported, Undefined}
      && (error in {Invalid, Unsupported} ==> Spoiled(data, error))
      && (error == Undefined ==> Wide(data))
      && (error == TooBig ==> Strains(data, maxSize, maxNodes, i))
      && (error == Io ==> Failures(feed) < failures)
    }

    /** A call that waits, which started with `x` nodes counted twice. */
    lemma {:induction false} CallWaited(i: nat, data0: seq<byte>, x: int, failures: nat)
      requires Valid() && Few(data0, x, i) && data0 <= data
      requires error == Ok && Blameless(x, failures)
      ensures Doubled(i + 1)
    {
      hide Decode, Complete, Sized, Pending, ItemAt;
      if status == InProgress {
        forall d | data <= d && Decode(d, 0, 1).Done? ensures Surplus() <= (i + 1) * (Decode(d, 0, 1).nodes - 1) {
          assert Tracks(d, size, Pending(stack), nodes);
          DecodeNeeds(d, size, |Pending(stack)|);
          OneMoreTime(i, Decode(d, 0, 1).nodes - 1);
        }
      }
    }

    /** A call that ends without an error, or with one of its own. */
    lemma {:induction false} CallTroubled(i: nat, data0: seq<byte>, x: int, before: nat, failures: nat)
      requires error == Ok || (Blameless(x, before) && before <= failures && Few(data0, x, i) && data0 <= data)
      ensures Troubled(i, failures)
    {
      hide Decode, Spoiled, Failures;
    }

    lemma DoubledFew(i: nat)
      requires Doubled(i)
      ensures Few(if status == InProgress then data else [], Surplus(), i)
    {
    }

    /** Between messages no node has been counted again. */
    lemma {:induction false} NoneDoubled(i: nat)
      requires status != InProgress
      ensures Doubled(i)
    {
      hide Few;
      NothingTwice(i);
    }

    /** What `i` calls have come to: see `Poll`. */
    ghost predicate Polled(i: nat, messages: seq<Value>, ended: bool, before: seq<nat>, waits: seq<nat>, failures: nat)
      reads this
    {
      && (error == Ok ==> messages == if status == Parsed then earlier + [Current()] else earlier)
      && var r := Decode(Stream(), 0, |messages|);
      && r.Done? && r.vals == messages
      && r.next == |past| + (if error == Ok && status == Parsed then size else 0)
      && (ended ==> feed == [] && !Decode(data, 0, 1).Done? && (error != Ok || status != Parsed))
      && (error == Ok && status == Parsed ==> waits == [])
      && (forall m <- waits :: Interrupts(Stream(), |past|, m))
      && (!ended && error == Ok ==> i == |messages| + |before| + |waits| && Doubled(|waits|))
      && Failures(feed) <= failures && (!ended ==> Troubled(|waits|, failures))
    }

    /** One call, when the ones before found the marks `before` and `waits`, the latter within the current message. */
    method PollOnce(ghost i: nat, ghost messages: seq<Value>, ghost ended: bool, ghost before: seq<nat>,
          ghost waits: seq<nat>, ghost failures: nat)
      returns (ok: bool, ghost ended': bool, ghost waits': seq<nat>)
      requires Valid() && error == Ok && streaming && Polled(i, messages, ended, before, waits, failures)
      modifies this
      ensures Valid() && Stream() == old(Stream()) && (ok ==> error == Ok && !ended')
      ensures var messages' := if ok then messages + [Current()] else messages;
              Polled(i + 1, messages', ended', if ok then before + waits else before, waits', failures)
      ensures before + waits + old(Marked()) == (if ok then before + waits else before) + waits' + Marked()
    {
      hide Laid, TracksAll, Tracks, Decode, Pending, Represents, FeedBytes, Current, Sized, Running, Complete, Exceeds,
           Recounted, FeedSize, Marks, Failures, Strains, Few, Spoiled, Wide, Troubled, Doubled, Blameless, Interrupts,
           Fits, Accepts, Valid, Stream, Charged, Surplus;
      ghost var data0, x := if status == InProgress then data else [], Surplus();
      ghost var feed0, marks := feed, Marked();
      if !ended { DoubledFew(|waits|); }
      NothingFed(feed, |past| + |data|);
      SizeFits();
      NothingLeft();
      ok := TryParse();
      NothingFed(feed, |past| + |data|);
      NothingLeft();
      ended', waits' := ended, waits;
      if ok {
        StreamInOrder();
        waits' := [];
        assert before + waits + [] == before + waits;
        NoneDoubled(0);
      } else if error == Ok && marks == [] && feed == [] {
        ended' := true;
      } else if error == Ok {
        Interrupted();
        if !ended { CallWaited(|waits|, data0, x, Failures(feed0)); }
        OneMoreMark(before, waits, |past| + |data|, Marked());
        waits' := waits + [|past| + |data|];
      }
      if !ended' { CallTroubled(|waits'|, data0, x, Failures(feed0), failures); }
    }

    /**
     * Any number of calls of `mpack_tree_try_parse`, over any way the bytes arrive and whether or not an error ends
     * them: the messages that come out are, in order, the first objects of the whole stream. Calls that wait do so
     * where the read function has nothing to give, `waits` of them within the current message, and leave no complete
     * message in the buffer. Enough calls end in an error with a reason, or waiting at the end of the stream.
     */
    method Poll(calls: nat)
      returns (count: nat, ghost messages: seq<Value>, ghost ended: bool, ghost before: seq<nat>, ghost waits: seq<nat>)
      requires Valid() && error == Ok && status == NotStarted && earlier == [] && streaming
      modifies this
      ensures Valid() && Stream() == old(Stream()) && count == |messages|
      ensures var r := Decode(Stream(), 0, count);
              r.Done? && r.vals == messages && (error != Ok || status != Parsed ==> r.next == |past|)
      ensures ended ==> feed == [] && !Decode(data, 0, 1).Done? && (error != Ok || status != Parsed)
      ensures old(Marked()) == before + waits + Marked()
      ensures error != Ok || status != Parsed ==> forall m <- waits :: Interrupts(Stream(), |past|, m)
      ensures !ended && error == Ok ==> calls == count + |before| + |waits|
      ensures !ended ==> Troubled(|waits|, old(Failures(feed)))
    {
      hide Laid, TracksAll, Tracks, Decode, Pending, Represents, FeedBytes, Current, Sized, Running, Complete, Exceeds,
           Recounted, FeedSize, Marks, Failures, Strains, Few, Spoiled, Wide, Troubled, Doubled, Blameless, Interrupts;
      count, messages, ended, before, waits := 0, [], false, [], [];
      StreamSoFar();
      NoneDoubled(0);
      CallTroubled(0, [], 0, 0, Failures(feed));
      assert Marked() == [] + [] + Marked();
      for i := 0 to calls
        invariant Valid() && Stream() == old(Stream()) && count == |messages|
        invariant Polled(i, messages, ended, before, waits, old(Failures(feed)))
        invariant old(Marked()) == before + waits + Marked()
      {
        if error != Ok { return; }
        var ok;
        ghost var next, within;
        ok, next, within := PollOnce(i, messages, ended, before, waits, old(Failures(feed)));
        if ok { count, messages, before := count + 1, messages + [Current()], before + waits; }
        ended, waits := next, within;
      }
    }

    /** A message that is not complete is interrupted where the data ends. */
    lemma {:induction false} Interrupted()
      ensures !Decode(data, 0, 1).Done? ==> Interrupts(Stream(), |past|, |past| + |data|)
    {
      hide Decode, FeedBytes;
      assert Stream()[|past|..|past| + |data|] == data;
    }

    /** At the end of the stream the buffer holds the rest of it. */
    lemma {:induction false} NothingLeft()
      ensures |past| <= |Stream()| && (feed == [] ==> data == Stream()[|past|..])
    {
      assert feed == [] ==> past + data + [] == past + data;
    }

    lemma SizeFits()
      requires Valid() && error == Ok
      ensures status == Parsed ==> size <= |data|
    {
    }

    lemma {:induction false} StreamSoFar()
      requires Valid() && error == Ok
      ensures var r := Decode(Stream(), 0, |earlier|); r.Done? && r.vals == earlier && r.next == |past|
    {
      hide Decode, Sized, Running, Complete, FeedBytes;
      DecodeExtends(past, Stream(), 0, |earlier|);
    }

    /** The messages of a stream come out in order, each as if its bytes had been there at once. */
    lemma {:induction false} StreamInOrder()
      requires Valid() && error == Ok && status == Parsed
      ensures var r := Decode(Stream(), 0, |earlier| + 1);
              r.Done? && r.vals == earlier + [Current()] && r.next == |past| + size
    {
      AcceptedWhenComplete();
      MessageBehind(past, earlier, data, FeedBytes(feed));
    }
  }

  /** Whatever follows, the first thing wrong with the message is a byte for which `e` is the error. */
  ghost predicate Spoiled(data: seq<byte>, e: Error) {
    forall d | data <= d :: DefectOf(d, 0, 1) == if e == Invalid then Reserved else Extension
  }

  /** No message begins so. */
  lemma {:induction false} SpoiledIsHopeless(data: seq<byte>, e: Error, d: seq<byte>)
    requires Spoiled(data, e) && data <= d
    ensures Decode(d, 0, 1).Fail? && DefectOf(d, 0, 1) == if e == Invalid then Reserved else Extension
  {
    DecodesWithoutDefect(d, 0, 1);
  }

  /** Whatever follows, a message that begins so has a map with 2^31 entries or more. */
  ghost predicate Wide(data: seq<byte>) {
    forall d | data <= d && Decode(d, 0, 1).Done? :: !Narrow(Decode(d, 0, 1).vals[0])
  }

  /** Whatever follows, a message that begins so has more than half of that many bytes, or more than `n` nodes. */
  ghost predicate Exceeds(data: seq<byte>, bytes: nat, n: int) {
    forall d | data <= d && Decode(d, 0, 1).Done? ::
      2 * Decode(d, 0, 1).next - 2 > bytes || Decode(d, 0, 1).nodes > n
  }

  /**
   * Whatever follows, a message that begins so has more than half of that many bytes, or with all but the root counted
   * `i` times again more than `n` nodes.
   */
  ghost predicate Strains(data: seq<byte>, bytes: nat, n: nat, i: nat) {
    forall d | data <= d && Decode(d, 0, 1).Done? ::
      2 * Decode(d, 0, 1).next - 2 > bytes || Decode(d, 0, 1).nodes + i * (Decode(d, 0, 1).nodes - 1) > n
  }

  /** Whatever follows, `x` is at most `i` times the number of nodes but the root of a message that begins so. */
  ghost predicate Few(data: seq<byte>, x: int, i: nat) {
    forall d | data <= d && Decode(d, 0, 1).Done? :: x <= i * (Decode(d, 0, 1).nodes - 1)
  }

  /** At `m` the message that starts at `a` is not complete. */
  ghost predicate Interrupts(stream: seq<byte>, a: nat, m: nat) {
    a <= m <= |stream| && !Decode(stream[a..m], 0, 1).Done?
  }

  lemma {:induction false} OneMoreMark(before: seq<nat>, waits: seq<nat>, m: nat, rest: seq<nat>)
    ensures before + waits + ([m] + rest) == before + (waits + [m]) + rest
  {
  }

  lemma {:induction false} NothingTwice(i: nat)
    ensures Few([], 0, i)
  {
    hide Decode;
    forall d | [] <= d && Decode(d, 0, 1).Done? ensures 0 <= i * (Decode(d, 0, 1).nodes - 1) {
      assert Decode(d, 0, 1).nodes - 1 >= 0;
    }
  }

  lemma OneMoreTime(i: nat, n: int)
    ensures (i + 1) * n == i * n + n
  {
  }

  lemma NothingFed(feed: seq<Event>, at: nat)
    ensures FeedSize(feed) == 0 <==> feed == []
    ensures feed == [] ==> FeedBytes(feed) == [] && Marks(feed, at) == []
  {
  }

  /** Whatever follows, the item at `p` takes `n` bytes behind its type byte, one for every child included. */
  ghost predicate Claims(data: seq<byte>, p: nat, n: nat) {
    forall d | data <= d && ItemAt(d, p).Item? :: p + 1 + n <= ItemAt(d, p).next + Children(ItemAt(d, p).tag)
  }

  /** Whatever follows, the item at `p` has `k` children. */
  ghost predicate Bears(data: seq<byte>, p: nat, k: nat) {
    forall d | data <= d && ItemAt(d, p).Item? :: Children(ItemAt(d, p).tag) == k
  }

  lemma {:induction false} HeaderClaims(data: seq<byte>, p: nat, tag: Tag, h: nat)
    requires HeaderAt(data, p) == Header(tag, h)
    ensures Claims(data, p, h - 1 + Payload(tag) + Children(tag)) && Bears(data, p, Children(tag))
  {
    hide HeaderAt, ItemAt;
    forall d | data <= d && ItemAt(d, p).Item?
      ensures ItemAt(d, p).tag == tag && ItemAt(d, p).next == p + h + Payload(tag)
    {
      HeaderExtends(data, d, p);
      HeaderItem(d, p, tag, h, [], 0);
    }
  }

  lemma {:induction false} WidthClaims(data: seq<byte>, p: nat, w: nat)
    requires p < |data| && var a := Switch(data[p]); (a.Number? || a.SizedBlob? || a.SizedGroup?) && w == a.width
    ensures Claims(data, p, w)
  {
    hide HeaderAt, ItemAt;
    forall d | data <= d && ItemAt(d, p).Item? ensures p + 1 + w <= ItemAt(d, p).next {
      assert d[p] == data[p];
      HeaderWidth(d, p);
    }
  }

  /** Decoding goes past the first item, its children, and a byte for every other object. */
  lemma {:induction false} DecodeNeeds(d: seq<byte>, p: nat, c: nat)
    requires c > 0 && Decode(d, p, c).Done?
    ensures var i, r := ItemAt(d, p), Decode(d, p, c);
            i.Item? && i.next + Children(i.tag) + (c - 1) <= r.next && Children(i.tag) + c <= r.nodes
  {
    DecodeFlat(d, p, c);
  }

  /** A byte that starts no message, met where the next node starts, cannot be mended by more bytes. */
  lemma {:induction false} MalformedSpoils(data: seq<byte>, size: nat, pending: seq<nat>, nodes: seq<Node>, e: Error)
    requires TracksAll(data, size, pending, nodes) && pending != []
    requires HeaderAt(data, size) == if e == Invalid then ReservedByte else ExtByte
    ensures Spoiled(data, e)
  {
    hide Decode, DefectOf;
    forall d | data <= d ensures DefectOf(d, 0, 1) == if e == Invalid then Reserved else Extension {
      HeaderExtends(data, d, size);
      assert Tracks(d, size, pending, nodes);
      DefectUnfolds(d, size, |pending|);
    }
  }

  /** A huge map, met where the next node starts, is there in every message that begins so. */
  lemma {:induction false} HugeIsWide(data: seq<byte>, size: nat, pending: seq<nat>, nodes: seq<Node>)
    requires TracksAll(data, size, pending, nodes) && pending != []
    requires ItemAt(data, size).Item? && Huge(ItemAt(data, size).tag)
    ensures Wide(data)
  {
    hide Decode, Narrow, Huge;
    forall d | data <= d && Decode(d, 0, 1).Done? ensures !Narrow(Decode(d, 0, 1).vals[0]) {
      ItemExtends(data, d, size);
      assert Tracks(d, size, pending, nodes);
      HugeInside(d, size, pending, nodes);
    }
  }

  lemma {:induction false} MessageBehind(past: seq<byte>, earlier: seq<Value>, d: seq<byte>, rest: seq<byte>)
    requires var r := Decode(past, 0, |earlier|); r.Done? && r.vals == earlier && r.next == |past|
    requires Decode(d, 0, 1).Done?
    ensures var r, m := Decode(past + d + rest, 0, |earlier| + 1), Decode(d, 0, 1);
            r.Done? && r.vals == earlier + [m.vals[0]] && r.next == |past| + m.next
  {
    hide Decode;
    DecodeExtends(d, d + rest, 0, 1);
    DecodeAppend(past, d + rest, earlier);
    assert past + d + rest == past + (d + rest);
  }

  lemma {:induction false} Regroup(p: seq<byte>, a: seq<byte>, b: seq<byte>, c: seq<byte>, d: seq<byte>)
    requires a + b == c + d
    ensures p + a + b == p + c + d
  {
    assert p + a + b == p + (a + b) && p + c + d == p + (c + d);
  }

  /** A parse starts with the root as the only, pending, node. */
  lemma {:induction false} StartState(data: seq<byte>)
    ensures Pending([Level(0, 1)]) == [0]
    ensures Laid([Blank], [0], [0]) && TracksAll(data, 0, [0], [Blank])
  {
    assert Pending([Level(0, 1)]) == Range(0, 1) + Pending([]);
    forall d | data <= d ensures Tracks(d, 0, [0], [Blank]) { TracksStart(d); }
  }

  /** A message behind earlier ones, kept without what follows it. */
  lemma {:induction false} HistoryGrows(past: seq<byte>, earlier: seq<Value>, d: seq<byte>, size: nat)
    requires var r := Decode(past, 0, |earlier|); r.Done? && r.vals == earlier && r.next == |past|
    requires Decode(d, 0, 1).Done? && Decode(d, 0, 1).next == size
    ensures size <= |d|
    ensures var r := Decode(past + d[..size], 0, |earlier| + 1);
            r.Done? && r.vals == earlier + [Decode(d, 0, 1).vals[0]] && r.next == |past| + size
  {
    DecodeWithin(d, d[..size], 0, 1);
    DecodeAppend(past, d[..size], earlier);
  }

  /** The sum of `left` over the level stack. */
  function LeftOver(stack: seq<Level>): nat {
    if stack == [] then 0 else LeftOver(stack[..|stack| - 1]) + stack[|stack| - 1].left
  }

  lemma {:induction false} PendingCount(stack: seq<Level>)
    ensures |Pending(stack)| == LeftOver(stack)
  {
    if stack != [] { PendingCount(stack[..|stack| - 1]); }
  }

  lemma PendingNone()
    ensures Pending([]) == []
  {
  }

  /** `node_size` of the source: the children of a map are subtracted as a 32-bit product. */
  function NodeSize(reserved: nat, tag: Tag): int {
    reserved + 1 - match tag
                   case ArrayTag(n) => n
                   case MapTag(n) => (2 * n) % U32
                   case _ => 0
  }

  /** The product wraps exactly for maps of 2^31 and more entries. */
  lemma NodeSizeExact(reserved: nat, tag: Tag)
    ensures NodeSize(reserved, tag) == reserved + 1 - Children(tag) <==> (tag.MapTag? ==> tag.count < 0x8000_0000)
  {
  }

  function FeedSize(feed: seq<Event>): nat {
    if feed == [] then 0 else 1 + (if feed[0].Bytes? then |feed[0].b| else 0) + FeedSize(feed[1..])
  }
}

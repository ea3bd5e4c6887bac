/**
 The state of the non-recursive tree parser between two nodes, and what it has to
 do with the recursive decoder: the nodes still to be parsed, in the order in
 which the level stack yields them, are decoded by one flat run over the rest of
 the data.
 */
module ParseState {
  import opened MsgPack

  /** A node of the tree: its tag, and where its bytes or its first child are. */
  datatype Node = Blank | Node(tag: Tag, link: nat)

  datatype Level = Level(child: nat, left: nat)

  function Range(a: nat, n: nat): seq<nat> {
    seq(n, i requires 0 <= i => a + i)
  }

  /** The addresses of the nodes still to be parsed, in parse order. */
  function Pending(stack: seq<Level>): seq<nat>
    decreases |stack|
  {
    if stack == [] then [] else
    var top := stack[|stack| - 1];
    Range(top.child, top.left) + Pending(stack[..|stack| - 1])
  }

  lemma {:induction false} PendingTop(rest: seq<Level>, top: Level)
    ensures Pending(rest + [top]) == Range(top.child, top.left) + Pending(rest)
  {
    assert (rest + [top])[..|rest|] == rest;
  }

  /** The next node is the child the top level points to. */
  lemma PendingHead(stack: seq<Level>)
    requires stack != [] && stack[|stack| - 1].left > 0
    ensures Pending(stack) != [] && Pending(stack)[0] == stack[|stack| - 1].child
  {
  }

  /** The parsed child is counted off its level, and its own children come next. */
  lemma {:induction false} PendingAfter(stack: seq<Level>, first: nat, n: nat, after: seq<Level>)
    requires stack != [] && stack[|stack| - 1].left > 0
    requires var top := stack[|stack| - 1];
             after == stack[|stack| - 1 := Level(top.child + 1, top.left - 1)]
                      + if n == 0 then [] else [Level(first, n)]
    ensures Pending(after) == Range(first, n) + Pending(stack)[1..]
  {
    var top, rest := stack[|stack| - 1], stack[..|stack| - 1];
    var counted := stack[|stack| - 1 := Level(top.child + 1, top.left - 1)];
    assert stack == rest + [top] && counted == rest + [Level(top.child + 1, top.left - 1)];
    PendingTop(rest, top);
    PendingTop(rest, Level(top.child + 1, top.left - 1));
    RangeSplit(top.child, top.left);
    assert Pending(stack)[1..] == Pending(counted);
    if n == 0 {
      assert after == counted && Range(first, 0) == [];
    } else {
      PendingTop(counted, Level(first, n));
    }
  }

  /** An exhausted level adds nothing. */
  lemma PendingPop(stack: seq<Level>)
    requires stack != [] && stack[|stack| - 1].left == 0
    ensures Pending(stack) == Pending(stack[..|stack| - 1])
  {
  }

  lemma RangeSplit(a: nat, n: nat)
    requires n > 0
    ensures Range(a, n) == [a] + Range(a + 1, n - 1)
  {
  }

  /** The bytes of a str or bin node. */
  function RawOf(n: Node, d: seq<byte>): seq<byte>
    requires n.Node? && (Payload(n.tag) > 0 ==> n.link + Payload(n.tag) <= |d|)
  {
    if Payload(n.tag) == 0 then [] else d[n.link..n.link + Payload(n.tag)]
  }

  /** The values of the children of a container node. */
  function KidsOf(n: Node, exp: seq<Value>): seq<Value>
    requires n.Node? && (Children(n.tag) > 0 ==> n.link + Children(n.tag) <= |exp|)
  {
    if Children(n.tag) == 0 then [] else exp[n.link..n.link + Children(n.tag)]
  }

  // ---- maps with 2^31 entries and more

  /** The tag of a map whose children cannot be counted in 32 bits. */
  predicate Huge(t: Tag) {
    t.MapTag? && 2 * t.count >= U32
  }

  /** No map in a value has 2^31 entries or more. */
  predicate Narrow(v: Value)
    decreases v
  {
    match v
    case Array(es) => forall k: nat :: k < |es| ==> Narrow(es[k])
    case Map(kvs) => |kvs| < U32 && forall k: nat :: k < |kvs| ==> Narrow(kvs[k])
    case _ => true
  }

  predicate AllNarrow(vs: seq<Value>) {
    forall k: nat :: k < |vs| ==> Narrow(vs[k])
  }

  /** For decoded objects that is a matter of the first one's tag, its children, and the others. */
  lemma {:induction false} NestNarrow(t: Tag, raw: seq<byte>, vs: seq<Value>)
    requires Children(t) <= |vs|
    ensures AllNarrow([Build(t, raw, vs[..Children(t)])] + vs[Children(t)..]) <==> !Huge(t) && AllNarrow(vs)
  {
    var n := Children(t);
    var v := Build(t, raw, vs[..n]);
    var nested := [v] + vs[n..];
    assert Narrow(v) <==> !Huge(t) && AllNarrow(vs[..n]);
    if AllNarrow(nested) {
      assert nested[0] == v;
      forall k: nat | k < |vs| ensures Narrow(vs[k]) {
        if k < n { assert vs[k] == vs[..n][k]; } else { assert vs[k] == nested[k - n + 1]; }
      }
    }
    if !Huge(t) && AllNarrow(vs) {
      forall k: nat | k < |nested| ensures Narrow(nested[k]) {
        if k > 0 { assert nested[k] == vs[n + k - 1]; }
      }
    }
  }

  /** With less than 4 GiB, or less than 2^32 objects, there is no room for such a map. */
  lemma {:induction false} SmallIsNarrow(d: seq<byte>, p: nat, c: nat)
    requires Decode(d, p, c).Done? && !AllNarrow(Decode(d, p, c).vals)
    ensures p + U32 < Decode(d, p, c).next && U32 < Decode(d, p, c).nodes
    decreases |d| - p
  {
    hide Decode, ItemAt, Build, Narrow;
    if c == 0 {
      NothingDecoded(d, p);
    } else {
      DecodeFlat(d, p, c);
      var i := ItemAt(d, p);
      var n := Children(i.tag);
      var rest := Decode(d, i.next, n + (c - 1));
      NestNarrow(i.tag, i.raw, rest.vals);
      if !Huge(i.tag) { SmallIsNarrow(d, i.next, n + (c - 1)); }
    }
  }

  lemma NothingDecoded(d: seq<byte>, p: nat)
    ensures Decode(d, p, 0) == Done([], p, 0)
  {
  }

  // ---- what the nodes stand for

  /** Node `a` stands for `exp[a]`, given what its children stand for. */
  ghost predicate Matches(nodes: seq<Node>, d: seq<byte>, exp: seq<Value>, a: nat) {
    && a < |nodes| == |exp| && nodes[a].Node?
    && var n := nodes[a];
    && (Payload(n.tag) > 0 ==> n.link + Payload(n.tag) <= |d|)
    && (Children(n.tag) > 0 ==> n.link + Children(n.tag) <= |nodes|)
    && exp[a] == Build(n.tag, RawOf(n, d), KidsOf(n, exp))
  }

  /**
   * `exp` assigns a value to every node: `whole` to the root, `vals` to the pending ones, and the parsed ones match.
   */
  ghost predicate Expects(nodes: seq<Node>, d: seq<byte>, pending: seq<nat>, exp: seq<Value>, whole: Value,
        vals: seq<Value>) {
    && |exp| == |nodes| > 0 && exp[0] == whole
    && |vals| == |pending|
    && (forall k: nat :: k < |pending| ==> pending[k] < |nodes| && exp[pending[k]] == vals[k])
    && (forall a: nat :: a < |nodes| && a !in pending ==> Matches(nodes, d, exp, a))
  }

  /**
   For the message that starts at the beginning of `d`: the pending nodes are decoded by a flat run from
   offset `size`, which succeeds exactly when the message decodes, ends where it ends, finds its
   remaining nodes, gives the pending nodes the values they have in the message, and meets a huge map
   exactly if there is one in the message. If the message does not decode the same is wrong with both.
   */
  ghost predicate Tracks(d: seq<byte>, size: nat, pending: seq<nat>, nodes: seq<Node>) {
    var whole, rest := Decode(d, 0, 1), Decode(d, size, |pending|);
    && (whole.Done? <==> rest.Done?)
    && DefectOf(d, 0, 1) == DefectOf(d, size, |pending|)
    && (whole.Done? ==>
          && whole.next == rest.next
          && whole.nodes + |pending| == |nodes| + rest.nodes
          && (Narrow(whole.vals[0]) <==> AllNarrow(rest.vals))
          && exists exp :: Expects(nodes, d, pending, exp, whole.vals[0], rest.vals))
  }

  /** The connection holds for the bytes at hand, whatever may follow them. */
  ghost predicate TracksAll(data: seq<byte>, size: nat, pending: seq<nat>, nodes: seq<Node>) {
    forall d | data <= d :: Tracks(d, size, pending, nodes)
  }

  lemma TracksMore(data: seq<byte>, more: seq<byte>, size: nat, pending: seq<nat>, nodes: seq<Node>)
    requires TracksAll(data, size, pending, nodes) && data <= more
    ensures TracksAll(more, size, pending, nodes)
  {
  }

  lemma {:induction false} TracksAllStep(data: seq<byte>, size: nat, pending: seq<nat>, nodes: seq<Node>,
        i: Item, link: nat)
    requires TracksAll(data, size, pending, nodes) && pending != [] && pending[0] < |nodes|
    requires ItemAt(data, size) == i && Linked(nodes, data, i, link) && !Huge(i.tag)
    ensures TracksAll(data, i.next, Range(|nodes|, Children(i.tag)) + pending[1..],
                      Extended(nodes, pending[0], Node(i.tag, link), Children(i.tag)))
  {
    forall d | data <= d
      ensures Tracks(d, i.next, Range(|nodes|, Children(i.tag)) + pending[1..],
                     Extended(nodes, pending[0], Node(i.tag, link), Children(i.tag)))
    {
      ItemExtends(data, d, size);
      if Payload(i.tag) > 0 { SliceOfPrefix(data, d, link, link + Payload(i.tag)); }
      TracksStep(d, size, pending, nodes, i, link);
    }
  }

  /** A parse starts with the root pending. */
  lemma {:induction false} TracksStart(d: seq<byte>)
    ensures Tracks(d, 0, [0], [Blank])
  {
    var whole := Decode(d, 0, 1);
    if whole.Done? {
      assert Expects([Blank], d, [0], [whole.vals[0]], whole.vals[0], whole.vals);
    }
  }

  /** The state after the first pending node was parsed as `item`, its children appended to the nodes. */
  function Extended(nodes: seq<Node>, a: nat, n: Node, count: nat): seq<Node>
    requires a < |nodes|
  {
    nodes[a := n] + seq(count, _ => Blank)
  }

  /** The values of the state after a step, given those of the flat run behind it. */
  lemma {:induction false} StepExpects(nodes: seq<Node>, d: seq<byte>, pending: seq<nat>, exp: seq<Value>,
                                       whole: Value, vals: seq<Value>, i: Item, link: nat)
    requires pending != [] && i.Item? && |vals| == Children(i.tag) + |pending| - 1
    requires Expects(nodes, d, pending, exp, whole,
                     [Build(i.tag, i.raw, vals[..Children(i.tag)])] + vals[Children(i.tag)..])
    requires Linked(nodes, d, i, link)
    ensures Expects(Extended(nodes, pending[0], Node(i.tag, link), Children(i.tag)), d,
                    Range(|nodes|, Children(i.tag)) + pending[1..], exp + vals[..Children(i.tag)], whole, vals)
  {
    var n, a := Children(i.tag), pending[0];
    var nodes', pending' := Extended(nodes, a, Node(i.tag, link), n), Range(|nodes|, n) + pending[1..];
    var exp' := exp + vals[..n];
    var before := [Build(i.tag, i.raw, vals[..n])] + vals[n..];
    forall k: nat | k < |pending'| ensures pending'[k] < |nodes'| && exp'[pending'[k]] == vals[k] {
      if k >= n { assert pending'[k] == pending[k - n + 1] && before[k - n + 1] == vals[k]; }
    }
    forall b: nat | b < |nodes'| && b !in pending' ensures Matches(nodes', d, exp', b) {
      NotPending(pending, n, |nodes|, b);
      if b == a {
        assert exp[a] == before[0];
        NewMatches(nodes, d, exp, a, vals[..n], i, link);
      } else {
        OldMatches(nodes, d, exp, a, vals[..n], i, link, b);
      }
    }
  }

  /** `link` is where the node of `item` keeps its bytes, or where its children are appended. */
  ghost predicate Linked(nodes: seq<Node>, d: seq<byte>, i: Item, link: nat) {
    && i.Item?
    && (Children(i.tag) > 0 ==> link == |nodes|)
    && (Payload(i.tag) > 0 ==> link + Payload(i.tag) <= |d|)
    && i.raw == RawOf(Node(i.tag, link), d)
  }

  lemma {:induction false} NewMatches(nodes: seq<Node>, d: seq<byte>, exp: seq<Value>, a: nat,
        kids: seq<Value>, i: Item, link: nat)
    requires a < |nodes| == |exp| && Linked(nodes, d, i, link) && |kids| == Children(i.tag)
    requires exp[a] == Build(i.tag, i.raw, kids)
    ensures Matches(Extended(nodes, a, Node(i.tag, link), |kids|), d, exp + kids, a)
  {
    if kids != [] {
      assert (exp + kids)[link..link + |kids|] == kids;
    }
  }

  lemma {:induction false} OldMatches(nodes: seq<Node>, d: seq<byte>, exp: seq<Value>, a: nat,
        kids: seq<Value>, i: Item, link: nat, b: nat)
    requires a < |nodes| && i.Item? && Matches(nodes, d, exp, b) && a != b
    ensures Matches(Extended(nodes, a, Node(i.tag, link), |kids|), d, exp + kids, b)
  {
    var c := nodes[b];
    if Children(c.tag) > 0 {
      assert (exp + kids)[c.link..c.link + Children(c.tag)] == exp[c.link..c.link + Children(c.tag)];
    }
  }

  lemma {:induction false} NotPending(pending: seq<nat>, n: nat, start: nat, b: nat)
    requires pending != [] && b !in Range(start, n) + pending[1..]
    ensures b == pending[0] || b !in pending
    ensures !(start <= b < start + n)
  {
    assert pending == [pending[0]] + pending[1..];
    if start <= b < start + n { RangeHolds(start, n, b); }
  }

  lemma {:induction false} RangeHolds(start: nat, n: nat, b: nat)
    requires start <= b < start + n
    ensures b in Range(start, n)
  {
    assert Range(start, n)[b - start] == b;
  }

  lemma HeaderOfItem(d: seq<byte>, p: nat)
    requires ItemAt(d, p).Item?
    ensures HeaderAt(d, p).Header? && HeaderAt(d, p).tag == ItemAt(d, p).tag
  {
  }

  /** Parsing one node keeps the connection with the recursive decoder. */
  lemma {:induction false} TracksStep(d: seq<byte>, size: nat, pending: seq<nat>, nodes: seq<Node>, i: Item, link: nat)
    requires Tracks(d, size, pending, nodes) && pending != [] && pending[0] < |nodes|
    requires ItemAt(d, size) == i && Linked(nodes, d, i, link) && !Huge(i.tag)
    ensures Tracks(d, i.next, Range(|nodes|, Children(i.tag)) + pending[1..],
                   Extended(nodes, pending[0], Node(i.tag, link), Children(i.tag)))
  {
    hide Decode, DefectOf, Expects, ItemAt, Build, Narrow, AllNarrow;
    var n := Children(i.tag);
    HeaderOfItem(d, size);
    DefectUnfolds(d, size, |pending|);
    DecodeFlat(d, size, |pending|);
    var whole, flat, rest := Decode(d, 0, 1), Decode(d, size, |pending|), Decode(d, i.next, n + (|pending| - 1));
    assert |Range(|nodes|, n) + pending[1..]| == n + (|pending| - 1);
    if whole.Done? {
      var exp :| Expects(nodes, d, pending, exp, whole.vals[0], flat.vals);
      StepExpects(nodes, d, pending, exp, whole.vals[0], rest.vals, i, link);
      NestNarrow(i.tag, i.raw, rest.vals);
    }
  }

  /** A huge map where the next node is, in a message: the message has one. */
  lemma {:induction false} HugeInside(d: seq<byte>, size: nat, pending: seq<nat>, nodes: seq<Node>)
    requires Tracks(d, size, pending, nodes) && pending != []
    requires ItemAt(d, size).Item? && Huge(ItemAt(d, size).tag) && Decode(d, 0, 1).Done?
    ensures !Narrow(Decode(d, 0, 1).vals[0])
  {
    hide Decode, Expects, ItemAt, Build, Narrow, AllNarrow;
    DecodeFlat(d, size, |pending|);
    var i := ItemAt(d, size);
    NestNarrow(i.tag, i.raw, Decode(d, i.next, Children(i.tag) + (|pending| - 1)).vals);
  }

  /** The tree below node `a` denotes the value `v`. */
  ghost predicate Represents(nodes: seq<Node>, d: seq<byte>, a: nat, v: Value)
    decreases v
  {
    && a < |nodes| && nodes[a].Node?
    && var n := nodes[a];
    && (Payload(n.tag) > 0 ==> n.link + Payload(n.tag) <= |d|)
    && match v
       case Array(es) =>
         n.tag == ArrayTag(|es|) && forall k: nat :: k < |es| ==> Represents(nodes, d, n.link + k, es[k])
       case Map(kvs) =>
         && n.tag.MapTag? && 2 * n.tag.count == |kvs|
         && forall k: nat :: k < |kvs| ==> Represents(nodes, d, n.link + k, kvs[k])
       case _ => v == Build(n.tag, RawOf(n, d), [])
  }

  /** If every node matches, the tree below each one denotes what is expected of it. */
  lemma {:induction false} MatchedRepresents(nodes: seq<Node>, d: seq<byte>, exp: seq<Value>, a: nat)
    requires |exp| == |nodes| && a < |nodes|
    requires forall b: nat :: b < |nodes| ==> Matches(nodes, d, exp, b)
    ensures Represents(nodes, d, a, exp[a])
    decreases exp[a]
  {
    var n, v := nodes[a], exp[a];
    assert Matches(nodes, d, exp, a);
    var kids := KidsOf(n, exp);
    match v
    case Array(es) =>
      forall k: nat | k < |es| ensures Represents(nodes, d, n.link + k, es[k]) {
        assert es[k] == exp[n.link + k];
        MatchedRepresents(nodes, d, exp, n.link + k);
      }
    case Map(kvs) =>
      forall k: nat | k < |kvs| ensures Represents(nodes, d, n.link + k, kvs[k]) {
        assert kvs[k] == exp[n.link + k];
        MatchedRepresents(nodes, d, exp, n.link + k);
      }
    case _ =>
  }

  /** With nothing pending the message is decoded: its end, its number of nodes, and the tree is its value. */
  lemma {:induction false} TracksEnd(d: seq<byte>, size: nat, nodes: seq<Node>)
    requires Tracks(d, size, [], nodes)
    ensures var whole := Decode(d, 0, 1);
            && whole.Done? && whole.next == size && whole.nodes == |nodes| && Narrow(whole.vals[0])
            && Represents(nodes, d, 0, whole.vals[0])
  {
    var whole := Decode(d, 0, 1);
    var exp :| Expects(nodes, d, [], exp, whole.vals[0], []);
    MatchedRepresents(nodes, d, exp, 0);
  }

  // ---- where the nodes lie

  /**
   * `owner` names the parent of every node but the root. A container's children are one contiguous range behind it, and
   * ranges of different containers are disjoint, since `owner` is a function. Exactly the pending nodes are not parsed
   * yet.
   */
  ghost predicate Laid(nodes: seq<Node>, pending: seq<nat>, owner: seq<nat>) {
    && |owner| == |nodes| > 0
    && (forall x: nat :: 0 < x < |nodes| ==> owner[x] < x && nodes[owner[x]].Node?)
    && (forall a: nat, x: nat :: a < |nodes| && nodes[a].Node? && 0 < x < |nodes| ==>
          (owner[x] == a <==> nodes[a].link <= x < nodes[a].link + Children(nodes[a].tag)))
    && (forall a: nat :: a < |nodes| && nodes[a].Node? && Children(nodes[a].tag) > 0 ==>
          a < nodes[a].link && nodes[a].link + Children(nodes[a].tag) <= |nodes|)
    && (forall j: nat, k: nat :: j < k < |pending| ==> pending[j] != pending[k])
    && (forall a: nat :: a < |nodes| ==> (nodes[a] == Blank <==> a in pending))
    && (forall k: nat :: k < |pending| ==> pending[k] < |nodes|)
  }

  lemma PendingInside(nodes: seq<Node>, pending: seq<nat>, owner: seq<nat>)
    requires Laid(nodes, pending, owner) && pending != []
    ensures pending[0] < |nodes| && |owner| == |nodes|
  {
  }

  lemma {:induction false} LaidStep(nodes: seq<Node>, pending: seq<nat>, owner: seq<nat>, tag: Tag, link: nat)
    requires Laid(nodes, pending, owner) && pending != []
    requires Children(tag) > 0 ==> link == |nodes|
    ensures var n := Children(tag);
            Laid(Extended(nodes, pending[0], Node(tag, link), n), Range(|nodes|, n) + pending[1..],
                 owner + seq(n, _ => pending[0]))
  {
    var n, a := Children(tag), pending[0];
    var nodes', pending' := Extended(nodes, a, Node(tag, link), n), Range(|nodes|, n) + pending[1..];
    var owner' := owner + seq(n, _ => a);
    assert a in pending;
    forall b: nat | b < |nodes'| ensures nodes'[b] == Blank <==> b in pending' {
      if b in pending' {
      } else {
        NotPending(pending, n, |nodes|, b);
      }
    }
  }

  /** The stack after its next node was parsed and its `n` children pushed. */
  function Counted(stack: seq<Level>, first: nat, n: nat): seq<Level>
    requires stack != [] && stack[|stack| - 1].left > 0
  {
    var top := stack[|stack| - 1];
    stack[|stack| - 1 := Level(top.child + 1, top.left - 1)] + if n == 0 then [] else [Level(first, n)]
  }

  /** One node on: everything the parser keeps between two nodes. */
  lemma {:induction false} NodeStep(data: seq<byte>, size: nat, stack: seq<Level>, nodes: seq<Node>,
        owner: seq<nat>, node: Node)
    requires stack != [] && stack[|stack| - 1].left > 0
    requires Laid(nodes, Pending(stack), owner) && TracksAll(data, size, Pending(stack), nodes)
    requires node.Node? && ItemAt(data, size).Item? && ItemAt(data, size).tag == node.tag && !Huge(node.tag)
    requires Linked(nodes, data, ItemAt(data, size), node.link)
    ensures stack[|stack| - 1].child < |nodes|
    ensures var n, a := Children(node.tag), stack[|stack| - 1].child;
            var stack', nodes' := Counted(stack, node.link, n), Extended(nodes, a, node, n);
            && |Pending(stack')| == n + |Pending(stack)| - 1
            && Laid(nodes', Pending(stack'), owner + seq(n, _ => a))
            && TracksAll(data, ItemAt(data, size).next, Pending(stack'), nodes')
  {
    hide Laid, TracksAll, ItemAt, Pending;
    var n, i, pending := Children(node.tag), ItemAt(data, size), Pending(stack);
    PendingHead(stack);
    PendingInside(nodes, pending, owner);
    TracksAllStep(data, size, pending, nodes, i, node.link);
    LaidStep(nodes, pending, owner, node.tag, node.link);
    PendingAfter(stack, node.link, n, Counted(stack, node.link, n));
    if n == 0 { assert Range(node.link, 0) == Range(|nodes|, 0); }
  }
}

/**
 The calls a client makes on a writer, and plans: trees of which a balanced run
 of calls is the flattening. A plan says for each container whether its size is
 given up front or left to the builder; the value it means does not depend on that.
 */
module Plans {
  import opened MsgPack
  import opened Encoding

  type u32 = n: nat | n < U32

  datatype Kind = ArrayKind | MapKind

  datatype Call =
    | Put(v: Value)                  // mpack_write_nil, _bool, _u64, _i64, _float, _double
    | PutStr(s: seq<byte>)           // mpack_write_str
    | StartRaw(bin: bool, n: u32)    // mpack_start_str, mpack_start_bin
    | Bytes(s: seq<byte>)            // mpack_write_bytes
    | FinishRaw(bin: bool)           // mpack_finish_str, mpack_finish_bin
    | Start(kind: Kind, n: u32)      // mpack_start_array, mpack_start_map
    | Finish(kind: Kind)             // mpack_finish_array, mpack_finish_map
    | Build(kind: Kind)              // mpack_build_array, mpack_build_map
    | Complete(kind: Kind)           // mpack_complete_array, mpack_complete_map

  datatype Plan =
    | Scalar(v: Value)
    | Text(s: seq<byte>)
    | Chunked(bin: bool, parts: seq<seq<byte>>)
    | Known(kind: Kind, items: seq<Plan>)
    | Built(kind: Kind, items: seq<Plan>)

  predicate IsScalar(v: Value) {
    (v.Nil? || v.Bool? || v.UInt? || v.Int? || v.Float? || v.Double?) && InRange(TagOf(v))
  }

  /** Arguments that the C types of the parameters can hold. */
  predicate Typed(c: Call) {
    match c
    case Put(v) => IsScalar(v)
    case PutStr(s) => |s| < U32
    case _ => true
  }

  function Concat(parts: seq<seq<byte>>): seq<byte> {
    if parts == [] then [] else Concat(parts[..|parts| - 1]) + parts[|parts| - 1]
  }

  /** A container can have `n` items: a map has as many keys as values. */
  predicate Sizes(kind: Kind, n: nat) {
    kind == MapKind ==> n % 2 == 0
  }

  /** The size that is announced for `n` items. */
  function SizeFor(kind: Kind, n: nat): nat {
    if kind == MapKind then n / 2 else n
  }

  /** A plan whose calls are balanced: maps have a value for every key, and announced sizes can be announced. */
  predicate Balanced(p: Plan) {
    match p
    case Scalar(v) => IsScalar(v)
    case Text(s) => |s| < U32
    case Chunked(_, parts) => |Concat(parts)| < U32
    case Known(kind, items) => Sizes(kind, |items|) && SizeFor(kind, |items|) < U32 && AllBalanced(items)
    case Built(kind, items) => Sizes(kind, |items|) && AllBalanced(items)
  }

  predicate AllBalanced(ps: seq<Plan>) {
    ps == [] || (AllBalanced(ps[..|ps| - 1]) && Balanced(ps[|ps| - 1]))
  }

  /** A balanced plan whose built containers stay below the size limit of the format. */
  predicate Proper(p: Plan) {
    match p
    case Scalar(v) => IsScalar(v)
    case Text(s) => |s| < U32
    case Chunked(_, parts) => |Concat(parts)| < U32
    case Known(kind, items) => Sizes(kind, |items|) && SizeFor(kind, |items|) < U32 && AllProper(items)
    case Built(kind, items) => Sizes(kind, |items|) && SizeFor(kind, |items|) < U32 && AllProper(items)
  }

  predicate AllProper(ps: seq<Plan>) {
    ps == [] || (AllProper(ps[..|ps| - 1]) && Proper(ps[|ps| - 1]))
  }

  function Pieces(parts: seq<seq<byte>>): seq<Call> {
    if parts == [] then [] else Pieces(parts[..|parts| - 1]) + [Bytes(parts[|parts| - 1])]
  }

  /** The run of calls that writes a plan. */
  function Calls(p: Plan): (cs: seq<Call>)
    requires Balanced(p)
    ensures cs != []
  {
    match p
    case Scalar(v) => [Put(v)]
    case Text(s) => [PutStr(s)]
    case Chunked(bin, parts) => [StartRaw(bin, |Concat(parts)|)] + Pieces(parts) + [FinishRaw(bin)]
    case Known(kind, items) => [Start(kind, SizeFor(kind, |items|))] + CallsAll(items) + [Finish(kind)]
    case Built(kind, items) => [Build(kind)] + CallsAll(items) + [Complete(kind)]
  }

  function CallsAll(ps: seq<Plan>): seq<Call>
    requires AllBalanced(ps)
  {
    if ps == [] then [] else CallsAll(ps[..|ps| - 1]) + Calls(ps[|ps| - 1])
  }

  /** The value a plan means; nothing in it tells built containers from others. */
  function Meant(p: Plan): Value {
    match p
    case Scalar(v) => v
    case Text(s) => Str(s)
    case Chunked(bin, parts) => if bin then Bin(Concat(parts)) else Str(Concat(parts))
    case Known(kind, items) => Container(kind, MeantAll(items))
    case Built(kind, items) => Container(kind, MeantAll(items))
  }

  function Container(kind: Kind, vs: seq<Value>): Value {
    if kind == MapKind then Map(vs) else Array(vs)
  }

  function MeantAll(ps: seq<Plan>): (vs: seq<Value>)
    ensures |vs| == |ps|
  {
    if ps == [] then [] else MeantAll(ps[..|ps| - 1]) + [Meant(ps[|ps| - 1])]
  }

  function TagFor(kind: Kind, n: u32): (t: Tag)
    ensures InRange(t)
  {
    if kind == MapKind then MapTag(n) else ArrayTag(n)
  }

  /** The bytes that the calls of a plan put out; a build has the number of its items modulo 2^32 in its tag. */
  function Emitted(p: Plan): seq<byte>
    requires Balanced(p)
  {
    match p
    case Scalar(v) => EncodeTag(TagOf(v))
    case Text(s) => EncodeTag(StrTag(|s|)) + s
    case Chunked(bin, parts) =>
      var s := Concat(parts);
      EncodeTag(if bin then BinTag(|s|) else StrTag(|s|)) + s
    case Known(kind, items) => EncodeTag(TagFor(kind, SizeFor(kind, |items|))) + EmittedAll(items)
    case Built(kind, items) => EncodeTag(TagFor(kind, SizeFor(kind, |items|) % U32)) + EmittedAll(items)
  }

  function EmittedAll(ps: seq<Plan>): seq<byte>
    requires AllBalanced(ps)
  {
    if ps == [] then [] else EmittedAll(ps[..|ps| - 1]) + Emitted(ps[|ps| - 1])
  }

  function Size(p: Plan): nat {
    match p
    case Known(_, items) => 1 + SizeAll(items)
    case Built(_, items) => 1 + SizeAll(items)
    case _ => 1
  }

  function SizeAll(ps: seq<Plan>): nat {
    if ps == [] then 0 else SizeAll(ps[..|ps| - 1]) + Size(ps[|ps| - 1]) + 1
  }

  lemma {:induction false} ProperIsBalanced(p: Plan)
    requires Proper(p)
    ensures Balanced(p)
    decreases Size(p)
  {
    match p
    case Known(_, items) => AllProperIsBalanced(items);
    case Built(_, items) => AllProperIsBalanced(items);
    case _ =>
  }

  lemma {:induction false} AllProperIsBalanced(ps: seq<Plan>)
    requires AllProper(ps)
    ensures AllBalanced(ps)
    decreases SizeAll(ps)
  {
    if ps != [] {
      AllProperIsBalanced(ps[..|ps| - 1]);
      ProperIsBalanced(ps[|ps| - 1]);
    }
  }

  /** The encodings of a list, the last one split off. */
  lemma {:induction false} EncodeAllSnoc(vs: seq<Value>, v: Value)
    requires AllWellFormed(vs) && WellFormed(v)
    ensures AllWellFormed(vs + [v]) && EncodeAll(vs + [v]) == EncodeAll(vs) + Encode(v)
  {
    hide Encode, WellFormed;
    if vs == [] {
      assert (vs + [v])[1..] == [];
      assert EncodeAll([]) == [] && EncodeAll([v]) == Encode(v) + [];
    } else {
      EncodeAllSnoc(vs[1..], v);
      assert (vs + [v])[1..] == vs[1..] + [v];
    }
  }

  /** What a proper plan means can be encoded. */
  lemma {:induction false} MeansWellFormed(p: Plan)
    requires Proper(p)
    ensures WellFormed(Meant(p))
    decreases Size(p)
  {
    match p
    case Known(_, items) => AllMeanWellFormed(items);
    case Built(_, items) => AllMeanWellFormed(items);
    case _ =>
  }

  lemma {:induction false} AllMeanWellFormed(ps: seq<Plan>)
    requires AllProper(ps)
    ensures AllWellFormed(MeantAll(ps))
    decreases SizeAll(ps)
  {
    if ps != [] {
      var front, last := ps[..|ps| - 1], ps[|ps| - 1];
      AllMeanWellFormed(front);
      MeansWellFormed(last);
      EncodeAllSnoc(MeantAll(front), Meant(last));
    }
  }

  /** Built or not, a container is encoded as its tag and its items. */
  lemma {:induction false} EncodesContainer(kind: Kind, vs: seq<Value>)
    requires AllWellFormed(vs) && Sizes(kind, |vs|) && SizeFor(kind, |vs|) < U32
    ensures WellFormed(Container(kind, vs))
    ensures Encode(Container(kind, vs)) == EncodeTag(TagFor(kind, SizeFor(kind, |vs|))) + EncodeAll(vs)
  {
    var v := Container(kind, vs);
    assert EncodeTag(TagOf(v)) + [] == EncodeTag(TagOf(v));
  }

  // ---- which plans emit the value they mean

  /** Below the size limit of the format the bytes of a plan are the encoding of the value it means. */
  lemma {:induction false} ProperEmits(p: Plan)
    requires Proper(p) && Balanced(p)
    ensures WellFormed(Meant(p)) && Emitted(p) == Encode(Meant(p))
    decreases Size(p)
  {
    hide EncodeTag, Encode, EmittedAll, EncodeAll;
    MeansWellFormed(p);
    match p
    case Known(kind, items) =>
      AllProperEmit(items);
      EncodesContainer(kind, MeantAll(items));
    case Built(kind, items) =>
      AllProperEmit(items);
      EncodesContainer(kind, MeantAll(items));
    case _ => LeafEmits(p);
  }

  lemma {:induction false} LeafEmits(p: Plan)
    requires Balanced(p) && !p.Known? && !p.Built?
    ensures Proper(p) && WellFormed(Meant(p)) && Emitted(p) == Encode(Meant(p))
  {
    hide EncodeTag;
    var v := Meant(p);
    EncodeParts(v);
    assert Emitted(p) == EncodeTag(TagOf(v)) + Raw(v);
    assert EncodeAll(Kids(v)) == [];
  }

  lemma {:induction false} AllProperEmit(ps: seq<Plan>)
    requires AllProper(ps) && AllBalanced(ps)
    ensures AllWellFormed(MeantAll(ps)) && EmittedAll(ps) == EncodeAll(MeantAll(ps))
    decreases SizeAll(ps)
  {
    hide Emitted, Encode, EncodeAll, WellFormed, AllWellFormed, Proper, Balanced;
    AllMeanWellFormed(ps);
    if ps != [] {
      var front, last := ps[..|ps| - 1], ps[|ps| - 1];
      AllProperEmit(front);
      ProperEmits(last);
      EncodeAllSnoc(MeantAll(front), Meant(last));
    } else {
      NothingEncoded();
    }
  }

  lemma NothingEncoded()
    ensures EncodeAll([]) == []
  {
  }

  /** A list of objects and one more. */
  lemma {:induction false} DecodedSnoc(vs: seq<Value>, v: Value, d: seq<byte>, p: nat)
    requires var r := Decode(d, p, |vs| + 1); r.Done? && r.vals == NormalAll(vs + [v])
    ensures var r := Decode(d, p, |vs|);
            r.Done? && r.vals == NormalAll(vs) && Decode(d, r.next, 1).Done? && Decode(d, r.next, 1).vals == [Normal(v)]
  {
    hide Decode, Normal, NormalAll;
    DecodeSplit(d, p, |vs|, 1);
    NormalAllSnoc(vs, v);
    var r := Decode(d, p, |vs|);
    var one := Decode(d, r.next, 1);
    assert (r.vals + one.vals)[..|vs|] == r.vals && (r.vals + one.vals)[|vs|..] == one.vals;
    assert (NormalAll(vs) + [Normal(v)])[..|vs|] == NormalAll(vs);
  }

  lemma {:induction false} NormalAllSnoc(vs: seq<Value>, v: Value)
    ensures NormalAll(vs + [v]) == NormalAll(vs) + [Normal(v)]
  {
    hide Normal;
    if vs == [] {
      assert ([] + [v])[1..] == [] && NormalAll([v]) == [Normal(v)] + NormalAll([]);
      assert [] + [v] == [v];
    } else {
      NormalAllSnoc(vs[1..], v);
      assert (vs + [v])[1..] == vs[1..] + [v];
    }
  }

  /** A container that decodes to `vs` announces their number, and they follow its tag. */
  lemma {:induction false} ContainerDecoded(kind: Kind, n: u32, b: seq<byte>, vs: seq<Value>, d: seq<byte>, p: nat)
    requires Holds(d, p, EncodeTag(TagFor(kind, n)) + b)
    requires Decode(d, p, 1).Done? && Decode(d, p, 1).vals == [Container(kind, vs)]
    ensures var q := p + |EncodeTag(TagFor(kind, n))|;
            Holds(d, q, b) && Decode(d, q, |vs|).Done? && Decode(d, q, |vs|).vals == vs
    ensures |vs| == if kind == MapKind then 2 * n else n
  {
    hide EncodeTag, HeaderAt, Join;
    var t := TagFor(kind, n);
    HoldsParts(d, p, EncodeTag(t), b);
    TagRoundTrip(t, d, p);
    var i := ItemAt(d, p);
    var kids := Decode(d, i.next, Children(i.tag));
    if kids.Done? { DecodeOne(d, p, i, kids); }
  }

  /** Only below the size limit does a plan decode to the value it means. */
  lemma {:induction false} DecodesProper(p: Plan, d: seq<byte>, q: nat)
    requires Balanced(p) && Holds(d, q, Emitted(p)) && Decode(d, q, 1).Done?
              && Decode(d, q, 1).vals == [Normal(Meant(p))]
    ensures Proper(p)
    decreases Size(p)
  {
    hide Decode, EncodeTag, EmittedAll, AllProper, MeantAll, NormalAll, AllBalanced;
    match p
    case Known(kind, items) =>
      var n := SizeFor(kind, |items|);
      ContainerDecoded(kind, n, EmittedAll(items), NormalAll(MeantAll(items)), d, q);
      AllDecodeProper(items, d, q + |EncodeTag(TagFor(kind, n))|);
    case Built(kind, items) =>
      var n := SizeFor(kind, |items|) % U32;
      ContainerDecoded(kind, n, EmittedAll(items), NormalAll(MeantAll(items)), d, q);
      AllDecodeProper(items, d, q + |EncodeTag(TagFor(kind, n))|);
    case _ =>
  }

  lemma {:induction false} AllDecodeProper(ps: seq<Plan>, d: seq<byte>, q: nat)
    requires AllBalanced(ps) && Holds(d, q, EmittedAll(ps))
    requires Decode(d, q, |ps|).Done? && Decode(d, q, |ps|).vals == NormalAll(MeantAll(ps))
    ensures AllProper(ps)
    decreases SizeAll(ps)
  {
    hide Decode, Normal, NormalAll, Emitted, Meant, Proper, Balanced, EncodeAll, AllWellFormed;
    if ps != [] {
      var front, last := ps[..|ps| - 1], ps[|ps| - 1];
      HoldsParts(d, q, EmittedAll(front), Emitted(last));
      DecodedSnoc(MeantAll(front), Meant(last), d, q);
      AllDecodeProper(front, d, q);
      AllProperEmit(front);
      RoundTripAll(MeantAll(front), d, q);
      DecodesProper(last, d, q + |EmittedAll(front)|);
    }
  }

  /**
   * What plans put out decodes to the values they mean if and only if every built container stays below the size limit
   * of the format; the count of one that does not wraps around.
   */
  lemma {:induction false} ReadsBackExactly(ps: seq<Plan>, d: seq<byte>, q: nat)
    requires AllBalanced(ps) && Holds(d, q, EmittedAll(ps))
    ensures var r := Decode(d, q, |ps|);
            r.Done? && r.vals == NormalAll(MeantAll(ps)) && r.next == q + |EmittedAll(ps)| <==> AllProper(ps)
  {
    hide Decode, EncodeAll, NormalAll, AllWellFormed, EmittedAll, AllProper, AllBalanced;
    if AllProper(ps) {
      AllProperEmit(ps);
      RoundTripAll(MeantAll(ps), d, q);
    } else if Decode(d, q, |ps|).Done? && Decode(d, q, |ps|).vals == NormalAll(MeantAll(ps)) {
      AllDecodeProper(ps, d, q);
    }
  }

  function Nils(n: nat): (ps: seq<Plan>)
    ensures |ps| == n
  {
    if n == 0 then [] else Nils(n - 1) + [Scalar(Nil)]
  }

  lemma {:induction false} NilsBalanced(n: nat)
    ensures AllBalanced(Nils(n)) && |EmittedAll(Nils(n))| == n
  {
    hide Emitted, Balanced;
    if n > 0 {
      NilsBalanced(n - 1);
      assert Nils(n)[..n - 1] == Nils(n - 1);
      OneNil();
    }
  }

  lemma OneNil()
    ensures Balanced(Scalar(Nil)) && |Emitted(Scalar(Nil))| == 1
  {
  }

  /** A built array of 2^32 nils decodes to the empty array, and everything in it is left over. */
  lemma {:induction false} CountWraps()
    ensures var p := Built(ArrayKind, Nils(U32));
            && Balanced(p) && !Proper(p) && |Emitted(p)| == 1 + U32
            && Decode(Emitted(p), 0, 1) == Done([Array([])], 1, 1)
  {
    hide EmittedAll, Nils, AllBalanced, AllProper, EncodeTag, Decode;
    NilsBalanced(U32);
    var t, b := EncodeTag(TagFor(ArrayKind, 0)), EmittedAll(Nils(U32));
    EmptyArray(b);
    assert (U32 as int) % U32 == 0;
    assert Emitted(Built(ArrayKind, Nils(U32))) == t + b;
  }

  lemma EmptyArray(tail: seq<byte>)
    ensures |EncodeTag(TagFor(ArrayKind, 0))| == 1
    ensures Decode(EncodeTag(TagFor(ArrayKind, 0)) + tail, 0, 1) == Done([Array([])], 1, 1)
  {
    hide EncodeTag, Decode;
    var v := Array([]);
    assert WellFormed(v) && Encode(v) == EncodeTag(ArrayTag(0)) && Normal(v) == v && Encoding.Nodes(v) == 1 by {
      EncodeParts(v);
      assert EncodeTag(ArrayTag(0)) + [] + [] == EncodeTag(ArrayTag(0));
    }
    RoundTripPrefix(v, tail);
    assert |EncodeTag(ArrayTag(0))| == 1 by { ShortArrayTag(0); }
  }

  lemma ShortArrayTag(n: nat)
    requires n < 16
    ensures EncodeTag(ArrayTag(n)) == [0x90 + n]
  {
  }

  /** The calls of a plan have arguments of the right types. */
  lemma {:induction false} CallsTyped(ps: seq<Plan>)
    requires AllBalanced(ps)
    ensures forall c <- CallsAll(ps) :: Typed(c)
    decreases SizeAll(ps)
  {
    if ps != [] {
      CallsTyped(ps[..|ps| - 1]);
      PlanTyped(ps[|ps| - 1]);
    }
  }

  lemma {:induction false} PlanTyped(p: Plan)
    requires Balanced(p)
    ensures forall c <- Calls(p) :: Typed(c)
    decreases Size(p)
  {
    match p
    case Chunked(_, parts) => PiecesTyped(parts);
    case Known(_, items) => CallsTyped(items);
    case Built(_, items) => CallsTyped(items);
    case _ =>
  }

  lemma {:induction false} PiecesTyped(parts: seq<seq<byte>>)
    ensures forall c <- Pieces(parts) :: Typed(c)
  {
    if parts != [] { PiecesTyped(parts[..|parts| - 1]); }
  }

  // ---- short lists of plans

  lemma BuiltParts(kind: Kind, items: seq<Plan>)
    requires AllProper(items) && AllBalanced(items) && Sizes(kind, |items|) && SizeFor(kind, |items|) < U32
    ensures var p := Built(kind, items);
            && Proper(p) && Balanced(p) && Calls(p) == [Call.Build(kind)] + CallsAll(items) + [Complete(kind)]
            && Meant(p) == Container(kind, MeantAll(items))
  {
  }

  lemma TextParts(s: seq<byte>)
    requires |s| < U32
    ensures Proper(Text(s)) && Balanced(Text(s)) && Calls(Text(s)) == [PutStr(s)] && Meant(Text(s)) == Str(s)
  {
  }

  lemma {:induction false} OneItem(p: Plan)
    requires Proper(p) && Balanced(p)
    ensures AllProper([p]) && AllBalanced([p]) && CallsAll([p]) == Calls(p) && MeantAll([p]) == [Meant(p)]
  {
    hide Proper, Balanced, Calls, Meant;
    assert [p][..0] == [];
  }

  lemma {:induction false} TwoItems(p: Plan, q: Plan)
    requires Proper(p) && Balanced(p) && Proper(q) && Balanced(q)
    ensures AllProper([p, q]) && AllBalanced([p, q]) && CallsAll([p, q]) == Calls(p) + Calls(q)
    ensures MeantAll([p, q]) == [Meant(p), Meant(q)]
  {
    hide Proper, Balanced, Calls, Meant;
    assert [p, q][..1] == [p];
    OneItem(p);
  }
}

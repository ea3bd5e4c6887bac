/**
 The minimal-width encoder of the writer, as a function of values, and its round
 trip through the recursive decoder.
 */
module Encoding {
  import opened MsgPack

  /** The ranges of the C types that carry the parts of a tag. */
  predicate InRange(t: Tag) {
    match t
    case UIntTag(u) => u < 0x1_0000_0000_0000_0000
    case IntTag(i) => -0x8000_0000_0000_0000 <= i < 0x8000_0000_0000_0000
    case FloatTag(f) => f < 0x1_0000_0000
    case DoubleTag(d) => d < 0x1_0000_0000_0000_0000
    case StrTag(n) => n < 0x1_0000_0000
    case BinTag(n) => n < 0x1_0000_0000
    case ArrayTag(n) => n < 0x1_0000_0000
    case MapTag(n) => n < 0x1_0000_0000
    case _ => true
  }

  /** A type byte and a number of the width that goes with it. */
  function Sized(b: byte, n: nat): seq<byte> {
    [b] + Store(n, Width(b))
  }

  datatype Code = Code(b: byte, n: nat)

  /** `mpack_write_u64`. */
  function UIntCode(u: nat): Code {
    if u <= 0x7f then Code(u, 0)
    else if u <= 0xff then Code(0xcc, u)
    else if u <= 0xffff then Code(0xcd, u)
    else if u <= 0xffff_ffff then Code(0xce, u)
    else Code(0xcf, u)
  }

  /** `mpack_write_i64`. */
  function IntCode(i: int): Code
    requires InRange(IntTag(i))
  {
    WidthPowers();
    if i >= -32 then (if i < 0 then Code(i + 256, 0) else UIntCode(i))
    else if i >= -0x80 then Code(0xd0, Unsigned(i, 1))
    else if i >= -0x8000 then Code(0xd1, Unsigned(i, 2))
    else if i >= -0x8000_0000 then Code(0xd2, Unsigned(i, 4))
    else Code(0xd3, Unsigned(i, 8))
  }

  /** The type byte and number the writer produces for a tag. */
  function CodeOf(t: Tag): Code
    requires InRange(t)
  {
    match t
    case NilTag => Code(0xc0, 0)
    case BoolTag(b) => Code(if b then 0xc3 else 0xc2, 0)
    case UIntTag(u) => UIntCode(u)
    case IntTag(i) => IntCode(i)
    case FloatTag(f) => Code(0xca, f)
    case DoubleTag(d) => Code(0xcb, d)
    case StrTag(n) =>
      if n <= 31 then Code(0xa0 + n, 0) else if n <= 0xff then Code(0xd9, n)
      else if n <= 0xffff then Code(0xda, n) else Code(0xdb, n)
    case BinTag(n) =>
      if n <= 0xff then Code(0xc4, n) else if n <= 0xffff then Code(0xc5, n) else Code(0xc6, n)
    case ArrayTag(n) =>
      if n <= 15 then Code(0x90 + n, 0) else if n <= 0xffff then Code(0xdc, n) else Code(0xdd, n)
    case MapTag(n) =>
      if n <= 15 then Code(0x80 + n, 0) else if n <= 0xffff then Code(0xde, n) else Code(0xdf, n)
  }

  function EncodeTag(t: Tag): (s: seq<byte>)
    requires InRange(t)
    ensures 1 <= |s| <= 9
  {
    Sized(CodeOf(t).b, CodeOf(t).n)
  }

  lemma {:induction false} WidthPowers()
    ensures Pow256(0) == 1 && Pow256(1) == 0x100 && Pow256(2) == 0x1_0000 && Pow256(4) == 0x1_0000_0000
    ensures Pow256(8) == 0x1_0000_0000_0000_0000
  {
    assert Pow256(3) == 0x100_0000 && Pow256(5) == 0x100_0000_0000;
    assert Pow256(6) == 0x1_0000_0000_0000 && Pow256(7) == 0x100_0000_0000_0000;
  }

  /** A signed tag of a non-negative number reads back as unsigned. */
  function NormalTag(t: Tag): Tag {
    if t.IntTag? && t.i >= 0 then UIntTag(t.i) else t
  }

  lemma {:induction false} SizedReadsBack(b: byte, n: nat, d: seq<byte>, p: nat)
    requires b != 0xc1 && !IsExt(b) && n < Pow256(Width(b))
    requires p + 1 + Width(b) <= |d| && d[p..p + 1 + Width(b)] == Sized(b, n)
    ensures HeaderAt(d, p) == Header(Meaning(b, n), 1 + Width(b))
  {
    var s := d[p..p + 1 + Width(b)];
    assert s[0] == d[p] && s[1..] == d[p + 1..p + 1 + Width(b)];
    LoadStore(n, d, p + 1, Width(b));
  }

  lemma SignedUnsigned(i: int, k: nat)
    requires -(Pow256(k) as int) <= 2 * i < 0
    ensures Unsigned(i, k) < Pow256(k) && Signed(Unsigned(i, k), k) == i
  {
  }

  /** What the writer codes is a defined header with the meaning of the tag. */
  lemma {:induction false} CodeMeansTag(t: Tag)
    requires InRange(t)
    ensures var c := CodeOf(t);
            c.b != 0xc1 && !IsExt(c.b) && c.n < Pow256(Width(c.b)) && Meaning(c.b, c.n) == NormalTag(t)
  {
    WidthPowers();
    if t.IntTag? && t.i < -32 { SignedUnsigned(t.i, Width(CodeOf(t).b)); }
  }

  /** The header decoder reads back what the encoder wrote, whatever follows. */
  lemma {:induction false} TagRoundTrip(t: Tag, d: seq<byte>, p: nat)
    requires InRange(t) && p + |EncodeTag(t)| <= |d| && d[p..p + |EncodeTag(t)|] == EncodeTag(t)
    ensures HeaderAt(d, p) == Header(NormalTag(t), |EncodeTag(t)|)
  {
    CodeMeansTag(t);
    SizedReadsBack(CodeOf(t).b, CodeOf(t).n, d, p);
  }

  /** No header that reads back as the same tag is shorter than the encoder's. */
  lemma {:induction false} TagMinimal(t: Tag, b: byte, n: nat)
    requires InRange(t) && b != 0xc1 && !IsExt(b) && n < Pow256(Width(b))
    requires Meaning(b, n) == NormalTag(t)
    ensures |EncodeTag(t)| <= 1 + Width(b)
  {
    hide EncodeTag, Store;
    WidthPowers();
    TagSize(t);
  }

  lemma TagSize(t: Tag)
    requires InRange(t)
    ensures |EncodeTag(t)| == 1 + Width(CodeOf(t).b)
  {
  }

  // ---- values

  predicate WellFormed(v: Value) {
    match v
    case UInt(u) => InRange(UIntTag(u))
    case Int(i) => InRange(IntTag(i))
    case Float(f) => InRange(FloatTag(f))
    case Double(d) => InRange(DoubleTag(d))
    case Str(s) => InRange(StrTag(|s|))
    case Bin(s) => InRange(BinTag(|s|))
    case Array(es) => InRange(ArrayTag(|es|)) && AllWellFormed(es)
    case Map(kvs) => |kvs| % 2 == 0 && InRange(MapTag(|kvs| / 2)) && AllWellFormed(kvs)
    case _ => true
  }

  predicate AllWellFormed(vs: seq<Value>) {
    vs == [] || (WellFormed(vs[0]) && AllWellFormed(vs[1..]))
  }

  function TagOf(v: Value): Tag {
    match v
    case Nil => NilTag
    case Bool(b) => BoolTag(b)
    case UInt(u) => UIntTag(u)
    case Int(i) => IntTag(i)
    case Float(f) => FloatTag(f)
    case Double(d) => DoubleTag(d)
    case Str(s) => StrTag(|s|)
    case Bin(s) => BinTag(|s|)
    case Array(es) => ArrayTag(|es|)
    case Map(kvs) => MapTag(|kvs| / 2)
  }

  function Raw(v: Value): seq<byte> {
    match v
    case Str(s) => s
    case Bin(s) => s
    case _ => []
  }

  function Kids(v: Value): seq<Value> {
    match v
    case Array(es) => es
    case Map(kvs) => kvs
    case _ => []
  }

  /** The bytes the writer produces for a value. */
  function Encode(v: Value): seq<byte>
    requires WellFormed(v)
  {
    EncodeTag(TagOf(v)) + Raw(v) +
    match v
    case Array(es) => EncodeAll(es)
    case Map(kvs) => EncodeAll(kvs)
    case _ => []
  }

  function EncodeAll(vs: seq<Value>): seq<byte>
    requires AllWellFormed(vs)
  {
    if vs == [] then [] else Encode(vs[0]) + EncodeAll(vs[1..])
  }

  /** What parsing makes of a value: signed non-negative numbers become unsigned. */
  function Normal(v: Value): Value {
    match v
    case Int(i) => if i >= 0 then UInt(i) else v
    case Array(es) => Array(NormalAll(es))
    case Map(kvs) => Map(NormalAll(kvs))
    case _ => v
  }

  function NormalAll(vs: seq<Value>): (ns: seq<Value>)
    ensures |ns| == |vs|
  {
    if vs == [] then [] else [Normal(vs[0])] + NormalAll(vs[1..])
  }

  /** Number of objects in a value, itself included. */
  function Nodes(v: Value): (n: nat)
    ensures n > 0
  {
    1 + match v
        case Array(es) => NodesAll(es)
        case Map(kvs) => NodesAll(kvs)
        case _ => 0
  }

  function NodesAll(vs: seq<Value>): nat {
    if vs == [] then 0 else Nodes(vs[0]) + NodesAll(vs[1..])
  }

  /** `d` holds the bytes `s` at offset `p`. */
  ghost predicate Holds(d: seq<byte>, p: nat, s: seq<byte>) {
    p + |s| <= |d| && d[p..p + |s|] == s
  }

  lemma {:induction false} HoldsParts(d: seq<byte>, p: nat, a: seq<byte>, b: seq<byte>)
    requires Holds(d, p, a + b)
    ensures Holds(d, p, a) && Holds(d, p + |a|, b)
  {
    var s := d[p..p + |a + b|];
    assert s[..|a|] == a && s[|a|..] == b;
    assert s[..|a|] == d[p..p + |a|] && s[|a|..] == d[p + |a|..p + |a| + |b|];
  }

  lemma EncodeParts(v: Value)
    requires WellFormed(v)
    ensures AllWellFormed(Kids(v)) && InRange(TagOf(v))
    ensures Encode(v) == EncodeTag(TagOf(v)) + Raw(v) + EncodeAll(Kids(v))
  {
  }

  /** A written header followed by its raw bytes reads back as one item. */
  lemma {:induction false} ItemRoundTrip(v: Value, d: seq<byte>, p: nat)
    requires WellFormed(v) && Holds(d, p, EncodeTag(TagOf(v)) + Raw(v))
    ensures ItemAt(d, p) == Item(NormalTag(TagOf(v)), Raw(v), p + |EncodeTag(TagOf(v)) + Raw(v)|)
  {
    var t := TagOf(v);
    HoldsParts(d, p, EncodeTag(t), Raw(v));
    TagRoundTrip(t, d, p);
    hide EncodeTag, HeaderAt;
    assert Payload(NormalTag(t)) == |Raw(v)|;
  }

  lemma BuildsNormal(v: Value)
    requires WellFormed(v)
    ensures Children(NormalTag(TagOf(v))) == |Kids(v)|
    ensures Build(NormalTag(TagOf(v)), Raw(v), NormalAll(Kids(v))) == Normal(v)
    ensures Nodes(v) == 1 + NodesAll(Kids(v))
  {
  }

  /** Decoding what the writer wrote, followed by anything, yields the values and stops exactly at the end. */
  lemma {:induction false} RoundTripAll(vs: seq<Value>, d: seq<byte>, p: nat)
    requires AllWellFormed(vs) && Holds(d, p, EncodeAll(vs))
    ensures Decode(d, p, |vs|) == Done(NormalAll(vs), p + |EncodeAll(vs)|, NodesAll(vs))
    decreases NodesAll(vs), 1
  {
    hide *;
    if vs == [] {
      NothingDecoded(d, p);
    } else {
      ListHeld(vs, d, p);
      RoundTrip(vs[0], d, p);
      RoundTripAll(vs[1..], d, p + |Encode(vs[0])|);
      ListDecoded(vs, d, p);
    }
  }

  lemma NothingDecoded(d: seq<byte>, p: nat)
    ensures Decode(d, p, 0) == Done(NormalAll([]), p + |EncodeAll([])|, NodesAll([]))
  {
  }

  lemma {:induction false} ListHeld(vs: seq<Value>, d: seq<byte>, p: nat)
    requires AllWellFormed(vs) && Holds(d, p, EncodeAll(vs)) && vs != []
    ensures WellFormed(vs[0]) && Holds(d, p, Encode(vs[0]))
    ensures AllWellFormed(vs[1..]) && Holds(d, p + |Encode(vs[0])|, EncodeAll(vs[1..]))
    ensures Nodes(vs[0]) <= NodesAll(vs) && NodesAll(vs[1..]) < NodesAll(vs)
  {
    hide Encode, EncodeAll, WellFormed, AllWellFormed, Nodes, NodesAll;
    ListParts(vs);
    HoldsParts(d, p, Encode(vs[0]), EncodeAll(vs[1..]));
  }

  lemma {:induction false} ListDecoded(vs: seq<Value>, d: seq<byte>, p: nat)
    requires AllWellFormed(vs) && vs != [] && WellFormed(vs[0]) && AllWellFormed(vs[1..])
    requires Decode(d, p, 1) == Done([Normal(vs[0])], p + |Encode(vs[0])|, Nodes(vs[0]))
    requires var q := p + |Encode(vs[0])|;
             Decode(d, q, |vs| - 1) == Done(NormalAll(vs[1..]), q + |EncodeAll(vs[1..])|, NodesAll(vs[1..]))
    ensures Decode(d, p, |vs|) == Done(NormalAll(vs), p + |EncodeAll(vs)|, NodesAll(vs))
  {
    hide Encode, EncodeAll, WellFormed, AllWellFormed, Decode, Normal, NormalAll, Nodes, NodesAll;
    ListParts(vs);
    var v, rest, q := vs[0], vs[1..], p + |Encode(vs[0])|;
    DecodeCons(d, p, Normal(v), q, Nodes(v), NormalAll(rest), q + |EncodeAll(rest)|, NodesAll(rest));
  }

  lemma ListParts(vs: seq<Value>)
    requires AllWellFormed(vs) && vs != []
    ensures WellFormed(vs[0]) && AllWellFormed(vs[1..]) && EncodeAll(vs) == Encode(vs[0]) + EncodeAll(vs[1..])
    ensures NormalAll(vs) == [Normal(vs[0])] + NormalAll(vs[1..])
    ensures NodesAll(vs) == Nodes(vs[0]) + NodesAll(vs[1..])
  {
  }

  lemma {:induction false} RoundTrip(v: Value, d: seq<byte>, p: nat)
    requires WellFormed(v) && Holds(d, p, Encode(v))
    ensures Decode(d, p, 1) == Done([Normal(v)], p + |Encode(v)|, Nodes(v))
    decreases Nodes(v), 0
  {
    hide EncodeTag, ItemAt, Build, Normal, Nodes, NodesAll, NormalAll, Encode, EncodeAll, InRange, WellFormed, Decode;
    EncodeParts(v);
    var front := EncodeTag(TagOf(v)) + Raw(v);
    HoldsParts(d, p, front, EncodeAll(Kids(v)));
    ItemRoundTrip(v, d, p);
    BuildsNormal(v);
    RoundTripKids(v, d, p + |front|);
    DecodeOne(d, p, Item(NormalTag(TagOf(v)), Raw(v), p + |front|),
              Done(NormalAll(Kids(v)), p + |Encode(v)|, NodesAll(Kids(v))));
  }

  lemma {:induction false} RoundTripKids(v: Value, d: seq<byte>, p: nat)
    requires WellFormed(v) && Holds(d, p, EncodeAll(Kids(v)))
    ensures Decode(d, p, |Kids(v)|) == Done(NormalAll(Kids(v)), p + |EncodeAll(Kids(v))|, NodesAll(Kids(v)))
    decreases NodesAll(Kids(v)), 2
  {
    match v
    case Array(es) => RoundTripAll(es, d, p);
    case Map(kvs) => RoundTripAll(kvs, d, p);
    case _ =>
  }

  /** The encoding of a value followed by arbitrary bytes decodes to the value. */
  lemma {:induction false} RoundTripPrefix(v: Value, tail: seq<byte>)
    requires WellFormed(v)
    ensures Decode(Encode(v) + tail, 0, 1) == Done([Normal(v)], |Encode(v)|, Nodes(v))
  {
    assert (Encode(v) + tail)[0..|Encode(v)|] == Encode(v);
    RoundTrip(v, Encode(v) + tail, 0);
  }

  /**
   * No encoding is a proper prefix of another, and values that parsing cannot tell apart are the only ones with equal
   * encodings.
   */
  lemma {:induction false} EncodingInjective(v: Value, w: Value)
    requires WellFormed(v) && WellFormed(w) && Encode(v) <= Encode(w)
    ensures Encode(v) == Encode(w) && Normal(v) == Normal(w)
  {
    RoundTripPrefix(v, Encode(w)[|Encode(v)|..]);
    RoundTripPrefix(w, []);
    assert Encode(w) + [] == Encode(w) == Encode(v) + Encode(w)[|Encode(v)|..];
  }

  lemma {:induction false} OneEncoded(v: Value)
    requires WellFormed(v)
    ensures EncodeAll([v]) == Encode(v) && [] + EncodeAll([v]) == Encode(v)
  {
    hide Encode, WellFormed;
    assert [v][1..] == [] && EncodeAll([]) == [];
  }
}

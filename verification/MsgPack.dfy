/**
 MessagePack without extension types: values, their encoding as the writer
 produces it, and a recursive decoder that serves as the reference for the
 parsers of the library. Floats are carried as raw words.
 */
module MsgPack {

  type byte = b: int | 0 <= b < 256

  /** The number of 32-bit words. */
  const U32: nat := 0x1_0000_0000

  /**
   * `mpack_error_t`: sticky in readers, writers and trees. `Undefined` is none of the library's: the model stops where
   * the tree parser goes on at a wrong place.
   */
  datatype Error = Ok | Io | Invalid | Unsupported | Type | TooBig | Bug | Data | Undefined

  /** The capacity `c` of a buffer, doubled until it is at least `n`, and no more often. */
  function DoubledTo(c: nat, n: nat): (r: nat)
    requires c > 0
    ensures c <= r && n <= r
    ensures c < r ==> r % 2 == 0 && c <= r / 2 < n
    decreases n - c
  {
    if c >= n then c else DoubledTo(2 * c, n)
  }

  datatype Value =
    | Nil
    | Bool(b: bool)
    | UInt(u: nat)
    | Int(i: int)
    | Float(f: nat)
    | Double(d: nat)
    | Str(s: seq<byte>)
    | Bin(s: seq<byte>)
    | Array(elems: seq<Value>)
    | Map(kvs: seq<Value>)   // keys and values in turn

  /** What the first bytes of an object say: a whole scalar, or the size of what follows. */
  datatype Tag =
    | NilTag
    | BoolTag(b: bool)
    | UIntTag(u: nat)
    | IntTag(i: int)
    | FloatTag(f: nat)
    | DoubleTag(d: nat)
    | StrTag(len: nat)
    | BinTag(len: nat)
    | ArrayTag(count: nat)
    | MapTag(count: nat)

  datatype Header = Short | ReservedByte | ExtByte | Header(tag: Tag, size: nat)

  // ---- big-endian numbers

  function Zeros(n: nat): (z: seq<byte>)
    ensures |z| == n
  {
    seq(n, _ => 0)
  }

  function Pow256(k: nat): (r: nat)
    ensures r > 0
  {
    if k == 0 then 1 else 256 * Pow256(k - 1)
  }

  /** The `k`-byte big-endian number at offset `p`. */
  function Load(d: seq<byte>, p: nat, k: nat): (v: nat)
    requires p + k <= |d|
    ensures v < Pow256(k)
  {
    if k == 0 then 0 else 256 * Load(d, p, k - 1) + d[p + k - 1]
  }

  /** The low `k` bytes of `v`, most significant first. */
  function Store(v: nat, k: nat): (s: seq<byte>)
    ensures |s| == k
  {
    if k == 0 then [] else Store(v / 256, k - 1) + [v % 256]
  }

  /** The first bytes of a number are the most significant ones. */
  lemma {:induction false} LoadSplits(d: seq<byte>, p: nat, j: nat, k: nat)
    requires p + j + k <= |d|
    ensures Load(d, p, j + k) == Load(d, p, j) * Pow256(k) + Load(d, p + j, k)
    ensures k == 1 ==> Load(d, p + j, k) == d[p + j]
  {
    if k == 1 { assert Load(d, p + j, 0) == 0 && Pow256(0) == 1; }
    if k > 0 {
      LoadSplits(d, p, j, k - 1);
      MoreSignificant(Load(d, p, j), Pow256(k - 1), Load(d, p + j, k - 1), d[p + j + k - 1]);
    }
  }

  lemma MoreSignificant(a: nat, w: nat, b: nat, c: nat)
    ensures 256 * (a * w + b) + c == a * (256 * w) + (256 * b + c)
  {
  }

  /** The numbers of one, two, four and eight bytes. */
  lemma {:induction false} LoadWide(d: seq<byte>, p: nat)
    ensures p + 1 <= |d| ==> Load(d, p, 1) == d[p]
    ensures p + 2 <= |d| ==>
              var a: int, b: int := d[p], d[p + 1]; Load(d, p, 2) == 0x100 * a + b
    ensures p + 4 <= |d| ==>
              var a: int, b: int, c: int, e: int := d[p], d[p + 1], d[p + 2], d[p + 3];
              Load(d, p, 4) == 0x100_0000 * a + 0x1_0000 * b + 0x100 * c + e
    ensures p + 8 <= |d| ==> Load(d, p, 8) == 0x1_0000_0000 * Load(d, p, 4) + Load(d, p + 4, 4)
  {
    assert Pow256(4) == 0x1_0000_0000 by { assert Pow256(2) == 0x1_0000; }
    if p + 4 <= |d| { assert Load(d, p, 2) == 256 * Load(d, p, 1) + d[p + 1]; }
    if p + 8 <= |d| { LoadSplits(d, p, 4, 4); }
  }

  lemma {:induction false} LoadStore(v: nat, d: seq<byte>, p: nat, k: nat)
    requires p + k <= |d| && d[p..p + k] == Store(v, k) && v < Pow256(k)
    ensures Load(d, p, k) == v
  {
    if k > 0 {
      assert d[p..p + k][..k - 1] == d[p..p + (k - 1)];
      assert d[p..p + k][k - 1] == d[p + k - 1];
      LoadStore(v / 256, d, p, k - 1);
    }
  }

  /** Two's complement reading of a `k`-byte number. */
  function Signed(v: nat, k: nat): int
    requires v < Pow256(k)
  {
    if 2 * v < Pow256(k) then v else v - Pow256(k)
  }

  function Unsigned(i: int, k: nat): nat
    requires -(Pow256(k) as int) <= i < Pow256(k)
  {
    if i >= 0 then i else i + Pow256(k)
  }

  // ---- headers

  /** Bytes of the number that follows a type byte. */
  function Width(b: byte): nat {
    if b in {0xc4, 0xcc, 0xd0, 0xd9} then 1
    else if b in {0xc5, 0xcd, 0xd1, 0xda, 0xdc, 0xde} then 2
    else if b in {0xc6, 0xca, 0xce, 0xd2, 0xdb, 0xdd, 0xdf} then 4
    else if b in {0xcb, 0xcf, 0xd3} then 8
    else 0
  }

  predicate IsExt(b: byte) {
    0xc7 <= b <= 0xc9 || 0xd4 <= b <= 0xd8
  }

  /** The tag of a type byte followed by the number `n`. */
  function Meaning(b: byte, n: nat): Tag
    requires b != 0xc1 && !IsExt(b) && n < Pow256(Width(b))
  {
    if b < 0x80 then UIntTag(b)
    else if b < 0x90 then MapTag(b - 0x80)
    else if b < 0xa0 then ArrayTag(b - 0x90)
    else if b < 0xc0 then StrTag(b - 0xa0)
    else if b == 0xc0 then NilTag
    else if b <= 0xc3 then BoolTag(b == 0xc3)
    else if b <= 0xc6 then BinTag(n)
    else if b == 0xca then FloatTag(n)
    else if b == 0xcb then DoubleTag(n)
    else if b <= 0xcf then UIntTag(n)
    else if b <= 0xd3 then IntTag(Signed(n, Width(b)))
    else if b <= 0xdb then StrTag(n)
    else if b <= 0xdd then ArrayTag(n)
    else if b <= 0xdf then MapTag(n)
    else IntTag(b - 256)
  }

  /** The header at offset `p`. */
  function HeaderAt(d: seq<byte>, p: nat): (h: Header)
    ensures h.Header? ==> h.size > 0 && p + h.size <= |d|
  {
    if p >= |d| then Short
    else if d[p] == 0xc1 then ReservedByte
    else if IsExt(d[p]) then ExtByte
    else if p + 1 + Width(d[p]) > |d| then Short
    else Header(Meaning(d[p], Load(d, p + 1, Width(d[p]))), 1 + Width(d[p]))
  }

  /** Objects nested directly in an object with this tag. */
  function Children(t: Tag): nat {
    match t
    case ArrayTag(n) => n
    case MapTag(n) => 2 * n
    case _ => 0
  }

  /** Raw bytes that follow the header. */
  function Payload(t: Tag): nat {
    match t
    case StrTag(n) => n
    case BinTag(n) => n
    case _ => 0
  }

  // ---- the recursive decoder

  /** A header with the raw bytes it announces; `next` is where its children, if any, start. */
  datatype Item = NoItem | Item(tag: Tag, raw: seq<byte>, next: nat)

  function ItemAt(d: seq<byte>, p: nat): (i: Item)
    ensures i.Item? ==> p < i.next <= |d|
  {
    match HeaderAt(d, p)
    case Header(tag, size) =>
      var q := p + size + Payload(tag);
      if q > |d| then NoItem else Item(tag, d[p + size..q], q)
    case _ => NoItem
  }

  datatype Parse = Fail | Done(vals: seq<Value>, next: nat, nodes: nat)

  function Build(t: Tag, raw: seq<byte>, kids: seq<Value>): Value {
    match t
    case NilTag => Nil
    case BoolTag(b) => Bool(b)
    case UIntTag(u) => UInt(u)
    case IntTag(i) => Int(i)
    case FloatTag(f) => Float(f)
    case DoubleTag(d) => Double(d)
    case StrTag(_) => Str(raw)
    case BinTag(_) => Bin(raw)
    case ArrayTag(_) => Array(kids)
    case MapTag(_) => Map(kids)
  }

  /** One result after the other. */
  function Join(x: Parse, y: Parse): (r: Parse)
    ensures r.Done? <==> x.Done? && y.Done?
    ensures r.Done? ==> r.next == y.next && |r.vals| == |x.vals| + |y.vals|
  {
    if x.Fail? || y.Fail? then Fail else Done(x.vals + y.vals, y.next, x.nodes + y.nodes)
  }

  /** An object made from decoded children. */
  function Wrap(i: Item, kids: Parse): Parse
    requires i.Item?
  {
    if kids.Fail? then Fail else Done([Build(i.tag, i.raw, kids.vals)], kids.next, 1 + kids.nodes)
  }

  /** Decodes `c` objects from offset `p`; `nodes` counts all objects at all depths. */
  function Decode(d: seq<byte>, p: nat, c: nat): (r: Parse)
    ensures r.Done? ==> |r.vals| == c && p + c <= r.next && c <= r.nodes && (c > 0 ==> r.next <= |d|)
    decreases |d| - p, c
  {
    if c == 0 then Done([], p, 0) else
    var i := ItemAt(d, p);
    if i.NoItem? then Fail else
    var kids := Decode(d, i.next, Children(i.tag));
    if kids.Fail? then Fail else Join(Wrap(i, kids), Decode(d, kids.next, c - 1))
  }

  lemma {:induction false} JoinAssociates(x: Parse, y: Parse, z: Parse)
    ensures Join(Join(x, y), z) == Join(x, Join(y, z))
  {
    if x.Done? && y.Done? && z.Done? { assert (x.vals + y.vals) + z.vals == x.vals + (y.vals + z.vals); }
  }

  lemma {:induction false} JoinNothing(p: nat, y: Parse)
    ensures Join(Done([], p, 0), y) == y
  {
    if y.Done? { assert [] + y.vals == y.vals; }
  }

  /** Decoding `a + b` objects is decoding `a` and then `b`. */
  lemma {:induction false} DecodeSplit(d: seq<byte>, p: nat, a: nat, b: nat)
    ensures Decode(d, p, a + b) == Then(d, Decode(d, p, a), b)
    decreases |d| - p, a
  {
    hide Join, ItemAt;
    if a == 0 {
      JoinNothing(p, Decode(d, p, b));
    } else {
      var i := ItemAt(d, p);
      if i.Item? {
        var kids := Decode(d, i.next, Children(i.tag));
        if kids.Done? {
          DecodeSplit(d, kids.next, a - 1, b);
          ThenJoin(d, Wrap(i, kids), Decode(d, kids.next, a - 1), b);
          assert a - 1 + b == a + b - 1;
        }
      }
    }
  }

  /** Goes on to decode `b` objects. */
  function Then(d: seq<byte>, x: Parse, b: nat): Parse {
    if x.Fail? then Fail else Join(x, Decode(d, x.next, b))
  }

  lemma {:induction false} ThenJoin(d: seq<byte>, x: Parse, y: Parse, b: nat)
    requires x.Done?
    ensures Then(d, Join(x, y), b) == Join(x, Then(d, y, b))
  {
    if y.Done? { JoinAssociates(x, y, Decode(d, y.next, b)); }
  }

  /** An object whose children are the first `n` of the decoded values. */
  function Nest(i: Item, n: nat, r: Parse): Parse
    requires i.Item? && (r.Done? ==> n <= |r.vals|)
  {
    if r.Fail? then Fail else Done([Build(i.tag, i.raw, r.vals[..n])] + r.vals[n..], r.next, 1 + r.nodes)
  }

  /** A container is decoded by putting its children in front of what is still to be decoded. */
  lemma {:induction false} DecodeFlat(d: seq<byte>, p: nat, c: nat)
    requires c > 0
    ensures var i := ItemAt(d, p);
            Decode(d, p, c) == if i.NoItem? then Fail else
              Nest(i, Children(i.tag), Decode(d, i.next, Children(i.tag) + (c - 1)))
  {
    hide Join, Wrap, ItemAt;
    var i := ItemAt(d, p);
    if i.Item? {
      var n := Children(i.tag);
      DecodeSplit(d, i.next, n, c - 1);
      var kids := Decode(d, i.next, n);
      if kids.Done? { NestJoin(i, kids, Decode(d, kids.next, c - 1)); }
    }
  }

  lemma {:induction false} NestJoin(i: Item, kids: Parse, rest: Parse)
    requires i.Item? && kids.Done?
    ensures Nest(i, |kids.vals|, Join(kids, rest)) == Join(Wrap(i, kids), rest)
  {
    if rest.Done? {
      var vs := kids.vals + rest.vals;
      assert vs[..|kids.vals|] == kids.vals && vs[|kids.vals|..] == rest.vals;
    }
  }

  /** One object, from its header and its decoded children. */
  lemma {:induction false} DecodeOne(d: seq<byte>, p: nat, i: Item, kids: Parse)
    requires i.Item? && ItemAt(d, p) == i && Decode(d, i.next, Children(i.tag)) == kids && kids.Done?
    ensures Decode(d, p, 1) == Wrap(i, kids)
  {
    assert Wrap(i, kids).vals + [] == Wrap(i, kids).vals;
  }

  /** One object and then the others. */
  lemma {:induction false} DecodeCons(d: seq<byte>, p: nat, v: Value, q: nat, n: nat, vs: seq<Value>, e: nat, m: nat)
    requires Decode(d, p, 1) == Done([v], q, n) && Decode(d, q, |vs|) == Done(vs, e, m)
    ensures Decode(d, p, |vs| + 1) == Done([v] + vs, e, n + m)
  {
    hide Decode;
    DecodeSplit(d, p, 1, |vs|);
  }

  lemma {:induction false} LoadExtends(d: seq<byte>, e: seq<byte>, p: nat, k: nat)
    requires p + k <= |d| && d <= e
    ensures Load(e, p, k) == Load(d, p, k)
  {
    if k > 0 {
      assert e[p + k - 1] == d[p + k - 1];
      LoadExtends(d, e, p, k - 1);
    }
  }

  lemma {:induction false} HeaderExtends(d: seq<byte>, e: seq<byte>, p: nat)
    requires d <= e && HeaderAt(d, p) != Short
    ensures HeaderAt(e, p) == HeaderAt(d, p)
  {
    assert e[p] == d[p];
    if HeaderAt(d, p).Header? { LoadExtends(d, e, p + 1, Width(d[p])); }
  }

  lemma {:induction false} ItemExtends(d: seq<byte>, e: seq<byte>, p: nat)
    requires d <= e && ItemAt(d, p).Item?
    ensures ItemAt(e, p) == ItemAt(d, p)
  {
    HeaderExtends(d, e, p);
    var h := HeaderAt(d, p);
    var q := p + h.size + Payload(h.tag);
    SliceOfPrefix(d, e, p + h.size, q);
  }

  lemma {:induction false} SliceOfPrefix(d: seq<byte>, e: seq<byte>, a: nat, b: nat)
    requires a <= b <= |d| && d <= e
    ensures e[a..b] == d[a..b]
  {
    assert forall k :: a <= k < b ==> e[k] == d[k];
  }

  /** Bytes after a complete object do not matter. */
  lemma {:induction false} DecodeExtends(d: seq<byte>, e: seq<byte>, p: nat, c: nat)
    requires d <= e && Decode(d, p, c).Done?
    ensures Decode(e, p, c) == Decode(d, p, c)
    decreases |d| - p, c
  {
    hide Decode, Join, Wrap, ItemAt;
    DecodeUnfolds(d, p, c);
    DecodeUnfolds(e, p, c);
    if c > 0 {
      var i := ItemAt(d, p);
      ItemExtends(d, e, p);
      DecodeExtends(d, e, i.next, Children(i.tag));
      DecodeExtends(d, e, Decode(d, i.next, Children(i.tag)).next, c - 1);
    }
  }

  /** Nor do bytes behind the end of an object that are cut off. */
  lemma {:induction false} DecodeWithin(d: seq<byte>, e: seq<byte>, p: nat, c: nat)
    requires e <= d && Decode(d, p, c).Done? && Decode(d, p, c).next <= |e|
    ensures Decode(e, p, c) == Decode(d, p, c)
    decreases |d| - p, c
  {
    hide Decode, Join, Wrap, ItemAt;
    DecodeUnfolds(d, p, c);
    DecodeUnfolds(e, p, c);
    if c > 0 {
      var i := ItemAt(d, p);
      var kids := Decode(d, i.next, Children(i.tag));
      ItemWithin(d, e, p);
      DecodeWithin(d, e, i.next, Children(i.tag));
      DecodeWithin(d, e, kids.next, c - 1);
    }
  }

  lemma {:induction false} ItemWithin(d: seq<byte>, e: seq<byte>, p: nat)
    requires e <= d && ItemAt(d, p).Item? && ItemAt(d, p).next <= |e|
    ensures ItemAt(e, p) == ItemAt(d, p)
  {
    assert e[p] == d[p];
    LoadExtends(e, d, p + 1, Width(d[p]));
    var h := HeaderAt(d, p);
    SliceOfPrefix(e, d, p + h.size, p + h.size + Payload(h.tag));
  }

  /** A result seen from `n` bytes further to the left. */
  function Shifted(r: Parse, n: nat): Parse {
    if r.Fail? then Fail else r.(next := r.next + n)
  }

  /** `d` is what follows the first `n` bytes of `e`. */
  ghost predicate Behind(n: nat, e: seq<byte>, d: seq<byte>) {
    |e| == n + |d| && forall k :: 0 <= k < |d| ==> e[n + k] == d[k]
  }

  lemma {:induction false} LoadShifts(n: nat, e: seq<byte>, d: seq<byte>, p: nat, k: nat)
    requires Behind(n, e, d) && p + k <= |d|
    ensures Load(e, n + p, k) == Load(d, p, k)
  {
    if k > 0 { LoadShifts(n, e, d, p, k - 1); }
  }

  lemma {:induction false} ItemShifts(n: nat, e: seq<byte>, d: seq<byte>, p: nat)
    requires Behind(n, e, d)
    ensures var i := ItemAt(d, p);
            ItemAt(e, n + p) == if i.NoItem? then NoItem else i.(next := i.next + n)
  {
    if p < |d| {
      assert e[n + p] == d[p];
      var h := HeaderAt(d, p);
      if h.Header? {
        LoadShifts(n, e, d, p + 1, Width(d[p]));
        var q := p + h.size + Payload(h.tag);
        if q <= |d| { assert e[n + p + h.size..n + q] == d[p + h.size..q]; }
      }
    }
  }

  lemma ShiftedJoin(i: Item, kids: Parse, rest: Parse, n: nat)
    requires i.Item? && kids.Done?
    ensures Join(Wrap(i.(next := i.next + n), Shifted(kids, n)), Shifted(rest, n))
              == Shifted(Join(Wrap(i, kids), rest), n)
  {
  }

  /** Bytes before an object do not matter. */
  lemma {:induction false} DecodeShifts(n: nat, e: seq<byte>, d: seq<byte>, p: nat, c: nat)
    requires Behind(n, e, d)
    ensures Decode(e, n + p, c) == Shifted(Decode(d, p, c), n)
    decreases |d| - p, c
  {
    hide Decode, Join, Wrap, ItemAt, Behind;
    DecodeUnfolds(d, p, c);
    DecodeUnfolds(e, n + p, c);
    if c > 0 {
      ItemShifts(n, e, d, p);
      var i := ItemAt(d, p);
      if i.Item? {
        DecodeShifts(n, e, d, i.next, Children(i.tag));
        var kids := Decode(d, i.next, Children(i.tag));
        if kids.Done? {
          DecodeShifts(n, e, d, kids.next, c - 1);
          ShiftedJoin(i, kids, Decode(d, kids.next, c - 1), n);
        }
      }
    }
  }

  lemma DecodeUnfolds(d: seq<byte>, p: nat, c: nat)
    ensures Decode(d, p, c) ==
              if c == 0 then Done([], p, 0) else
              var i := ItemAt(d, p);
              if i.NoItem? then Fail else
              var kids := Decode(d, i.next, Children(i.tag));
              if kids.Fail? then Fail else Join(Wrap(i, kids), Decode(d, kids.next, c - 1))
  {
  }

  // ---- what is wrong with bytes that do not decode

  datatype Defect = NoDefect | Truncated | Reserved | Extension

  /** The first thing that is wrong when `c` objects are decoded from offset `p`. */
  function DefectOf(d: seq<byte>, p: nat, c: nat): Defect
    decreases |d| - p, c
  {
    if c == 0 then NoDefect else
    match HeaderAt(d, p)
    case Short => Truncated
    case ReservedByte => Reserved
    case ExtByte => Extension
    case Header(t, n) =>
      if p + n + Payload(t) > |d| then Truncated else DefectOf(d, p + n + Payload(t), Children(t) + (c - 1))
  }

  lemma DefectUnfolds(d: seq<byte>, p: nat, c: nat)
    ensures DefectOf(d, p, c) ==
              if c == 0 then NoDefect else
              match HeaderAt(d, p)
              case Short => Truncated
              case ReservedByte => Reserved
              case ExtByte => Extension
              case Header(t, n) =>
                if ItemAt(d, p).NoItem? then Truncated else DefectOf(d, ItemAt(d, p).next, Children(t) + (c - 1))
  {
  }

  /** Bytes decode exactly if nothing is wrong with them. */
  lemma {:induction false} DecodesWithoutDefect(d: seq<byte>, p: nat, c: nat)
    ensures Decode(d, p, c).Done? <==> DefectOf(d, p, c) == NoDefect
    decreases |d| - p, c
  {
    hide Decode, DefectOf;
    DefectUnfolds(d, p, c);
    if c > 0 {
      DecodeFlat(d, p, c);
      var i := ItemAt(d, p);
      if i.Item? { DecodesWithoutDefect(d, i.next, Children(i.tag) + (c - 1)); }
    } else {
      DecodeUnfolds(d, p, c);
    }
  }

  /** Objects behind others are only looked at if nothing is wrong with those. */
  lemma {:induction false} DefectSplit(d: seq<byte>, p: nat, a: nat, b: nat)
    ensures var x := Decode(d, p, a);
            DefectOf(d, p, a + b) == if x.Done? then DefectOf(d, x.next, b) else DefectOf(d, p, a)
    decreases |d| - p, a
  {
    hide Decode, DefectOf;
    DefectUnfolds(d, p, a);
    DefectUnfolds(d, p, a + b);
    if a > 0 {
      DecodeFlat(d, p, a);
      var i := ItemAt(d, p);
      if i.Item? {
        var m := Children(i.tag) + (a - 1);
        DefectSplit(d, i.next, m, b);
        assert m + b == Children(i.tag) + (a + b - 1);
      }
    } else {
      DecodeUnfolds(d, p, a);
    }
  }

  /** Bytes before do not matter. */
  lemma {:induction false} DefectShifts(n: nat, e: seq<byte>, d: seq<byte>, p: nat, c: nat)
    requires Behind(n, e, d)
    ensures DefectOf(e, n + p, c) == DefectOf(d, p, c)
    decreases |d| - p, c
  {
    hide DefectOf, Behind, ItemAt, HeaderAt;
    DefectUnfolds(d, p, c);
    DefectUnfolds(e, n + p, c);
    HeaderShifts(n, e, d, p);
    if c > 0 {
      ItemShifts(n, e, d, p);
      var i := ItemAt(d, p);
      if i.Item? { DefectShifts(n, e, d, i.next, Children(HeaderAt(d, p).tag) + (c - 1)); }
    }
  }

  lemma {:induction false} HeaderShifts(n: nat, e: seq<byte>, d: seq<byte>, p: nat)
    requires Behind(n, e, d)
    ensures HeaderAt(e, n + p) == HeaderAt(d, p)
    ensures ItemAt(d, p).Item? ==> HeaderAt(d, p).Header? && p < ItemAt(d, p).next <= |d|
  {
    if p < |d| {
      assert e[n + p] == d[p];
      if p + 1 + Width(d[p]) <= |d| { LoadShifts(n, e, d, p + 1, Width(d[p])); }
    }
  }

  /** One more object behind objects that fill `a`. */
  lemma {:induction false} DecodeAppend(a: seq<byte>, d: seq<byte>, vs: seq<Value>)
    requires var r := Decode(a, 0, |vs|); r.Done? && r.vals == vs && r.next == |a|
    requires Decode(d, 0, 1).Done?
    ensures var r, m := Decode(a + d, 0, |vs| + 1), Decode(d, 0, 1);
            r.Done? && r.vals == vs + m.vals && r.next == |a| + m.next
  {
    hide Decode;
    DecodeExtends(a, a + d, 0, |vs|);
    DecodeShifts(|a|, a + d, d, 0, 1);
    DecodeSplit(a + d, 0, |vs|, 1);
  }
}

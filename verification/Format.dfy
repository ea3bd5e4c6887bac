/**
 The wire format in literal bytes: what every header reads as, and what is written
 for every tag and value, with the big-endian numbers of `LoadWide`.
 */
module Format {
  import opened MsgPack
  import opened Encoding

  // ---- what is read

  /** Every type byte that is a header by itself, and the bytes that no message may have. */
  lemma ShortHeaders(d: seq<byte>, p: nat)
    requires p < |d|
    ensures var b: int, h := d[p], HeaderAt(d, p);
            && (b <= 0x7f ==> h == Header(UIntTag(b), 1))
            && (0x80 <= b <= 0x8f ==> h == Header(MapTag(b - 0x80), 1))
            && (0x90 <= b <= 0x9f ==> h == Header(ArrayTag(b - 0x90), 1))
            && (0xa0 <= b <= 0xbf ==> h == Header(StrTag(b - 0xa0), 1))
            && (b == 0xc0 ==> h == Header(NilTag, 1))
            && (b == 0xc1 <==> h == ReservedByte)
            && (b == 0xc2 ==> h == Header(BoolTag(false), 1))
            && (b == 0xc3 ==> h == Header(BoolTag(true), 1))
            && (b in {0xc7, 0xc8, 0xc9, 0xd4, 0xd5, 0xd6, 0xd7, 0xd8} <==> h == ExtByte)
            && (0xe0 <= b ==> h == Header(IntTag(b - 0x100), 1))
  {
  }

  /** Type bytes with a number of one byte. */
  lemma {:induction false} Headers1(d: seq<byte>, p: nat)
    requires p < |d| && d[p] in {0xc4, 0xcc, 0xd0, 0xd9}
    ensures |d| < p + 2 ==> HeaderAt(d, p) == Short
    ensures p + 2 <= |d| ==>
              var h, n: int := HeaderAt(d, p), d[p + 1];
              && (d[p] == 0xc4 ==> h == Header(BinTag(n), 2))
              && (d[p] == 0xcc ==> h == Header(UIntTag(n), 2))
              && (d[p] == 0xd0 ==> h == Header(IntTag(if n < 0x80 then n else n - 0x100), 2))
              && (d[p] == 0xd9 ==> h == Header(StrTag(n), 2))
  {
    LoadWide(d, p + 1);
    WidthPowers();
  }

  /** Type bytes with a number of two bytes. */
  lemma {:induction false} Headers2(d: seq<byte>, p: nat)
    requires p < |d| && d[p] in {0xc5, 0xcd, 0xd1, 0xda, 0xdc, 0xde}
    ensures |d| < p + 3 ==> HeaderAt(d, p) == Short
    ensures p + 3 <= |d| ==>
              var h, a: int, b: int := HeaderAt(d, p), d[p + 1], d[p + 2];
              var n := 0x100 * a + b;
              && (d[p] == 0xc5 ==> h == Header(BinTag(n), 3))
              && (d[p] == 0xcd ==> h == Header(UIntTag(n), 3))
              && (d[p] == 0xd1 ==> h == Header(IntTag(if n < 0x8000 then n else n - 0x1_0000), 3))
              && (d[p] == 0xda ==> h == Header(StrTag(n), 3))
              && (d[p] == 0xdc ==> h == Header(ArrayTag(n), 3))
              && (d[p] == 0xde ==> h == Header(MapTag(n), 3))
  {
    LoadWide(d, p + 1);
    WidthPowers();
  }

  /** Type bytes with a number of four bytes. */
  lemma {:induction false} Headers4(d: seq<byte>, p: nat)
    requires p < |d| && d[p] in {0xc6, 0xca, 0xce, 0xd2, 0xdb, 0xdd, 0xdf}
    ensures |d| < p + 5 ==> HeaderAt(d, p) == Short
    ensures p + 5 <= |d| ==>
              var h, a: int, b: int, c: int, e: int := HeaderAt(d, p), d[p + 1], d[p + 2], d[p + 3], d[p + 4];
              var n := 0x100_0000 * a + 0x1_0000 * b + 0x100 * c + e;
              && (d[p] == 0xc6 ==> h == Header(BinTag(n), 5))
              && (d[p] == 0xca ==> h == Header(FloatTag(n), 5))
              && (d[p] == 0xce ==> h == Header(UIntTag(n), 5))
              && (d[p] == 0xd2 ==> h == Header(IntTag(if n < 0x8000_0000 then n else n - 0x1_0000_0000), 5))
              && (d[p] == 0xdb ==> h == Header(StrTag(n), 5))
              && (d[p] == 0xdd ==> h == Header(ArrayTag(n), 5))
              && (d[p] == 0xdf ==> h == Header(MapTag(n), 5))
  {
    LoadWide(d, p + 1);
    WidthPowers();
  }

  /** Type bytes with a number of eight bytes. */
  lemma {:induction false} Headers8(d: seq<byte>, p: nat)
    requires p < |d| && d[p] in {0xcb, 0xcf, 0xd3}
    ensures |d| < p + 9 ==> HeaderAt(d, p) == Short
    ensures p + 9 <= |d| ==>
              var h, n := HeaderAt(d, p), 0x1_0000_0000 * Load(d, p + 1, 4) + Load(d, p + 5, 4);
              && (d[p] == 0xcb ==> h == Header(DoubleTag(n), 9))
              && (d[p] == 0xcf ==> h == Header(UIntTag(n), 9))
              && (d[p] == 0xd3 ==>
                    h == Header(IntTag(if n < 0x8000_0000_0000_0000 then n else n - 0x1_0000_0000_0000_0000), 9))
  {
    LoadWide(d, p + 1);
    WidthPowers();
  }

  /** What is wrong with some bytes, and with nothing. */
  lemma {:induction false} Defects()
    ensures DefectOf([0xc1], 0, 1) == Reserved && DefectOf([0x91, 0xc1], 0, 1) == Reserved
    ensures DefectOf([0xc7], 0, 1) == Extension && DefectOf([0x91, 0xd8], 0, 1) == Extension
    ensures DefectOf([], 0, 1) == Truncated && DefectOf([0x91], 0, 1) == Truncated
    ensures DefectOf([0xcc], 0, 1) == Truncated && DefectOf([0xa1], 0, 1) == Truncated
    ensures DefectOf([0x91, 0xc0], 0, 1) == NoDefect
  {
  }

  // ---- what is written

  /** Numbers of one, two, four and eight bytes. */
  lemma {:induction false} StoreWide(v: nat)
    ensures Store(v, 0) == [] && Store(v, 1) == [v % 0x100] && Store(v, 2) == [v / 0x100 % 0x100, v % 0x100]
    ensures Store(v, 4) == Store(v / 0x1_0000, 2) + Store(v, 2)
    ensures Store(v, 8) == Store(v / 0x1_0000_0000, 4) + Store(v, 4)
  {
    StoreTwo(v);
    StoreUp(v, 2);
    StoreUp(v, 6);
    StoreUp(v / 0x1_0000, 4);
    assert v / 0x1_0000 / 0x1_0000 == v / 0x1_0000_0000;
  }

  lemma StoreTwo(v: nat)
    ensures Store(v, 1) == [v % 0x100] && Store(v, 2) == [v / 0x100 % 0x100, v % 0x100]
  {
    assert Store(v / 0x100, 1) == [] + [v / 0x100 % 0x100];
  }

  /** The last two bytes. */
  lemma {:induction false} StoreUp(v: nat, k: nat)
    ensures Store(v, k + 2) == Store(v / 0x1_0000, k) + Store(v, 2)
  {
    StoreTwo(v);
    assert v / 0x100 / 0x100 == v / 0x1_0000;
    assert Store(v, k + 2) == Store(v / 0x100, k + 1) + [v % 0x100];
    assert Store(v / 0x100, k + 1) == Store(v / 0x1_0000, k) + [v / 0x100 % 0x100];
  }

  /** What is written for a tag. */
  lemma {:induction false} TagBytes(t: Tag)
    requires InRange(t)
    ensures match t
            case NilTag => EncodeTag(t) == [0xc0]
            case BoolTag(b) => EncodeTag(t) == [if b then 0xc3 else 0xc2]
            case UIntTag(u) =>
              EncodeTag(t) == if u <= 0x7f then [u] else if u <= 0xff then [0xcc, u]
                              else if u <= 0xffff then [0xcd] + Store(u, 2)
                              else if u <= 0xffff_ffff then [0xce] + Store(u, 4) else [0xcf] + Store(u, 8)
            case IntTag(i) =>
              if i >= 0 then EncodeTag(t) == EncodeTag(UIntTag(i))
              else EncodeTag(t) == if i >= -32 then [i + 0x100] else if i >= -0x80 then [0xd0, i + 0x100]
                                   else if i >= -0x8000 then [0xd1] + Store(i + 0x1_0000, 2)
                                   else if i >= -0x8000_0000 then [0xd2] + Store(i + 0x1_0000_0000, 4)
                                   else [0xd3] + Store(i + 0x1_0000_0000_0000_0000, 8)
            case FloatTag(f) => EncodeTag(t) == [0xca] + Store(f, 4)
            case DoubleTag(d) => EncodeTag(t) == [0xcb] + Store(d, 8)
            case StrTag(n) =>
              EncodeTag(t) == if n <= 31 then [0xa0 + n] else if n <= 0xff then [0xd9, n]
                              else if n <= 0xffff then [0xda] + Store(n, 2) else [0xdb] + Store(n, 4)
            case BinTag(n) =>
              EncodeTag(t) == if n <= 0xff then [0xc4, n]
                              else if n <= 0xffff then [0xc5] + Store(n, 2) else [0xc6] + Store(n, 4)
            case ArrayTag(n) =>
              EncodeTag(t) == if n <= 15 then [0x90 + n]
                              else if n <= 0xffff then [0xdc] + Store(n, 2) else [0xdd] + Store(n, 4)
            case MapTag(n) =>
              EncodeTag(t) == if n <= 15 then [0x80 + n]
                              else if n <= 0xffff then [0xde] + Store(n, 2) else [0xdf] + Store(n, 4)
  {
    hide Store;
    WidthPowers();
    StoreWide(CodeOf(t).n);
  }

  /** What is written for a value. */
  lemma {:induction false} ValueBytes(v: Value)
    requires WellFormed(v)
    ensures match v
            case Nil => Encode(v) == EncodeTag(NilTag)
            case Bool(b) => Encode(v) == EncodeTag(BoolTag(b))
            case UInt(u) => Encode(v) == EncodeTag(UIntTag(u))
            case Int(i) => Encode(v) == EncodeTag(IntTag(i))
            case Float(f) => Encode(v) == EncodeTag(FloatTag(f))
            case Double(d) => Encode(v) == EncodeTag(DoubleTag(d))
            case Str(s) => Encode(v) == EncodeTag(StrTag(|s|)) + s
            case Bin(s) => Encode(v) == EncodeTag(BinTag(|s|)) + s
            case Array(es) => Encode(v) == EncodeTag(ArrayTag(|es|)) + EncodeAll(es)
            case Map(kvs) => Encode(v) == EncodeTag(MapTag(|kvs| / 2)) + EncodeAll(kvs)
  {
    hide EncodeTag;
    EncodeParts(v);
    assert forall s: seq<byte> :: s + [] == s;
  }
}

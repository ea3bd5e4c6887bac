/**
 khash's bucket states, packed two bits a bucket into 32-bit words, and the
 rounding of a requested size to a power of two.
 */
module BucketFlags {
  import opened Probing

  /** Bit pattern 00, 01 and 10; khash never produces 11. */
  datatype Bucket = Live | Deleted | Vacant

  function Code(b: Bucket): bv32 {
    match b
    case Live => 0
    case Deleted => 1
    case Vacant => 2
  }

  /** Distance of the bits of bucket `r` of a word from the bottom: `(r & 0xf) << 1`. */
  function Shift(r: nat): bv32
    requires r < 16
  {
    if r == 0 then 0 else if r == 1 then 2 else if r == 2 then 4 else if r == 3 then 6 else
    if r == 4 then 8 else if r == 5 then 10 else if r == 6 then 12 else if r == 7 then 14 else
    if r == 8 then 16 else if r == 9 then 18 else if r == 10 then 20 else if r == 11 then 22 else
    if r == 12 then 24 else if r == 13 then 26 else if r == 14 then 28 else 30
  }

  /** Two bits a bucket, the first bucket at the bottom. */
  lemma ShiftsUp(r: nat)
    requires r < 16
    ensures Shift(0) == 0 && (r > 0 ==> Shift(r) == Shift(r - 1) + 2)
  {
  }

  lemma ShiftsApart(a: nat, b: nat)
    requires a < 16 && b < 16
    ensures Shift(a) <= 30 && Shift(a) & 1 == 0
    ensures a != b ==> Shift(a) != Shift(b)
  {
  }

  function Field(w: bv32, s: bv32): bv32
    requires s <= 30
  {
    (w >> s) & 3
  }

  predicate EvenShifts(s: bv32, t: bv32) {
    s <= 30 && t <= 30 && s & 1 == 0 && t & 1 == 0
  }

  /** Setting the low bit of one bucket changes that bucket only. */
  lemma RaiseLow(w: bv32, s: bv32, t: bv32)
    requires EvenShifts(s, t)
    ensures Field(w | (1 << s), t) == if s == t then Field(w, t) | 1 else Field(w, t)
  {
  }

  /** Clearing the high bit of one bucket changes that bucket only. */
  lemma LowerHigh(w: bv32, s: bv32, t: bv32)
    requires EvenShifts(s, t) && Field(w, s) == 2
    ensures Field(w & !(2 << s), t) == if s == t then 0 else Field(w, t)
  {
  }

  /** Clearing both bits of one bucket changes that bucket only. */
  lemma LowerBoth(w: bv32, s: bv32, t: bv32)
    requires EvenShifts(s, t)
    ensures Field(w & !(3 << s), t) == if s == t then 0 else Field(w, t)
  {
  }

  lemma AllVacantWord(s: bv32)
    requires EvenShifts(s, s)
    ensures Field(0xaaaa_aaaa, s) == Code(Vacant)
  {
  }

  /** Number of words khash allocates for `m` buckets. */
  function WordCount(m: nat): nat {
    if m < 16 then 1 else m / 16
  }

  predicate Packable(m: nat) {
    m < 16 || m % 16 == 0
  }

  lemma {:induction false} Pow2Packable(n: nat)
    requires IsPow2(n)
    ensures Packable(n)
  {
    if n >= 32 {
      Pow2Packable(n / 2);
    } else if n > 16 {
      Pow2Gap(16, n);
    }
  }

  function FieldAt(w: bv32, r: nat): bv32
    requires r < 16
  {
    ShiftsApart(r, r);
    Field(w, Shift(r))
  }

  /** `__ac_set_isdel_true` on one word. */
  function MarkDeleted(w: bv32, r: nat): bv32
    requires r < 16
  {
    w | (1 << Shift(r))
  }

  lemma MarkDeletedField(w: bv32, r: nat, q: nat)
    requires r < 16 && q < 16
    ensures FieldAt(MarkDeleted(w, r), q) == if q == r then FieldAt(w, r) | 1 else FieldAt(w, q)
  {
    ShiftsApart(r, q);
    ShiftsApart(q, r);
    RaiseLow(w, Shift(r), Shift(q));
  }

  /** `__ac_set_isempty_false` on one word. */
  function MarkNonEmpty(w: bv32, r: nat): bv32
    requires r < 16
  {
    w & !(2 << Shift(r))
  }

  lemma MarkNonEmptyField(w: bv32, r: nat, q: nat)
    requires r < 16 && q < 16 && FieldAt(w, r) == 2
    ensures FieldAt(MarkNonEmpty(w, r), q) == if q == r then 0 else FieldAt(w, q)
  {
    ShiftsApart(r, q);
    ShiftsApart(q, r);
    LowerHigh(w, Shift(r), Shift(q));
  }

  /** `__ac_set_isboth_false` on one word. */
  function MarkLive(w: bv32, r: nat): bv32
    requires r < 16
  {
    w & !(3 << Shift(r))
  }

  lemma MarkLiveField(w: bv32, r: nat, q: nat)
    requires r < 16 && q < 16
    ensures FieldAt(MarkLive(w, r), q) == if q == r then 0 else FieldAt(w, q)
  {
    ShiftsApart(r, q);
    ShiftsApart(q, r);
    LowerBoth(w, Shift(r), Shift(q));
  }

  /** The words hold exactly the states `slots`. */
  ghost predicate Packs(words: seq<bv32>, slots: seq<Bucket>) {
    && Packable(|slots|)
    && |words| == WordCount(|slots|)
    && forall i: nat :: i < |slots| ==> FieldAt(words[i / 16], i % 16) == Code(slots[i])
  }

  /** Rewriting one field of one word changes the state of one bucket. */
  lemma PacksUpdate(words: seq<bv32>, slots: seq<Bucket>, i: nat, w: bv32, b: Bucket)
    requires Packs(words, slots) && i < |slots|
    requires forall q: nat :: q < 16 ==>
               FieldAt(w, q) == if q == i % 16 then Code(b) else FieldAt(words[i / 16], q)
    ensures Packs(words[i / 16 := w], slots[i := b])
  {
    forall j: nat | j < |slots|
      ensures FieldAt(words[i / 16 := w][j / 16], j % 16) == Code(slots[i := b][j])
    {
      if j / 16 == i / 16 && j % 16 == i % 16 {
        assert j == i;
      }
    }
  }

  lemma VacantPacks(n: nat)
    requires Packable(n)
    ensures Packs(seq(WordCount(n), _ => 0xaaaa_aaaa), seq(n, _ => Vacant))
  {
    forall i: nat | i < n ensures FieldAt(0xaaaa_aaaa, i % 16) == Code(Vacant) {
      ShiftsApart(i % 16, i % 16);
      AllVacantWord(Shift(i % 16));
    }
  }

  class FlagWords {
    const count: nat
    const words: array<bv32>
    ghost var slots: seq<Bucket>

    ghost predicate Valid()
      reads this, words
    {
      |slots| == count && Packs(words[..], slots)
    }

    /** A fresh array of vacant buckets: every byte is 0xaa. */
    constructor (n: nat)
      requires Packable(n)
      ensures Valid() && fresh(words) && count == n
      ensures slots == seq(n, _ => Vacant) && forall w :: 0 <= w < words.Length ==> words[w] == 0xaaaa_aaaa
    {
      count := n;
      words := new bv32[WordCount(n)](_ => 0xaaaa_aaaa);
      slots := seq(n, _ => Vacant);
      new;
      VacantPacks(n);
      assert words[..] == seq(WordCount(n), _ => 0xaaaa_aaaa);
    }

    method Clear()
      requires Valid()
      modifies this, words
      ensures Valid() && slots == seq(count, _ => Vacant)
      ensures forall w :: 0 <= w < words.Length ==> words[w] == 0xaaaa_aaaa
    {
      for w := 0 to words.Length
        invariant forall v :: 0 <= v < w ==> words[v] == 0xaaaa_aaaa
      {
        words[w] := 0xaaaa_aaaa;
      }
      slots := seq(count, _ => Vacant);
      VacantPacks(count);
      assert words[..] == seq(WordCount(count), _ => 0xaaaa_aaaa);
    }

    function State(i: nat): (w: bv32)
      requires Valid() && i < count
      reads this, words
      ensures w == Code(slots[i])
    {
      assert words[..][i / 16] == words[i / 16];
      FieldAt(words[i / 16], i % 16)
    }

    predicate IsEmpty(i: nat)
      requires Valid() && i < count
      reads this, words
      ensures IsEmpty(i) <==> slots[i] == Vacant
    {
      State(i) & 2 != 0
    }

    predicate IsDel(i: nat)
      requires Valid() && i < count
      reads this, words
      ensures IsDel(i) <==> slots[i] == Deleted
    {
      State(i) & 1 != 0
    }

    predicate IsEither(i: nat)
      requires Valid() && i < count
      reads this, words
      ensures IsEither(i) <==> slots[i] != Live
    {
      State(i) & 3 != 0
    }

    method SetIsDelTrue(i: nat)
      requires Valid() && i < count && slots[i] == Live
      modifies this, words
      ensures Valid() && slots == old(slots)[i := Deleted]
    {
      ghost var w := words[i / 16];
      forall q: nat | q < 16 { MarkDeletedField(w, i % 16, q); }
      PacksUpdate(words[..], slots, i, MarkDeleted(w, i % 16), Deleted);
      words[i / 16] := MarkDeleted(words[i / 16], i % 16);
      slots := slots[i := Deleted];
      assert words[..] == old(words[..])[i / 16 := MarkDeleted(w, i % 16)];
    }

    method SetIsEmptyFalse(i: nat)
      requires Valid() && i < count && slots[i] == Vacant
      modifies this, words
      ensures Valid() && slots == old(slots)[i := Live]
    {
      ghost var w := words[i / 16];
      forall q: nat | q < 16 { MarkNonEmptyField(w, i % 16, q); }
      PacksUpdate(words[..], slots, i, MarkNonEmpty(w, i % 16), Live);
      words[i / 16] := MarkNonEmpty(words[i / 16], i % 16);
      slots := slots[i := Live];
      assert words[..] == old(words[..])[i / 16 := MarkNonEmpty(w, i % 16)];
    }

    method SetIsBothFalse(i: nat)
      requires Valid() && i < count
      modifies this, words
      ensures Valid() && slots == old(slots)[i := Live]
    {
      ghost var w := words[i / 16];
      forall q: nat | q < 16 { MarkLiveField(w, i % 16, q); }
      PacksUpdate(words[..], slots, i, MarkLive(w, i % 16), Live);
      words[i / 16] := MarkLive(words[i / 16], i % 16);
      slots := slots[i := Live];
      assert words[..] == old(words[..])[i / 16 := MarkLive(w, i % 16)];
    }
  }

  // ---- rounding a size up to a power of two

  /** The `kroundup32` macro, on machine words. */
  function KRoundUp32(x0: bv32): bv32 {
    var x := x0 - 1;
    var x := x | (x >> 1);
    var x := x | (x >> 2);
    var x := x | (x >> 4);
    var x := x | (x >> 8);
    var x := x | (x >> 16);
    x + 1
  }

  /** The least power of two that is at least `x`. */
  function RoundUp(x: nat): (r: nat)
    requires x > 0
    ensures IsPow2(r) && x <= r < 2 * x
  {
    if x == 1 then 1 else 2 * RoundUp((x + 1) / 2)
  }

  lemma RoundUpLeast(x: nat, p: nat)
    requires x > 0 && IsPow2(p) && x <= p
    ensures RoundUp(x) <= p
  {
    if p < RoundUp(x) { Pow2Gap(p, RoundUp(x)); }
  }

  lemma RoundUpUnique(x: nat, p: nat)
    requires IsPow2(p) && p / 2 < x <= p
    ensures RoundUp(x) == p
  {
    RoundUpLeast(x, p);
    if RoundUp(x) < p { Pow2Gap(RoundUp(x), p); }
  }

  predicate OneBit(w: bv32) {
    w != 0 && w & (w - 1) == 0
  }

  /** On machine words the macro yields the least one-bit word that is not below its argument. */
  lemma KRoundUp32Least(x: bv32, p: bv32)
    requires 0 < x <= 0x8000_0000
    ensures OneBit(KRoundUp32(x)) && x <= KRoundUp32(x)
    ensures OneBit(p) && x <= p ==> KRoundUp32(x) <= p
  {
  }

  function Number(w: bv32): nat {
    w as nat
  }

  /** Next to one-bit words the order of words is that of numbers. */
  lemma SameOrder(w: bv32, p: bv32)
    requires OneBit(p)
    ensures Number(w) <= Number(p) <==> w <= p
  {
    if w <= p { WordBelow(w, p); } else { WordAbove(w, p); }
  }

  lemma WordBelow(w: bv32, p: bv32)
    requires OneBit(p) && w <= p
    ensures Number(w) <= Number(p)
  {
    if p < 0x1_0000 {} else {}
  }

  lemma WordAbove(w: bv32, p: bv32)
    requires OneBit(p) && w > p
    ensures Number(w) > Number(p)
  {
    if p < 0x1_0000 {
      if w >= 0x1_0000 {} else {}
    }
  }

  lemma OneBitHalf(p: bv32)
    requires OneBit(p)
    ensures Number(p) > 0
    ensures if p == 1 then Number(p) == 1 else p > 1 && OneBit(p >> 1) && p >> 1 < p && Number(p) == 2 * Number(p >> 1)
  {
  }

  lemma {:induction false} OneBitIsPow2(p: bv32)
    requires OneBit(p)
    ensures IsPow2(Number(p))
    decreases p
  {
    hide OneBit, Number;
    OneBitHalf(p);
    if p > 1 { OneBitIsPow2(p >> 1); }
  }

  /** The macro on machine words rounds as on numbers up to 2^31; above, and at zero, it yields zero. */
  lemma {:induction false} KRoundUp32Rounds(x: bv32)
    ensures if 0 < x <= 0x8000_0000
            then Number(x) > 0 && Number(KRoundUp32(x)) == RoundUp(Number(x))
            else KRoundUp32(x) == 0
  {
    hide RoundUp, OneBit, IsPow2, Number;
    if 0 < x <= 0x8000_0000 { RoundedWord(x, KRoundUp32(x)); }
  }

  lemma {:induction false} RoundedWord(x: bv32, r: bv32)
    requires 0 < x <= 0x8000_0000 && r == KRoundUp32(x)
    ensures Number(x) > 0 && Number(r) == RoundUp(Number(x))
  {
    hide RoundUp, OneBit, IsPow2, KRoundUp32, Number;
    KRoundUp32Least(x, r);
    SameOrder(x, r);
    OneBitIsPow2(r);
    OneBitHalf(r);
    NotZero(x);
    if r != 1 { HalfIsLess(x, r); }
    if r != 1 { SameOrder(x, r >> 1); }
    RoundUpUnique(Number(x), Number(r));
  }

  /** Half of what the macro yields is too little. */
  lemma HalfIsLess(x: bv32, r: bv32)
    requires 0 < x <= 0x8000_0000 && r == KRoundUp32(x) && r != 1
    ensures !(x <= r >> 1)
  {
  }

  lemma NotZero(x: bv32)
    requires x > 0
    ensures Number(x) > 0
  {
  }
}

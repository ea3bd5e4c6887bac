/**
 The hand-written UTF-8 validator, and the encoding of Unicode scalar values of
 RFC 3629, section 4, that it decides.
 */
module Utf8 {
  import opened MsgPack

  /** Code points without the surrogates. */
  predicate IsScalarValue(z: int) {
    0 <= z < 0xD800 || 0xE000 <= z <= 0x10FFFF
  }

  function Continuation(z: nat): byte {
    0x80 + z % 0x40
  }

  /** The encoding of one scalar value. */
  function Encoded(z: nat): (s: seq<byte>)
    requires IsScalarValue(z)
    ensures 1 <= |s| <= 4
  {
    if z < 0x80 then [z]
    else if z < 0x800 then [0xC0 + z / 0x40, Continuation(z)]
    else if z < 0x10000 then [0xE0 + z / 0x1000, Continuation(z / 0x40), Continuation(z)]
    else [0xF0 + z / 0x40000, Continuation(z / 0x1000), Continuation(z / 0x40), Continuation(z)]
  }

  /** One encoding of each length. */
  lemma KnownEncodings()
    ensures Encoded(0x24) == [0x24] && Encoded(0xA3) == [0xC2, 0xA3] && Encoded(0x20AC) == [0xE2, 0x82, 0xAC]
    ensures Encoded(0x10348) == [0xF0, 0x90, 0x8D, 0x88]
  {
  }

  predicate AllScalar(zs: seq<nat>) {
    zs == [] || (IsScalarValue(zs[0]) && AllScalar(zs[1..]))
  }

  function EncodedAll(zs: seq<nat>): seq<byte>
    requires AllScalar(zs)
  {
    if zs == [] then [] else Encoded(zs[0]) + EncodedAll(zs[1..])
  }

  // ---- the arithmetic of the validator; masks are written as remainders and quotients

  predicate IsContinuation(b: byte) {
    b / 0x40 == 2
  }

  function Bits(b: byte, m: nat): nat
    requires m > 0
  {
    b % m
  }

  function Two(a: byte, b: byte): nat {
    Bits(a, 0x20) * 0x40 + Bits(b, 0x40)
  }

  function Three(a: byte, b: byte, c: byte): nat {
    Bits(a, 0x10) * 0x1000 + Bits(b, 0x40) * 0x40 + Bits(c, 0x40)
  }

  function Four(a: byte, b: byte, c: byte, d: byte): nat {
    Bits(a, 8) * 0x40000 + Bits(b, 0x40) * 0x1000 + Bits(c, 0x40) * 0x40 + Bits(d, 0x40)
  }

  datatype Reading = Malformed | Reading(z: nat, size: nat)

  /** The scalar value whose encoding starts at `i`. */
  function ReadAt(s: seq<byte>, i: nat): (r: Reading)
    requires i < |s|
    ensures r.Reading? ==> 1 <= r.size <= 4 && i + r.size <= |s|
  {
    var b := s[i];
    if b <= 0x7F then Reading(b, 1)
    else if b / 0x20 == 6 then
      if i + 2 > |s| || !IsContinuation(s[i + 1]) || Two(b, s[i + 1]) < 0x80 then Malformed
      else Reading(Two(b, s[i + 1]), 2)
    else if b / 0x10 == 14 then
      if i + 3 > |s| || !IsContinuation(s[i + 1]) || !IsContinuation(s[i + 2]) then Malformed else
      var z := Three(b, s[i + 1], s[i + 2]);
      if z < 0x800 || 0xD800 <= z <= 0xDFFF then Malformed else Reading(z, 3)
    else if b / 8 == 30 then
      if i + 4 > |s| then Malformed else
      if !IsContinuation(s[i + 1]) || !IsContinuation(s[i + 2]) || !IsContinuation(s[i + 3]) then Malformed else
      var z := Four(b, s[i + 1], s[i + 2], s[i + 3]);
      if z < 0x10000 || z > 0x10FFFF then Malformed else Reading(z, 4)
    else Malformed
  }

  lemma TwoEncodes(a: byte, b: byte)
    requires a / 0x20 == 6 && IsContinuation(b)
    ensures Two(a, b) < 0x800 && 0xC0 + Two(a, b) / 0x40 == a && Continuation(Two(a, b)) == b
  {
  }

  lemma {:induction false} ThreeEncodes(a: byte, b: byte, c: byte)
    requires a / 0x10 == 14 && IsContinuation(b) && IsContinuation(c)
    ensures var z := Three(a, b, c);
            z < 0x10000 && 0xE0 + z / 0x1000 == a && Continuation(z / 0x40) == b && Continuation(z) == c
  {
    var h, m, l := Bits(a, 0x10), Bits(b, 0x40), Bits(c, 0x40);
    assert Three(a, b, c) == (h * 0x40 + m) * 0x40 + l;
    assert Three(a, b, c) / 0x40 == h * 0x40 + m;
  }

  lemma {:induction false} FourEncodes(a: byte, b: byte, c: byte, d: byte)
    requires a / 8 == 30 && IsContinuation(b) && IsContinuation(c) && IsContinuation(d)
    ensures var z := Four(a, b, c, d);
            0xF0 + z / 0x40000 == a && Continuation(z / 0x1000) == b && Continuation(z / 0x40) == c
                && Continuation(z) == d
  {
    var h, m, l, k := Bits(a, 8), Bits(b, 0x40), Bits(c, 0x40), Bits(d, 0x40);
    var z := Four(a, b, c, d);
    assert z == ((h * 0x40 + m) * 0x40 + l) * 0x40 + k;
    assert z / 0x40 == (h * 0x40 + m) * 0x40 + l;
    assert z / 0x1000 == h * 0x40 + m;
  }

  /** What is read is a scalar value, and its encoding is what is there. */
  lemma {:induction false} ReadIsEncoded(s: seq<byte>, i: nat)
    requires i < |s| && ReadAt(s, i).Reading?
    ensures var r := ReadAt(s, i);
            IsScalarValue(r.z) && Encoded(r.z) == s[i..i + r.size]
  {
    hide Continuation, Two, Three, Four;
    var b := s[i];
    if b <= 0x7F {
    } else if b / 0x20 == 6 {
      TwoEncodes(b, s[i + 1]);
      assert s[i..i + 2] == [b, s[i + 1]];
    } else if b / 0x10 == 14 {
      ThreeEncodes(b, s[i + 1], s[i + 2]);
      assert s[i..i + 3] == [b, s[i + 1], s[i + 2]];
    } else {
      FourEncodes(b, s[i + 1], s[i + 2], s[i + 3]);
      assert s[i..i + 4] == [b, s[i + 1], s[i + 2], s[i + 3]];
    }
  }

  lemma TwoDecodes(z: nat)
    requires 0x80 <= z < 0x800
    ensures var e := Encoded(z); e[0] / 0x20 == 6 && IsContinuation(e[1]) && Two(e[0], e[1]) == z
  {
  }

  lemma {:induction false} ThreeDecodes(z: nat)
    requires 0x800 <= z < 0x10000 && IsScalarValue(z)
    ensures var e := Encoded(z);
            e[0] / 0x10 == 14 && IsContinuation(e[1]) && IsContinuation(e[2]) && Three(e[0], e[1], e[2]) == z
  {
    assert z == z / 0x40 * 0x40 + z % 0x40 && z / 0x40 == z / 0x1000 * 0x40 + z / 0x40 % 0x40;
  }

  lemma {:induction false} FourDecodes(z: nat)
    requires 0x10000 <= z && IsScalarValue(z)
    ensures var e := Encoded(z);
            && e[0] / 8 == 30 && IsContinuation(e[1]) && IsContinuation(e[2]) && IsContinuation(e[3])
            && Four(e[0], e[1], e[2], e[3]) == z
  {
    assert z == z / 0x40 * 0x40 + z % 0x40 && z / 0x40 == z / 0x1000 * 0x40 + z / 0x40 % 0x40;
    assert z / 0x1000 == z / 0x40000 * 0x40 + z / 0x1000 % 0x40;
  }

  /** Every encoding is read back, whatever surrounds it. */
  lemma {:induction false} EncodedIsRead(z: nat, s: seq<byte>, i: nat)
    requires IsScalarValue(z) && i + |Encoded(z)| <= |s| && s[i..i + |Encoded(z)|] == Encoded(z)
    ensures ReadAt(s, i) == Reading(z, |Encoded(z)|)
  {
    hide Two, Three, Four;
    var e := Encoded(z);
    var part := s[i..i + |e|];
    assert forall k :: 0 <= k < |e| ==> part[k] == s[i + k];
    if z < 0x80 {
    } else if z < 0x800 {
      TwoDecodes(z);
    } else if z < 0x10000 {
      ThreeDecodes(z);
    } else {
      FourDecodes(z);
    }
  }

  /** Scalar values, none of them zero unless that is allowed, are encoded from `i` to the end. */
  predicate WellFormed(s: seq<byte>, i: nat, allowNull: bool)
    decreases |s| - i
  {
    i >= |s| ||
    var r := ReadAt(s, i);
    r.Reading? && (allowNull || r.z != 0) && WellFormed(s, i + r.size, allowNull)
  }

  lemma {:induction false} WellFormedIsEncoded(s: seq<byte>, i: nat, allowNull: bool) returns (zs: seq<nat>)
    requires i <= |s| && WellFormed(s, i, allowNull)
    ensures AllScalar(zs) && EncodedAll(zs) == s[i..] && (allowNull || 0 !in zs)
    decreases |s| - i
  {
    hide Encoded, ReadAt;
    if i == |s| {
      zs := [];
    } else {
      var r := ReadAt(s, i);
      ReadIsEncoded(s, i);
      var rest := WellFormedIsEncoded(s, i + r.size, allowNull);
      zs := [r.z] + rest;
      assert zs[1..] == rest;
      assert s[i..] == s[i..i + r.size] + s[i + r.size..];
    }
  }

  lemma {:induction false} EncodedIsWellFormed(zs: seq<nat>, s: seq<byte>, i: nat, allowNull: bool)
    requires i <= |s| && AllScalar(zs) && EncodedAll(zs) == s[i..] && (allowNull || 0 !in zs)
    ensures WellFormed(s, i, allowNull)
    decreases |zs|
  {
    hide Encoded, ReadAt;
    if zs != [] {
      var e := Encoded(zs[0]);
      assert s[i..] == e + EncodedAll(zs[1..]);
      assert s[i..][..|e|] == s[i..i + |e|] && s[i..][|e|..] == s[i + |e|..];
      EncodedIsRead(zs[0], s, i);
      EncodedIsWellFormed(zs[1..], s, i + |e|, allowNull);
    } else {
      assert |s[i..]| == 0;
    }
  }

  /** The sequence of scalar values is determined by the bytes. */
  lemma {:induction false} DecodingUnique(zs: seq<nat>, ys: seq<nat>)
    requires AllScalar(zs) && AllScalar(ys) && EncodedAll(zs) == EncodedAll(ys)
    ensures zs == ys
    decreases |zs|
  {
    hide Encoded, ReadAt;
    var s := EncodedAll(zs);
    if zs == [] {
      assert ys == [];
    } else if ys == [] {
      assert false;
    } else {
      var e, f := Encoded(zs[0]), Encoded(ys[0]);
      assert s[..|e|] == e && s[|e|..] == EncodedAll(zs[1..]);
      assert s[..|f|] == f && s[|f|..] == EncodedAll(ys[1..]);
      assert s[0..|e|] == s[..|e|] && s[0..|f|] == s[..|f|];
      EncodedIsRead(zs[0], s, 0);
      EncodedIsRead(ys[0], s, 0);
      DecodingUnique(zs[1..], ys[1..]);
      assert zs == [zs[0]] + zs[1..] && ys == [ys[0]] + ys[1..];
    }
  }

  /**
   * `mpack_utf8_check_impl`: accepts exactly the encodings of sequences of scalar values, without zero if that is not
   * allowed.
   */
  method Check(s: seq<byte>, allowNull: bool) returns (ok: bool)
    ensures ok <==> exists zs :: AllScalar(zs) && EncodedAll(zs) == s && (allowNull || 0 !in zs)
  {
    ok := CheckLoop(s, allowNull);
    assert s[0..] == s;
    if ok { ghost var zs := WellFormedIsEncoded(s, 0, allowNull); }
    forall zs | AllScalar(zs) && EncodedAll(zs) == s && (allowNull || 0 !in zs) ensures WellFormed(s, 0, allowNull) {
      EncodedIsWellFormed(zs, s, 0, allowNull);
    }
  }

  method CheckLoop(s: seq<byte>, allowNull: bool) returns (ok: bool)
    ensures ok == WellFormed(s, 0, allowNull)
  {
    hide Two, Three, Four, IsContinuation;
    var i, count: nat := 0, |s|;
    while count > 0
      invariant i + count == |s| && WellFormed(s, 0, allowNull) == WellFormed(s, i, allowNull)
      decreases count
    {
      var lead := s[i];
      if !allowNull && lead == 0 { return false; }
      if lead <= 0x7F {
        i, count := i + 1, count - 1;
      } else if lead / 0x20 == 6 {
        if count < 2 { return false; }
        var cont := s[i + 1];
        if !IsContinuation(cont) { return false; }
        i, count := i + 2, count - 2;
        var z := Two(lead, cont);
        if z < 0x80 { return false; }
      } else if lead / 0x10 == 14 {
        if count < 3 { return false; }
        var cont1 := s[i + 1];
        if !IsContinuation(cont1) { return false; }
        var cont2 := s[i + 2];
        if !IsContinuation(cont2) { return false; }
        i, count := i + 3, count - 3;
        var z := Three(lead, cont1, cont2);
        if z < 0x800 { return false; }
        if 0xD800 <= z <= 0xDFFF { return false; }
      } else if lead / 8 == 30 {
        if count < 4 { return false; }
        var cont1 := s[i + 1];
        if !IsContinuation(cont1) { return false; }
        var cont2 := s[i + 2];
        if !IsContinuation(cont2) { return false; }
        var cont3 := s[i + 3];
        if !IsContinuation(cont3) { return false; }
        i, count := i + 4, count - 4;
        var z := Four(lead, cont1, cont2, cont3);
        if z < 0x10000 { return false; }
        if z > 0x10FFFF { return false; }
      } else {
        return false;
      }
    }
    return true;
  }
}

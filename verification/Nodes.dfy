/**
 Access to the nodes of a parsed tree. A tree has a sticky error: once it is set,
 every access yields the nil node, which denotes nil.
 */
module Nodes {
  import opened MsgPack
  import opened ParseState
  import opened TreeParser

  /** A node: the tree's own nil node, or one of the parsed nodes. */
  datatype Ref = NilNode | At(a: nat)

  /** What a node denotes. */
  ghost predicate Denotes(t: Tree, r: Ref, v: Value)
    reads t
  {
    if r.NilNode? then v == Nil else Represents(t.nodes, t.data, r.a, v)
  }

  /** The type and size of a node. */
  function TagOf(t: Tree, r: Ref): Tag
    reads t
    requires r.At? ==> r.a < |t.nodes| && t.nodes[r.a].Node?
  {
    if r.NilNode? then NilTag else t.nodes[r.a].tag
  }

  predicate SameKind(tag: Tag, v: Value) {
    match v
    case Nil => tag.NilTag?
    case Bool(_) => tag.BoolTag?
    case UInt(_) => tag.UIntTag?
    case Int(_) => tag.IntTag?
    case Float(_) => tag.FloatTag?
    case Double(_) => tag.DoubleTag?
    case Str(s) => tag == StrTag(|s|)
    case Bin(s) => tag == BinTag(|s|)
    case Array(es) => tag == ArrayTag(|es|)
    case Map(kvs) => tag.MapTag? && 2 * tag.count == |kvs|
  }

  lemma DenotesKind(t: Tree, r: Ref, v: Value)
    requires Denotes(t, r, v)
    ensures r.At? ==> r.a < |t.nodes| && t.nodes[r.a].Node?
    ensures SameKind(TagOf(t, r), v)
  {
  }

  /** The data of a str or bin node. */
  method DataOf(t: Tree, r: Ref, ghost v: Value) returns (s: seq<byte>)
    requires Denotes(t, r, v) && (v.Str? || v.Bin?)
    ensures s == v.s
  {
    s := RawOf(t.nodes[r.a], t.data);
  }

  /** `mpack_tree_root`. */
  method Root(t: Tree) returns (r: Ref)
    requires t.Valid()
    modifies t`error
    ensures t.Valid() && (old(t.error) != Ok ==> t.error == old(t.error) && r == NilNode)
    ensures old(t.error) == Ok && t.status == Parsed ==> t.error == Ok && r == At(0)
    ensures old(t.error) == Ok && t.status != Parsed ==> t.error == Bug && r == NilNode
  {
    if t.error != Ok { return NilNode; }
    if t.status != Parsed {
      t.FlagError(Bug);
      return NilNode;
    }
    return At(0);
  }

  /** `mpack_node_array_at`. */
  method ArrayAt(t: Tree, r: Ref, i: nat, ghost v: Value) returns (c: Ref)
    requires Denotes(t, r, v)
    modifies t`error
    ensures if old(t.error) == Ok && v.Array? && i < |v.elems|
            then t.error == Ok && c.At? && Denotes(t, c, v.elems[i])
            else c == NilNode && t.error == if old(t.error) != Ok then old(t.error) else if v.Array? then Data else Type
  {
    DenotesKind(t, r, v);
    if t.error != Ok { return NilNode; }
    if !TagOf(t, r).ArrayTag? {
      t.FlagError(Type);
      return NilNode;
    }
    if i >= TagOf(t, r).count {
      t.FlagError(Data);
      return NilNode;
    }
    return At(t.nodes[r.a].link + i);
  }

  // ---- map lookup

  datatype Lookup = Absent | Twice | Unique(value: Value)

  function KeyAt(kvs: seq<Value>, i: nat): Value
    requires 2 * i + 1 < |kvs|
  {
    kvs[2 * i]
  }

  function ValueAt(kvs: seq<Value>, i: nat): Value
    requires 2 * i + 1 < |kvs|
  {
    kvs[2 * i + 1]
  }

  /** The values of keys that are the string `key`, among the first `n` pairs. */
  function Matching(kvs: seq<Value>, key: seq<byte>, n: nat): seq<Value>
    requires 2 * n <= |kvs|
  {
    if n == 0 then [] else
    Matching(kvs, key, n - 1) + if KeyAt(kvs, n - 1) == Str(key) then [ValueAt(kvs, n - 1)] else []
  }

  /** What a key stands for in a map, if it occurs exactly once. */
  function LookedUp(kvs: seq<Value>, key: seq<byte>): Lookup {
    var m := Matching(kvs, key, |kvs| / 2);
    if m == [] then Absent else if |m| > 1 then Twice else Unique(m[0])
  }

  lemma {:induction false} MatchingGrows(kvs: seq<Value>, key: seq<byte>, m: nat, n: nat)
    requires m <= n && 2 * n <= |kvs|
    ensures |Matching(kvs, key, m)| <= |Matching(kvs, key, n)|
  {
    if m < n { MatchingGrows(kvs, key, m, n - 1); }
  }

  /** Where the key occurs among the first `n` pairs. */
  lemma {:induction false} Occurrences(kvs: seq<Value>, key: seq<byte>, n: nat) returns (at: seq<nat>)
    requires 2 * n <= |kvs|
    ensures |at| == |Matching(kvs, key, n)|
    ensures forall t: nat :: t < |at| ==>
              at[t] < n && KeyAt(kvs, at[t]) == Str(key) && ValueAt(kvs, at[t]) == Matching(kvs, key, n)[t]
    ensures forall s: nat, t: nat :: s < t < |at| ==> at[s] < at[t]
    ensures forall i: nat :: i < n && KeyAt(kvs, i) == Str(key) ==> i in at
  {
    hide Matching, KeyAt, ValueAt;
    MatchingStep(kvs, key, n);
    at := [];
    if n > 0 {
      var before := Occurrences(kvs, key, n - 1);
      at := before;
      if KeyAt(kvs, n - 1) == Str(key) {
        at := before + [n - 1];
        assert at[..|before|] == before && n - 1 in at;
        assert forall i <- before :: i in at;
      }
    }
  }

  lemma MatchingStep(kvs: seq<Value>, key: seq<byte>, n: nat)
    requires 2 * n <= |kvs|
    ensures Matching(kvs, key, n) ==
              if n == 0 then [] else
              Matching(kvs, key, n - 1) + if KeyAt(kvs, n - 1) == Str(key) then [ValueAt(kvs, n - 1)] else []
  {
  }

  /** The `i`-th key is the string `key`. */
  predicate IsKey(kvs: seq<Value>, key: seq<byte>, i: nat) {
    2 * i + 1 < |kvs| && kvs[2 * i] == Str(key)
  }

  /** A key is absent, occurs twice or more often, or occurs once and stands for the value next to it. */
  lemma {:induction false} LookedUpMeans(kvs: seq<Value>, key: seq<byte>)
    ensures LookedUp(kvs, key).Absent? <==> forall i: nat :: !IsKey(kvs, key, i)
    ensures LookedUp(kvs, key).Twice? <==> exists i: nat, j: nat :: i < j && IsKey(kvs, key, i) && IsKey(kvs, key, j)
    ensures LookedUp(kvs, key).Unique? ==>
              exists i: nat :: IsKey(kvs, key, i) && LookedUp(kvs, key).value == kvs[2 * i + 1] &&
                               forall j: nat :: IsKey(kvs, key, j) ==> j == i
  {
    var at := Occurrences(kvs, key, |kvs| / 2);
    forall i: nat ensures IsKey(kvs, key, i) <==> i in at {
      if IsKey(kvs, key, i) { assert KeyAt(kvs, i) == Str(key); }
      if i in at {
        var t :| 0 <= t < |at| && at[t] == i;
        assert KeyAt(kvs, at[t]) == Str(key);
      }
    }
    if |at| > 1 {
      assert at[0] < at[1] && at[0] in at && at[1] in at;
    } else if |at| == 1 {
      assert at[0] in at && ValueAt(kvs, at[0]) == Matching(kvs, key, |kvs| / 2)[0];
    }
  }

  /** A key with its value in the map is unique exactly if no other key is equal. */
  lemma {:induction false} LookedUpUnique(kvs: seq<Value>, key: seq<byte>, i: nat)
    requires 2 * i + 1 < |kvs| && KeyAt(kvs, i) == Str(key)
    requires forall j: nat :: 2 * j + 1 < |kvs| && j != i ==> KeyAt(kvs, j) != Str(key)
    ensures LookedUp(kvs, key) == Unique(ValueAt(kvs, i))
  {
    MatchingOne(kvs, key, i, |kvs| / 2);
  }

  lemma {:induction false} MatchingOne(kvs: seq<Value>, key: seq<byte>, i: nat, n: nat)
    requires 2 * n <= |kvs| && 2 * i + 1 < |kvs| && KeyAt(kvs, i) == Str(key)
    requires forall j: nat :: 2 * j + 1 < |kvs| && j != i ==> KeyAt(kvs, j) != Str(key)
    ensures Matching(kvs, key, n) == if i < n then [ValueAt(kvs, i)] else []
  {
    if n > 0 {
      MatchingOne(kvs, key, i, n - 1);
    }
  }

  /** `mpack_node_map_cstr`: a missing or repeated key is an error. */
  method MapCstr(t: Tree, r: Ref, key: seq<byte>, ghost v: Value) returns (c: Ref)
    requires Denotes(t, r, v)
    modifies t`error
    ensures if old(t.error) == Ok && v.Map? && LookedUp(v.kvs, key).Unique?
            then t.error == Ok && c.At? && Denotes(t, c, LookedUp(v.kvs, key).value)
            else c == NilNode && t.error == if old(t.error) != Ok then old(t.error) else if v.Map? then Data else Type
  {
    c := MapStr(t, r, key, v);
    if c == NilNode && t.error == Ok { t.FlagError(Data); }
  }

  lemma {:induction false} PairDenoted(t: Tree, r: Ref, i: nat, v: Value)
    requires r.At? && Denotes(t, r, v) && v.Map? && 2 * i + 1 < |v.kvs|
    ensures r.a < |t.nodes| && t.nodes[r.a].Node?
    ensures var first := t.nodes[r.a].link;
            Denotes(t, At(first + 2 * i), KeyAt(v.kvs, i)) && Denotes(t, At(first + 2 * i + 1), ValueAt(v.kvs, i))
  {
    var j: nat := 2 * i + 1;
    assert KeyAt(v.kvs, i) == v.kvs[2 * i] && ValueAt(v.kvs, i) == v.kvs[j];
  }

  /** `mpack_node_map_str_impl`; the nil node stands for its null pointer. */
  method MapStr(t: Tree, r: Ref, key: seq<byte>, ghost v: Value) returns (found: Ref)
    requires Denotes(t, r, v)
    modifies t`error
    ensures old(t.error) != Ok ==> found == NilNode && t.error == old(t.error)
    ensures old(t.error) == Ok && !v.Map? ==> found == NilNode && t.error == Type
    ensures old(t.error) == Ok && v.Map? ==>
              match LookedUp(v.kvs, key)
              case Absent => found == NilNode && t.error == Ok
              case Twice => found == NilNode && t.error == Data
              case Unique(u) => found.At? && Denotes(t, found, u) && t.error == Ok
  {
    hide Represents;
    DenotesKind(t, r, v);
    if t.error != Ok { return NilNode; }
    if !TagOf(t, r).MapTag? {
      t.FlagError(Type);
      return NilNode;
    }
    found := NilNode;
    var count := TagOf(t, r).count;
    var first := t.nodes[r.a].link;
    for i := 0 to count
      invariant t.error == Ok
      invariant var m := Matching(v.kvs, key, i);
                if m == [] then found == NilNode else |m| == 1 && found.At? && Denotes(t, found, m[0])
    {
      var k := At(first + 2 * i);
      PairDenoted(t, r, i, v);
      DenotesKind(t, k, v.kvs[2 * i]);
      if TagOf(t, k) == StrTag(|key|) {
        var s := DataOf(t, k, v.kvs[2 * i]);
        if s == key {
          if found.At? {
            t.FlagError(Data);
            MatchingGrows(v.kvs, key, i + 1, count);
            return NilNode;
          }
          found := At(first + 2 * i + 1);
        }
      }
    }
  }

  // ---- strings

  /** A C string in a buffer of `n` bytes: shorter than the buffer, and without a zero byte. */
  predicate FitsCstr(s: seq<byte>, n: nat) {
    |s| < n && 0 !in s
  }

  /** `mpack_str_check_no_null`. */
  method CheckNoNull(s: seq<byte>) returns (ok: bool)
    ensures ok <==> 0 !in s
  {
    for i := 0 to |s|
      invariant 0 !in s[..i]
    {
      if s[i] == 0 { return false; }
    }
    return true;
  }

  /** `mpack_node_copy_cstr`. */
  method CopyCstr(t: Tree, r: Ref, buffer: array<byte>, size: nat, ghost v: Value)
    requires Denotes(t, r, v) && 1 <= size <= buffer.Length
    modifies t`error, buffer
    ensures if old(t.error) == Ok && v.Str? && FitsCstr(v.s, size)
            then t.error == Ok && buffer[..|v.s| + 1] == v.s + [0] && buffer[|v.s| + 1..] == old(buffer[|v.s| + 1..])
            else
              && buffer[0] == 0 && buffer[1..] == old(buffer[1..])
              && t.error == if old(t.error) != Ok then old(t.error)
                            else if v.Str? && |v.s| >= size then TooBig else Type
  {
    DenotesKind(t, r, v);
    if t.error != Ok {
      buffer[0] := 0;
      return;
    }
    if !TagOf(t, r).StrTag? {
      buffer[0] := 0;
      t.FlagError(Type);
      return;
    }
    if TagOf(t, r).len > size - 1 {
      buffer[0] := 0;
      t.FlagError(TooBig);
      return;
    }
    var s := DataOf(t, r, v);
    var clean := CheckNoNull(s);
    if !clean {
      buffer[0] := 0;
      t.FlagError(Type);
      return;
    }
    forall i | 0 <= i < |s| { buffer[i] := s[i]; }
    buffer[|s|] := 0;
    assert buffer[..|s|] == s;
  }
}

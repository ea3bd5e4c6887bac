/**
 khash: an open-addressing table over three parallel arrays, with tombstones and
 an in-place rehash. The table refines a finite map (`Model`).
 Masking with `n_buckets - 1` is written `% nBuckets`; the two agree because the
 bucket count is a power of two. Allocation always succeeds.
 */
module KHash {
  import opened Probing
  import opened BucketFlags
  import opened Layout
  import opened Rehashing

  /** `(khint_t)(n * 0.77 + 0.5)`, in exact arithmetic. */
  function UpperBound(n: nat): nat {
    (77 * n + 50) / 100
  }

  /** It is the nearest number to 0.77 n. */
  lemma UpperBoundNearest(n: nat)
    ensures -50 < 100 * UpperBound(n) - 77 * n <= 50
    ensures UpperBound(4) == 3 && UpperBound(8) == 6 && UpperBound(16) == 12 && UpperBound(32) == 25
  {
  }

  /** The load limit leaves an empty bucket, and doubling a table makes room. */
  lemma LoadLimits(n: nat)
    requires n >= 4
    ensures 0 < UpperBound(n) < n < UpperBound(2 * n)
    ensures n / 2 < UpperBound(n)
  {
  }

  /** The size `kh_resize` settles on. */
  function TableSize(requested: nat): (n: nat)
    ensures IsPow2(n) && n >= 4 && requested <= n
  {
    assert IsPow2(4) by { assert IsPow2(2); }
    if requested == 0 || RoundUp(requested) < 4 then 4 else RoundUp(requested)
  }

  /** It is what the macro yields for the requested word, or four; requests above 2^31 are outside this model. */
  lemma {:induction false} TableSizeOfWord(requested: bv32)
    requires requested <= 0x8000_0000
    ensures var r := Number(KRoundUp32(requested)); TableSize(Number(requested)) == if r < 4 then 4 else r
  {
    hide RoundUp, KRoundUp32, Number;
    KRoundUp32Rounds(requested);
    if requested == 0 { NumberOfZero(); }
  }

  lemma NumberOfZero()
    ensures Number(0) == 0
  {
  }

  lemma SameSize(n: nat)
    requires IsPow2(n) && n >= 4
    ensures TableSize(n - 1) == n
  {
    hide RoundUp;
    RoundUpUnique(n - 1, n);
  }

  lemma DoubleSize(n: nat)
    requires IsPow2(n) && n >= 4
    ensures TableSize(n + 1) == 2 * n
  {
    hide RoundUp;
    RoundUpUnique(n + 1, 2 * n);
  }

  /** The size `kh_put` asks for when the load limit is reached. */
  function Request(n: nat, size: nat): nat {
    if n > 2 * size then n - 1 else n + 1
  }

  lemma RequestHelps(n: nat, size: nat)
    requires n == 0 || (IsPow2(n) && n >= 4)
    requires size <= (if n == 0 then 0 else UpperBound(n))
    ensures TableSize(Request(n, size)) == (if n == 0 then 4 else if n > 2 * size then n else 2 * n)
    ensures size < UpperBound(TableSize(Request(n, size)))
  {
    if n == 0 {
      assert TableSize(1) == 4;
    } else {
      hide TableSize;
      LoadLimits(n);
      SameSize(n);
      DoubleSize(n);
    }
  }

  class Table<K(0,==), V(0)> {
    const hash: K -> nat
    var nBuckets: nat
    var size: nat
    var nOccupied: nat
    var upperBound: nat
    var flags: FlagWords
    var keys: array<K>
    var vals: array<V>
    ghost var dist: map<K, nat>

    ghost predicate Valid()
      reads this, keys, vals, flags, flags.words
    {
      && flags.Valid() && flags.count == nBuckets == keys.Length == vals.Length
      && keys as object != vals && keys as object != flags.words && vals as object != flags.words
      && (nBuckets == 0 || (IsPow2(nBuckets) && nBuckets >= 4))
      && upperBound == (if nBuckets == 0 then 0 else UpperBound(nBuckets))
      && Placed(hash, flags.slots, keys[..], dist)
      && size == |LiveSet(flags.slots)|
      && nOccupied == |FilledSet(flags.slots)| <= upperBound
    }

    ghost function Repr(): set<object>
      reads this
    {
      {this, keys, vals, flags, flags.words}
    }

    /** The finite map the table stands for. */
    ghost function Model(): map<K, V>
      reads this, keys, vals, flags, flags.words
      requires Valid()
    {
      Values(hash, vals[..], dist, nBuckets)
    }

    /** `kh_init`. */
    constructor (hash: K -> nat)
      ensures Valid() && fresh(Repr()) && Model() == map[] && nBuckets == 0 && this.hash == hash
    {
      this.hash := hash;
      nBuckets, size, nOccupied, upperBound := 0, 0, 0, 0;
      flags := new FlagWords(0);
      keys, vals := new K[0], new V[0];
      dist := map[];
      new;
      AllVacant(0);
    }

    /** `kh_get`: the bucket of a stored key, `nBuckets` for any other key. */
    method Get(key: K) returns (x: nat)
      requires Valid()
      ensures x < nBuckets <==> key in Model()
      ensures x <= nBuckets
      ensures key in Model() ==> flags.slots[x] == Live && keys[x] == key && vals[x] == Model()[key]
    {
      hide Passed, Stops, Probe, IsPow2, FilledSet, LiveSet, Packs, Reachable;
      if nBuckets == 0 { return 0; }
      LoadLimits(nBuckets);
      ghost var slots, ks := flags.slots, keys[..];
      var i := hash(key) % nBuckets;
      var last, step := i, 0;
      PassedStart(hash, slots, ks, key);
      while !flags.IsEmpty(i) && (flags.IsDel(i) || keys[i] != key)
        invariant step < nBuckets && i == Probe(hash(key), step, nBuckets)
        invariant Passed(hash, slots, ks, key, step)
        decreases nBuckets - step
      {
        PassedStep(hash, slots, ks, key, step);
        i, step := (i + (step + 1)) % nBuckets, step + 1;
        WalkStays(hash, slots, ks, key, step);
        // The `i == last` exit of the source: not reached while an empty bucket exists.
        if i == last { assert false; }
      }
      if flags.IsEither(i) {
        AbsentAtEmpty(hash, slots, ks, dist, key, step);
        x := nBuckets;
      } else {
        x := i;
      }
    }

    /** The size field counts the entries of the map. */
    lemma {:induction false} SizeIsCount()
      requires Valid()
      ensures size == |Model()|
    {
      ModelSize(hash, flags.slots, keys[..], vals[..], dist);
    }

    /** `kh_del`: turns the bucket of a stored key into a tombstone; any other bucket number is ignored. */
    method Del(x: nat)
      requires Valid() && x <= nBuckets
      modifies this, flags, flags.words
      ensures Valid() && unchanged(this`keys, this`vals, this`flags, this`nBuckets)
      ensures Model() == old(if x < nBuckets && flags.slots[x] == Live then Model() - {keys[x]} else Model())
    {
      hide Probe, Reachable, IsPow2, Packs;
      if x != nBuckets && !flags.IsEither(x) {
        ghost var k, slots := keys[x], flags.slots;
        RemoveOld(hash, slots, keys[..], dist, k);
        ReleaseCounts(slots, x);
        flags.SetIsDelTrue(x);
        size := size - 1;
        dist := dist - {k};
      }
    }

    /** `kh_clear`. */
    method Clear()
      requires Valid()
      modifies this, flags, flags.words
      ensures Valid() && Model() == map[] && unchanged(this`keys, this`vals, this`flags, this`nBuckets)
    {
      hide Packs, IsPow2, Probe, LiveSet, FilledSet;
      flags.Clear();
      size, nOccupied := 0, 0;
      dist := map[];
      AllVacant(nBuckets);
    }

    /**
     * The walk of `kh_put`: the bucket of a stored key; else the last tombstone of the key's path before its first
     * empty bucket, which is at distance `e`, or that bucket if there is none.
     */
    method FindSlot(key: K) returns (x: nat, ghost d: nat, ghost e: nat)
      requires Valid() && nBuckets > 0
      ensures d < nBuckets && x == Probe(hash(key), d, nBuckets)
      ensures flags.slots[x] == Live <==> key in dist
      ensures key in dist ==> d == dist[key] && keys[x] == key
      ensures key !in dist ==> FirstVacant(flags.slots, hash(key), e) && Takes(flags.slots, hash(key), e, d)
      ensures key !in dist ==> FullUpTo(flags.slots, hash(key), d)
    {
      hide Passed, Probe, IsPow2, FilledSet, LiveSet, Packs, Reachable;
      ghost var slots, ks := flags.slots, keys[..];
      LoadLimits(nBuckets);
      var site := nBuckets;
      x := nBuckets;
      var i := hash(key) % nBuckets;
      PassedStart(hash, slots, ks, key);
      d, e := 0, 0;
      if flags.IsEmpty(i) {
        x := i;
        AbsentAtEmpty(hash, slots, ks, dist, key, 0);
      } else {
        var last, step := i, 0;
        ghost var siteAt := 0;
        while !flags.IsEmpty(i) && (flags.IsDel(i) || keys[i] != key)
          invariant step < nBuckets && i == Probe(hash(key), step, nBuckets)
          invariant Passed(hash, slots, ks, key, step) && x == nBuckets
          invariant site != nBuckets ==>
                      siteAt < step && site == Probe(hash(key), siteAt, nBuckets) && slots[site] == Deleted
          invariant forall j: nat :: (if site != nBuckets then siteAt + 1 else 0) <= j < step ==>
                      slots[Probe(hash(key), j, nBuckets)] != Deleted
          decreases nBuckets - step
        {
          if flags.IsDel(i) { site, siteAt := i, step; }
          PassedStep(hash, slots, ks, key, step);
          i, step := (i + (step + 1)) % nBuckets, step + 1;
          WalkStays(hash, slots, ks, key, step);
          // The `x = site; break` exit of the source: not reached while an empty bucket exists.
          if i == last { assert false; }
        }
        if x == nBuckets {
          if flags.IsEmpty(i) && site != nBuckets { x, d := site, siteAt; } else { x, d := i, step; }
        }
        WalkOutcome(hash, slots, ks, dist, key, step);
        e := step;
      }
    }

    /** The tail of `kh_put`: claims the bucket found for the key. */
    method Claim(key: K, x: nat, ghost d: nat) returns (ret: int)
      requires Valid() && nBuckets > 0 && nOccupied < upperBound
      requires d < nBuckets && x == Probe(hash(key), d, nBuckets)
      requires flags.slots[x] == Live <==> key in dist
      requires key in dist ==> d == dist[key] && keys[x] == key
      requires key !in dist ==> FullUpTo(flags.slots, hash(key), d)
      modifies this, keys, flags, flags.words
      ensures Valid() && unchanged(this`keys, this`vals, this`flags, this`nBuckets)
      ensures x < nBuckets && flags.slots[x] == Live && keys[x] == key && key in dist && dist[key] == d
      ensures Model() == old(Model())[key := vals[x]]
      ensures ret == (if old(key in dist) then 0 else if old(flags.slots[x]) == Vacant then 1 else 2)
      ensures flags.slots == old(flags.slots)[x := Live] && keys[..] == old(keys[..])[x := key]
      ensures size == old(size) + (if ret > 0 then 1 else 0)
      ensures nOccupied == old(nOccupied) + if ret == 1 then 1 else 0
    {
      hide Placed, Probe, IsPow2, Packs, LiveSet, FilledSet, Values;
      ghost var slots, ks := flags.slots, keys[..];
      ValuesInsert(hash, vals[..], dist, nBuckets, key, d);
      if flags.IsEither(x) {
        PlaceNew(hash, slots, ks, dist, key, d);
        ClaimCounts(slots, x);
        if flags.IsEmpty(x) {
          ret, size, nOccupied := 1, size + 1, nOccupied + 1;
        } else {
          ret, size := 2, size + 1;
        }
        keys[x] := key;
        flags.SetIsBothFalse(x);
        dist := dist[key := d];
        assert keys[..] == ks[x := key];
      } else {
        assert dist == dist[key := d];
        ret := 0;
      }
    }

    // ---- kh_resize

    /** The new bucket states `nf` share no memory with the table. */
    ghost predicate Apart(nf: FlagWords)
      reads this, flags, nf
    {
      && flags != nf && flags.words != nf.words
      && keys as object != vals
      && keys as object !in {flags.words, nf.words} && vals as object !in {flags.words, nf.words}
    }

    ghost predicate Moves(nf: FlagWords, rest: map<K, nat>, placed: map<K, nat>, carried: set<K>, orig: map<K, V>)
      reads this, keys, vals, flags, flags.words, nf, nf.words
    {
      && Apart(nf) && flags.Valid() && nf.Valid() && IsPow2(nf.count)
      && flags.count == nBuckets <= keys.Length == vals.Length && nf.count <= keys.Length
      && |orig| < nf.count
      && Moving(hash, flags.slots, nf.slots, keys[..], vals[..], rest, placed, carried, orig)
    }

    /** The walk of a carried key over the new states: the first empty bucket of its path. */
    method FindVacant(nf: FlagWords, key: K) returns (i: nat, ghost d: nat)
      requires nf.Valid() && IsPow2(nf.count) && |FilledSet(nf.slots)| < nf.count
      ensures d < nf.count && i == Probe(hash(key), d, nf.count) && nf.slots[i] == Vacant
      ensures FullUpTo(nf.slots, hash(key), d)
    {
      hide FullUpTo, Probe, IsPow2, FilledSet, Packs;
      var step := 0;
      i := hash(key) % nf.count;
      FullStart(nf.slots, hash(key));
      while !nf.IsEmpty(i)
        invariant step < nf.count && i == Probe(hash(key), step, nf.count)
        invariant FullUpTo(nf.slots, hash(key), step)
        decreases nf.count - step
      {
        FullStep(nf.slots, hash(key), step);
        i, step := (i + (step + 1)) % nf.count, step + 1;
      }
      d := step;
    }

    /** Old buckets only ever stop being live. */
    twostate predicate OldShrinks()
      reads flags, this
    {
      flags == old(flags) && nBuckets == old(nBuckets) && |flags.slots| == |old(flags.slots)|
      && forall i: nat :: i < |flags.slots| && flags.slots[i] == Live ==> old(flags.slots)[i] == Live
    }

    /** One round of the kick-out process: places the carried entry, and carries on the one it displaces, if any. */
    method PlaceCarried(nf: FlagWords, key0: K, val0: V,
                        ghost rest0: map<K, nat>, ghost placed0: map<K, nat>, ghost orig: map<K, V>)
      returns (carrying: bool, key: K, val: V, ghost rest: map<K, nat>, ghost placed: map<K, nat>)
      requires Moves(nf, rest0, placed0, {key0}, orig) && key0 in orig && orig[key0] == val0
      modifies keys, vals, flags, flags.words, nf, nf.words
      ensures Moves(nf, rest, placed, if carrying then {key} else {}, orig) && OldShrinks()
      ensures carrying ==> key in orig && orig[key] == val
      ensures if carrying then |rest| < |rest0| else rest == rest0
    {
      hide Moving, Probe, IsPow2, Packs, FullUpTo, FilledSet;
      ghost var before, after, ks, vs := flags.slots, nf.slots, keys[..], vals[..];
      RoomLeft(hash, before, after, ks, vs, rest0, placed0, key0, orig);
      var i; ghost var d;
      i, d := FindVacant(nf, key0);
      nf.SetIsEmptyFalse(i);
      placed := placed0[key0 := d];
      key, val := keys[i], vals[i];
      if i < nBuckets && !flags.IsEither(i) {
        Rehashing.KickOut(hash, before, after, ks, vs, rest0, placed0, key0, orig, d);
        carrying, rest := true, rest0 - {key};
        flags.SetIsDelTrue(i);
      } else {
        Settle(hash, before, after, ks, vs, rest0, placed0, key0, orig, d);
        carrying, rest := false, rest0;
      }
      keys[i], vals[i] := key0, val0;
      assert keys[..] == ks[i := key0] && vals[..] == vs[i := val0];
    }

    /** The kick-out process that starts with the entry of old bucket `j`. */
    method KickChain(nf: FlagWords, j: nat, ghost rest0: map<K, nat>, ghost placed0: map<K, nat>, ghost orig: map<K, V>)
      returns (ghost rest: map<K, nat>, ghost placed: map<K, nat>)
      requires Moves(nf, rest0, placed0, {}, orig) && j < nBuckets && flags.slots[j] == Live
      modifies keys, vals, flags, flags.words, nf, nf.words
      ensures Moves(nf, rest, placed, {}, orig) && OldShrinks() && flags.slots[j] != Live
    {
      hide Moving, Probe, IsPow2, Packs;
      var key, val := keys[j], vals[j];
      TakeUp(hash, flags.slots, nf.slots, keys[..], vals[..], rest0, placed0, orig, j);
      rest, placed := rest0 - {key}, placed0;
      flags.SetIsDelTrue(j);
      var carrying := true;
      while carrying
        invariant Moves(nf, rest, placed, if carrying then {key} else {}, orig)
        invariant carrying ==> key in orig && orig[key] == val
        invariant OldShrinks() && flags.slots[j] != Live
        decreases |rest|, carrying
      {
        carrying, key, val, rest, placed := PlaceCarried(nf, key, val, rest, placed, orig);
      }
    }

    /** The rehash loop: every old bucket in turn. */
    method MoveAll(nf: FlagWords, ghost rest0: map<K, nat>, ghost orig: map<K, V>)
      returns (ghost placed: map<K, nat>)
      requires Moves(nf, rest0, map[], {}, orig)
      modifies keys, vals, flags, flags.words, nf, nf.words
      ensures nf.Valid() && Placed(hash, nf.slots, keys[..], placed)
      ensures |FilledSet(nf.slots)| == |LiveSet(nf.slots)| == |orig|
      ensures orig == Values(hash, vals[..], placed, nf.count)
    {
      hide Moving, IsPow2, Packs;
      ghost var rest := rest0;
      placed := map[];
      for j := 0 to nBuckets
        invariant Moves(nf, rest, placed, {}, orig)
        invariant forall i: nat :: i < j ==> flags.slots[i] != Live
      {
        if !flags.IsEither(j) {
          label L:
          rest, placed := KickChain(nf, j, rest, placed, orig);
          assert OldShrinks@L();
        }
      }
      Finish(hash, flags.slots, nf.slots, keys[..], vals[..], rest, placed, orig);
    }

    /** `kh_resize`: a request the live entries do not fit into changes nothing; any other rebuilds the table. */
    method Resize(requested: nat)
      requires Valid()
      modifies this, keys, vals, flags, flags.words
      ensures Valid() && fresh(Repr() - old(Repr())) && Model() == old(Model()) && size == old(size)
      ensures if size >= UpperBound(TableSize(requested))
              then unchanged(this) && unchanged(keys) && unchanged(vals) && unchanged(flags)
              else nBuckets == TableSize(requested) && nOccupied == size
    {
      var n := TableSize(requested);
      if size < UpperBound(n) { Rebuild(n); }
    }

    method Rebuild(n: nat)
      requires Valid() && IsPow2(n) && n >= 4 && size < UpperBound(n)
      modifies this, keys, vals, flags, flags.words
      ensures Valid() && fresh(Repr() - old(Repr())) && Model() == old(Model())
      ensures nBuckets == n && nOccupied == size == old(size)
    {
      hide Placed, IsPow2, Packs, LiveSet, FilledSet, Values, Moving;
      LoadLimits(n);
      Pow2Packable(n);
      var nf := new FlagWords(n);
      ghost var orig, ks, vs := Model(), keys[..], vals[..];
      ModelSize(hash, flags.slots, ks, vs, dist);
      Grow(n);
      ghost var rest := Start(hash, flags.slots, ks, vs, dist, n, keys[..], vals[..]);
      ghost var placed := MoveAll(nf, rest, orig);
      Install(nf, placed, orig);
    }

    /** Makes room for the new table behind the old one. */
    method Grow(n: nat)
      requires keys.Length == vals.Length == nBuckets
      modifies this`keys, this`vals
      ensures keys.Length == vals.Length == (if nBuckets < n then n else nBuckets)
      ensures keys[..nBuckets] == old(keys[..]) && vals[..nBuckets] == old(vals[..])
      ensures if nBuckets < n then fresh(keys) && fresh(vals) && keys as object != vals else unchanged(this)
    {
      if nBuckets < n {
        keys := Realloc(keys, n);
        vals := Realloc(vals, n);
      }
    }

    /** The end of the rehash: the new states take the place of the old ones. */
    method Install(nf: FlagWords, ghost placed: map<K, nat>, ghost orig: map<K, V>)
      requires Apart(nf) && nf.Valid() && IsPow2(nf.count) && nf.count >= 4
      requires keys.Length == vals.Length == (if nBuckets < nf.count then nf.count else nBuckets)
      requires Placed(hash, nf.slots, keys[..], placed)
      requires |FilledSet(nf.slots)| == |LiveSet(nf.slots)| == size < UpperBound(nf.count)
      requires orig == Values(hash, vals[..], placed, nf.count)
      modifies this
      ensures Valid() && nBuckets == nf.count && nOccupied == size == old(size) && Model() == orig
      ensures flags == nf && fresh(Repr() - old({keys, vals}) - {this, nf, nf.words})
    {
      hide Placed, IsPow2, Packs, LiveSet, FilledSet, Values;
      ghost var ks, vs := keys[..], vals[..];
      if nBuckets > nf.count {
        keys := Realloc(keys, nf.count);
        vals := Realloc(vals, nf.count);
      }
      assert keys[..] == ks[..nf.count] && vals[..] == vs[..nf.count];
      PrefixSuffices(hash, nf.slots, ks, vs, placed);
      flags, nBuckets, nOccupied := nf, nf.count, size;
      upperBound, dist := UpperBound(nBuckets), placed;
    }

    /** The resize decision of `kh_put`: a table at its load limit is cleaned or doubled, which always helps. */
    method MakeRoom()
      requires Valid()
      modifies this, keys, vals, flags, flags.words
      ensures Valid() && fresh(Repr() - old(Repr())) && Model() == old(Model()) && size == old(size)
      ensures nBuckets > 0 && nOccupied < upperBound
      ensures if old(nOccupied < upperBound)
              then unchanged(this) && unchanged(keys) && unchanged(vals) && unchanged(flags)
              else
                && nOccupied == size
                && nBuckets == (if old(nBuckets == 0) then 4 else
                                if old(nBuckets > 2 * size) then old(nBuckets) else 2 * old(nBuckets))
    {
      if nOccupied >= upperBound {
        hide Placed, Packs, LiveSet, FilledSet, Values, TableSize, IsPow2, UpperBound;
        FillsOrder(flags.slots);
        RequestHelps(nBuckets, size);
        Resize(Request(nBuckets, size));
      }
    }

    /**
     * `kh_put`: claims a bucket for the key and leaves its value as it is. Below the load limit a new key takes the
     * last tombstone of its path, or the first empty bucket; at the limit the table is rebuilt first, and then there
     * are no tombstones. Three results tell a stored key, an empty bucket, and a tombstone apart.
     */
    method Put(key: K) returns (x: nat, ret: int, ghost d: nat, ghost e: nat)
      requires Valid()
      modifies this, keys, vals, flags, flags.words
      ensures Valid() && fresh(Repr() - old(Repr()))
      ensures x < nBuckets && flags.slots[x] == Live && keys[x] == key
      ensures Model() == old(Model())[key := vals[x]]
      ensures key in old(Model()) ==> vals[x] == old(Model())[key]
      ensures ret in {0, 1, 2} && (ret == 0 <==> key in old(Model()))
      ensures size == old(size) + (if ret > 0 then 1 else 0) && x == Probe(hash(key), d, nBuckets)
      ensures old(nOccupied < upperBound) ==>
                && nBuckets == old(nBuckets) && flags.slots == old(flags.slots)[x := Live]
                && nOccupied == old(nOccupied) + (if ret == 1 then 1 else 0)
                && (ret > 0 ==> FirstVacant(old(flags.slots), hash(key), e)
                                && Takes(old(flags.slots), hash(key), e, d) && (ret == 2 <==> d < e))
      ensures old(nOccupied >= upperBound) ==> ret < 2 && nOccupied == old(size) + ret
    {
      hide Placed, Packs, LiveSet, FilledSet, IsPow2, Probe;
      MakeRoom();
      x, d, e := FindSlot(key);
      if nOccupied == size { NoTombstones(flags.slots); }
      ret := Claim(key, x, d);
    }

    /** `kh_value(h, x) = val` for the bucket of a stored key. */
    method SetValue(x: nat, val: V)
      requires Valid() && x < nBuckets && flags.slots[x] == Live
      modifies vals
      ensures Valid() && Model() == old(Model())[keys[x] := val]
    {
      ghost var vs := vals[..];
      OneValue(hash, flags.slots, keys[..], vs, dist, x, val);
      vals[x] := val;
      assert vals[..] == vs[x := val];
    }
  }

  lemma FillsOrder(slots: seq<Bucket>)
    ensures |LiveSet(slots)| <= |FilledSet(slots)|
  {
    FilledWithin(slots);
    SubsetCount(LiveSet(slots), FilledSet(slots));
  }

  lemma OneValue<K, V>(hash: K -> nat, slots: seq<Bucket>, keys: seq<K>, vals: seq<V>, dist: map<K, nat>, x: nat,
        val: V)
    requires Placed(hash, slots, keys, dist) && |slots| <= |vals| && x < |slots| && slots[x] == Live
    ensures Values(hash, vals[x := val], dist, |slots|) == Values(hash, vals, dist, |slots|)[keys[x] := val]
  {
    forall k <- dist ensures At(hash, dist, |slots|, k) == x <==> k == keys[x] {
      assert Reachable(hash, slots, keys, k, dist[k]);
    }
  }

  /** A table lives in its first `n` buckets. */
  lemma PrefixSuffices<K, V>(hash: K -> nat, slots: seq<Bucket>, keys: seq<K>, vals: seq<V>, dist: map<K, nat>)
    requires Placed(hash, slots, keys, dist) && |slots| <= |vals| && |slots| > 0
    ensures Placed(hash, slots, keys[..|slots|], dist)
    ensures Values(hash, vals[..|slots|], dist, |slots|) == Values(hash, vals, dist, |slots|)
  {
    forall k <- dist ensures Reachable(hash, slots, keys[..|slots|], k, dist[k]) {
      assert Reachable(hash, slots, keys, k, dist[k]);
    }
  }

  lemma ModelSize<K, V>(hash: K -> nat, slots: seq<Bucket>, keys: seq<K>, vals: seq<V>, dist: map<K, nat>)
    requires Placed(hash, slots, keys, dist) && |slots| <= |vals|
    ensures |Values(hash, vals, dist, |slots|)| == |LiveSet(slots)|
  {
    LiveCount(hash, slots, keys, dist);
    var m := Values(hash, vals, dist, |slots|);
    assert m.Keys == dist.Keys;
    assert |m| == |m.Keys| && |dist| == |dist.Keys|;
  }

  /** `krealloc`: a block of the new length with the common prefix kept. */
  method Realloc<T(0)>(a: array<T>, n: nat) returns (b: array<T>)
    ensures fresh(b) && b.Length == n
    ensures forall i :: 0 <= i < n && i < a.Length ==> b[i] == a[i]
  {
    b := new T[n];
    forall i | 0 <= i < n && i < a.Length {
      b[i] := a[i];
    }
  }

  lemma ValuesInsert<K, V>(hash: K -> nat, vals: seq<V>, dist: map<K, nat>, n: nat, k: K, d: nat)
    requires |vals| >= n > 0
    ensures Values(hash, vals, dist[k := d], n) == Values(hash, vals, dist, n)[k := vals[Probe(hash(k), d, n)]]
  {
  }
}

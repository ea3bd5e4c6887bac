/**
 What it means for an open-addressing table to hold a map: every key sits on its
 own probe path behind non-empty buckets only, and every live bucket holds a key
 of the map. The facts below are about the table as a value; KHash maintains
 them on its arrays.
 */
module Layout {
  import opened Probing
  import opened BucketFlags

  /** The buckets that are live, and those that are not empty. */
  ghost function LiveSet(slots: seq<Bucket>): set<nat> {
    set i: nat | i < |slots| && slots[i] == Live
  }

  ghost function FilledSet(slots: seq<Bucket>): set<nat> {
    set i: nat | i < |slots| && slots[i] != Vacant
  }

  lemma SlotUpdate(slots: seq<Bucket>, i: nat, b: Bucket)
    requires i < |slots|
    ensures LiveSet(slots[i := b]) == if b == Live then LiveSet(slots) + {i} else LiveSet(slots) - {i}
    ensures FilledSet(slots[i := b]) == if b == Vacant then FilledSet(slots) - {i} else FilledSet(slots) + {i}
  {
  }

  lemma {:induction false} ClaimCounts(slots: seq<Bucket>, i: nat)
    requires i < |slots| && slots[i] != Live
    ensures |LiveSet(slots[i := Live])| == |LiveSet(slots)| + 1
    ensures |FilledSet(slots[i := Live])| == |FilledSet(slots)| + if slots[i] == Vacant then 1 else 0
  {
    SlotUpdate(slots, i, Live);
    assert slots[i] == Deleted ==> FilledSet(slots) + {i} == FilledSet(slots);
  }

  lemma {:induction false} ReleaseCounts(slots: seq<Bucket>, i: nat)
    requires i < |slots| && slots[i] == Live
    ensures |LiveSet(slots[i := Deleted])| == |LiveSet(slots)| - 1
    ensures |FilledSet(slots[i := Deleted])| == |FilledSet(slots)|
  {
    SlotUpdate(slots, i, Deleted);
    assert FilledSet(slots) + {i} == FilledSet(slots);
  }

  lemma FilledWithin(slots: seq<Bucket>)
    ensures LiveSet(slots) <= FilledSet(slots) <= Buckets(|slots|)
  {
  }

  lemma AllVacant(n: nat)
    ensures LiveSet(seq(n, _ => Vacant)) == {} == FilledSet(seq(n, _ => Vacant))
  {
  }

  /** The first `d` buckets on the path from hash `h` are not empty. */
  ghost predicate FullUpTo(slots: seq<Bucket>, h: nat, d: nat)
    requires |slots| > 0
  {
    forall j: nat :: j < d ==> slots[Probe(h, j, |slots|)] != Vacant
  }

  /** The path from hash `h` has its first empty bucket at distance `e`. */
  ghost predicate FirstVacant(slots: seq<Bucket>, h: nat, e: nat)
    requires |slots| > 0
  {
    e < |slots| && slots[Probe(h, e, |slots|)] == Vacant && FullUpTo(slots, h, e)
  }

  /**
   * Where an insertion puts a new key of hash `h` whose path has its first empty bucket at distance `e`: in the last
   * tombstone before that, or there if there is none.
   */
  ghost predicate Takes(slots: seq<Bucket>, h: nat, e: nat, d: nat)
    requires |slots| > 0
  {
    && d <= e && slots[Probe(h, d, |slots|)] == (if d < e then Deleted else Vacant)
    && forall j: nat :: (if d < e then d + 1 else 0) <= j < e ==> slots[Probe(h, j, |slots|)] != Deleted
  }

  /** A path has one first empty bucket, and one bucket for a new key. */
  lemma {:induction false} TakesOne(slots: seq<Bucket>, h: nat, e: nat, d: nat, f: nat, c: nat)
    requires |slots| > 0 && FirstVacant(slots, h, e) && Takes(slots, h, e, d)
    requires FirstVacant(slots, h, f) && Takes(slots, h, f, c)
    ensures e == f && d == c && d <= e < |slots|
    ensures slots[Probe(h, e, |slots|)] == Vacant && forall j: nat :: j < e ==> slots[Probe(h, j, |slots|)] != Vacant
    ensures d < e ==> slots[Probe(h, d, |slots|)] == Deleted
    ensures forall j: nat :: d < j < e ==> slots[Probe(h, j, |slots|)] != Deleted
    ensures d == e ==> forall j: nat :: j < e ==> slots[Probe(h, j, |slots|)] != Deleted
  {
    assert slots[Probe(h, d, |slots|)] == (if d < e then Deleted else Vacant);
    assert slots[Probe(h, c, |slots|)] == (if c < f then Deleted else Vacant);
  }

  /** Where all filled buckets are live there are no tombstones. */
  lemma {:induction false} NoTombstones(slots: seq<Bucket>)
    requires |FilledSet(slots)| == |LiveSet(slots)|
    ensures forall i: nat :: i < |slots| ==> slots[i] != Deleted
  {
    FilledWithin(slots);
    forall i: nat | i < |slots| ensures slots[i] != Deleted {
      if slots[i] == Deleted {
        SubsetCount(LiveSet(slots) + {i}, FilledSet(slots));
      }
    }
  }

  lemma FullStart(slots: seq<Bucket>, h: nat)
    requires |slots| > 0
    ensures FullUpTo(slots, h, 0) && Probe(h, 0, |slots|) == h % |slots|
  {
  }

  /** A walk that has met no empty bucket goes on to a further bucket of the table. */
  lemma {:induction false} FullStep(slots: seq<Bucket>, h: nat, d: nat)
    requires IsPow2(|slots|) && d < |slots| && |FilledSet(slots)| < |slots|
    requires FullUpTo(slots, h, d) && slots[Probe(h, d, |slots|)] != Vacant
    ensures FullUpTo(slots, h, d + 1) && d + 1 < |slots|
    ensures Probe(h, d + 1, |slots|) == (Probe(h, d, |slots|) + (d + 1)) % |slots|
  {
    ProbeStep(h, d, |slots|);
    FilledWithin(slots);
    WalkEndsEarly(h, d + 1, |slots|, FilledSet(slots));
  }

  /** Key `k` is reachable at probe distance `d`: its bucket is live and no bucket before it on its path is empty. */
  ghost predicate Reachable<K>(hash: K -> nat, slots: seq<Bucket>, keys: seq<K>, k: K, d: nat)
    requires |slots| > 0 && |slots| <= |keys|
  {
    && d < |slots|
    && slots[Probe(hash(k), d, |slots|)] == Live
    && keys[Probe(hash(k), d, |slots|)] == k
    && FullUpTo(slots, hash(k), d)
  }

  /** `dist` gives the probe distance of every stored key; live buckets hold stored keys only, each in one place. */
  ghost predicate Placed<K>(hash: K -> nat, slots: seq<Bucket>, keys: seq<K>, dist: map<K, nat>) {
    && |slots| <= |keys|
    && (dist != map[] ==> |slots| > 0)
    && (forall k <- dist :: Reachable(hash, slots, keys, k, dist[k]))
    && (forall i: nat :: i < |slots| && slots[i] == Live ==>
          keys[i] in dist && Probe(hash(keys[i]), dist[keys[i]], |slots|) == i)
  }

  /** The bucket of a stored key. */
  ghost function At<K>(hash: K -> nat, dist: map<K, nat>, n: nat, k: K): nat
    requires k in dist && n > 0
  {
    Probe(hash(k), dist[k], n)
  }

  /** The map a table stands for, given where its keys are. */
  ghost function Values<K, V>(hash: K -> nat, vals: seq<V>, dist: map<K, nat>, n: nat): map<K, V>
    requires |vals| >= n && (dist != map[] ==> n > 0)
  {
    map k | k in dist :: vals[At(hash, dist, n, k)]
  }

  /** A key that is not stored, put into a bucket of its path that is not live. */
  lemma {:induction false} PlaceNew<K>(hash: K -> nat, slots: seq<Bucket>, keys: seq<K>, dist: map<K, nat>,
        k: K, d: nat)
    requires Placed(hash, slots, keys, dist) && k !in dist && d < |slots|
    requires slots[Probe(hash(k), d, |slots|)] != Live
    requires FullUpTo(slots, hash(k), d)
    ensures var i := Probe(hash(k), d, |slots|);
            Placed(hash, slots[i := Live], keys[i := k], dist[k := d])
  {
    var i, dist' := Probe(hash(k), d, |slots|), dist[k := d];
    forall q <- dist' ensures Reachable(hash, slots[i := Live], keys[i := k], q, dist'[q]) {
      if q != k { assert Reachable(hash, slots, keys, q, dist[q]); }
    }
  }

  /** A stored key taken out by turning its bucket into a tombstone. */
  lemma {:induction false} RemoveOld<K>(hash: K -> nat, slots: seq<Bucket>, keys: seq<K>, dist: map<K, nat>, k: K)
    requires Placed(hash, slots, keys, dist) && k in dist
    ensures Placed(hash, slots[At(hash, dist, |slots|, k) := Deleted], keys, dist - {k})
  {
    var i := At(hash, dist, |slots|, k);
    assert Reachable(hash, slots, keys, k, dist[k]);
    var rest := dist - {k};
    forall q <- rest ensures Reachable(hash, slots[i := Deleted], keys, q, rest[q]) {
      assert Reachable(hash, slots, keys, q, dist[q]);
    }
  }

  /** The first `d` buckets on the path of `k` are not empty and none of them holds `k`. */
  ghost predicate Passed<K>(hash: K -> nat, slots: seq<Bucket>, keys: seq<K>, k: K, d: nat)
    requires |slots| > 0 && |slots| <= |keys|
  {
    forall j: nat :: j < d ==> !Stops(hash, slots, keys, k, Probe(hash(k), j, |slots|))
  }

  /** The walk for `k` ends at bucket `i`. */
  ghost predicate Stops<K>(hash: K -> nat, slots: seq<Bucket>, keys: seq<K>, k: K, i: nat)
    requires i < |slots| <= |keys|
  {
    slots[i] == Vacant || (slots[i] == Live && keys[i] == k)
  }

  lemma PassedStart<K>(hash: K -> nat, slots: seq<Bucket>, keys: seq<K>, k: K)
    requires |slots| > 0 && |slots| <= |keys|
    ensures Passed(hash, slots, keys, k, 0) && Probe(hash(k), 0, |slots|) == hash(k) % |slots|
  {
  }

  lemma {:induction false} PassedStep<K>(hash: K -> nat, slots: seq<Bucket>, keys: seq<K>, k: K, d: nat)
    requires |slots| > 0 && |slots| <= |keys| && Passed(hash, slots, keys, k, d)
    requires slots[Probe(hash(k), d, |slots|)] == Deleted
      || (slots[Probe(hash(k), d, |slots|)] == Live && keys[Probe(hash(k), d, |slots|)] != k)
    ensures Passed(hash, slots, keys, k, d + 1)
    ensures Probe(hash(k), d + 1, |slots|) == (Probe(hash(k), d, |slots|) + (d + 1)) % |slots|
  {
    ProbeStep(hash(k), d, |slots|);
  }

  /** A walk for `k` that ends at an empty bucket proves that `k` is not stored. */
  lemma {:induction false} AbsentAtEmpty<K>(hash: K -> nat, slots: seq<Bucket>, keys: seq<K>,
        dist: map<K, nat>, k: K, d: nat)
    requires Placed(hash, slots, keys, dist) && d < |slots|
    requires slots[Probe(hash(k), d, |slots|)] == Vacant && Passed(hash, slots, keys, k, d)
    ensures k !in dist
  {
    assert forall j: nat :: Reachable(hash, slots, keys, k, j) ==>
             Stops(hash, slots, keys, k, Probe(hash(k), j, |slots|));
  }

  /** Where a walk ends tells whether the key is stored, and at which distance. */
  lemma {:induction false} WalkOutcome<K>(hash: K -> nat, slots: seq<Bucket>, keys: seq<K>, dist: map<K, nat>,
        k: K, d: nat)
    requires Placed(hash, slots, keys, dist) && d < |slots|
    requires IsPow2(|slots|) && Passed(hash, slots, keys, k, d)
    requires Stops(hash, slots, keys, k, Probe(hash(k), d, |slots|))
    ensures k in dist <==> slots[Probe(hash(k), d, |slots|)] == Live
    ensures k in dist ==> dist[k] == d
    ensures FullUpTo(slots, hash(k), d)
  {
    forall j: nat | j < d ensures slots[Probe(hash(k), j, |slots|)] != Vacant {
      assert !Stops(hash, slots, keys, k, Probe(hash(k), j, |slots|));
    }
    if slots[Probe(hash(k), d, |slots|)] == Vacant {
      AbsentAtEmpty(hash, slots, keys, dist, k, d);
    } else {
      assert Reachable(hash, slots, keys, k, dist[k]);
      if d < dist[k] { ProbesDistinct(hash(k), d, dist[k], |slots|); }
    }
  }

  /** A walk over non-empty buckets neither exhausts the table nor returns to its start. */
  lemma {:induction false} WalkStays<K>(hash: K -> nat, slots: seq<Bucket>, keys: seq<K>, k: K, d: nat)
    requires IsPow2(|slots|) && |slots| <= |keys| && |FilledSet(slots)| < |slots|
    requires 0 < d <= |slots| && Passed(hash, slots, keys, k, d)
    ensures d < |slots| && Probe(hash(k), d, |slots|) != Probe(hash(k), 0, |slots|)
  {
    FilledWithin(slots);
    forall j: nat | j < d ensures Probe(hash(k), j, |slots|) in FilledSet(slots) {
      assert !Stops(hash, slots, keys, k, Probe(hash(k), j, |slots|));
    }
    WalkEndsEarly(hash(k), d, |slots|, FilledSet(slots));
    ProbesDistinct(hash(k), 0, d, |slots|);
  }

  /** The number of stored keys is the number of live buckets. */
  lemma {:induction false} LiveCount<K>(hash: K -> nat, slots: seq<Bucket>, keys: seq<K>, dist: map<K, nat>)
    requires Placed(hash, slots, keys, dist)
    ensures |dist| == |LiveSet(slots)|
    decreases |dist|
  {
    if dist == map[] {
      assert LiveSet(slots) == {};
    } else {
      var k :| k in dist;
      var i := At(hash, dist, |slots|, k);
      assert Reachable(hash, slots, keys, k, dist[k]);
      RemoveOld(hash, slots, keys, dist, k);
      SlotUpdate(slots, i, Deleted);
      assert (dist - {k}).Keys == dist.Keys - {k};
      assert |dist - {k}| == |dist| - 1;
      LiveCount(hash, slots[i := Deleted], keys, dist - {k});
      assert LiveSet(slots) == LiveSet(slots[i := Deleted]) + {i};
    }
  }
}

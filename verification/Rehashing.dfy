/**
 The in-place rehash as a state: one pair of key/value arrays is read through the
 old bucket states and the new ones at the same time. At every moment the
 original map is split into the entries still at their old bucket (`rest`), the
 entries already placed on their new path (`dist`) and the one being carried.
 */
module Rehashing {
  import opened Probing
  import opened BucketFlags
  import opened Layout

  ghost predicate Moving<K, V>(hash: K -> nat, before: seq<Bucket>, after: seq<Bucket>,
                               keys: seq<K>, vals: seq<V>,
                               rest: map<K, nat>, dist: map<K, nat>, carried: set<K>, orig: map<K, V>)
  {
    && |before| <= |keys| == |vals| && |after| > 0
    && Placed(hash, after, keys, dist) && LiveSet(after) == FilledSet(after)
    && orig.Keys == rest.Keys + dist.Keys + carried
    && rest.Keys !! dist.Keys !! carried
    && (forall k <- rest :: rest[k] < |before| && before[rest[k]] == Live
                         && keys[rest[k]] == k && vals[rest[k]] == orig[k])
    && (forall k <- dist :: vals[At(hash, dist, |after|, k)] == orig[k])
    && (forall i: nat :: i < |before| && before[i] == Live ==>
          keys[i] in rest && rest[keys[i]] == i && !(i < |after| && after[i] == Live))
  }

  /** Before the first move everything is at its old bucket. */
  lemma {:induction false} Start<K, V>(hash: K -> nat, before: seq<Bucket>, keys: seq<K>, vals: seq<V>,
        dist: map<K, nat>, n: nat, keys': seq<K>, vals': seq<V>)
    returns (rest: map<K, nat>)
    requires Placed(hash, before, keys, dist) && |before| <= |vals|
    requires n > 0 && n <= |keys'| == |vals'| && |before| <= |keys'|
    requires keys'[..|before|] == keys[..|before|] && vals'[..|before|] == vals[..|before|]
    ensures Moving(hash, before, seq(n, _ => Vacant), keys', vals', rest, map[], {},
                   Values(hash, vals, dist, |before|))
  {
    rest := map k | k in dist :: At(hash, dist, |before|, k);
    AllVacant(n);
    forall k <- dist
      ensures rest[k] < |before| && before[rest[k]] == Live && keys'[rest[k]] == k
      ensures vals'[rest[k]] == vals[At(hash, dist, |before|, k)]
    {
      assert Reachable(hash, before, keys, k, dist[k]);
      assert keys'[..|before|][rest[k]] == keys[..|before|][rest[k]];
      assert vals'[..|before|][rest[k]] == vals[..|before|][rest[k]];
    }
    forall i: nat | i < |before| && before[i] == Live ensures keys'[i] in rest && rest[keys'[i]] == i {
      assert keys'[..|before|][i] == keys[..|before|][i];
    }
  }

  /** The outer loop takes up the entry of an old bucket. */
  lemma {:induction false} TakeUp<K, V>(hash: K -> nat, before: seq<Bucket>, after: seq<Bucket>, keys: seq<K>,
        vals: seq<V>,
                     rest: map<K, nat>, dist: map<K, nat>, orig: map<K, V>, j: nat)
    requires Moving(hash, before, after, keys, vals, rest, dist, {}, orig)
    requires j < |before| && before[j] == Live
    ensures keys[j] in orig && orig[keys[j]] == vals[j]
    ensures Moving(hash, before[j := Deleted], after, keys, vals, rest - {keys[j]}, dist, {keys[j]}, orig)
  {
    var k := keys[j];
    assert (rest - {k}).Keys == rest.Keys - {k};
  }

  /** While an entry is carried, its walk finds an empty new bucket before the table is exhausted. */
  lemma {:induction false} RoomLeft<K, V>(hash: K -> nat, before: seq<Bucket>, after: seq<Bucket>,
        keys: seq<K>, vals: seq<V>,
                       rest: map<K, nat>, dist: map<K, nat>, k: K, orig: map<K, V>)
    requires Moving(hash, before, after, keys, vals, rest, dist, {k}, orig)
    ensures |FilledSet(after)| < |orig|
  {
    LiveCount(hash, after, keys, dist);
    assert dist.Keys <= orig.Keys - {k};
    SubsetCount(dist.Keys, orig.Keys - {k});
    assert |orig.Keys - {k}| == |orig.Keys| - 1;
  }

  /** The carried entry lands on an entry that has not moved yet, which is carried on. */
  lemma {:induction false} KickOut<K, V>(hash: K -> nat, before: seq<Bucket>, after: seq<Bucket>, keys: seq<K>,
        vals: seq<V>,
                      rest: map<K, nat>, dist: map<K, nat>, k: K, orig: map<K, V>, d: nat)
    requires Moving(hash, before, after, keys, vals, rest, dist, {k}, orig) && d < |after|
    requires var i := Probe(hash(k), d, |after|);
             after[i] == Vacant && i < |before| && before[i] == Live
    requires FullUpTo(after, hash(k), d)
    ensures var i := Probe(hash(k), d, |after|);
            && keys[i] in orig && orig[keys[i]] == vals[i] && keys[i] in rest
            && Moving(hash, before[i := Deleted], after[i := Live], keys[i := k], vals[i := orig[k]],
                      rest - {keys[i]}, dist[k := d], {keys[i]}, orig)
  {
    var i := Probe(hash(k), d, |after|);
    var q := keys[i];
    PlaceNew(hash, after, keys, dist, k, d);
    SlotUpdate(after, i, Live);
    assert (rest - {q}).Keys == rest.Keys - {q};
    assert dist[k := d].Keys == dist.Keys + {k};
    OthersStay(hash, after, keys, vals, dist, k, d, orig);
  }

  /** The carried entry lands on a bucket that holds nothing of the old table. */
  lemma {:induction false} Settle<K, V>(hash: K -> nat, before: seq<Bucket>, after: seq<Bucket>, keys: seq<K>,
        vals: seq<V>,
                     rest: map<K, nat>, dist: map<K, nat>, k: K, orig: map<K, V>, d: nat)
    requires Moving(hash, before, after, keys, vals, rest, dist, {k}, orig) && d < |after|
    requires var i := Probe(hash(k), d, |after|);
             after[i] == Vacant && !(i < |before| && before[i] == Live)
    requires FullUpTo(after, hash(k), d)
    ensures var i := Probe(hash(k), d, |after|);
            Moving(hash, before, after[i := Live], keys[i := k], vals[i := orig[k]], rest, dist[k := d], {}, orig)
  {
    var i := Probe(hash(k), d, |after|);
    PlaceNew(hash, after, keys, dist, k, d);
    SlotUpdate(after, i, Live);
    assert dist[k := d].Keys == dist.Keys + {k};
    OthersStay(hash, after, keys, vals, dist, k, d, orig);
  }

  lemma {:induction false} OthersStay<K, V>(hash: K -> nat, after: seq<Bucket>, keys: seq<K>, vals: seq<V>,
                         dist: map<K, nat>, k: K, d: nat, orig: map<K, V>)
    requires Placed(hash, after, keys, dist) && |after| > 0 && |keys| == |vals| && d < |after|
    requires k !in dist && k in orig && dist.Keys <= orig.Keys
    requires after[Probe(hash(k), d, |after|)] == Vacant
    requires forall q <- dist :: vals[At(hash, dist, |after|, q)] == orig[q]
    ensures var vals' := vals[Probe(hash(k), d, |after|) := orig[k]];
            forall q <- dist[k := d] :: vals'[At(hash, dist[k := d], |after|, q)] == orig[q]
  {
    var dist', vals' := dist[k := d], vals[Probe(hash(k), d, |after|) := orig[k]];
    forall q <- dist' ensures vals'[At(hash, dist', |after|, q)] == orig[q] {
      if q != k {
        assert Reachable(hash, after, keys, q, dist[q]);
        assert At(hash, dist', |after|, q) == At(hash, dist, |after|, q);
      }
    }
  }

  /** When no old bucket is live any more, the new states hold exactly the original map. */
  lemma {:induction false} Finish<K, V>(hash: K -> nat, before: seq<Bucket>, after: seq<Bucket>, keys: seq<K>,
        vals: seq<V>,
                     rest: map<K, nat>, dist: map<K, nat>, orig: map<K, V>)
    requires Moving(hash, before, after, keys, vals, rest, dist, {}, orig)
    requires forall i: nat :: i < |before| ==> before[i] != Live
    ensures Placed(hash, after, keys, dist) && |FilledSet(after)| == |LiveSet(after)| == |orig|
    ensures orig == Values(hash, vals, dist, |after|)
  {
    assert rest.Keys == {};
    LiveCount(hash, after, keys, dist);
    assert dist.Keys == orig.Keys;
    assert |dist| == |dist.Keys| == |orig.Keys| == |orig|;
  }
}

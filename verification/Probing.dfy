/**
 The number theory behind khash's bucket walk `i = (i + (++step)) & mask`.

 The table size is a power of two, so the k-th bucket inspected for a hash `h`
 is `(h + k(k+1)/2) mod n`. The first `n` inspected buckets are pairwise
 distinct, hence are all the buckets, and the walk comes back to its start for
 the first time after `2n - 1` steps.
 */
module Probing {

  /** `n` is a power of two. */
  predicate IsPow2(n: nat) {
    n == 1 || (n > 1 && n % 2 == 0 && IsPow2(n / 2))
  }

  /** Distinct powers of two are at least a factor of two apart. */
  lemma {:induction false} Pow2Gap(a: nat, b: nat)
    requires IsPow2(a) && IsPow2(b) && a < b
    ensures 2 * a <= b
  {
    if a > 1 { Pow2Gap(a / 2, b / 2); }
  }

  /** The k-th triangular number. */
  function Tri(k: nat): nat {
    if k == 0 then 0 else Tri(k - 1) + k
  }

  /** The bucket inspected after `k` steps by a walk over `n` buckets that starts from hash `h`. */
  function Probe(h: nat, k: nat, n: nat): (i: nat)
    requires n > 0
    ensures i < n
  {
    (h + Tri(k)) % n
  }

  lemma ModShift(a: nat, b: nat, n: nat)
    requires n > 0
    ensures (a % n + b) % n == (a + b) % n
  {
    var q, r := DivMod(a, n);
    ModOfMultiple(q, r + b, n);
  }

  lemma ModOfMultiple(q: int, r: int, n: nat)
    requires n > 0
    ensures (n * q + r) % n == r % n
  {
    var p, s := DivMod(r, n);
    assert n * (q + p) == n * q + n * p;
    ModUnique(n * q + r, q + p, s, n);
  }

  lemma NoSmallMultiple(n: int, d: int)
    requires n > 0
    ensures d >= 1 ==> n * d >= n
    ensures d <= -1 ==> n * d <= -n
  {
    assert n * d == n + n * (d - 1) == n * (d + 1) - n;
  }

  lemma DivMod(x: int, n: int) returns (p: int, s: int)
    requires n > 0
    ensures x == n * p + s && p == x / n && s == x % n && 0 <= s < n
  {
    p, s := x / n, x % n;
  }

  lemma ModUnique(x: int, q: int, r: int, n: int)
    requires n > 0 && x == n * q + r && 0 <= r < n
    ensures x % n == r && x / n == q
  {
    var p, s := DivMod(x, n);
    assert n * (p - q) == n * p - n * q;
    NoSmallMultiple(n, p - q);
  }

  /** `Probe` is what the source computes: each step adds the next step count to the bucket. */
  lemma ProbeStep(h: nat, k: nat, n: nat)
    requires n > 0
    ensures Probe(h, k + 1, n) == (Probe(h, k, n) + (k + 1)) % n
  {
    ModShift(h + Tri(k), k + 1, n);
    assert h + Tri(k + 1) == h + Tri(k) + (k + 1);
  }

  lemma {:induction false} TriClosed(k: nat)
    ensures 2 * Tri(k) == k * (k + 1)
  {
    if k > 0 {
      TriClosed(k - 1);
      assert 2 * Tri(k) == (k - 1) * k + 2 * k == k * (k + 1);
    }
  }

  lemma OddProduct(a: nat, b: nat)
    requires a % 2 == 1 && b % 2 == 1
    ensures (a * b) % 2 == 1
  {
    var c, d := a / 2, b / 2;
    assert a * b == (2 * c + 1) * (2 * d + 1) == 2 * (2 * c * d + c + d) + 1;
  }

  lemma HalveProduct(a: nat, b: nat, m: nat)
    requires m > 0 && a % 2 == 1 && (a * b) % (2 * m) == 0
    ensures b % 2 == 0 && (a * (b / 2)) % m == 0
  {
    var q, r := DivMod(a * b, 2 * m);
    assert a * b == 2 * (m * q) by { assert (2 * m) * q == 2 * (m * q); }
    if b % 2 == 1 {
      OddProduct(a, b);
      ModUnique(a * b, m * q, 0, 2);
      assert false;
    }
    assert a * (2 * (b / 2)) == 2 * (a * (b / 2));
    ModUnique(a * (b / 2), q, 0, m);
  }

  /** A power of two that divides `a * b` with `a` odd divides `b`. */
  lemma {:induction false} OddFactor(a: nat, b: nat, n: nat)
    requires IsPow2(n) && a % 2 == 1 && (a * b) % n == 0
    ensures b % n == 0
  {
    if n > 1 {
      var m := n / 2;
      HalveProduct(a, b, m);
      OddFactor(a, b / 2, m);
      DoubleDivides(b / 2, m);
    }
  }

  /** If a power of two divides `x * y` and `x + y` is odd, then it divides one of the two. */
  lemma DividesOneFactor(x: nat, y: nat, m: nat)
    requires IsPow2(m) && (x + y) % 2 == 1 && (x * y) % m == 0
    ensures x % m == 0 || y % m == 0
  {
    if x % 2 == 1 {
      OddFactor(x, y, m);
    } else {
      Commutes(x, y);
      OddFactor(y, x, m);
    }
  }

  lemma Commutes(x: nat, y: nat)
    ensures x * y == y * x
  {
  }

  lemma SmallMultipleIsZero(x: nat, n: nat)
    requires x < n && x % n == 0
    ensures x == 0
  {
    ModUnique(x, 0, x, n);
  }

  lemma EqualResidues(a: nat, b: nat, n: nat)
    requires n > 0 && a <= b && a % n == b % n
    ensures (b - a) % n == 0
  {
    var p, r := DivMod(a, n);
    var q, s := DivMod(b, n);
    assert n * (q - p) == n * q - n * p;
    ModUnique(b - a, q - p, 0, n);
  }

  lemma DoubleDivides(x: nat, n: nat)
    requires n > 0 && x % n == 0
    ensures (2 * x) % (2 * n) == 0
  {
    var q, r := DivMod(x, n);
    assert 2 * (n * q) == (2 * n) * q;
    ModUnique(2 * x, q, 0, 2 * n);
  }

  /** Two positive factors below a power of two, of opposite parity, have no product it divides. */
  lemma NoZeroProduct(x: nat, y: nat, m: nat)
    requires IsPow2(m) && 0 < x < m && 0 < y < m && (x + y) % 2 == 1
    ensures (x * y) % m != 0
  {
    if (x * y) % m == 0 {
      DividesOneFactor(x, y, m);
      if x % m == 0 { SmallMultipleIsZero(x, m); } else { SmallMultipleIsZero(y, m); }
    }
  }

  /** Two walk positions with the same bucket are `n` apart up to a multiple. */
  lemma SameBucket(h: nat, a: nat, b: nat, n: nat)
    requires n > 0 && a <= b && (h + a) % n == (h + b) % n
    ensures (2 * (b - a)) % (2 * n) == 0
  {
    EqualResidues(h + a, h + b, n);
    DoubleDivides(b - a, n);
  }

  /** The first `n` buckets of a walk are pairwise distinct. */
  lemma ProbesDistinct(h: nat, j: nat, k: nat, n: nat)
    requires IsPow2(n) && j < k < n
    ensures Probe(h, j, n) != Probe(h, k, n)
  {
    hide Tri;
    TriDifference(j, k);
    NoZeroProduct(k - j, k + j + 1, 2 * n);
    if Probe(h, j, n) == Probe(h, k, n) { SameBucket(h, Tri(j), Tri(k), n); }
  }

  lemma TriDifference(j: nat, k: nat)
    requires j < k
    ensures Tri(j) <= Tri(k) && 2 * (Tri(k) - Tri(j)) == (k - j) * (k + j + 1)
  {
    TriClosed(j);
    TriClosed(k);
    assert (k - j) * (k + j + 1) == k * (k + 1) - j * (j + 1);
  }

  /** The walk is back at its start after `k > 0` steps for no `k < 2n - 1`, and is for `k == 2n - 1`. */
  lemma FirstReturn(h: nat, k: nat, n: nat)
    requires IsPow2(n) && 0 < k < 2 * n
    ensures Probe(h, k, n) == Probe(h, 0, n) <==> k == 2 * n - 1
  {
    assert Tri(0) == 0;
    TriClosed(k);
    hide Tri;
    if k == 2 * n - 1 {
      FullCycle(k, n);
      ModOfMultiple(k, h, n);
    } else {
      NoZeroProduct(k, k + 1, 2 * n);
      if h % n == (h + Tri(k)) % n { SameBucket(h, 0, Tri(k), n); }
    }
  }

  lemma FullCycle(k: nat, n: nat)
    requires k == 2 * n - 1
    ensures Tri(k) == n * k
  {
    TriClosed(k);
    assert k * (2 * n) == 2 * (n * k);
  }

  /** The set of buckets inspected in the first `k` probes. */
  ghost function Visited(h: nat, k: nat, n: nat): set<nat>
    requires n > 0
  {
    set j | 0 <= j < k :: Probe(h, j, n)
  }

  lemma {:induction false} VisitedCount(h: nat, k: nat, n: nat)
    requires IsPow2(n) && k <= n
    ensures |Visited(h, k, n)| == k
  {
    if k == 0 {
      assert Visited(h, k, n) == {};
    } else {
      VisitedCount(h, k - 1, n);
      var v, i := Visited(h, k - 1, n), Probe(h, k - 1, n);
      if i in v {
        var j :| 0 <= j < k - 1 && Probe(h, j, n) == i;
        ProbesDistinct(h, j, k - 1, n);
      }
      assert Visited(h, k, n) == v + {i};
    }
  }

  /** All the bucket numbers of a table of `n` buckets. */
  ghost function Buckets(n: nat): (s: set<nat>)
    ensures forall i :: i in s <==> 0 <= i < n
  {
    if n == 0 then {} else Buckets(n - 1) + {n - 1}
  }

  lemma {:induction false} BucketsCount(n: nat)
    ensures |Buckets(n)| == n
  {
    if n > 0 { BucketsCount(n - 1); }
  }

  lemma SubsetCount<T>(a: set<T>, b: set<T>)
    requires a <= b
    ensures |a| <= |b|
    ensures |a| == |b| ==> a == b
  {
    assert |b| == |a| + |b - a| by { assert b == a + (b - a); }
    if |a| == |b| { assert b - a == {}; }
  }

  /** Every bucket is inspected within the first `n` probes. */
  lemma ProbesCover(h: nat, i: nat, n: nat)
    requires IsPow2(n) && i < n
    ensures exists k: nat :: k < n && Probe(h, k, n) == i
  {
    VisitedCount(h, n, n);
    BucketsCount(n);
    assert Visited(h, n, n) <= Buckets(n);
    SubsetCount(Visited(h, n, n), Buckets(n));
    assert i in Buckets(n);
    var k :| 0 <= k < n && Probe(h, k, n) == i;
  }

  /** The k-th probe of a walk that has met no bucket outside `s` lies strictly before the end of the cycle. */
  lemma WalkEndsEarly(h: nat, k: nat, n: nat, s: set<nat>)
    requires IsPow2(n) && s <= Buckets(n) && |s| < n
    requires k <= n && forall j: nat :: j < k ==> Probe(h, j, n) in s
    ensures k < n
  {
    if k == n {
      var i := MissingBucket(n, s);
      ProbesCover(h, i, n);
      assert false;
    }
  }

  lemma MissingBucket(n: nat, s: set<nat>) returns (i: nat)
    requires s <= Buckets(n) && |s| < n
    ensures i < n && i !in s
  {
    BucketsCount(n);
    assert !(Buckets(n) <= s) by { if Buckets(n) <= s { SubsetCount(Buckets(n), s); } }
    i :| i in Buckets(n) && i !in s;
  }
}

/**
 Which bucket a hash belongs to while some buckets of the table are still waiting to be split off:
 the nearest initialised ancestor, found by dropping high bits of the index.
 */
module Buckets {
  import opened Arithmetic

  /** The first initialised bucket among i, i % (n/2), i % (n/4), ... for a table of n buckets. */
  function Nearest(made: seq<bool>, i: nat, n: nat): (r: nat)
    requires IsPow2(n) && i < n <= |made| && made[0]
    ensures r <= i && made[r]
    decreases n
  {
    if made[i] then i else Nearest(made, i % (n / 2), n / 2)
  }

  lemma HalfOfLarger(m: nat, n: nat)
    requires IsPow2(m) && IsPow2(n) && m < n
    ensures m <= n / 2 && IsPow2(n / 2)
  {
    Pow2Divides(m, n);
    var q := n / m;
    assert n == q * m;
    if q < 2 {
      MulMono(q, 1, m);
      assert false;
    }
    MulMono(2, q, m);
  }

  /** The nearest bucket is an initialised ancestor, and every ancestor with a longer index is not initialised. */
  lemma {:induction false} NearestIsAncestor(made: seq<bool>, i: nat, n: nat) returns (m: nat)
    requires IsPow2(n) && i < n <= |made| && made[0]
    ensures IsPow2(m) && m <= n && Nearest(made, i, n) == Slot(i, m) && made[Slot(i, m)]
    ensures forall k: nat :: IsPow2(k) && m < k <= n ==> !made[Slot(i, k)]
    decreases n
  {
    hide Slot;
    if made[i] {
      m := n;
      AncestorOfSelf(i, n);
    } else {
      var j := Slot(i, n / 2);
      HalfStep(made, i, n);
      m := NearestIsAncestor(made, j, n / 2);
      AncestorTwice(i, n / 2, m);
      forall k: nat | IsPow2(k) && m < k <= n
        ensures !made[Slot(i, k)]
      {
        if k < n {
          HalfOfLarger(k, n);
          AncestorTwice(i, n / 2, k);
          assert !made[Slot(j, k)];
        } else {
          AncestorOfSelf(i, n);
        }
      }
    }
  }

  lemma HalfStep(made: seq<bool>, i: nat, n: nat)
    requires IsPow2(n) && i < n <= |made| && made[0] && !made[i]
    ensures n % 2 == 0 && IsPow2(n / 2) && Slot(i, n / 2) < n / 2
    ensures Nearest(made, i, n) == Nearest(made, Slot(i, n / 2), n / 2)
  {
  }

  lemma AncestorOfSelf(i: nat, n: nat)
    requires i < n
    ensures Slot(i, n) == i
  {
  }

  lemma AncestorTwice(i: nat, m: nat, k: nat)
    requires IsPow2(m) && IsPow2(k) && k <= m
    ensures Slot(Slot(i, m), k) == Slot(i, k)
  {
    Pow2Divides(k, m);
    ModMod(i, m, k);
  }

  /** A bucket index is found the same way at every table size that has room for it. */
  lemma {:induction false} NearestShrink(made: seq<bool>, b: nat, m: nat, n: nat)
    requires IsPow2(m) && IsPow2(n) && b < m <= n <= |made| && made[0]
    ensures Nearest(made, b, n) == Nearest(made, b, m)
    decreases n
  {
    if m < n && !made[b] {
      HalfOfLarger(m, n);
      ModUnique(b, n / 2, 0, b);
      NearestShrink(made, b, m, n / 2);
    }
  }

  /** Initialising buckets that were all waiting on src moves nobody who was not filed under src. */
  lemma {:induction false} NearestStable(made: seq<bool>, now: seq<bool>, size: nat, i: nat, n: nat, src: nat)
    requires IsPow2(n) && IsPow2(size) && i < n <= size <= |made| == |now| && made[0]
    requires forall b :: 0 <= b < |made| && made[b] ==> now[b]
    requires forall b :: 0 <= b < size && now[b] && !made[b] ==> Nearest(made, b, size) == src
    requires Nearest(made, i, n) != src
    ensures Nearest(now, i, n) == Nearest(made, i, n)
    decreases n
  {
    if now[i] {
      if !made[i] {
        NearestShrink(made, i, n, size);
        assert false;
      }
    } else {
      NearestStable(made, now, size, i % (n / 2), n / 2, src);
    }
  }

  lemma {:induction false} NearestPrefix(made: seq<bool>, longer: seq<bool>, i: nat, n: nat)
    requires IsPow2(n) && i < n <= |made| <= |longer| && made[0]
    requires forall b :: 0 <= b < n ==> longer[b] == made[b]
    ensures Nearest(longer, i, n) == Nearest(made, i, n)
    decreases n
  {
    if !made[i] { NearestPrefix(made, longer, i % (n / 2), n / 2); }
  }

  /** Doubling the table with an uninitialised upper half leaves every hash in the bucket where it was. */
  lemma NearestDouble(made: seq<bool>, now: seq<bool>, hash: nat, n: nat)
    requires IsPow2(n) && |made| == n && |now| == 2 * n && made[0]
    requires forall b :: 0 <= b < n ==> now[b] == made[b]
    requires forall b :: n <= b < 2 * n ==> !now[b]
    ensures IsPow2(2 * n) && Nearest(now, hash % (2 * n), 2 * n) == Nearest(made, hash % n, n)
  {
    var h := hash % (2 * n);
    MultipleMod(2, n);
    ModMod(hash, 2 * n, n);
    if now[h] {
      ModUnique(h, n, 0, h);
    }
    NearestPrefix(made, now, h % n, n);
  }
}

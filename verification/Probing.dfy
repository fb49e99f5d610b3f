/** Double hashing in a table of prime size: every slot is tried, and what is stored can be found. */
module Probing {
  import opened Optionals

  // ----- primes

  ghost predicate Prime(p: nat) {
    p >= 2 && forall d :: 2 <= d < p ==> p % d != 0
  }

  lemma CoDivisor(p: nat, d: nat, r: nat)
    requires 2 <= d < p && p % d == 0 && r >= 2 && p < r * r && d >= r
    ensures 2 <= p / d < r && p % (p / d) == 0
  {
    var e := p / d;
    assert p == d * e;
    if e >= r { Products(d, r, e, r); }
    assert e <= 1 ==> d * e <= d;
    Multiple(d, e);
  }

  lemma Products(a: nat, b: nat, c: nat, d: nat)
    requires a >= b && c >= d
    ensures a * c >= b * d
  {
    assert a * c == b * c + (a - b) * c;
    assert b * c == b * d + b * (c - d);
  }

  lemma Multiple(d: nat, e: nat)
    requires e > 0
    ensures (d * e) % e == 0
  {
    Remainder(d * e, e, d, 0);
  }

  /** The remainder is what is left of n. */
  lemma Remainder(n: int, p: nat, k: int, r: nat)
    requires r < p && n == k * p + r
    ensures n % p == r && n / p == k
  {
    var q, m := n / p, n % p;
    assert n == q * p + m;
    assert (k - q) * p == m - r && (q - k) * p == r - m;
    if k > q { Products(k - q, 1, p, p); }
    if k < q { Products(q - k, 1, p, p); }
  }

  /** Trial division up to the square root is enough. */
  lemma TrialDivision(p: nat, r: nat)
    requires 2 <= r <= p < r * r
    requires forall d :: 2 <= d < r ==> p % d != 0
    ensures Prime(p)
  {
    forall d | 2 <= d < p
      ensures p % d != 0
    {
      if p % d == 0 && d >= r { CoDivisor(p, d, r); }
    }
  }

  const NAME_HASH_PRIME: nat := 16381
  const PACKAGE_HASH_PRIME: nat := 10007
  const STATUS_HASH_PRIME: nat := 8191

  lemma Trial16381()
    ensures forall d :: 2 <= d < 128 ==> 16381 % d != 0
  {
  }

  lemma Trial10007()
    ensures forall d :: 2 <= d < 101 ==> 10007 % d != 0
  {
  }

  lemma Trial8191()
    ensures forall d :: 2 <= d < 91 ==> 8191 % d != 0
  {
  }

  lemma ThePrimes()
    ensures Prime(NAME_HASH_PRIME) && Prime(PACKAGE_HASH_PRIME) && Prime(STATUS_HASH_PRIME)
  {
    hide Prime;
    Trial16381();
    TrialDivision(16381, 128);
    Trial10007();
    TrialDivision(10007, 101);
    Trial8191();
    TrialDivision(8191, 91);
  }

  /** A prime that divides a product divides one of the factors. */
  lemma {:induction false} Euclid(p: nat, a: nat, b: int, k: int)
    requires Prime(p) && 0 < a < p && a * b == k * p
    ensures b % p == 0
    decreases a
  {
    if a == 1 {
      Remainder(b, p, k, 0);
    } else {
      var q, r := p / a, p % a;
      assert p == q * a + r;
      EuclidStep(p, a, b, k, q, r);
      Euclid(p, r, b, b - q * k);
    }
  }

  lemma EuclidStep(p: nat, a: nat, b: int, k: int, q: nat, r: nat)
    requires p == q * a + r && a * b == k * p
    ensures r * b == (b - q * k) * p
  {
    assert r * b == p * b - q * a * b;
    assert q * a * b == q * (a * b);
    assert q * (k * p) == (q * k) * p;
    assert (b - q * k) * p == b * p - (q * k) * p;
  }

  // ----- the probe addresses of a hash number

  /** What make_hash computes from a key: the number cut to an unsigned, and the whole unsigned long. */
  datatype Hash = Hash(low: nat, whole: nat)

  function Step(h: Hash, p: nat): (d: nat)
    requires p >= 2
    ensures 1 <= d < p
  {
    1 + h.whole % (p - 1)
  }

  /** The address of probe k. */
  function Slot(h: Hash, p: nat, k: nat): (s: nat)
    requires p >= 2
    ensures s < p
  {
    (h.low % p - k * Step(h, p)) % p
  }

  /** What the loop does to get from one address to the next. */
  lemma NextSlot(h: Hash, p: nat, k: nat, next: nat)
    requires p >= 2 && next == k + 1
    ensures Slot(h, p, 0) == h.low % p
    ensures var a := Slot(h, p, k) - Step(h, p); Slot(h, p, next) == if a < 0 then a + p else a
  {
    var d, n := Step(h, p), h.low % p - k * Step(h, p);
    var a, q := Slot(h, p, k) - d, n / p;
    assert next * d == k * d + d;
    assert n == q * p + n % p;
    if a < 0 {
      assert (q - 1) * p == q * p - p;
      Remainder(h.low % p - next * d, p, q - 1, a + p);
    } else {
      Remainder(h.low % p - next * d, p, q, a);
    }
    Remainder(h.low % p, p, 0, h.low % p);
  }

  /** No address comes twice among the first p. */
  lemma SlotsDiffer(h: Hash, p: nat, i: nat, j: nat)
    requires Prime(p) && i < j < p
    ensures Slot(h, p, i) != Slot(h, p, j)
  {
    var d := Step(h, p);
    var m, n := h.low % p - i * d, h.low % p - j * d;
    if m % p == n % p {
      assert m - n == (m / p - n / p) * p by {
        assert m == (m / p) * p + m % p && n == (n / p) * p + n % p;
        assert (m / p - n / p) * p == (m / p) * p - (n / p) * p;
      }
      assert m - n == (j - i) * d;
      Euclid(p, j - i, d, m / p - n / p);
      Remainder(d, p, 0, d);
    }
  }

  /** The addresses of the first n probes. */
  ghost function Tried(h: Hash, p: nat, n: nat): (s: set<nat>)
    requires p >= 2
    ensures forall x :: x in s ==> x < p
  {
    set k: nat | k < n :: Slot(h, p, k)
  }

  lemma {:induction false} TriedCount(h: Hash, p: nat, n: nat)
    requires Prime(p) && n <= p
    ensures |Tried(h, p, n)| == n
  {
    if n > 0 {
      var last := Slot(h, p, n - 1);
      forall k: nat | k < n - 1
        ensures Slot(h, p, k) != last
      {
        SlotsDiffer(h, p, k, n - 1);
      }
      TriedMore(h, p, n);
      TriedCount(h, p, n - 1);
    }
  }

  lemma TriedMore(h: Hash, p: nat, n: nat)
    requires p >= 2 && n > 0
    ensures Tried(h, p, n) == Tried(h, p, n - 1) + {Slot(h, p, n - 1)}
  {
  }

  ghost function Below(n: nat): (s: set<nat>)
    ensures |s| == n && forall x :: x in s <==> 0 <= x < n
  {
    if n == 0 then {} else Below(n - 1) + {n - 1}
  }

  lemma SubsetFull(a: set<nat>, b: set<nat>)
    requires a <= b && |a| == |b|
    ensures a == b
  {
    assert |b - a| == |b| - |a|;
    assert b == a + (b - a);
  }

  /** The first p probes visit every slot exactly once. */
  lemma EverySlot(h: Hash, p: nat, s: nat) returns (k: nat)
    requires Prime(p) && s < p
    ensures k < p && Slot(h, p, k) == s
    ensures forall j: nat :: j < p && j != k ==> Slot(h, p, j) != s
  {
    TriedCount(h, p, p);
    SubsetFull(Tried(h, p, p), Below(p));
    assert s in Tried(h, p, p);
    k :| k < p && Slot(h, p, k) == s;
    forall j: nat | j < p && j != k
      ensures Slot(h, p, j) != s
    {
      if j < k { SlotsDiffer(h, p, j, k); } else { SlotsDiffer(h, p, k, j); }
    }
  }

  // ----- tables

  /** The first k probes for h find something. */
  ghost predicate Passed<T>(t: seq<Option<T>>, p: nat, h: Hash, k: nat)
    requires p >= 2 && |t| >= p
  {
    forall j: nat :: j < k ==> t[Slot(h, p, j)].Some?
  }

  /** What is stored in slot s is on its own probe path, with no empty slot before it. */
  ghost predicate Linked<T>(t: seq<Option<T>>, p: nat, hash: T -> Hash, s: nat)
    requires p >= 2 && |t| >= p && s < p && t[s].Some?
  {
    exists k: nat :: k < p && Slot(hash(t[s].value), p, k) == s && Passed(t, p, hash(t[s].value), k)
  }

  ghost predicate AllLinked<T>(t: seq<Option<T>>, p: nat, hash: T -> Hash) {
    && p >= 2 && |t| >= p
    && forall s: nat :: s < p && t[s].Some? ==> Linked(t, p, hash, s)
  }

  /** Only the hash numbers of what is stored matter. */
  lemma SameHashes<T>(t: seq<Option<T>>, p: nat, hash: T -> Hash, hash': T -> Hash)
    requires AllLinked(t, p, hash) && forall s: nat :: s < p && t[s].Some? ==> hash'(t[s].value) == hash(t[s].value)
    ensures AllLinked(t, p, hash')
  {
    forall s: nat | s < p && t[s].Some?
      ensures Linked(t, p, hash', s)
    {
      assert Linked(t, p, hash, s);
    }
  }

  /** Everything stored under the hash number h lies among the first k probes, once probe k finds nothing. */
  lemma StoredBefore<T>(t: seq<Option<T>>, p: nat, hash: T -> Hash, h: Hash, k: nat, s: nat) returns (j: nat)
    requires AllLinked(t, p, hash) && t[Slot(h, p, k)] == None
    requires s < p && t[s].Some? && hash(t[s].value) == h
    ensures j < k && Slot(h, p, j) == s
  {
    assert Linked(t, p, hash, s);
    j :| j < p && Slot(h, p, j) == s && Passed(t, p, h, j);
  }

  /** Storing x where its probe path first finds nothing keeps everything reachable, and so does replacing
      something that has the same hash number. */
  lemma StoreKeeps<T>(t: seq<Option<T>>, p: nat, hash: T -> Hash, x: T, k: nat, t': seq<Option<T>>)
    requires AllLinked(t, p, hash) && k < p && Passed(t, p, hash(x), k)
    requires t' == t[Slot(hash(x), p, k) := Some(x)]
    ensures AllLinked(t', p, hash)
  {
    var at := Slot(hash(x), p, k);
    assert Passed(t', p, hash(x), k);
    forall s: nat | s < p && t'[s].Some?
      ensures Linked(t', p, hash, s)
    {
      if s != at {
        assert Linked(t, p, hash, s);
        var h := hash(t[s].value);
        var j: nat :| j < p && Slot(h, p, j) == s && Passed(t, p, h, j);
        assert Passed(t', p, h, j);
      }
    }
  }
}

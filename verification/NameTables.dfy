/** The name table: strings are interned, so that equal strings and equal indices are the same. */
module NameTables {
  import opened Optionals
  import opened Versions
  import opened Probing

  /** No string is stored twice. */
  ghost predicate Distinct(t: seq<Option<CString>>, p: nat) {
    p <= |t| && forall i, j :: 0 <= i < j < p && t[i].Some? ==> t[i] != t[j]
  }

  /** A search for key stops at slot s. */
  predicate Stops(t: seq<Option<CString>>, key: CString, s: nat)
    requires s < |t|
  {
    t[s] == None || t[s] == Some(key)
  }

  /** The probe loop ends exactly when the key or a free slot exists anywhere. */
  lemma SearchEnds(t: seq<Option<CString>>, p: nat, h: Hash, key: CString)
    requires Prime(p) && |t| >= p
    ensures (exists k: nat :: Stops(t, key, Slot(h, p, k))) <==> (exists s: nat :: s < p && Stops(t, key, s))
  {
    if s: nat :| s < p && Stops(t, key, s) {
      var k := EverySlot(h, p, s);
      assert Stops(t, key, Slot(h, p, k));
    }
  }

  /** From t to t', key has been interned at index i. */
  ghost predicate Interned(t: seq<Option<CString>>, t': seq<Option<CString>>, p: nat, key: CString, i: nat) {
    && i < p <= |t| && Stops(t, key, i)
    && t' == t[i := Some(key)]
    && Distinct(t', p)
  }

  /** A probe has stopped at k: key belongs there. */
  lemma InternKeeps(t: seq<Option<CString>>, t': seq<Option<CString>>, p: nat, hash: CString -> Hash, key: CString, k: nat)
    requires AllLinked(t, p, hash) && Distinct(t, p) && k < p
    requires forall j: nat :: j < k ==> !Stops(t, key, Slot(hash(key), p, j))
    requires Stops(t, key, Slot(hash(key), p, k)) && t' == t[Slot(hash(key), p, k) := Some(key)]
    ensures AllLinked(t', p, hash) && Interned(t, t', p, key, Slot(hash(key), p, k))
  {
    var h := hash(key);
    var at := Slot(h, p, k);
    assert Passed(t, p, h, k) by {
      forall j: nat | j < k
        ensures t[Slot(h, p, j)].Some?
      {
        assert !Stops(t, key, Slot(h, p, j));
      }
    }
    StoreKeeps(t, p, hash, key, k, t');
    if t[at] == None {
      forall s: nat | s < p
        ensures t[s] != Some(key)
      {
        if t[s] == Some(key) {
          var j := StoredBefore(t, p, hash, h, k, s);
          assert false;
        }
      }
    }
  }

  class NameTable {
    const hash: CString -> Hash                  // what make_hash computes
    const slots: array<Option<CString>>         // one more than the prime; the last is never used

    constructor (hash: CString -> Hash)
      ensures this.hash == hash && Valid() && fresh(slots)
      ensures forall s :: 0 <= s < slots.Length ==> slots[s] == None
    {
      this.hash := hash;
      slots := new Option<CString>[NAME_HASH_PRIME + 1](_ => None);
    }

    ghost predicate Valid()
      reads slots
    {
      && slots.Length == NAME_HASH_PRIME + 1
      && AllLinked(slots[..], NAME_HASH_PRIME, hash)
      && Distinct(slots[..], NAME_HASH_PRIME)
    }

    /** Finds the index of the key, adding the key if it is not there. */
    method Search(key: CString) returns (probeAddress: nat)
      requires Valid()
      requires exists s: nat :: s < NAME_HASH_PRIME && Stops(slots[..], key, s)
      modifies slots
      ensures Valid()
      ensures Interned(old(slots[..]), slots[..], NAME_HASH_PRIME, key, probeAddress)
    {
      hide Slot, Step, AllLinked, Distinct, Interned;
      ThePrimes();
      ghost var t, h := slots[..], hash(key);
      probeAddress := hash(key).low % NAME_HASH_PRIME;
      var probeDecrement := 1 + hash(key).whole % (NAME_HASH_PRIME - 1);
      ghost var k := 0;
      StartSlot(h, NAME_HASH_PRIME);
      while slots[probeAddress].Some?
        invariant k < NAME_HASH_PRIME && probeAddress == Slot(h, NAME_HASH_PRIME, k)
        invariant forall j: nat :: j < k ==> !Stops(t, key, Slot(h, NAME_HASH_PRIME, j))
        invariant slots[..] == t
        decreases NAME_HASH_PRIME - k
      {
        if slots[probeAddress].value == key {
          assert t == t[probeAddress := Some(key)];
          InternKeeps(t, t, NAME_HASH_PRIME, hash, key, k);
          return;
        }
        StepSlot(h, NAME_HASH_PRIME, k, k + 1, probeAddress, probeDecrement);
        var next: int := probeAddress - probeDecrement;
        if next < 0 {
          next := next + NAME_HASH_PRIME;
        }
        probeAddress := next;
        k := k + 1;
        GoesOn(t, NAME_HASH_PRIME, h, key, k);
      }
      slots[probeAddress] := Some(key);
      InternKeeps(t, slots[..], NAME_HASH_PRIME, hash, key, k);
    }
  }

  lemma StartSlot(h: Hash, p: nat)
    requires p >= 2
    ensures Slot(h, p, 0) == h.low % p
  {
    NextSlot(h, p, 0, 1);
  }

  lemma StepSlot(h: Hash, p: nat, k: nat, next: nat, address: nat, decrement: nat)
    requires p >= 2 && next == k + 1 && address == Slot(h, p, k) && decrement == 1 + h.whole % (p - 1)
    ensures Slot(h, p, next) == if address < decrement then address - decrement + p else address - decrement
  {
    NextSlot(h, p, k, next);
  }

  /** Not all p probes can be in vain. */
  lemma GoesOn(t: seq<Option<CString>>, p: nat, h: Hash, key: CString, k: nat)
    requires Prime(p) && |t| >= p && k <= p
    requires exists s: nat :: s < p && Stops(t, key, s)
    requires forall j: nat :: j < k ==> !Stops(t, key, Slot(h, p, j))
    ensures k < p
  {
    var s: nat :| s < p && Stops(t, key, s);
    var j := EverySlot(h, p, s);
  }

  // ----- any run of calls

  /** The tables before and after each of a sequence of searches. */
  ghost predicate Run(ts: seq<seq<Option<CString>>>, p: nat, keys: seq<CString>, ids: seq<nat>) {
    && |ts| == |keys| + 1 && |ids| == |keys|
    && forall n :: 0 <= n < |keys| ==> RunStep(ts, p, keys, ids, n)
  }

  ghost predicate RunStep(ts: seq<seq<Option<CString>>>, p: nat, keys: seq<CString>, ids: seq<nat>, n: nat)
    requires |ts| == |keys| + 1 && |ids| == |keys| && n < |keys|
  {
    Interned(ts[n], ts[n + 1], p, keys[n], ids[n])
  }

  /** An index once given stands for its key ever after. */
  lemma {:induction false} IndexStays(ts: seq<seq<Option<CString>>>, p: nat, keys: seq<CString>, ids: seq<nat>, a: nat, n: nat)
    requires Run(ts, p, keys, ids) && a < n <= |keys|
    ensures ids[a] < p <= |ts[n]| && ts[n][ids[a]] == Some(keys[a])
    decreases n
  {
    assert RunStep(ts, p, keys, ids, n - 1);
    if a < n - 1 { IndexStays(ts, p, keys, ids, a, n - 1); }
  }

  /** Over any run, two keys have the same index if and only if they are equal. */
  lemma SameIndexSameKey(ts: seq<seq<Option<CString>>>, p: nat, keys: seq<CString>, ids: seq<nat>, a: nat, b: nat)
    requires Run(ts, p, keys, ids) && a < |keys| && b < |keys|
    ensures ids[a] == ids[b] <==> keys[a] == keys[b]
  {
    var n := |keys|;
    IndexStays(ts, p, keys, ids, a, n);
    IndexStays(ts, p, keys, ids, b, n);
    assert RunStep(ts, p, keys, ids, n - 1);
  }
}

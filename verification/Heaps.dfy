/** The priority queue that build_tree keeps in heap[1..heap_len]. */
module Heaps {
  import opened Bits

  type ush = x: int | 0 <= x < 0x10000

  /** Orders nodes by frequency, then by depth: the macro SMALLER compares these numbers. */
  function Key(freq: seq<ush>, depth: seq<byte>, n: nat): nat
    requires n < |freq| && n < |depth|
  {
    var f: int := freq[n];
    f * 256 + depth[n]
  }

  /** Every entry of heap[1..len] is a node. */
  ghost predicate Entries(heap: seq<ush>, len: nat, nodes: nat) {
    len < |heap| && forall i :: 1 <= i <= len ==> heap[i] < nodes
  }

  /** Position c holds no smaller a node than its father. */
  ghost predicate InOrder(heap: seq<ush>, len: nat, freq: seq<ush>, depth: seq<byte>, c: nat)
    requires |freq| <= |depth| && Entries(heap, len, |freq|) && 2 <= c <= len
  {
    Key(freq, depth, heap[c / 2]) <= Key(freq, depth, heap[c])
  }

  /** Position c holds no smaller a node than its grandfather. */
  ghost predicate InOrder2(heap: seq<ush>, len: nat, freq: seq<ush>, depth: seq<byte>, c: nat)
    requires |freq| <= |depth| && Entries(heap, len, |freq|) && 4 <= c <= len
  {
    Key(freq, depth, heap[c / 2 / 2]) <= Key(freq, depth, heap[c])
  }

  /** Fathers from position k on are no larger than their sons. */
  ghost predicate HeapFrom(heap: seq<ush>, len: nat, freq: seq<ush>, depth: seq<byte>, k: nat)
    requires |freq| <= |depth| && Entries(heap, len, |freq|) && k >= 1
  {
    forall c :: 2 * k <= c <= len ==> InOrder(heap, len, freq, depth, c)
  }

  /** The same, except at position hole, which only has to fit between its father's place and its sons. */
  ghost predicate HoleAt(heap: seq<ush>, len: nat, freq: seq<ush>, depth: seq<byte>, k: nat, hole: nat)
    requires |freq| <= |depth| && Entries(heap, len, |freq|) && 1 <= k <= hole
  {
    && (forall c :: 2 * k <= c <= len && c / 2 != hole ==> InOrder(heap, len, freq, depth, c))
    && (forall c :: 4 * k <= c <= len && c / 2 == hole ==> InOrder2(heap, len, freq, depth, c))
  }

  /** Section [1..len] of the heap as a list of nodes. */
  ghost function Live(heap: seq<ush>, len: nat): seq<ush>
    requires len < |heap|
  {
    heap[1..len + 1]
  }

  lemma SwapPermutes(s: seq<ush>, len: nat, i: nat, j: nat)
    requires 1 <= i <= len < |s| && 1 <= j <= len && i != j
    ensures multiset(Live(s[i := s[j]][j := s[i]], len)) == multiset(Live(s, len))
  {
    var t := Live(s, len);
    assert Live(s[i := s[j]][j := s[i]], len) == t[i - 1 := t[j - 1]][j - 1 := t[i - 1]];
  }

  /** Moving the smaller son up moves the hole down. */
  lemma HoleDown(s: seq<ush>, len: nat, freq: seq<ush>, depth: seq<byte>, k: nat, hole: nat, j: nat)
    requires |freq| <= |depth| && Entries(s, len, |freq|) && 1 <= k <= hole
    requires HoleAt(s, len, freq, depth, k, hole)
    requires LeastSon(s, len, freq, depth, hole, j)
    requires Key(freq, depth, s[j]) <= Key(freq, depth, s[hole])
    ensures var t := s[hole := s[j]][j := s[hole]];
            Entries(t, len, |freq|) && HoleAt(t, len, freq, depth, k, j)
  {
    var t := s[hole := s[j]][j := s[hole]];
    assert j / 2 == hole;
    forall c | 2 * k <= c <= len && c / 2 != j
      ensures InOrder(t, len, freq, depth, c)
    {
      if c / 2 == hole {
        assert s[c] == t[c] || c == j;
      } else if c == hole {
        assert 4 * k <= j;
        assert InOrder2(s, len, freq, depth, j);
      } else {
        assert InOrder(s, len, freq, depth, c);
      }
    }
    forall c | 4 * k <= c <= len && c / 2 == j
      ensures InOrder2(t, len, freq, depth, c)
    {
      assert InOrder(s, len, freq, depth, c);
    }
  }

  /** A hole whose entry is no larger than its sons is no hole. */
  lemma HoleFits(s: seq<ush>, len: nat, freq: seq<ush>, depth: seq<byte>, k: nat, hole: nat)
    requires |freq| <= |depth| && Entries(s, len, |freq|) && 1 <= k <= hole
    requires HoleAt(s, len, freq, depth, k, hole)
    requires forall c :: 2 * hole <= c <= 2 * hole + 1 && c <= len ==> Key(freq, depth, s[hole]) <= Key(freq, depth, s[c])
    ensures HeapFrom(s, len, freq, depth, k)
  {
    forall c | 2 * k <= c <= len
      ensures InOrder(s, len, freq, depth, c)
    {
      if c / 2 == hole { assert 2 * hole <= c <= 2 * hole + 1; }
    }
  }

  /** The root of a heap is a smallest node. */
  lemma {:induction false} RootIsLeast(heap: seq<ush>, len: nat, freq: seq<ush>, depth: seq<byte>, c: nat)
    requires |freq| <= |depth| && Entries(heap, len, |freq|)
    requires HeapFrom(heap, len, freq, depth, 1)
    requires 1 <= c <= len
    ensures Key(freq, depth, heap[1]) <= Key(freq, depth, heap[c])
  {
    if c > 1 {
      RootIsLeast(heap, len, freq, depth, c / 2);
      assert InOrder(heap, len, freq, depth, c);
    }
  }

  lemma KeyIsFreq(freq: seq<ush>, depth: seq<byte>, n: nat, m: nat)
    requires |freq| <= |depth| && n < |freq| && m < |freq|
    requires Key(freq, depth, n) <= Key(freq, depth, m)
    ensures freq[n] <= freq[m]
  {
  }

  /** SMALLER(tree, n, m) */
  method Smaller(fc: array<ush>, depth: array<byte>, n: nat, m: nat) returns (r: bool)
    requires fc.Length <= depth.Length && n < fc.Length && m < fc.Length
    ensures r <==> Key(fc[..], depth[..], n) <= Key(fc[..], depth[..], m)
  {
    return fc[n] < fc[m] || (fc[n] == fc[m] && depth[n] <= depth[m]);
  }

  /** The heap `now` is `orig` rearranged, in order but for the hole. */
  ghost predicate Sifting(orig: seq<ush>, now: seq<ush>, len: nat, freq: seq<ush>, depth: seq<byte>, k: nat, hole: nat) {
    && |freq| <= |depth| && 1 <= k <= hole <= len < |orig| == |now|
    && Entries(now, len, |freq|)
    && HoleAt(now, len, freq, depth, k, hole)
    && Rearranged(orig, now, len, k)
  }

  ghost predicate Rearranged(orig: seq<ush>, now: seq<ush>, len: nat, k: nat)
    requires len < |orig| == |now|
  {
    && multiset(Live(now, len)) == multiset(Live(orig, len))
    && forall i :: 0 <= i < |now| && (i < k || i > len) ==> now[i] == orig[i]
  }

  /** j is a smallest son of position k. */
  ghost predicate LeastSon(heap: seq<ush>, len: nat, freq: seq<ush>, depth: seq<byte>, k: nat, j: nat)
    requires |freq| <= |depth| && Entries(heap, len, |freq|)
  {
    && 1 <= k && 2 * k <= j <= 2 * k + 1 && j <= len
    && forall c :: 2 * k <= c <= 2 * k + 1 && c <= len ==> Key(freq, depth, heap[j]) <= Key(freq, depth, heap[c])
  }

  lemma SiftStep(orig: seq<ush>, now: seq<ush>, len: nat, freq: seq<ush>, depth: seq<byte>, k: nat, hole: nat, j: nat)
    requires Sifting(orig, now, len, freq, depth, k, hole)
    requires LeastSon(now, len, freq, depth, hole, j)
    requires Key(freq, depth, now[j]) <= Key(freq, depth, now[hole])
    ensures Sifting(orig, now[hole := now[j]][j := now[hole]], len, freq, depth, k, j)
  {
    HoleDown(now, len, freq, depth, k, hole, j);
    SwapPermutes(now, len, hole, j);
  }

  lemma SiftStart(heap: seq<ush>, len: nat, freq: seq<ush>, depth: seq<byte>, k: nat)
    requires |freq| <= |depth| && 1 <= k <= len && Entries(heap, len, |freq|)
    requires HeapFrom(heap, len, freq, depth, k + 1)
    ensures Sifting(heap, heap, len, freq, depth, k, k)
  {
  }

  lemma SiftLeaf(orig: seq<ush>, now: seq<ush>, len: nat, freq: seq<ush>, depth: seq<byte>, k: nat, hole: nat)
    requires Sifting(orig, now, len, freq, depth, k, hole) && 2 * hole > len
    ensures HeapFrom(now, len, freq, depth, k)
  {
    HoleFits(now, len, freq, depth, k, hole);
  }

  lemma SiftStop(orig: seq<ush>, now: seq<ush>, len: nat, freq: seq<ush>, depth: seq<byte>, k: nat, hole: nat, j: nat)
    requires Sifting(orig, now, len, freq, depth, k, hole)
    requires LeastSon(now, len, freq, depth, hole, j)
    requires Key(freq, depth, now[hole]) <= Key(freq, depth, now[j])
    ensures HeapFrom(now, len, freq, depth, k)
  {
    HoleFits(now, len, freq, depth, k, hole);
  }

  /** Sets j to the smaller of the two sons of k. */
  method SmallerSon(heap: array<ush>, heapLen: nat, fc: array<ush>, depth: array<byte>, k: nat) returns (j: nat)
    requires fc.Length <= depth.Length && Entries(heap[..], heapLen, fc.Length)
    requires 1 <= k && 2 * k <= heapLen
    ensures LeastSon(heap[..], heapLen, fc[..], depth[..], k, j)
  {
    j := 2 * k;
    if j < heapLen {
      assert heap[..][j] == heap[j] && heap[..][j + 1] == heap[j + 1];
      var right := Smaller(fc, depth, heap[j + 1], heap[j]);
      if right { j := j + 1; }
    } else {
      assert heap[..][j] == heap[j];
    }
  }

  /** One turn of the loop: v either fits at k, or the smaller son of k moves up to k. */
  method SiftOnce(heap: array<ush>, heapLen: nat, fc: array<ush>, depth: array<byte>, k: nat, v: ush,
                  ghost orig: seq<ush>, ghost full: seq<ush>, ghost k0: nat)
    returns (done: bool, j: nat)
    requires heap != fc && fc.Length <= depth.Length
    requires Sifting(orig, full, heapLen, fc[..], depth[..], k0, k) && 2 * k <= heapLen < heap.Length
    requires Entries(heap[..], heapLen, fc.Length) && heap[..][k := v] == full
    modifies heap
    ensures Entries(heap[..], heapLen, fc.Length)
    ensures done ==> heap[..][k := v] == full && HeapFrom(full, heapLen, fc[..], depth[..], k0)
    ensures !done ==> k < j <= heapLen
    ensures !done ==> heap[..][j := v] == full[k := full[j]][j := v]
    ensures !done ==> Sifting(orig, full[k := full[j]][j := v], heapLen, fc[..], depth[..], k0, j)
  {
    ghost var freq, deep := fc[..], depth[..];
    j := SmallerSon(heap, heapLen, fc, depth, k);
    SonsAgree(heap[..], full, heapLen, freq, deep, k, j, v);
    done := Smaller(fc, depth, v, heap[j]);
    if done {
      SiftStop(orig, full, heapLen, freq, deep, k0, k, j);
    } else {
      SiftStep(orig, full, heapLen, freq, deep, k0, k, j);
      MoveUp(heap[..], full, heapLen, |freq|, k, j, v);
      ghost var before := heap[..];
      heap[k] := heap[j];
      assert heap[..] == before[k := before[j]];
    }
  }

  /** Sifts heap[k] down until it is no larger than its sons. */
  method PqDownHeap(heap: array<ush>, heapLen: nat, fc: array<ush>, depth: array<byte>, k0: nat)
    requires heap != fc && fc.Length <= depth.Length
    requires 1 <= k0 <= heapLen && Entries(heap[..], heapLen, fc.Length)
    requires HeapFrom(heap[..], heapLen, fc[..], depth[..], k0 + 1)
    modifies heap
    ensures Entries(heap[..], heapLen, fc.Length)
    ensures HeapFrom(heap[..], heapLen, fc[..], depth[..], k0)
    ensures Rearranged(old(heap[..]), heap[..], heapLen, k0)
  {
    ghost var freq, deep, orig := fc[..], depth[..], heap[..];
    var k := k0;
    var v := heap[k];
    // the heap as if v stood in its place already
    ghost var full := heap[..];
    SiftStart(full, heapLen, freq, deep, k);
    var done := false;
    while !done && 2 * k <= heapLen
      invariant fc[..] == freq && depth[..] == deep
      invariant Sifting(orig, full, heapLen, freq, deep, k0, k)
      invariant Entries(heap[..], heapLen, |freq|)
      invariant heap[..][k := v] == full
      invariant done ==> HeapFrom(full, heapLen, freq, deep, k0)
      decreases !done, heapLen - k
    {
      var j;
      done, j := SiftOnce(heap, heapLen, fc, depth, k, v, orig, full, k0);
      if !done {
        full := full[k := full[j]][j := v];
        k := j;
      }
    }
    if !done {
      SiftLeaf(orig, full, heapLen, freq, deep, k0, k);
    }
    heap[k] := v;
    assert heap[..] == full;
  }

  lemma MoveUp(heap: seq<ush>, full: seq<ush>, len: nat, nodes: nat, k: nat, j: nat, v: ush)
    requires k < |heap| && j < |heap| && j != k && heap[k := v] == full
    requires Entries(heap, len, nodes) && 1 <= j <= len
    ensures heap[k := heap[j]][j := v] == full[k := full[j]][j := v]
    ensures Entries(heap[k := heap[j]], len, nodes)
  {
  }

  lemma SonsAgree(heap: seq<ush>, full: seq<ush>, len: nat, freq: seq<ush>, depth: seq<byte>, k: nat, j: nat, v: ush)
    requires 1 <= k < |heap| && heap[k := v] == full && |freq| <= |depth|
    requires Entries(full, len, |freq|) && Entries(heap, len, |freq|)
    requires LeastSon(heap, len, freq, depth, k, j)
    ensures LeastSon(full, len, freq, depth, k, j)
    ensures full[k] == v && full[j] == heap[j]
  {
  }
}

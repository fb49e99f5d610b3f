/** The main loop of build_tree: combining the two least frequent nodes. */
module TreeBuilding {
  import opened Bits
  import opened Sums
  import opened Heaps
  import opened Trees

  /** From the last father to the root, each node sinks to its place: then all is a heap. */
  method Heapify(heap: array<ush>, heapLen: nat, fc: array<ush>, depth: array<byte>)
    requires heap != fc && fc.Length <= depth.Length
    requires Entries(heap[..], heapLen, fc.Length)
    modifies heap
    ensures Entries(heap[..], heapLen, fc.Length)
    ensures HeapFrom(heap[..], heapLen, fc[..], depth[..], 1)
    ensures Rearranged(old(heap[..]), heap[..], heapLen, 1)
  {
    ghost var orig := heap[..];
    var n := heapLen / 2;
    while n >= 1
      invariant 0 <= n <= heapLen / 2
      invariant Entries(heap[..], heapLen, fc.Length)
      invariant HeapFrom(heap[..], heapLen, fc[..], depth[..], n + 1)
      invariant Rearranged(orig, heap[..], heapLen, 1)
    {
      ghost var h := heap[..];
      PqDownHeap(heap, heapLen, fc, depth, n);
      RearrangedTwice(orig, h, heap[..], heapLen, 1, n);
      n := n - 1;
    }
  }

  lemma RearrangedTwice(a: seq<ush>, b: seq<ush>, c: seq<ush>, len: nat, j: nat, k: nat)
    requires len < |a| == |b| == |c| && j <= k
    requires Rearranged(a, b, len, j) && Rearranged(b, c, len, k)
    ensures Rearranged(a, c, len, j)
  {
  }

  /** No node in the heap has a lower frequency. */
  ghost predicate IsLeast(h: seq<ush>, len: nat, f: seq<ush>, top: ush) {
    len < |h| && top in multiset(Live(h, len)) && top < |f| && forall x :: x in multiset(Live(h, len)) && x < |f| ==> f[top] <= f[x]
  }

  /** The root is off the heap. */
  ghost predicate Removed(h: seq<ush>, len: nat, k: seq<ush>, top: nat) {
    && 2 <= len < |h| == |k| && top == h[1]
    && multiset(Live(k, len - 1)) + multiset{h[1]} == multiset(Live(h, len))
    && k[len..] == h[len..]
  }

  lemma DropRoot(h: seq<ush>, len: nat)
    requires 2 <= len < |h|
    ensures multiset(Live(h[1 := h[len]], len - 1)) + multiset{h[1]} == multiset(Live(h, len))
  {
    var live := Live(h, len);
    assert live == [h[1]] + h[2..len] + [h[len]];
    assert Live(h[1 := h[len]], len - 1) == [h[len]] + h[2..len];
  }

  lemma RemovedBy(h: seq<ush>, len: nat, mid: seq<ush>, k: seq<ush>)
    requires 2 <= len < |h| == |mid| == |k| && mid == h[1 := h[len]]
    requires Rearranged(mid, k, len - 1, 1)
    ensures Removed(h, len, k, h[1])
  {
    DropRoot(h, len);
    assert k[len..] == mid[len..] == h[len..];
  }

  lemma HeapTail(h: seq<ush>, len: nat, freq: seq<ush>, depth: seq<byte>, x: ush)
    requires |freq| <= |depth| && 2 <= len && Entries(h, len, |freq|) && x < |freq|
    requires HeapFrom(h, len, freq, depth, 1)
    ensures Entries(h[1 := x], len - 1, |freq|)
    ensures HeapFrom(h[1 := x], len - 1, freq, depth, 2)
  {
    var k, short := h[1 := x], len - 1;
    forall c | 4 <= c <= short
      ensures InOrder(k, short, freq, depth, c)
    {
      assert InOrder(h, len, freq, depth, c);
    }
  }

  /** Of two nodes, the less frequent one is to be taken first, and of equals one that is not deeper. */
  ghost predicate TakenFirst(f: seq<ush>, d: seq<byte>, n: nat, m: nat) {
    n < |f| <= |d| && m < |f| && (f[n] < f[m] || (f[n] == f[m] && d[n] <= d[m]))
  }

  lemma RootIsFirst(h: seq<ush>, len: nat, f: seq<ush>, d: seq<byte>)
    requires |f| <= |d| && 1 <= len && Entries(h, len, |f|) && HeapFrom(h, len, f, d, 1)
    ensures forall i :: 1 <= i <= len ==> TakenFirst(f, d, h[1], h[i])
  {
    forall i | 1 <= i <= len
      ensures TakenFirst(f, d, h[1], h[i])
    {
      RootIsLeast(h, len, f, d, i);
    }
  }

  /** The macro PQREMOVE: takes a least node off the heap. */
  method PqRemove(heap: array<ush>, heapLen: nat, fc: array<ush>, depth: array<byte>) returns (top: ush)
    requires heap != fc && fc.Length <= depth.Length && heapLen >= 2
    requires Entries(heap[..], heapLen, fc.Length)
    requires HeapFrom(heap[..], heapLen, fc[..], depth[..], 1)
    modifies heap
    ensures Removed(old(heap[..]), heapLen, heap[..], top)
    ensures IsLeast(old(heap[..]), heapLen, fc[..], top)
    ensures forall i :: 1 <= i <= heapLen ==> TakenFirst(fc[..], depth[..], top, old(heap[..])[i])
    ensures Entries(heap[..], heapLen - 1, fc.Length)
    ensures HeapFrom(heap[..], heapLen - 1, fc[..], depth[..], 1)
  {
    hide IsLeast, TakenFirst;
    ghost var h, f, d := heap[..], fc[..], depth[..];
    RootIsLeastOne(h, heapLen, f, d);
    RootIsFirst(h, heapLen, f, d);
    top := heap[1];
    heap[1] := heap[heapLen];
    ghost var mid := heap[..];
    assert mid == h[1 := h[heapLen]];
    HeapTail(h, heapLen, f, d, h[heapLen]);
    PqDownHeap(heap, heapLen - 1, fc, depth, 1);
    RemovedBy(h, heapLen, mid, heap[..]);
  }

  lemma EntriesOfRearranged(h: seq<ush>, k: seq<ush>, len: nat, nodes: nat)
    requires len < |h| == |k| && Entries(h, len, nodes)
    requires multiset(Live(k, len)) == multiset(Live(h, len))
    ensures Entries(k, len, nodes)
  {
    forall i | 1 <= i <= len
      ensures k[i] < nodes
    {
      assert Live(k, len)[i - 1] == k[i];
      assert k[i] in multiset(Live(h, len));
      assert k[i] in Live(h, len);
    }
  }

  lemma KeySame(f: seq<ush>, d: seq<byte>, f': seq<ush>, d': seq<byte>, x: nat)
    requires x < |f| && x < |d| && x < |f'| && x < |d'| && f[x] == f'[x] && d[x] == d'[x]
    ensures Key(f, d, x) == Key(f', d', x)
  {
  }

  /** Nodes before `node` have kept their frequencies and depths. */
  ghost predicate SameBelow(f: seq<ush>, f': seq<ush>, d: seq<byte>, d': seq<byte>, node: nat) {
    && |f'| == |f| && |d'| == |d| && node < |f| <= |d|
    && forall x :: 0 <= x < node ==> f'[x] == f[x] && d'[x] == d[x]
  }

  /** A new node is put at the root; what changed above the heap and in the new node's own cells is no matter. */
  lemma ReadyToSift(h: seq<ush>, k: seq<ush>, len: nat, f: seq<ush>, f': seq<ush>, d: seq<byte>, d': seq<byte>, node: ush)
    requires 1 <= len < |h| == |k| && Entries(h, len, node)
    requires |f| <= |d| && |f'| == |f| && |d'| == |d| && node < |f|
    requires HeapFrom(h, len, f, d, 1)
    requires k[1] == node && forall i :: 2 <= i <= len ==> k[i] == h[i]
    requires SameBelow(f, f', d, d', node)
    ensures Entries(k, len, node + 1)
    ensures HeapFrom(k, len, f', d', 2)
  {
    forall c | 4 <= c <= len
      ensures InOrder(k, len, f', d', c)
    {
      assert InOrder(h, len, f, d, c);
      KeySame(f, d, f', d', h[c / 2]);
      KeySame(f, d, f', d', h[c]);
    }
  }

  lemma RootReplaced(h: seq<ush>, k: seq<ush>, len: nat, node: ush)
    requires 1 <= len < |h| == |k|
    requires k[1] == node && forall i :: 2 <= i <= len ==> k[i] == h[i]
    ensures multiset(Live(k, len)) + multiset{h[1]} == multiset(Live(h, len)) + multiset{node}
  {
    assert Live(h, len) == [h[1]] + h[2..len + 1];
    assert Live(k, len) == [node] + h[2..len + 1];
  }

  /** n and m have left the heap, in this order, and node has come. */
  ghost predicate Exchanged(s: TreeState, t: TreeState, node: ush, n: ush, m: ush) {
    && s.heapLen >= 2 && t.heapLen == s.heapLen - 1 && s.heapLen < |s.heap| == |t.heap|
    && multiset(Live(t.heap, t.heapLen)) + multiset{n} + multiset{m} == multiset(Live(s.heap, s.heapLen)) + multiset{node}
    && s.heapMax <= |s.heap| && t.heapMax == s.heapMax - 2 && t.heapMax > t.heapLen
    && t.heap[t.heapMax..] == [m, n] + s.heap[s.heapMax..]
  }

  function Plus(a: int, b: int): int {
    a + b
  }

  /** n and m have got node for a father, who weighs what they weigh together. */
  ghost predicate Fathered(s: TreeState, t: TreeState, node: ush, n: ush, m: ush) {
    && n < node && m < node < |s.fc| && |s.dl| == |s.fc|
    && Plus(s.fc[n], s.fc[m]) < 0x10000
    && t.fc == s.fc[node := Plus(s.fc[n], s.fc[m])]
    && t.dl == s.dl[n := node][m := node]
    && t.optLen == s.optLen && t.staticLen == s.staticLen && t.maxCode == s.maxCode
    && node < |s.depth| && t.depth == s.depth[node := Deeper(s.depth, n, m)]
  }

  /** One more than the depth of the deeper one, in a byte. */
  function Deeper(d: seq<byte>, n: nat, m: nat): byte {
    if n >= |d| || m >= |d| then 0 else if d[n] >= d[m] then Plus(d[n], 1) % 256 else Plus(d[m], 1) % 256
  }

  /** A well-formed heap of nodes below node. */
  ghost predicate Queue(s: TreeState, node: nat) {
    && |s.fc| <= |s.depth| && node <= |s.fc|
    && Entries(s.heap, s.heapLen, node)
    && HeapFrom(s.heap, s.heapLen, s.fc, s.depth, 1)
  }

  /** n is a node of least frequency, and m is the least of the others. */
  ghost predicate LeastTwo(s: TreeState, n: ush, m: ush) {
    && s.heapLen < |s.heap|
    && n in multiset(Live(s.heap, s.heapLen))
    && m in multiset(Live(s.heap, s.heapLen)) - multiset{n}
    && (forall x :: x in multiset(Live(s.heap, s.heapLen)) && x < |s.fc| && n < |s.fc| ==> s.fc[n] <= s.fc[x])
    && (forall x :: x in multiset(Live(s.heap, s.heapLen)) - multiset{n} && x < |s.fc| && m < |s.fc| ==> s.fc[m] <= s.fc[x])
  }

  lemma RootIsLeastOne(h: seq<ush>, len: nat, f: seq<ush>, d: seq<byte>)
    requires |f| <= |d| && 1 <= len && Entries(h, len, |f|) && HeapFrom(h, len, f, d, 1)
    ensures IsLeast(h, len, f, h[1])
  {
    RootLeast(h, len, f, d);
  }

  lemma RootLeast(h: seq<ush>, len: nat, f: seq<ush>, d: seq<byte>)
    requires |f| <= |d| && 1 <= len && Entries(h, len, |f|) && HeapFrom(h, len, f, d, 1)
    ensures h[1] in multiset(Live(h, len))
    ensures forall x :: x in multiset(Live(h, len)) && x < |f| ==> f[h[1]] <= f[x]
  {
    assert Live(h, len)[0] == h[1];
    forall x | x in multiset(Live(h, len)) && x < |f|
      ensures f[h[1]] <= f[x]
    {
      assert x in Live(h, len);
      var i :| 0 <= i < len && Live(h, len)[i] == x;
      RootIsLeast(h, len, f, d, i + 1);
      KeyIsFreq(f, d, h[1], x);
    }
  }

  /** The new father's cells. */
  method MakeFather(depth: array<byte>, fc: array<ush>, dl: array<ush>, n: nat, m: nat, node: nat)
    requires fc != dl && dl.Length == fc.Length <= depth.Length
    requires n < node && m < node < fc.Length < 0x10000
    requires Plus(fc[n], fc[m]) < 0x10000
    modifies depth, fc, dl
    ensures var f := old(fc[..]); fc[..] == f[node := Plus(f[n], f[m])]
    ensures dl[..] == old(dl[..])[n := node][m := node]
    ensures depth[..] == old(depth[..])[node := old(Deeper(depth[..], n, m))]
    ensures SameBelow(old(fc[..]), fc[..], old(depth[..]), depth[..], node)
  {
    var deeper := if depth[n] >= depth[m] then depth[n] else depth[m];
    fc[node] := Plus(fc[n], fc[m]);
    depth[node] := Plus(deeper, 1) % 256;
    dl[n] := node;
    dl[m] := node;
  }

  /** From heap h of length len and sorted end from max on, to the heap k. */
  ghost predicate TookTwo(h: seq<ush>, len: nat, max: nat, k: seq<ush>, f: seq<ush>, d: seq<byte>, n: nat, m: nat) {
    && |f| <= |d| && 2 <= len && len + 2 <= max <= |h| == |k|
    && n == h[1] && m == k[1]
    && Entries(k, len - 1, |f|) && HeapFrom(k, len - 1, f, d, 1)
    && multiset(Live(k, len - 1)) + multiset{h[1]} == multiset(Live(h, len))
    && k[max - 2..] == [m, n] + h[max..]
  }

  lemma TookThenPushed(h: seq<ush>, len: nat, max: nat, j: seq<ush>, k: seq<ush>, f: seq<ush>, d: seq<byte>)
    requires |f| <= |d| && 2 <= len && len + 2 <= max <= |h|
    requires Removed(h, len, j, h[1])
    requires Entries(j, len - 1, |f|) && HeapFrom(j, len - 1, f, d, 1)
    requires PushedTwo(j, k, max, h[1], j[1])
    ensures TookTwo(h, len, max, k, f, d, h[1], j[1])
  {
    PushKeepsHeap(j, k, len - 1, max, h[1], j[1], f, d);
    SameTails(h, j, len, max);
  }

  lemma SameTails(h: seq<ush>, j: seq<ush>, len: nat, max: nat)
    requires len <= max <= |h| == |j| && j[len..] == h[len..]
    ensures j[max..] == h[max..]
  {
    assert j[max..] == j[len..][max - len..];
    assert h[max..] == h[len..][max - len..];
  }

  /** The two least nodes leave the heap for the sorted end of the array. */
  method TakeTwo(heap: array<ush>, heapLen: nat, heapMax: nat, fc: array<ush>, depth: array<byte>)
    returns (n: ush, m: ush)
    requires heap != fc && fc.Length <= depth.Length
    requires 2 <= heapLen && heapLen + 2 <= heapMax <= heap.Length
    requires Entries(heap[..], heapLen, fc.Length)
    requires HeapFrom(heap[..], heapLen, fc[..], depth[..], 1)
    modifies heap
    ensures TookTwo(old(heap[..]), heapLen, heapMax, heap[..], fc[..], depth[..], n, m)
  {
    ghost var h := heap[..];
    n := PqRemove(heap, heapLen, fc, depth);
    ghost var j := heap[..];
    m := heap[1];
    heap[heapMax - 1] := n;
    heap[heapMax - 2] := m;
    PushedThere(j, heap[..], heapMax, n, m);
    TookThenPushed(h, heapLen, heapMax, j, heap[..], fc[..], depth[..]);
  }

  lemma PushedThere(h: seq<ush>, k: seq<ush>, max: nat, n: ush, m: ush)
    requires 2 <= max <= |h| && k == h[max - 1 := n][max - 2 := m]
    ensures PushedTwo(h, k, max, n, m)
  {
  }

  /** The heap and the sorted end of the array after n and m are put there. */
  ghost predicate PushedTwo(h: seq<ush>, k: seq<ush>, max: nat, n: nat, m: nat) {
    && 2 <= max <= |h| == |k|
    && (forall i :: 0 <= i < max - 2 ==> k[i] == h[i])
    && k[max - 2..] == [m, n] + h[max..]
  }

  lemma PushKeepsHeap(h: seq<ush>, k: seq<ush>, len: nat, max: nat, n: nat, m: nat, f: seq<ush>, d: seq<byte>)
    requires PushedTwo(h, k, max, n, m) && 1 <= len && len + 2 < max
    requires |f| <= |d| && Entries(h, len, |f|) && HeapFrom(h, len, f, d, 1)
    ensures Entries(k, len, |f|) && HeapFrom(k, len, f, d, 1)
    ensures Live(k, len) == Live(h, len) && k[1] == h[1]
  {
    SameHeap(h, k, len, f, d);
  }

  lemma SameHeap(h: seq<ush>, k: seq<ush>, len: nat, f: seq<ush>, d: seq<byte>)
    requires |f| <= |d| && len < |h| == |k| && Entries(h, len, |f|) && HeapFrom(h, len, f, d, 1)
    requires forall i :: 1 <= i <= len ==> k[i] == h[i]
    ensures Entries(k, len, |f|) && HeapFrom(k, len, f, d, 1)
    ensures Live(k, len) == Live(h, len)
  {
    forall c | 2 <= c <= len
      ensures InOrder(k, len, f, d, c)
    {
      assert InOrder(h, len, f, d, c);
    }
  }

  /** One turn of the main loop, on values. */
  ghost predicate Combined(s: TreeState, t: TreeState, node: ush, n: ush, m: ush) {
    && Exchanged(s, t, node, n, m)
    && Fathered(s, t, node, n, m)
    && Queue(s, node) && Queue(t, node + 1)
    && LeastTwo(s, n, m)
  }

  /** The frequencies of a list of nodes. */
  function Freqs(ids: seq<ush>, f: seq<ush>): (r: seq<nat>)
    ensures |r| == |ids|
    ensures forall p :: 0 <= p < |ids| ==> r[p] == if ids[p] < |f| then f[ids[p]] else 0
  {
    seq(|ids|, p requires 0 <= p < |ids| => if ids[p] < |f| then f[ids[p]] else 0)
  }

  /** What all nodes in the heap weigh together. */
  ghost function Weight(s: TreeState): int
    requires s.heapLen < |s.heap|
  {
    Sum(Freqs(Live(s.heap, s.heapLen), s.fc))
  }

  lemma OneFreq(ids: seq<ush>, f: seq<ush>, n: ush)
    requires n in multiset(ids) && n < |f|
    ensures f[n] <= Sum(Freqs(ids, f))
  {
    assert n in ids;
    var i :| 0 <= i < |ids| && ids[i] == n;
    TermOfSum(Freqs(ids, f), i);
  }

  lemma {:induction false} TermOfSum(s: seq<int>, i: nat)
    requires i < |s| && forall k :: 0 <= k < |s| ==> s[k] >= 0
    ensures 0 <= s[i] <= Sum(s)
  {
    var n := |s| - 1;
    if i == n {
      if n > 0 { TermOfSum(s[..n], 0); }
    } else {
      TermOfSum(s[..n], i);
    }
  }

  lemma TwoFreqs(ids: seq<ush>, f: seq<ush>, n: ush, m: ush)
    requires n in multiset(ids) && m in multiset(ids) - multiset{n} && n < |f| && m < |f|
    ensures Plus(f[n], f[m]) <= Sum(Freqs(ids, f))
  {
    assert n in ids;
    var i :| 0 <= i < |ids| && ids[i] == n;
    WithoutCounts(ids, i);
    OneFreq(Without(ids, i), f, m);
    WithoutFreqs(ids, f, i);
  }

  lemma WithoutCounts(ids: seq<ush>, i: nat)
    requires i < |ids|
    ensures multiset(Without(ids, i)) == multiset(ids) - multiset{ids[i]}
  {
    assert ids == ids[..i] + [ids[i]] + ids[i + 1..];
  }

  lemma WithoutFreqs(ids: seq<ush>, f: seq<ush>, i: nat)
    requires i < |ids|
    ensures Sum(Freqs(Without(ids, i), f)) == Sum(Freqs(ids, f)) - Freqs(ids, f)[i]
  {
    assert Freqs(Without(ids, i), f) == Without(Freqs(ids, f), i);
    SumWithout(Freqs(ids, f), i);
  }

  /** Both nodes taken come from the heap, and are the least there. */
  lemma TookLeast(s: TreeState, k: seq<ush>, n: ush, m: ush)
    requires s.heapLen < |s.heap| && |s.fc| <= |s.depth|
    requires Entries(s.heap, s.heapLen, |s.fc|) && HeapFrom(s.heap, s.heapLen, s.fc, s.depth, 1)
    requires TookTwo(s.heap, s.heapLen, s.heapMax, k, s.fc, s.depth, n, m)
    ensures LeastTwo(s, n, m)
    ensures n < |s.fc| && m < |s.fc|
  {
    hide HeapFrom;
    RootLeast(s.heap, s.heapLen, s.fc, s.depth);
    RootLeast(k, s.heapLen - 1, s.fc, s.depth);
    PlusMinus(multiset(Live(k, s.heapLen - 1)), multiset{n}, multiset(Live(s.heap, s.heapLen)));
  }

  lemma PlusMinus(a: multiset<ush>, b: multiset<ush>, c: multiset<ush>)
    requires a + b == c
    ensures c - b == a
  {
  }

  lemma BothBelow(s: TreeState, n: ush, m: ush, node: nat)
    requires s.heapLen < |s.heap| && Entries(s.heap, s.heapLen, node)
    requires n in multiset(Live(s.heap, s.heapLen)) && m in multiset(Live(s.heap, s.heapLen)) - multiset{n}
    ensures n < node && m < node
  {
    assert n in Live(s.heap, s.heapLen);
    assert m in multiset(Live(s.heap, s.heapLen));
    assert m in Live(s.heap, s.heapLen);
  }

  lemma ExchangeDone(s: TreeState, t: TreeState, k: seq<ush>, node: ush, n: ush, m: ush)
    requires TookTwo(s.heap, s.heapLen, s.heapMax, k, s.fc, s.depth, n, m)
    requires t.heapLen == s.heapLen - 1 && t.heapMax == s.heapMax - 2 && |t.heap| == |s.heap|
    requires Rearranged(k[1 := node], t.heap, t.heapLen, 1)
    ensures Exchanged(s, t, node, n, m)
  {
    hide Live;
    var mid := k[1 := node];
    RootReplaced(k, mid, t.heapLen, node);
    SwapSides(multiset(Live(t.heap, t.heapLen)), multiset(Live(k, t.heapLen)), multiset(Live(s.heap, s.heapLen)), n, m, node);
    forall i | t.heapMax <= i < |t.heap|
      ensures t.heap[i] == k[i]
    {
      assert mid[i] == k[i];
    }
    assert t.heap[t.heapMax..] == k[t.heapMax..];
  }

  lemma SwapSides(a: multiset<ush>, b: multiset<ush>, c: multiset<ush>, n: ush, m: ush, node: ush)
    requires a + multiset{m} == b + multiset{node}
    requires b + multiset{n} == c
    ensures a + multiset{n} + multiset{m} == c + multiset{node}
  {
    assert a + multiset{n} + multiset{m} == (a + multiset{m}) + multiset{n};
    assert (b + multiset{node}) + multiset{n} == (b + multiset{n}) + multiset{node};
  }

  /** The part of a state that the main loop works on is what these arrays hold. */
  ghost predicate Holds(s: TreeState, heap: array<ush>, heapLen: nat, heapMax: nat, depth: array<byte>,
                        fc: array<ush>, dl: array<ush>)
    reads heap, depth, fc, dl
  {
    && s.heap == heap[..] && s.heapLen == heapLen && s.heapMax == heapMax
    && s.depth == depth[..] && s.fc == fc[..] && s.dl == dl[..]
  }

  /** Combines the two least frequent nodes under a new one. */
  method CombineTwo(heap: array<ush>, heapLen: nat, heapMax: nat, depth: array<byte>, fc: array<ush>, dl: array<ush>,
                    node: ush, ghost s: TreeState)
    returns (ghost t: TreeState, ghost n: ush, ghost m: ush)
    requires heap != fc && heap != dl && fc != dl && dl.Length == fc.Length <= depth.Length && fc.Length < 0x10000
    requires 2 <= heapLen && heapLen + 2 <= heapMax <= heap.Length
    requires node < fc.Length
    requires Holds(s, heap, heapLen, heapMax, depth, fc, dl)
    requires Queue(s, node) && Weight(s) < 0x10000
    modifies heap, depth, fc, dl
    ensures Holds(t, heap, heapLen - 1, heapMax - 2, depth, fc, dl)
    ensures Combined(s, t, node, n, m)
  {
    hide HeapFrom, Combined, Weight, Live, LeastTwo, Deeper;
    var a, b := TakeTwo(heap, heapLen, heapMax, fc, depth);
    n, m := a, b;
    ghost var k := heap[..];
    BeforeFather(s, k, n, m, node);
    assert fc[..] == s.fc && dl[..] == s.dl && depth[..] == s.depth;
    MakeFather(depth, fc, dl, a, b, node);
    ghost var f, l, d := fc[..], dl[..], depth[..];
    assert f == s.fc[node := Plus(s.fc[n], s.fc[m])];
    assert l == s.dl[n := node][m := node];
    assert heap[..] == k;
    PutAtRoot(heap, heapLen - 1, fc, depth, node, k, s.fc, s.depth);
    assert fc[..] == f && dl[..] == l && depth[..] == d;
    t := s.(heap := heap[..], heapLen := heapLen - 1, heapMax := heapMax - 2,
                      depth := depth[..], fc := fc[..], dl := dl[..]);
    AfterSift(s, t, k, k[1 := node], node, n, m);
  }

  /** The new node takes the root's place and sinks to its own. */
  method PutAtRoot(heap: array<ush>, heapLen: nat, fc: array<ush>, depth: array<byte>, node: ush,
                   ghost k: seq<ush>, ghost f: seq<ush>, ghost d: seq<byte>)
    requires heap != fc && fc.Length <= depth.Length && heap[..] == k
    requires 1 <= heapLen < heap.Length && node < fc.Length
    requires SameBelow(f, fc[..], d, depth[..], node)
    requires Entries(heap[..], heapLen, node)
    requires HeapFrom(heap[..], heapLen, f, d, 1)
    modifies heap
    ensures |heap[..]| == |k|
    ensures Entries(k[1 := node], heapLen, node + 1)
    ensures Rearranged(k[1 := node], heap[..], heapLen, 1)
    ensures Entries(heap[..], heapLen, fc.Length)
    ensures HeapFrom(heap[..], heapLen, fc[..], depth[..], 1)
  {
    heap[1] := node;
    ghost var mid := heap[..];
    assert mid == k[1 := node];
    ReadyToSift(k, mid, heapLen, f, fc[..], d, depth[..], node);
    PqDownHeap(heap, heapLen, fc, depth, 1);
  }

  lemma BeforeFather(s: TreeState, k: seq<ush>, n: ush, m: ush, node: ush)
    requires Queue(s, node) && node < |s.fc| && Weight(s) < 0x10000
    requires TookTwo(s.heap, s.heapLen, s.heapMax, k, s.fc, s.depth, n, m)
    ensures n < node && m < node
    ensures Plus(s.fc[n], s.fc[m]) < 0x10000
    ensures Entries(k, s.heapLen - 1, node)
  {
    TookLeast(s, k, n, m);
    BothBelow(s, n, m, node);
    TwoFreqs(Live(s.heap, s.heapLen), s.fc, n, m);
    EntriesLeft(s, k, n, m, node);
  }

  lemma AfterSift(s: TreeState, t: TreeState, k: seq<ush>, mid: seq<ush>, node: ush, n: ush, m: ush)
    requires Queue(s, node) && Fathered(s, t, node, n, m)
    requires TookTwo(s.heap, s.heapLen, s.heapMax, k, s.fc, s.depth, n, m)
    requires mid == k[1 := node] && Entries(mid, s.heapLen - 1, node + 1)
    requires t.heapLen == s.heapLen - 1 && t.heapMax == s.heapMax - 2 && |t.heap| == |s.heap|
    requires Rearranged(mid, t.heap, t.heapLen, 1)
    requires |t.fc| <= |t.depth| && Entries(t.heap, t.heapLen, |t.fc|)
    requires HeapFrom(t.heap, t.heapLen, t.fc, t.depth, 1)
    ensures Combined(s, t, node, n, m)
  {
    TookLeast(s, k, n, m);
    ExchangeDone(s, t, k, node, n, m);
    EntriesOfRearranged(mid, t.heap, t.heapLen, node + 1);
  }

  lemma EntriesLeft(s: TreeState, k: seq<ush>, n: ush, m: ush, node: nat)
    requires s.heapLen < |s.heap| && Entries(s.heap, s.heapLen, node)
    requires TookTwo(s.heap, s.heapLen, s.heapMax, k, s.fc, s.depth, n, m)
    ensures Entries(k, s.heapLen - 1, node)
  {
    var len := s.heapLen - 1;
    forall i | 1 <= i <= len
      ensures k[i] < node
    {
      assert Live(k, len)[i - 1] == k[i];
      assert k[i] in multiset(Live(k, len));
      assert k[i] in multiset(Live(s.heap, s.heapLen));
      assert k[i] in Live(s.heap, s.heapLen);
    }
  }
}

/** Running build_tree's main loop to the root. */
module TreeLoop {
  import opened Bits
  import opened Sums
  import opened Huffman
  import opened Heaps
  import opened Trees
  import opened InitialHeap
  import opened TreeBuilding
  import opened TreeGrowth

  /** Codes that do not occur have length 0. */
  ghost predicate Unused(f: seq<ush>, d: seq<ush>, elems: nat) {
    elems <= |f| && elems <= |d| && forall i :: 0 <= i < elems && f[i] == 0 ==> d[i] == 0
  }

  lemma UnusedStep(s: TreeState, t: TreeState, elems: nat, node: ush, n: ush, m: ush, w0: multiset<nat>)
    requires Grown(s, elems, node, w0) && node < 2 * elems && Combined(s, t, node, n, m)
    requires Unused(s.fc, s.dl, elems)
    ensures Unused(t.fc, t.dl, elems)
  {
    LiveIsUsed(s, elems, node, w0, n);
    TakeMinus(multiset(Live(s.heap, s.heapLen)), n, m);
    LiveIsUsed(s, elems, node, w0, m);
    UnusedKept(s.fc, t.fc, s.dl, t.dl, elems, node, n, m);
  }

  lemma TakeMinus(a: multiset<ush>, n: ush, m: ush)
    requires m in a - multiset{n}
    ensures m in a
  {
  }

  lemma UnusedKept(f: seq<ush>, f': seq<ush>, d: seq<ush>, d': seq<ush>, elems: nat, node: ush, n: ush, m: ush)
    requires Unused(f, d, elems) && elems <= node < |f| == |d| && n < node && m < node
    requires Plus(f[n], f[m]) < 0x10000
    requires f' == f[node := Plus(f[n], f[m])] && d' == d[n := node][m := node]
    requires (n < elems ==> f[n] != 0) && (m < elems ==> f[m] != 0)
    ensures Unused(f', d', elems)
  {
  }

  lemma LiveIsUsed(s: TreeState, elems: nat, node: nat, w0: multiset<nat>, n: ush)
    requires Grown(s, elems, node, w0) && n in multiset(Live(s.heap, s.heapLen))
    ensures n < elems ==> s.fc[n] != 0
  {
    AllNodesCount(s.fc, elems, node, n);
    assert (multiset(Live(s.heap, s.heapLen)) + multiset(Pushed(s)))[n] >= 1;
  }

  /** The tree is complete: order lists its nodes from the root on, none heavier than the one before. */
  ghost predicate FullTree(order: seq<ush>, f: seq<ush>, d: seq<ush>, elems: nat, node: nat, w0: multiset<nat>) {
    && 3 <= elems < node <= 2 * elems && |f| == |d| == 2 * elems + 1
    && |order| == 2 * (node - elems) + 1
    && order[0] == node - 1
    && multiset(order) == AllNodes(f, elems, node)
    && Paired(order[1..], f, d, elems, node)
    && HuffmanCost(w0) == Sum(Freqs(order[1..], f))
    && Falling(order, f)
  }

  /** All but the root is in the sorted end. */
  lemma CloseTree(s: TreeState, elems: nat, node: nat, w0: multiset<nat>)
    requires Grown(s, elems, node, w0) && s.heapLen == 1 && elems < node && s.heapMax > 1
    ensures FullTree([s.heap[1]] + Pushed(s), s.fc, s.dl, elems, node, w0)
  {
    hide HuffmanCost, Sum, Freqs, Paired, AllNodes, Falling, Weight, Sorted;
    var order := [s.heap[1]] + Pushed(s);
    assert Live(s.heap, 1) == [s.heap[1]];
    assert order[1..] == Pushed(s);
    NothingToJoin(s, elems, node, w0);
    RootIsLast(s, elems, node, w0);
    RootFirst(s, s.heap[1]);
  }

  lemma NothingToJoin(s: TreeState, elems: nat, node: nat, w0: multiset<nat>)
    requires Grown(s, elems, node, w0) && s.heapLen == 1
    ensures HuffmanCost(w0) == Sum(Freqs(Pushed(s), s.fc))
  {
    hide Paired, AllNodes, Falling, Sum, Queue, Sorted;
    assert |HeapWeights(s)| == 1;
  }

  lemma RootFirst(s: TreeState, root: ush)
    requires s.heapLen < |s.heap| && s.heapMax <= |s.heap| && Sorted(s) && Live(s.heap, s.heapLen) == [root] && root < |s.fc|
    ensures Falling([root] + Pushed(s), s.fc)
  {
    var p := Pushed(s);
    var order := [root] + p;
    assert root in multiset(Live(s.heap, s.heapLen));
    forall i, j | 0 <= i < j < |order|
      ensures s.fc[order[j]] <= s.fc[order[i]]
    {
      assert order[j] == p[j - 1];
    }
  }

  lemma RootIsLast(s: TreeState, elems: nat, node: nat, w0: multiset<nat>)
    requires Grown(s, elems, node, w0) && s.heapLen == 1 && elems < node
    ensures s.heap[1] == node - 1
  {
    hide HuffmanCost, Sum, Freqs;
    var last: ush := node - 1;
    AllNodesCount(s.fc, elems, node, last);
    assert (multiset(Live(s.heap, 1)) + multiset(Pushed(s)))[last] == 1;
    forall q | 0 <= q < |Pushed(s)|
      ensures Pushed(s)[q] != last
    {
      assert Son(Pushed(s), s.dl, node, q);
    }
    assert last !in Pushed(s);
    assert last in multiset(Live(s.heap, 1));
    assert Live(s.heap, 1) == [s.heap[1]];
  }

  lemma GrowthStart(s: TreeState, elems: nat, w0: multiset<nat>)
    requires Sizes(s, elems) && 2 <= s.heapLen <= elems && s.heapMax == HEAP_SIZE
    requires Queue(s, elems) && Weight(s) < 0x10000
    requires ListsUsed(s.heap, s.heapLen, s.fc, elems)
    requires w0 == HeapWeights(s)
    ensures Grown(s, elems, elems, w0)
  {
    assert Pushed(s) == [];
  }

  lemma TurnKeeps(s: TreeState, t: TreeState, elems: nat, node: ush, next: nat, n: ush, m: ush, w0: multiset<nat>)
    requires Grown(s, elems, node, w0) && node < 2 * elems && Combined(s, t, node, n, m)
    requires Unused(s.fc, s.dl, elems) && next == node + 1
    ensures Grown(t, elems, next, w0) && Unused(t.fc, t.dl, elems)
    ensures t.fc[..elems] == s.fc[..elems]
    ensures t.heapLen == s.heapLen - 1
    ensures t.optLen == s.optLen && t.staticLen == s.staticLen && t.maxCode == s.maxCode
  {
    hide Sizes, Paid, Sum, Pushed, Sorted, Live;
    GrowthStep(s, t, elems, node, next, n, m, w0);
    UnusedStep(s, t, elems, node, n, m, w0);
  }

  lemma RoomLeft(s: TreeState, elems: nat, node: nat, w0: multiset<nat>)
    requires Grown(s, elems, node, w0) && s.heapLen >= 2
    ensures s.heapLen + 2 <= s.heapMax <= |s.heap| && node < 2 * elems
    ensures |s.dl| == |s.fc| <= |s.depth| && |s.fc| < 0x10000
  {
  }

  lemma PutInFront(h: seq<ush>, k: seq<ush>, max: nat, front: nat, x: ush)
    requires 1 <= max <= |h| && front == max - 1 && k == h[front := x]
    ensures k[front..] == [x] + h[max..]
  {
  }

  /** Combines nodes until one is left, and puts the root in front of the others. */
  method CombineAll(heap: array<ush>, len: nat, max: nat, depth: array<byte>, fc: array<ush>, dl: array<ush>,
                    elems: nat, ghost s0: TreeState, ghost w0: multiset<nat>)
    returns (heapMax: nat, node: nat)
    requires heap != fc && heap != dl && fc != dl
    requires Holds(s0, heap, len, max, depth, fc, dl)
    requires Grown(s0, elems, elems, w0) && len >= 2 && Unused(s0.fc, s0.dl, elems)
    modifies heap, depth, fc, dl
    ensures 1 <= heapMax <= heap.Length
    ensures FullTree(heap[heapMax..], fc[..], dl[..], elems, node, w0)
    ensures Unused(fc[..], dl[..], elems)
    ensures fc[..elems] == s0.fc[..elems]
  {
    hide FullTree, Unused, Combined, Weight, Paired, Sorted, Paid, Queue, AllNodes;
    var heapLen := len;
    heapMax := max;
    node := elems;
    ghost var s := s0;
    while heapLen >= 2
      invariant 1 <= heapLen && (node == elems ==> heapLen >= 2)
      invariant elems <= node
      invariant Holds(s, heap, heapLen, heapMax, depth, fc, dl)
      invariant Grown(s, elems, node, w0)
      invariant Unused(s.fc, s.dl, elems)
      invariant s.fc[..elems] == s0.fc[..elems]
    {
      RoomLeft(s, elems, node, w0);
      ghost var t, n, m := CombineTwo(heap, heapLen, heapMax, depth, fc, dl, node, s);
      heapLen, heapMax := heapLen - 1, heapMax - 2;
      ghost var made := node;
      node := node + 1;
      TurnKeeps(s, t, elems, made, node, n, m, w0);
      s := t;
    }
    ghost var last := heapMax;
    heapMax := heapMax - 1;
    heap[heapMax] := heap[1];
    CloseTree(s, elems, node, w0);
    PutInFront(s.heap, heap[..], last, heapMax, s.heap[1]);
  }
}

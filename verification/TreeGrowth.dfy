/** What every turn of build_tree's main loop keeps: who has which father, what has
    been merged, and that it was always the lightest pair. */
module TreeGrowth {
  import opened Sums
  import opened Huffman
  import opened Heaps
  import opened Trees
  import opened InitialHeap
  import opened TreeBuilding

  // ----- which nodes there are

  function NodeIds(lo: nat, hi: nat): (r: seq<ush>)
    requires lo <= hi <= 0x10000
    decreases hi - lo
  {
    if lo == hi then [] else NodeIds(lo, hi - 1) + [hi - 1]
  }

  lemma {:induction false} NodeIdsCount(lo: nat, hi: nat, x: ush)
    requires lo <= hi <= 0x10000
    ensures multiset(NodeIds(lo, hi))[x] == if lo <= x < hi then 1 else 0
    decreases hi - lo
  {
    if lo < hi { NodeIdsCount(lo, hi - 1, x); }
  }

  /** The nodes that exist once `node` is the next to be made, each once. */
  ghost function AllNodes(f: seq<ush>, elems: nat, node: nat): multiset<ush>
    requires elems <= node <= 0x10000 && elems <= |f|
  {
    multiset(UsedIds(f, elems)) + multiset(NodeIds(elems, node))
  }

  lemma AllNodesCount(f: seq<ush>, elems: nat, node: nat, x: ush)
    requires elems <= node <= 0x10000 && elems <= |f|
    ensures AllNodes(f, elems, node)[x] == if (x < elems && f[x] != 0) || elems <= x < node then 1 else 0
  {
    UsedIdsCount(f, elems, x);
    NodeIdsCount(elems, node, x);
  }

  lemma AllNodesStep(f: seq<ush>, g: seq<ush>, elems: nat, node: ush, next: nat)
    requires elems <= node < 0x10000 && elems <= |f| == |g| && next == node + 1
    requires forall i :: 0 <= i < elems ==> f[i] == g[i]
    ensures AllNodes(g, elems, next) == AllNodes(f, elems, node) + multiset{node}
  {
    hide UsedIds;
    UsedIdsSame(f, g, elems);
    AppendOne(NodeIds(elems, node), node);
  }

  // ----- the sorted end of the array

  function Pushed(s: TreeState): seq<ush>
    requires s.heapMax <= |s.heap|
  {
    s.heap[s.heapMax..]
  }

  /** The q-th node of the sorted end points to its father, which is made later. */
  predicate Son(p: seq<ush>, d: seq<ush>, node: nat, q: nat)
    requires q < |p|
  {
    && p[q] < |d|
    && p[q] < node - 1 - q / 2
    && d[p[q]] == node - 1 - q / 2
  }

  /** The j-th father from the last weighs what its sons weigh. */
  predicate Father(p: seq<ush>, f: seq<ush>, node: nat, j: nat)
    requires 2 * j + 1 < |p|
  {
    && 0 <= node - 1 - j < |f| && p[2 * j] < |f| && p[2 * j + 1] < |f|
    && f[node - 1 - j] == Plus(f[p[2 * j]], f[p[2 * j + 1]])
  }

  ghost predicate Paired(p: seq<ush>, f: seq<ush>, d: seq<ush>, elems: nat, node: nat) {
    && elems <= node && |p| == 2 * (node - elems)
    && (forall q :: 0 <= q < |p| ==> Son(p, d, node, q))
    && (forall j :: 0 <= j < node - elems ==> Father(p, f, node, j))
  }

  lemma PairedStep(p: seq<ush>, f: seq<ush>, d: seq<ush>, elems: nat, node: ush, next: nat, n: ush, m: ush)
    requires Paired(p, f, d, elems, node) && next == node + 1
    requires node < |f| == |d| && n < node && m < node && n != m && n !in p && m !in p
    requires Plus(f[n], f[m]) < 0x10000
    ensures Paired([m, n] + p, f[node := Plus(f[n], f[m])], d[n := node][m := node], elems, next)
  {
    var p', f', d' := [m, n] + p, f[node := Plus(f[n], f[m])], d[n := node][m := node];
    forall q | 0 <= q < |p'|
      ensures Son(p', d', next, q)
    {
      if q >= 2 {
        assert Son(p, d, node, q - 2);
        assert p'[q] == p[q - 2];
      }
    }
    forall j | 0 <= j < next - elems
      ensures Father(p', f', next, j)
    {
      if j >= 1 {
        assert Father(p, f, node, j - 1);
        assert Son(p, d, node, 2 * (j - 1)) && Son(p, d, node, 2 * (j - 1) + 1);
        assert p'[2 * j] == p[2 * (j - 1)] && p'[2 * j + 1] == p[2 * (j - 1) + 1];
      }
    }
  }

  // ----- weights of lists of nodes, in any order

  lemma FreqsAppend(a: seq<ush>, x: ush, f: seq<ush>)
    requires x < |f|
    ensures Freqs(a + [x], f) == Freqs(a, f) + [f[x] as nat]
  {
  }

  lemma {:induction false} FreqsPermute(a: seq<ush>, b: seq<ush>, f: seq<ush>)
    requires multiset(a) == multiset(b)
    ensures multiset(Freqs(a, f)) == multiset(Freqs(b, f))
    ensures Sum(Freqs(a, f)) == Sum(Freqs(b, f))
    decreases |a|
  {
    if a == [] {
      assert |multiset(b)| == 0;
      assert b == [];
    } else {
      assert a[0] in multiset(b);
      assert a[0] in b;
      var i :| 0 <= i < |b| && b[i] == a[0];
      WithoutCounts(a, 0);
      WithoutCounts(b, i);
      FreqsPermute(Without(a, 0), Without(b, i), f);
      WithoutFreqs(a, f, 0);
      WithoutFreqs(b, f, i);
      WithoutFreqCounts(a, f, 0);
      WithoutFreqCounts(b, f, i);
    }
  }

  lemma WithoutFreqCounts(ids: seq<ush>, f: seq<ush>, i: nat)
    requires i < |ids|
    ensures multiset(Freqs(ids, f)) == multiset(Freqs(Without(ids, i), f)) + multiset{Freqs(ids, f)[i]}
  {
    var w := Freqs(ids, f);
    assert Freqs(Without(ids, i), f) == Without(w, i);
    assert w == w[..i] + [w[i]] + w[i + 1..];
  }

  lemma FreqsSame(ids: seq<ush>, f: seq<ush>, g: seq<ush>)
    requires |f| == |g| && forall p :: 0 <= p < |ids| ==> ids[p] < |f| && f[ids[p]] == g[ids[p]]
    ensures Freqs(ids, f) == Freqs(ids, g)
  {
  }

  /** What is left of the heap when n and m have been taken. */
  lemma TakeBoth(c: seq<ush>, n: ush, m: ush) returns (i: nat, r1: seq<ush>, j: nat, r2: seq<ush>)
    requires n in multiset(c) && m in multiset(c) - multiset{n}
    ensures i < |c| && c[i] == n && r1 == Without(c, i)
    ensures j < |r1| && r1[j] == m && r2 == Without(r1, j)
    ensures multiset(r1) == multiset(c) - multiset{n}
    ensures multiset(r2) == multiset(c) - multiset{n} - multiset{m}
  {
    assert n in c;
    i :| 0 <= i < |c| && c[i] == n;
    r1 := Without(c, i);
    WithoutCounts(c, i);
    assert m in r1;
    j :| 0 <= j < |r1| && r1[j] == m;
    r2 := Without(r1, j);
    WithoutCounts(r1, j);
  }

  lemma RestAndFather(c: seq<ush>, r: seq<ush>, t: seq<ush>, n: ush, m: ush, node: ush)
    requires n in multiset(c) && m in multiset(c) - multiset{n}
    requires multiset(r) == multiset(c) - multiset{n} - multiset{m}
    requires multiset(t) + multiset{n} + multiset{m} == multiset(c) + multiset{node}
    ensures multiset(t) == multiset(r + [node])
  {
    PutBack(multiset(c), n, m);
    var k := multiset(r);
    Commute(k, n, m, node);
    Cancel(multiset(t) + multiset{n}, k + multiset{node} + multiset{n}, multiset{m});
    Cancel(multiset(t), k + multiset{node}, multiset{n});
    AppendOne(r, node);
  }

  lemma Cancel(a: multiset<ush>, b: multiset<ush>, c: multiset<ush>)
    requires a + c == b + c
    ensures a == b
  {
    assert (a + c) - c == a;
    assert (b + c) - c == b;
  }

  lemma PutBack(c: multiset<ush>, n: ush, m: ush)
    requires n in c && m in c - multiset{n}
    ensures c == c - multiset{n} - multiset{m} + multiset{n} + multiset{m}
  {
  }

  lemma Commute(k: multiset<ush>, n: ush, m: ush, node: ush)
    ensures k + multiset{n} + multiset{m} + multiset{node} == k + multiset{node} + multiset{n} + multiset{m}
  {
  }

  lemma FreqBound(r: seq<ush>, f: seq<ush>, v: nat)
    requires forall x :: x in multiset(r) && x < |f| ==> v <= f[x]
    requires forall p :: 0 <= p < |r| ==> r[p] < |f|
    ensures forall w :: w in multiset(Freqs(r, f)) ==> v <= w
  {
    forall w | w in multiset(Freqs(r, f))
      ensures v <= w
    {
      var p :| 0 <= p < |r| && Freqs(r, f)[p] == w;
      assert r[p] in multiset(r);
    }
  }

  /** The nodes taken have the two lightest weights. */
  lemma LightestTaken(c: seq<ush>, f: seq<ush>, n: ush, m: ush, i: nat, r1: seq<ush>, j: nat)
    requires forall p :: 0 <= p < |c| ==> c[p] < |f|
    requires i < |c| && c[i] == n && r1 == Without(c, i) && j < |r1| && r1[j] == m
    requires n < |f| && m < |f|
    requires forall x :: x in multiset(c) && x < |f| ==> f[n] <= f[x]
    requires forall x :: x in multiset(r1) && x < |f| ==> f[m] <= f[x]
    ensures multiset(Freqs(c, f)) == multiset(Freqs(r1, f)) + multiset{f[n] as nat}
    ensures LightestTwo(multiset(Freqs(c, f)), f[n], f[m])
  {
    FreqBound(c, f, f[n]);
    FreqBound(r1, f, f[m]);
    WithoutFreqCounts(c, f, i);
    assert Freqs(r1, f)[j] == f[m];
    assert multiset(Freqs(c, f)) - multiset{f[n] as nat} == multiset(Freqs(r1, f));
  }

  /** The weights in the heap. */
  ghost function HeapWeights(s: TreeState): multiset<nat>
    requires s.heapLen < |s.heap|
  {
    multiset(Freqs(Live(s.heap, s.heapLen), s.fc))
  }

  lemma LiveBelow(s: TreeState, node: nat)
    requires s.heapLen < |s.heap| && Entries(s.heap, s.heapLen, node)
    ensures Below(Live(s.heap, s.heapLen), node)
  {
  }

  lemma OldWeights(c: seq<ush>, f: seq<ush>, i: nat, r1: seq<ush>, j: nat, r2: seq<ush>, x: nat, y: nat)
    requires Below(c, |f|)
    requires i < |c| && r1 == Without(c, i) && j < |r1| && r2 == Without(r1, j)
    requires x == f[c[i]] && y == f[r1[j]]
    ensures multiset(Freqs(c, f)) == multiset(Freqs(r2, f)) + multiset{y} + multiset{x}
    ensures Sum(Freqs(c, f)) == Sum(Freqs(r2, f)) + y + x
  {
    WithoutFreqCounts(c, f, i);
    WithoutFreqCounts(r1, f, j);
    WithoutFreqs(c, f, i);
    WithoutFreqs(r1, f, j);
  }

  lemma NewWeights(d: seq<ush>, f: seq<ush>, g: seq<ush>, r2: seq<ush>, node: ush, z: nat)
    requires multiset(d) == multiset(r2 + [node])
    requires node < |f| == |g| && Below(r2, node)
    requires forall x :: 0 <= x < node ==> f[x] == g[x]
    requires z == g[node]
    ensures multiset(Freqs(d, g)) == multiset(Freqs(r2, f)) + multiset{z}
    ensures Sum(Freqs(d, g)) == Sum(Freqs(r2, f)) + z
  {
    FreqsPermute(d, r2 + [node], g);
    FreqsAppend(r2, node, g);
    FreqsSame(r2, f, g);
    SumSnoc(Freqs(r2, f), g[node]);
  }

  /** One turn takes two lightest weights away and brings their sum. */
  lemma WeightStep(s: TreeState, t: TreeState, node: ush, n: ush, m: ush)
    requires Combined(s, t, node, n, m)
    ensures LightestTwo(HeapWeights(s), s.fc[n], s.fc[m])
    ensures HeapWeights(t) == Joined(HeapWeights(s), s.fc[n], s.fc[m])
    ensures Weight(t) == Weight(s)
  {
    var c, d, f := Live(s.heap, s.heapLen), Live(t.heap, t.heapLen), s.fc;
    LiveBelow(s, node);
    var i, r1, j, r2 := TakeBoth(c, n, m);
    LightestTaken(c, f, n, m, i, r1, j);
    RestAndFather(c, r2, d, n, m, node);
    BelowWithout(c, i, node);
    BelowWithout(r1, j, node);
    WeightParts(s, t, node, n, m, i, r1, j, r2);
  }

  ghost predicate Below(ids: seq<ush>, node: nat) {
    forall p :: 0 <= p < |ids| ==> ids[p] < node
  }

  lemma BelowWithout(ids: seq<ush>, i: nat, node: nat)
    requires i < |ids| && Below(ids, node)
    ensures Below(Without(ids, i), node)
  {
  }

  lemma WeightParts(s: TreeState, t: TreeState, node: ush, n: ush, m: ush, i: nat, r1: seq<ush>, j: nat, r2: seq<ush>)
    requires Fathered(s, t, node, n, m) && s.heapLen < |s.heap| && t.heapLen < |t.heap|
    requires Below(Live(s.heap, s.heapLen), node) && Below(r2, node)
    requires i < s.heapLen && Live(s.heap, s.heapLen)[i] == n && r1 == Without(Live(s.heap, s.heapLen), i)
    requires j < |r1| && r1[j] == m && r2 == Without(r1, j)
    requires multiset(Live(t.heap, t.heapLen)) == multiset(r2 + [node])
    ensures HeapWeights(t) == Joined(HeapWeights(s), s.fc[n], s.fc[m])
    ensures Weight(t) == Weight(s)
  {
    hide Without, Freqs;
    var x: nat, y: nat := s.fc[n], s.fc[m];
    OldWeights(Live(s.heap, s.heapLen), s.fc, i, r1, j, r2, x, y);
    NewWeights(Live(t.heap, t.heapLen), s.fc, t.fc, r2, node, x + y);
    JoinCounts(HeapWeights(s), HeapWeights(t), multiset(Freqs(r2, s.fc)), x, y);
  }

  lemma JoinCounts(a: multiset<nat>, b: multiset<nat>, r: multiset<nat>, x: nat, y: nat)
    requires a == r + multiset{y} + multiset{x} && b == r + multiset{x + y}
    ensures b == Joined(a, x, y)
  {
    assert a - multiset{x} - multiset{y} == r;
  }

  // ----- the invariant of the main loop

  ghost predicate Sizes(s: TreeState, elems: nat) {
    && |s.heap| == |s.depth| == HEAP_SIZE && 3 <= elems <= L_CODES
    && |s.fc| == |s.dl| == 2 * elems + 1
  }

  /** Along p, nodes get no heavier. */
  ghost predicate Falling(p: seq<ush>, f: seq<ush>) {
    Below(p, |f|) && forall i, j :: 0 <= i < j < |p| ==> f[p[j]] <= f[p[i]]
  }

  /** No node of c is lighter than the first of p. */
  ghost predicate NoLighter(c: multiset<ush>, p: seq<ush>, f: seq<ush>) {
    p != [] && p[0] < |f| ==> forall x :: x in c && x < |f| ==> f[p[0]] <= f[x]
  }

  /** The nodes have been taken out lightest first. */
  ghost predicate Sorted(s: TreeState)
    requires s.heapLen < |s.heap| && s.heapMax <= |s.heap|
  {
    Falling(Pushed(s), s.fc) && NoLighter(multiset(Live(s.heap, s.heapLen)), Pushed(s), s.fc)
  }

  /** What has been joined costs what Huffman's construction saves. */
  ghost predicate Paid(s: TreeState, w0: multiset<nat>)
    requires s.heapLen < |s.heap| && s.heapMax <= |s.heap|
  {
    HuffmanCost(w0) == HuffmanCost(HeapWeights(s)) + Sum(Freqs(Pushed(s), s.fc))
  }

  /** `node` is the next to be made; w0 are the weights of all leaves. */
  ghost predicate Grown(s: TreeState, elems: nat, node: nat, w0: multiset<nat>) {
    && Sizes(s, elems)
    && elems <= node && 1 <= s.heapLen && s.heapLen + (node - elems) <= elems
    && s.heapMax == HEAP_SIZE - 2 * (node - elems)
    && Queue(s, node)
    && Weight(s) < 0x10000
    && multiset(Live(s.heap, s.heapLen)) + multiset(Pushed(s)) == AllNodes(s.fc, elems, node)
    && Paired(Pushed(s), s.fc, s.dl, elems, node)
    && Sorted(s)
    && Paid(s, w0)
  }

  lemma NotPushed(s: TreeState, elems: nat, node: nat, w0: multiset<nat>, n: ush, m: ush)
    requires Grown(s, elems, node, w0) && LeastTwo(s, n, m)
    ensures n != m && n !in Pushed(s) && m !in Pushed(s)
  {
    var c, p := multiset(Live(s.heap, s.heapLen)), multiset(Pushed(s));
    AllNodesCount(s.fc, elems, node, n);
    AllNodesCount(s.fc, elems, node, m);
    assert (c + p)[n] <= 1 && (c + p)[m] <= 1;
    assert c[n] >= 1 && c[m] >= 1;
    assert p[n] == 0 && p[m] == 0;
  }

  lemma NodesStep(s: TreeState, t: TreeState, elems: nat, node: ush, next: nat, n: ush, m: ush)
    requires next == node + 1
    requires Sizes(s, elems) && elems <= node < |s.fc| && Exchanged(s, t, node, n, m) && Fathered(s, t, node, n, m)
    requires multiset(Live(s.heap, s.heapLen)) + multiset(Pushed(s)) == AllNodes(s.fc, elems, node)
    ensures multiset(Live(t.heap, t.heapLen)) + multiset(Pushed(t)) == AllNodes(t.fc, elems, next)
  {
    AllNodesStep(s.fc, t.fc, elems, node, next);
    PrependTwo(multiset(Live(s.heap, s.heapLen)), multiset(Live(t.heap, t.heapLen)), Pushed(s), n, m, node);
  }

  lemma PrependTwo(a: multiset<ush>, b: multiset<ush>, p: seq<ush>, n: ush, m: ush, node: ush)
    requires b + multiset{n} + multiset{m} == a + multiset{node}
    ensures b + multiset([m, n] + p) == a + multiset(p) + multiset{node}
  {
    assert multiset([m, n] + p) == multiset{m} + multiset{n} + multiset(p);
    assert b + (multiset{m} + multiset{n} + multiset(p)) == (b + multiset{n} + multiset{m}) + multiset(p);
    assert a + multiset{node} + multiset(p) == a + multiset(p) + multiset{node};
  }

  lemma PushedCost(p: seq<ush>, f: seq<ush>, g: seq<ush>, n: ush, m: ush, node: nat)
    requires Below(p, node) && node < |f| == |g| && n < node && m < node
    requires forall x :: 0 <= x < node ==> f[x] == g[x]
    ensures Sum(Freqs([m, n] + p, g)) == Sum(Freqs(p, f)) + f[n] + f[m]
  {
    FreqsSame(p, f, g);
    assert Freqs([m, n] + p, g) == [f[m] as nat, f[n] as nat] + Freqs(p, g);
    SumConcat([f[m] as nat, f[n] as nat], Freqs(p, g));
    SumTwo(f[m], f[n]);
  }

  lemma SumTwo(a: int, b: int)
    ensures Sum([a, b]) == a + b
  {
    SumSnoc([a], b);
    SumSnoc([], a);
    assert [a] + [b] == [a, b] && [] + [a] == [a];
  }

  lemma PushedBelow(p: seq<ush>, f: seq<ush>, d: seq<ush>, elems: nat, node: nat)
    requires Paired(p, f, d, elems, node)
    ensures Below(p, node)
  {
    forall q | 0 <= q < |p|
      ensures p[q] < node
    {
      assert Son(p, d, node, q);
    }
  }

  lemma FallingStep(p: seq<ush>, f: seq<ush>, g: seq<ush>, n: ush, m: ush, node: nat)
    requires Falling(p, f) && Below(p, node) && node < |f| == |g| && n < node && m < node
    requires forall x :: 0 <= x < node ==> f[x] == g[x]
    requires f[n] <= f[m] && (p != [] ==> f[p[0]] <= f[n])
    ensures Falling([m, n] + p, g)
  {
    var p' := [m, n] + p;
    forall i, j | 0 <= i < j < |p'|
      ensures g[p'[j]] <= g[p'[i]]
    {
      assert forall k :: 2 <= k < |p'| ==> p'[k] == p[k - 2];
    }
  }

  lemma StillIn(a: multiset<ush>, b: multiset<ush>, n: ush, m: ush, node: ush, x: ush)
    requires b + multiset{n} + multiset{m} == a + multiset{node} && x in b && x != node
    ensures x in a - multiset{n}
  {
    assert (a + multiset{node})[x] == a[x];
  }

  /** The order of weights is kept. */
  lemma SortedStep(s: TreeState, t: TreeState, node: ush, n: ush, m: ush)
    requires Exchanged(s, t, node, n, m) && Fathered(s, t, node, n, m) && LeastTwo(s, n, m)
    requires Sorted(s) && Below(Pushed(s), node) && Below(Live(s.heap, s.heapLen), node)
    ensures Sorted(t)
  {
    var p, a, b := Pushed(s), multiset(Live(s.heap, s.heapLen)), multiset(Live(t.heap, t.heapLen));
    assert m in a;
    FallingStep(p, s.fc, t.fc, n, m, node);
    forall x | x in b && x < |t.fc|
      ensures t.fc[m] <= t.fc[x]
    {
      if x != node {
        StillIn(a, b, n, m, node, x);
        assert x in Live(s.heap, s.heapLen);
      }
    }
  }

  lemma PaidStep(s: TreeState, t: TreeState, node: ush, n: ush, m: ush, w0: multiset<nat>)
    requires Combined(s, t, node, n, m) && Paid(s, w0) && Below(Pushed(s), node)
    ensures Paid(t, w0) && Weight(t) == Weight(s)
  {
    hide HuffmanCost, Sum, Freqs, LightestTwo, Joined, Queue, LeastTwo;
    PushedCost(Pushed(s), s.fc, t.fc, n, m, node);
    WeightStep(s, t, node, n, m);
    MergeLightest(HeapWeights(s), s.fc[n], s.fc[m]);
  }

  lemma QueueBelow(s: TreeState, node: nat)
    requires Queue(s, node) && s.heapLen < |s.heap|
    ensures Below(Live(s.heap, s.heapLen), node)
  {
    LiveBelow(s, node);
  }

  /** The nodes that there are, and their fathers. */
  lemma ListStep(s: TreeState, t: TreeState, elems: nat, node: ush, next: nat, n: ush, m: ush, w0: multiset<nat>)
    requires Grown(s, elems, node, w0) && node < 2 * elems && Combined(s, t, node, n, m) && next == node + 1
    ensures multiset(Live(t.heap, t.heapLen)) + multiset(Pushed(t)) == AllNodes(t.fc, elems, next)
    ensures Paired(Pushed(t), t.fc, t.dl, elems, next)
    ensures Below(Pushed(s), node)
  {
    hide HuffmanCost, Sum, Freqs, Paired, Sorted, Paid, AllNodes, Weight, Queue, LeastTwo;
    NotPushed(s, elems, node, w0, n, m);
    NodesStep(s, t, elems, node, next, n, m);
    PushedBelow(Pushed(s), s.fc, s.dl, elems, node);
    PairedStep(Pushed(s), s.fc, s.dl, elems, node, next, n, m);
  }

  /** Every turn keeps the invariant. */
  lemma GrowthStep(s: TreeState, t: TreeState, elems: nat, node: ush, next: nat, n: ush, m: ush,
                   w0: multiset<nat>)
    requires Grown(s, elems, node, w0) && node < 2 * elems && Combined(s, t, node, n, m) && next == node + 1
    ensures Grown(t, elems, next, w0)
  {
    hide HuffmanCost, Sum, Freqs, Paired, Sorted, Paid, AllNodes, Weight, Queue, LeastTwo, Pushed;
    ListStep(s, t, elems, node, next, n, m, w0);
    QueueBelow(s, node);
    SortedStep(s, t, node, n, m);
    PaidStep(s, t, node, n, m, w0);
  }
}

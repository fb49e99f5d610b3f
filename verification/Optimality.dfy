/** build_tree's lengths against those of every prefix code. */
module Optimality {
  import opened Sums
  import opened Rfc1951
  import opened Huffman
  import opened KraftInequality
  import opened Heaps
  import opened InitialHeap
  import opened BitLengths
  import opened TreeLengths
  import opened AfterPass
  import opened CodeLengths
  import opened TreeBuilder

  /** A prefix code with a word for each symbol that occurs. */
  ghost predicate CodeFor(f: seq<ush>, elems: nat, cs: seq<Word>)
    requires elems <= |f| && elems <= 0x10000
  {
    PrefixFree(cs) && |cs| == |UsedFreqs(f, elems)|
  }

  /** No prefix code for the frequencies f takes fewer bits than the first n lengths of d. */
  ghost predicate Optimal(f: seq<ush>, d: seq<ush>, n: nat, elems: nat)
    requires n <= |f| && n <= |d| && elems <= |f| && elems <= 0x10000
  {
    forall cs :: CodeFor(f, elems, cs) ==> TotalBits(f, d, NoExtra(n), n) <= Sum(Costs(Weighted(UsedFreqs(f, elems), cs)))
  }

  lemma CheapestIsOptimal(f: seq<ush>, d: seq<ush>, n: nat, elems: nat)
    requires n <= |f| && n <= |d| && elems <= |f| && elems <= 0x10000 && |UsedFreqs(f, elems)| > 0
    requires Cheapest(f, d, n, multiset(UsedFreqs(f, elems)))
    ensures Optimal(f, d, n, elems)
  {
    hide HuffmanCost, UsedFreqs;
    forall cs | CodeFor(f, elems, cs)
      ensures TotalBits(f, d, NoExtra(n), n) <= Sum(Costs(Weighted(UsedFreqs(f, elems), cs)))
    {
      HuffmanIsOptimal(UsedFreqs(f, elems), cs);
    }
  }

  lemma SomeUsed(f: seq<ush>, elems: nat, i: nat)
    requires i < elems <= |f| && elems <= 0x10000 && f[i] != 0
    ensures |UsedFreqs(f, elems)| > 0
  {
    UsedIdsCount(f, elems, i);
    assert i in multiset(UsedIds(f, elems));
  }

  /** What build_tree has built comes from a Huffman tree for its frequencies. No prefix code takes fewer bits if no
      symbol lies deeper in that tree than the greatest length, and also if no length reaches the greatest. */
  lemma BuiltIsOptimal(f0: seq<ush>, f: seq<ush>, codes: seq<ush>, d: seq<ush>, elems: nat, maxLength: nat,
                       opt: nat, opt0: nat, sta: nat, sta0: nat, k: Tariff) returns (t: HuffmanTree)
    requires Built(f0, f, codes, d, elems, maxLength, opt, opt0, sta, sta0, k)
    ensures 0 < k.maxCode + 1 <= elems <= |f| && elems <= |d| && elems <= 0x10000
    ensures FromTree(t, f, d, elems, k.maxCode + 1, maxLength, multiset(UsedFreqs(f, elems)))
    ensures AllShorter(d, elems, maxLength) ==> NoDeeper(t, f, elems, maxLength)
    ensures NoDeeper(t, f, elems, maxLength) ==> Optimal(f, d, k.maxCode + 1, elems)
  {
    hide TreeFor, UsedFreqs, HuffmanCost, BothPriced, Optimal, Cheapest, Complete, NoDeeper, AllShorter, AsDeep,
      TotalBits;
    var n, w := k.maxCode + 1, multiset(UsedFreqs(f, elems));
    t :| FromTree(t, f, d, elems, n, maxLength, w);
    MaxUsedIs(f, elems);
    SomeUsed(f, elems, k.maxCode);
    if NoDeeper(t, f, elems, maxLength) {
      DeepIsCheapest(t, f, d, elems, n, maxLength, w);
      CheapestIsOptimal(f, d, n, elems);
    }
  }

  lemma {:induction false} UsedMore(f0: seq<ush>, f: seq<ush>, made: seq<int>, elems: nat, n: nat)
    requires Forcing(f0, f, made, elems) && n <= elems <= 0x10000
    ensures |UsedIds(f, n)| == |UsedIds(f0, n)| + Sum(made[..n])
  {
    if n > 0 {
      UsedMore(f0, f, made, elems, n - 1);
      assert made[..n][..n - 1] == made[..n - 1];
    }
  }

  /** Where at least two symbols occur, none is made up. */
  lemma TwoUsedUnchanged(f0: seq<ush>, f: seq<ush>, made: seq<int>, elems: nat)
    requires MadeUp(f0, f, made, elems) && |UsedIds(f0, elems)| >= 2
    ensures f == f0
  {
    UsedMore(f0, f, made, elems, elems);
    assert made[..elems] == made;
    OnesAdd(made);
  }
}

/** Prefix codes satisfy Kraft's inequality, so none of them beats Huffman's construction. */
module KraftInequality {
  import opened Bits
  import opened Sums
  import opened Huffman

  type Word = seq<bool>

  ghost predicate Clash(a: Word, b: Word) {
    a <= b || b <= a
  }

  /** No code word begins with another one. */
  ghost predicate PrefixFree(cs: seq<Word>) {
    forall i, j :: 0 <= i < j < |cs| ==> !Clash(cs[i], cs[j])
  }

  ghost predicate NoLonger(cs: seq<Word>, top: nat) {
    forall i :: 0 <= i < |cs| ==> |cs[i]| <= top
  }

  /** The code space the words take, in units of 2^-top. */
  function Taken(cs: seq<Word>, top: nat): nat {
    if cs == [] then 0
    else
      var c := cs[|cs| - 1];
      Taken(cs[..|cs| - 1], top) + (if |c| <= top then Pow2(top - |c|) else 0)
  }

  /** What is left of the words that begin with b. */
  function Tails(cs: seq<Word>, b: bool): seq<Word> {
    if cs == [] then []
    else
      var c := cs[|cs| - 1];
      Tails(cs[..|cs| - 1], b) + (if c != [] && c[0] == b then [c[1..]] else [])
  }

  lemma {:induction false} TailsFrom(cs: seq<Word>, b: bool)
    ensures forall k :: 0 <= k < |Tails(cs, b)| ==> [b] + Tails(cs, b)[k] in cs
  {
    if cs != [] {
      var n := |cs| - 1;
      TailsFrom(cs[..n], b);
      assert forall x :: x in cs[..n] ==> x in cs;
      if cs[n] != [] && cs[n][0] == b {
        assert [b] + cs[n][1..] == cs[n];
      }
    }
  }

  lemma TailClash(b: bool, s: Word, t: Word)
    ensures Clash(s, t) ==> Clash([b] + s, [b] + t)
  {
  }

  lemma {:induction false} TailsPrefixFree(cs: seq<Word>, b: bool)
    requires PrefixFree(cs)
    ensures PrefixFree(Tails(cs, b))
  {
    if cs != [] {
      var n := |cs| - 1;
      var c := cs[n];
      var rest := Tails(cs[..n], b);
      TailsPrefixFree(cs[..n], b);
      if c != [] && c[0] == b {
        TailsFrom(cs[..n], b);
        assert [b] + c[1..] == c;
        forall k | 0 <= k < |rest|
          ensures !Clash(rest[k], c[1..])
        {
          var i :| 0 <= i < n && cs[i] == [b] + rest[k];
          TailClash(b, rest[k], c[1..]);
          assert !Clash(cs[i], cs[n]);
        }
        assert Tails(cs, b) == rest + [c[1..]];
      }
    }
  }

  lemma {:induction false} TailsShorter(cs: seq<Word>, b: bool, top: nat)
    requires NoLonger(cs, top) && top > 0
    ensures NoLonger(Tails(cs, b), top - 1)
  {
    if cs != [] { TailsShorter(cs[..|cs| - 1], b, top); }
  }

  lemma {:induction false} TakenSplits(cs: seq<Word>, top: nat)
    requires top > 0
    requires forall i :: 0 <= i < |cs| ==> cs[i] != []
    ensures Taken(cs, top) == Taken(Tails(cs, false), top - 1) + Taken(Tails(cs, true), top - 1)
  {
    if cs != [] {
      var n := |cs| - 1;
      TakenSplits(cs[..n], top);
      var b := cs[n][0];
      TakenSnoc(Tails(cs[..n], b), cs[n][1..], top - 1);
      assert Tails(cs, b) == Tails(cs[..n], b) + [cs[n][1..]];
      assert Tails(cs, !b) == Tails(cs[..n], !b);
    }
  }

  lemma TakenSnoc(cs: seq<Word>, c: Word, top: nat)
    ensures Taken(cs + [c], top) == Taken(cs, top) + (if |c| <= top then Pow2(top - |c|) else 0)
  {
    assert (cs + [c])[..|cs|] == cs;
  }

  lemma {:induction false} PrefixCodesFit(cs: seq<Word>, top: nat)
    requires PrefixFree(cs) && NoLonger(cs, top)
    ensures Taken(cs, top) <= Pow2(top)
    decreases top
  {
    if i :| 0 <= i < |cs| && cs[i] == [] {
      EmptyWordIsAlone(cs, i);
    } else if cs != [] {
      assert 0 < |cs[0]| <= top;
      TakenSplits(cs, top);
      TailsPrefixFree(cs, false);
      TailsPrefixFree(cs, true);
      TailsShorter(cs, false, top);
      TailsShorter(cs, true, top);
      PrefixCodesFit(Tails(cs, false), top - 1);
      PrefixCodesFit(Tails(cs, true), top - 1);
    }
  }

  lemma EmptyWordIsAlone(cs: seq<Word>, i: nat)
    requires PrefixFree(cs) && i < |cs| && cs[i] == []
    ensures cs == [[]]
  {
    assert forall j :: 0 <= j < |cs| ==> Clash(cs[j], cs[i]) && Clash(cs[i], cs[j]);
    var first, last := cs[0], cs[|cs| - 1];
    assert Clash(first, cs[i]) && Clash(cs[i], last);
  }

  /** Weights paired with the lengths of the words coded for them. */
  function Weighted(ws: seq<nat>, cs: seq<Word>): (s: seq<Leaf>)
    requires |ws| == |cs|
    ensures |s| == |ws| && forall i :: 0 <= i < |s| ==> s[i] == Leaf(ws[i], |cs[i]|)
  {
    seq(|ws|, i requires 0 <= i < |ws| => Leaf(ws[i], |cs[i]|))
  }

  lemma {:induction false} TakenIsShares(ws: seq<nat>, cs: seq<Word>, top: nat)
    requires |ws| == |cs| && NoLonger(cs, top)
    ensures Sum(Shares(Weighted(ws, cs), top)) == Taken(cs, top)
  {
    if cs != [] {
      var n := |cs| - 1;
      TakenIsShares(ws[..n], cs[..n], top);
      assert Shares(Weighted(ws, cs), top)[..n] == Shares(Weighted(ws[..n], cs[..n]), top);
    }
  }

  lemma LongestWord(cs: seq<Word>) returns (top: nat)
    ensures NoLonger(cs, top)
  {
    top := 0;
    for n := 0 to |cs|
      invariant forall i :: 0 <= i < n ==> |cs[i]| <= top
    {
      if |cs[n]| > top { top := |cs[n]|; }
    }
  }

  /** Huffman's theorem, over every prefix code for the weights. */
  lemma HuffmanIsOptimal(ws: seq<nat>, cs: seq<Word>)
    requires |ws| == |cs| > 0 && PrefixFree(cs)
    ensures HuffmanCost(multiset(ws)) <= Sum(Costs(Weighted(ws, cs)))
  {
    var top := LongestWord(cs);
    PrefixCodesFit(cs, top);
    TakenIsShares(ws, cs, top);
    HuffmanIsLeast(Weighted(ws, cs), top);
    assert Weights(Weighted(ws, cs)) == ws;
  }
}

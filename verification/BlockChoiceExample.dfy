/** An input for which flush_block does not send the shortest form. */
module MissedChoices {
  import opened Optionals
  import opened Bits
  import opened Rfc1951
  import opened Heaps
  import opened InitialHeap
  import opened CodeLengths
  import opened CanonicalCodes
  import opened TreeBuilder
  import opened BlTrees
  import opened RunLengths
  import opened TreeHeaders
  import opened DynamicHeaders
  import opened Tokens
  import opened TokenPrices
  import opened BlockTrees
  import opened Blocks
  import opened BlockChoices

  /** Different bytes, so that nothing matches, each of nine bits in fixed codes. */
  function Input(k: nat): (data: seq<byte>)
    requires k <= 15
    ensures |data| == k
  {
    seq(k, i requires 0 <= i < k => 0x90 + i)
  }

  function Literals(data: seq<byte>): (ts: seq<Token>)
    ensures |ts| == |data| && forall i :: 0 <= i < |ts| ==> ts[i] == Literal(data[i])
  {
    seq(|data|, i requires 0 <= i < |data| => Literal(data[i]))
  }

  // ----- the tokens

  function LenSum(lens: seq<nat>, data: seq<byte>): nat
    requires forall i :: 0 <= i < |data| ==> data[i] < |lens|
  {
    if data == [] then 0 else LenSum(lens, data[..|data| - 1]) + lens[data[|data| - 1]]
  }

  lemma {:induction false} LiteralsSize(llens: seq<nat>, dlens: seq<nat>, data: seq<byte>)
    requires CanSendAll(llens, dlens, Literals(data))
    ensures forall i :: 0 <= i < |data| ==> data[i] < |llens|
    ensures |TokensBits(llens, dlens, Literals(data))| == LenSum(llens, data)
  {
    hide CodeOf;
    forall i | 0 <= i < |data|
      ensures data[i] < |llens|
    {
      assert CanSend(llens, dlens, Literals(data)[i]);
    }
    if data != [] {
      var n := |data| - 1;
      assert Literals(data)[..n] == Literals(data[..n]);
      LiteralsSize(llens, dlens, data[..n]);
    }
  }

  lemma {:induction false} NineEach(k: nat)
    requires k <= 15
    ensures LenSum(FixedLens(), Input(k)) == 9 * k
  {
    if k > 0 {
      assert Input(k)[..k - 1] == Input(k - 1);
      NineEach(k - 1);
    }
  }

  lemma FixedSize()
    ensures BlockOk(Fixed(Literals(Input(15)))) && DataSize(Fixed(Literals(Input(15)))) == 142
  {
    hide TokensBits, LenSum, CodeOf;
    var ts := Literals(Input(15));
    FixedServe(ts);
    LiteralsSize(FixedLens(), FixedDistLens(), Input(15));
    NineEach(15);
    assert FixedLens()[256] == 7;
  }

  // ----- sixteen codes that fit the code space have four bits each on average

  predicate Occurs(i: nat) {
    0x90 <= i < 0x9f || i == 256
  }

  /** Five less its length, for each symbol below n that occurs. */
  function Slack(lens: seq<nat>, n: nat): int
    requires n <= |lens|
  {
    if n == 0 then 0
    else if Occurs(n - 1) then Slack(lens, n - 1) + 5 - lens[n - 1]
    else Slack(lens, n - 1)
  }

  /** 2^(4 - b) >= 5 - b */
  lemma ShareSlack(b: nat)
    requires 1 <= b <= 15
    ensures Share(b) >= 2048 * (5 - b)
  {
    assert Pow2(11) == 2048 by { PowersTo13(); }
    if b <= 4 { Pow2Add(11, 4 - b); }
  }

  lemma {:induction false} SpaceSlack(lens: seq<nat>, n: nat)
    requires n <= |lens| && forall i :: 0 <= i < |lens| ==> lens[i] <= 15 && (Occurs(i) ==> lens[i] >= 1)
    ensures Space(lens[..n]) >= 2048 * Slack(lens, n)
  {
    if n > 0 {
      SpaceSlack(lens, n - 1);
      assert lens[..n][..n - 1] == lens[..n - 1];
      if Occurs(n - 1) { ShareSlack(lens[n - 1]); }
    }
  }

  lemma {:induction false} SlackIs(lens: seq<nat>, n: nat, k: nat)
    requires 257 <= |lens| && k <= 15 && n <= |lens|
    requires (n <= 0x90 && k == 0) || n == 0x90 + k || (0x9f <= n <= 256 && k == 15)
    ensures Slack(lens, n) == 5 * k - LenSum(lens, Input(k))
  {
    if n > 0 {
      if n <= 0x90 {
        SlackIs(lens, n - 1, 0);
      } else if n == 0x90 + k {
        SlackIs(lens, n - 1, k - 1);
        assert Input(k)[..k - 1] == Input(k - 1);
      } else {
        SlackIs(lens, n - 1, 15);
      }
    }
  }

  lemma {:induction false} SlackBeyond(lens: seq<nat>, n: nat)
    requires 257 <= n <= |lens|
    ensures Slack(lens, n) == 80 - LenSum(lens, Input(15)) - lens[256]
  {
    if n == 257 { SlackIs(lens, 256, 15); } else { SlackBeyond(lens, n - 1); }
  }

  lemma BodyAtLeast(llens: seq<nat>, dlens: seq<nat>)
    requires Complete(llens) && CanSendAll(llens, dlens, Literals(Input(15)))
    ensures |BodyBits(llens, dlens, Literals(Input(15)))| >= 64
  {
    hide TokensBits, LenSum, CodeOf, Space, Slack;
    forall i | 0 <= i < |llens|
      ensures llens[i] <= 15 && (Occurs(i) ==> llens[i] >= 1)
    {
      if 0x90 <= i < 0x9f { assert CanSend(llens, dlens, Literals(Input(15))[i - 0x90]); }
    }
    LiteralsSize(llens, dlens, Input(15));
    SpaceSlack(llens, |llens|);
    assert llens[..|llens|] == llens;
    SlackBeyond(llens, |llens|);
    assert Pow2(15) == 2048 * 16 by { PowersTo13(); Pow2Add(11, 4); }
  }

  // ----- what announcing the trees takes

  /** At best, eight bits announce 138 lengths. */
  lemma ItemCost(clens: seq<nat>, acc: seq<nat>, i: Item)
    requires Sendable(clens, [i]) && Repeats(acc, i.sym, i.extra).Some?
    ensures 8 * |Repeats(acc, i.sym, i.extra).value| <= 138 * |ItemBits(clens, i)|
  {
    hide CodeOf;
    assert ItemOk([i][0]) && clens[[i][0].sym] > 0;
    assert Pow2(2) == 4 && Pow2(3) == 8;
    Pow2At7();
  }

  lemma {:induction false} ItemsCost(clens: seq<nat>, acc: seq<nat>, items: seq<Item>)
    requires Sendable(clens, items) && Unroll(acc, items).Some?
    ensures 8 * |Unroll(acc, items).value| <= 8 * |acc| + 138 * |ItemsBits(clens, items)|
    decreases items
  {
    hide ItemBits;
    if items != [] {
      assert ItemOk(items[0]) && clens[items[0].sym] > 0;
      ItemCost(clens, acc, items[0]);
      ItemsCost(clens, acc + Repeats(acc, items[0].sym, items[0].extra).value, items[1..]);
    }
  }

  /** Where no item names the length 1, none has it. */
  lemma {:induction false} NoOnes(acc: seq<nat>, items: seq<Item>)
    requires 1 !in acc && (forall k :: 0 <= k < |items| ==> items[k].sym != 1) && Unroll(acc, items).Some?
    ensures 1 !in Unroll(acc, items).value
    decreases items
  {
    if items != [] {
      var more := Repeats(acc, items[0].sym, items[0].extra).value;
      assert acc != [] ==> acc[|acc| - 1] in acc;
      assert 1 !in more;
      NoOnes(acc + more, items[1..]);
    }
  }

  /** Where a code of one bit is announced, nearly all lengths of the code lengths are. */
  lemma OneIsLate(dlens: seq<nat>, clens: seq<nat>, n: nat)
    requires 1 in dlens && Lengths(dlens) && Sendable(clens, Items(dlens)) && NoneFrom(clens, n)
    ensures n >= 18
  {
    hide Items, Unroll;
    ItemsMean([], dlens);
    assert [] + dlens == dlens;
    if forall k :: 0 <= k < |Items(dlens)| ==> Items(dlens)[k].sym != 1 { NoOnes([], Items(dlens)); }
    var k :| 0 <= k < |Items(dlens)| && Items(dlens)[k].sym == 1;
    assert Ranked(clens, 17) == clens[1];
  }

  lemma HeaderAtLeast(llens: seq<nat>, dlens: seq<nat>, clens: seq<nat>, n: nat)
    requires Announceable(llens, dlens, clens, n) && 1 in dlens
    ensures |HeaderBits(llens, dlens, clens, n)| >= 83
  {
    hide Items, Unroll, ItemsBits, Space, Ranked, CountBits, LensBits, HeaderBits;
    CompleteLens(llens);
    CompleteLens(dlens);
    HeaderSize(llens, dlens, clens, n);
    OneIsLate(dlens, clens, n);
    ItemsMean([], llens);
    assert [] + llens == llens;
    ItemsCost(clens, [], Items(llens));
  }

  /** Without a match, build_tree makes two distance codes up, of one bit each. */
  lemma MadeUpDistance(f0: seq<ush>, dlens: seq<nat>)
    requires HuffmanCoded(f0, dlens, 30, 15) && |f0| >= 30 && forall s :: 0 <= s < 30 ==> f0[s] == 0
    ensures 1 in dlens
  {
    hide FromSomeTree, Complete, CodesUpTo;
    var f, codes, d :| HuffmanWith(f0, f, codes, d, dlens, 30, 15);
    var made :| MadeUp(f0, f, made, 30);
    MaxUsedIs(f, 30);
    var m := MaxUsed(f, 30);
    MadeOneBit(f0, f, made, d, 30, m, 15, codes);
    assert dlens[m] == 1;
  }

  lemma {:induction false} NoMatches(data: seq<byte>, s: nat)
    ensures DistCount(Literals(data), s) == 0
  {
    if data != [] {
      var n := |data| - 1;
      assert Literals(data)[..n] == Literals(data[..n]);
      NoMatches(data[..n], s);
    }
  }

  lemma TreeSize(tree: Block)
    requires TreeBlock(tree, Literals(Input(15)))
    ensures BlockOk(tree) && DataSize(tree) >= 147
  {
    hide BodyBits, HeaderBits, HuffmanCoded, ClensFor, LitFreqs, Complete, Shaped, Short, NoneFrom, CanSendAll,
      DistCount;
    var ts := Literals(Input(15));
    var f :| DistFreqs(f, ts) && HuffmanCoded(f, tree.dlens, 30, 15);
    forall s | 0 <= s < 30
      ensures f[s] == 0
    {
      NoMatches(Input(15), s);
    }
    MadeUpDistance(f, tree.dlens);
    HeaderAtLeast(tree.llens, tree.dlens, tree.clens, tree.n);
    BodyAtLeast(tree.llens, tree.dlens);
  }

  /** These fifteen bytes are stored, although the fixed block is always shorter: by 15 bits right behind the header
      of a file, and by 17 at worst. */
  lemma StoredTooLong(b: Block, pos: nat)
    requires Flushed(Some(Input(15)), Literals(Input(15)), b, pos)
    ensures b == Stored(Input(15)) && BlockOk(b) && BlockOk(Fixed(Literals(Input(15))))
    ensures Length(b, pos) == Length(Fixed(Literals(Input(15))), pos) + 10 + (ByteBoundary(pos + 3) - (pos + 3))
    ensures pos == 80 ==> Length(b, pos) == Length(Fixed(Literals(Input(15))), pos) + 15
    ensures pos % 8 == 6 ==> Length(b, pos) == Length(Fixed(Literals(Input(15))), pos) + 17
  {
    hide TreeBlock, DataSize, Length, Judged, Input, Literals;
    var data, ts := Some(Input(15)), Literals(Input(15));
    var tree :| SelectedWith(data, ts, b, pos, tree);
    FixedSize();
    TreeSize(tree);
    LengthIs(b, pos);
    LengthIs(Fixed(ts), pos);
  }
}

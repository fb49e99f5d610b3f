/** What has been emitted so far means exactly the input consumed so far. */
module Emissions {
  import opened Optionals
  import opened Bits
  import opened BitWriters
  import opened Rfc1951
  import opened Tokens
  import opened Blocks
  import opened BlockChoices
  import opened Coders
  import opened MatchSearches

  /** The blocks behind lead in the stream mean the input up to m, and the tokens take it up to n. */
  ghost predicate Written(s: seq<bool>, lead: seq<bool>, blocks: seq<Block>, data: seq<byte>, m: nat, ts: seq<Token>, n: nat) {
    && m <= n <= |data|
    && lead <= s && Sent(s, |lead|, blocks, false, |s|)
    && MeaningAll([], blocks) == Some(data[..m])
    && Expand(data[..m], ts) == Some(data[..n])
  }

  lemma WrittenStart(s: seq<bool>, data: seq<byte>)
    ensures Written(s, s, [], data, 0, [], 0)
  {
    assert data[..0] == [];
  }

  lemma ExpandMore(out: seq<byte>, ts: seq<Token>, t: Token)
    requires Expand(out, ts).Some?
    ensures Expand(out, ts + [t]) == Expand(Expand(out, ts).value, [t])
  {
    ExpandAppend(out, ts, [t]);
  }

  lemma WrittenLiteral(s: seq<bool>, lead: seq<bool>, blocks: seq<Block>, data: seq<byte>, m: nat, ts: seq<Token>, n: nat, b: byte)
    requires Written(s, lead, blocks, data, m, ts, n) && n < |data| && b == data[n]
    ensures Written(s, lead, blocks, data, m, ts + [Literal(b)], n + 1)
  {
    hide Sent, MeaningAll;
    ExpandMore(data[..m], ts, Literal(b));
    assert data[..n] + [b] == data[..n + 1];
    assert [Literal(b)][1..] == [];
  }

  /** Copying from within the output repeats what is there, even where both overlap. */
  lemma {:induction false} CopyRepeats(data: seq<byte>, at: nat, from: nat, len: nat, dist: nat)
    requires Repeat(data, at, len, dist) && at <= from <= at + len
    ensures Copy(data[..from], at + len - from, dist) == data[..at + len]
    decreases at + len - from
  {
    if from < at + len {
      var k := from - at;
      assert RepeatAt(data, at, dist, k);
      assert data[..from] + [data[..from][from - dist]] == data[..from + 1];
      CopyRepeats(data, at, from + 1, len, dist);
    }
  }

  lemma WrittenMatch(s: seq<bool>, lead: seq<bool>, blocks: seq<Block>, data: seq<byte>, m: nat, ts: seq<Token>, n: nat,
                     len: nat, dist: nat)
    requires Written(s, lead, blocks, data, m, ts, n) && 3 <= len <= 258 && Repeat(data, n, len, dist)
    ensures Written(s, lead, blocks, data, m, ts + [Match(len - 3, dist - 1)], n + len)
  {
    hide Sent, MeaningAll, Copy;
    var t := Match(len - 3, dist - 1);
    ExpandMore(data[..m], ts, t);
    CopyRepeats(data, n, n, len, dist);
    assert [t][1..] == [];
  }

  /** A block takes the place of its tokens. */
  lemma BlockMeans(data: seq<byte>, m: nat, n: nat, ts: seq<Token>, stored: Option<seq<byte>>, b: Block, pos: nat)
    requires m <= n <= |data| && Expand(data[..m], ts) == Some(data[..n])
    requires stored.Some? ==> stored.value == data[m..n]
    requires Flushed(stored, ts, b, pos)
    ensures Meaning(data[..m], b) == Some(data[..n])
  {
    hide BlockOk, Expand, Selected;
    assert data[..m] + data[m..n] == data[..n];
  }

  lemma WrittenBlock(s: seq<bool>, s': seq<bool>, lead: seq<bool>, blocks: seq<Block>, data: seq<byte>, m: nat, ts: seq<Token>, n: nat,
                     stored: Option<seq<byte>>, b: Block)
    requires Written(s, lead, blocks, data, m, ts, n)
    requires stored.Some? ==> stored.value == data[m..n]
    requires Flushed(stored, ts, b, |s|) && SentBlock(s, s', b, false)
    ensures Written(s', lead, blocks + [b], data, n, [], n)
  {
    hide Sent, BlockOk, BlockBits, MeaningAll, Meaning, Selected;
    BlockMeans(data, m, n, ts, stored, b, |s|);
    MeaningMore([], blocks, b);
    SentStays(s, BlockBits(b, false, |s|), |lead|, blocks, false, |s|);
    LastPart(s, BlockBits(b, false, |s|));
    SentOneMore(s', |lead|, blocks, |s|, b, false, |s'|);
  }

  lemma LastPart(s: seq<bool>, e: seq<bool>)
    ensures At(s + e, |s|, e)
  {
  }

  /** The whole input is in the stream behind lead, which ends with the final block and less than a byte of padding. */
  ghost predicate AllSent(s: seq<bool>, lead: seq<bool>, blocks: seq<Block>, data: seq<byte>, end: nat) {
    && lead <= s && Sent(s, |lead|, blocks, true, end) && end <= |s| < end + 8
    && MeaningAll([], blocks) == Some(data)
  }

  lemma CompleteNow(s: seq<bool>, s': seq<bool>, lead: seq<bool>, blocks: seq<Block>, data: seq<byte>, m: nat, ts: seq<Token>,
                    stored: Option<seq<byte>>, b: Block)
    requires Written(s, lead, blocks, data, m, ts, |data|)
    requires stored.Some? ==> stored.value == data[m..|data|]
    requires Flushed(stored, ts, b, |s|) && SentBlock(s, s', b, true)
    ensures AllSent(s', lead, blocks + [b], data, |s| + |BlockBits(b, true, |s|)|)
  {
    hide Sent, BlockOk, BlockBits, MeaningAll, Meaning, Selected;
    var e := BlockBits(b, true, |s|);
    var end := |s| + |e|;
    BlockMeans(data, m, |data|, ts, stored, b, |s|);
    assert data[..|data|] == data;
    MeaningMore([], blocks, b);
    PaddedIs(s + e);
    var pad := Zeros(|s'| - end);
    assert s' == s + e + pad == s + (e + pad);
    SentStays(s, e + pad, |lead|, blocks, false, |s|);
    LastPart(s, e);
    AtGrows(s + e, pad, |s|, e);
    SentOneMore(s', |lead|, blocks, |s|, b, true, end);
  }

  lemma PaddedIs(s: seq<bool>)
    ensures |s| <= |Padded(s)| < |s| + 8
    ensures Padded(s) == s + Zeros(|Padded(s)| - |s|)
  {
  }

  /** The decoder of RFC 1951 gives the input back. */
  lemma CompleteInflates(s: seq<bool>, more: seq<bool>, lead: seq<bool>, blocks: seq<Block>, data: seq<byte>, end: nat)
    requires AllSent(s, lead, blocks, data, end)
    ensures Inflate(s + more, |lead|, []) == Some(Progress(end, data))
  {
    hide Sent, Inflate, MeaningAll;
    SentStays(s, more, |lead|, blocks, true, end);
    StreamDecodes(s + more, |lead|, blocks, [], end);
  }
}

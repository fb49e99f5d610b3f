/** The three kinds of blocks, their bits, and what a decoder makes of a stream of them. */
module Blocks {
  import opened Optionals
  import opened Bits
  import opened Rfc1951
  import opened TreeHeaders
  import opened DynamicHeaders
  import opened Tokens
  import opened FixedCodes

  datatype Block =
    | Stored(data: seq<byte>)
    | Fixed(tokens: seq<Token>)
    | Dynamic(llens: seq<nat>, dlens: seq<nat>, clens: seq<nat>, n: nat, tokens: seq<Token>)

  /** A block that can be sent. */
  ghost predicate BlockOk(b: Block) {
    match b
    case Stored(data) => |data| <= 0xffff
    case Fixed(ts) => CanSendAll(FixedLens(), FixedDistLens(), ts)
    case Dynamic(llens, dlens, clens, n, ts) => Announceable(llens, dlens, clens, n) && CanSendAll(llens, dlens, ts)
  }

  function BlockType(b: Block): (r: nat)
    ensures r < 3
  {
    match b
    case Stored(_) => 0
    case Fixed(_) => 1
    case Dynamic(_, _, _, _, _) => 2
  }

  function StoredBits(data: seq<byte>): seq<bool>
    requires |data| <= 0xffff
  {
    LsbBits(|data|, 16) + (LsbBits(0xffff - |data|, 16) + BytesBits(data))
  }

  /** What follows the three bits of the block header; only a stored block cares where it stands. */
  ghost function DataBits(b: Block, pos: nat): seq<bool>
    requires BlockOk(b)
  {
    match b
    case Stored(data) => Zeros(ByteBoundary(pos) - pos) + StoredBits(data)
    case Fixed(ts) => BodyBits(FixedLens(), FixedDistLens(), ts)
    case Dynamic(llens, dlens, clens, n, ts) => HeaderBits(llens, dlens, clens, n) + BodyBits(llens, dlens, ts)
  }

  /** The final bit, two bits of type. */
  function TypeBits(kind: nat, final: bool): (s: seq<bool>)
    ensures |s| == 3
  {
    [final] + LsbBits(kind, 2)
  }

  ghost function BlockBits(b: Block, final: bool, pos: nat): (s: seq<bool>)
    requires BlockOk(b)
    ensures |s| >= 3
  {
    TypeBits(BlockType(b), final) + DataBits(b, pos + 3)
  }

  /** The output with the block's bytes added to it. */
  function Meaning(out: seq<byte>, b: Block): Option<seq<byte>> {
    match b
    case Stored(data) => Some(out + data)
    case Fixed(ts) => Expand(out, ts)
    case Dynamic(_, _, _, _, ts) => Expand(out, ts)
  }

  // ----- one block

  lemma {:induction false} BytesDecode(bits: seq<bool>, pos: nat, data: seq<byte>)
    requires At(bits, pos, BytesBits(data))
    ensures DecodeBytes(bits, pos, |data|) == Some(data)
    decreases data
  {
    if data != [] {
      var b, rest := data[0], data[1..];
      assert data == [b] + rest;
      BytesBitsAppend([b], rest);
      OneByteBits(b);
      AtSplit(bits, pos, LsbBits(b, 8), BytesBits(rest));
      Pow2At8();
      ValueOfLsb(b, 8);
      BytesDecode(bits, pos + 8, rest);
    }
  }

  lemma OneByteBits(b: byte)
    ensures BytesBits([b]) == LsbBits(b, 8)
  {
    BytesBitsOne([], b);
    assert [] + [b] == [b];
  }

  lemma StoredParts(bits: seq<bool>, p: nat, data: seq<byte>)
    requires |data| <= 0xffff && At(bits, p, StoredBits(data))
    ensures p + 32 <= |bits|
    ensures Value(bits[p..p + 16]) == |data| && Value(bits[p + 16..p + 32]) == 0xffff - |data|
    ensures DecodeBytes(bits, p + 32, |data|) == Some(data)
    ensures p + |StoredBits(data)| == p + 32 + 8 * |data|
  {
    hide Value, DecodeBytes, BytesBits, LsbBits;
    AtSplit(bits, p, LsbBits(|data|, 16), LsbBits(0xffff - |data|, 16) + BytesBits(data));
    AtSplit(bits, p + 16, LsbBits(0xffff - |data|, 16), BytesBits(data));
    Pow2At16();
    ReadLsb(bits, p, |data|, 16);
    ReadLsb(bits, p + 16, 0xffff - |data|, 16);
    BytesDecode(bits, p + 32, data);
  }

  lemma StoredDecodes(bits: seq<bool>, pos: nat, out: seq<byte>, data: seq<byte>, end: nat)
    requires |data| <= 0xffff && At(bits, pos, Zeros(ByteBoundary(pos) - pos) + StoredBits(data))
    requires end == pos + |Zeros(ByteBoundary(pos) - pos) + StoredBits(data)|
    ensures DecodeStored(bits, pos, out) == Some(Progress(end, out + data))
  {
    hide Value, DecodeBytes, StoredBits;
    AtSplit(bits, pos, Zeros(ByteBoundary(pos) - pos), StoredBits(data));
    StoredParts(bits, ByteBoundary(pos), data);
  }

  lemma TypeDecodes(bits: seq<bool>, pos: nat, kind: nat, final: bool)
    requires kind < 3 && At(bits, pos, TypeBits(kind, final))
    ensures pos + 3 <= |bits| && bits[pos] == final
    ensures Value(bits[pos + 1..pos + 3]) == kind
  {
    AtSplit(bits, pos, [final], LsbBits(kind, 2));
    assert bits[pos..pos + 1] == [final];
    assert Pow2(2) == 4;
    ReadLsb(bits, pos + 1, kind, 2);
  }

  lemma FixedDecodes(bits: seq<bool>, pos: nat, out: seq<byte>, ts: seq<Token>, end: nat)
    requires CanSendAll(FixedLens(), FixedDistLens(), ts) && Expand(out, ts).Some?
    requires At(bits, pos, BodyBits(FixedLens(), FixedDistLens(), ts))
    requires end == pos + |BodyBits(FixedLens(), FixedDistLens(), ts)|
    ensures DecodeBody(FixedLens(), FixedDistLens(), bits, pos, out) == Some(Progress(end, Expand(out, ts).value))
  {
    hide *;
    FixedSpace();
    FixedIsDecodable();
    BodyDecodes(FixedLens(), FixedDistLens(), bits, pos, out, ts, end);
  }

  lemma FixedIsDecodable()
    ensures Decodable(FixedLens(), FixedDistLens())
  {
    hide FixedLens, FixedDistLens, Space;
    FixedSpace();
  }

  lemma DynamicDecodes(bits: seq<bool>, pos: nat, out: seq<byte>, llens: seq<nat>, dlens: seq<nat>, clens: seq<nat>,
                       n: nat, ts: seq<Token>, mid: nat, end: nat)
    requires Announceable(llens, dlens, clens, n) && CanSendAll(llens, dlens, ts) && Expand(out, ts).Some?
    requires At(bits, pos, HeaderBits(llens, dlens, clens, n) + BodyBits(llens, dlens, ts))
    requires mid == pos + |HeaderBits(llens, dlens, clens, n)| && end == mid + |BodyBits(llens, dlens, ts)|
    ensures DecodeTrees(bits, pos) == Some(Trees(mid, llens, dlens))
    ensures DecodeBody(llens, dlens, bits, mid, out) == Some(Progress(end, Expand(out, ts).value))
  {
    hide HeaderBits, BodyBits, DecodeTrees, DecodeBody, Space, Expand, CanSendAll, NoneFrom, Short;
    AtSplit(bits, pos, HeaderBits(llens, dlens, clens, n), BodyBits(llens, dlens, ts));
    HeaderDecodes(bits, pos, llens, dlens, clens, n, mid);
    CompleteLens(llens);
    CompleteLens(dlens);
    BodyDecodes(llens, dlens, bits, mid, out, ts, end);
  }

  /** A block is decoded to what it means, and its end is found. */
  lemma BlockDecodes(b: Block, bits: seq<bool>, pos: nat, final: bool, out: seq<byte>, end: nat)
    requires BlockOk(b) && Meaning(out, b).Some?
    requires At(bits, pos, BlockBits(b, final, pos)) && end == pos + |BlockBits(b, final, pos)|
    ensures pos + 3 <= |bits| && bits[pos] == final
    ensures DecodeBlock(bits, pos + 1, out) == Some(Progress(end, Meaning(out, b).value))
  {
    hide StoredBits, HeaderBits, BodyBits, DecodeTrees, DecodeBody, DecodeStored, Value, Expand, Complete, Shaped,
      CanSendAll, Short, NoneFrom, FixedLens, FixedDistLens, TypeBits, At;
    AtSplit(bits, pos, TypeBits(BlockType(b), final), DataBits(b, pos + 3));
    TypeDecodes(bits, pos, BlockType(b), final);
    match b
    case Stored(data) => StoredDecodes(bits, pos + 3, out, data, end);
    case Fixed(ts) => FixedDecodes(bits, pos + 3, out, ts, end);
    case Dynamic(llens, dlens, clens, n, ts) =>
      DynamicDecodes(bits, pos + 3, out, llens, dlens, clens, n, ts, pos + 3 + |HeaderBits(llens, dlens, clens, n)|, end);
  }

  // ----- a stream of blocks

  /** From pos to end, s holds the blocks; the last one is marked final if `final`. */
  ghost predicate Sent(s: seq<bool>, pos: nat, blocks: seq<Block>, final: bool, end: nat)
    decreases blocks
  {
    if blocks == [] then pos == end <= |s| && !final
    else
      var b := blocks[0];
      && BlockOk(b)
      && At(s, pos, BlockBits(b, final && |blocks| == 1, pos))
      && if |blocks| == 1 then end == pos + |BlockBits(b, final, pos)|
         else Sent(s, pos + |BlockBits(b, false, pos)|, blocks[1..], final, end)
  }

  /** What all blocks add to the output. */
  function MeaningAll(out: seq<byte>, blocks: seq<Block>): Option<seq<byte>>
    decreases blocks
  {
    if blocks == [] then Some(out)
    else
      match Meaning(out, blocks[0])
      case None => None
      case Some(more) => MeaningAll(more, blocks[1..])
  }

  lemma {:induction false} MeaningMore(out: seq<byte>, blocks: seq<Block>, b: Block)
    requires MeaningAll(out, blocks).Some?
    ensures MeaningAll(out, blocks + [b]) == Meaning(MeaningAll(out, blocks).value, b)
    decreases blocks
  {
    hide Meaning;
    if blocks == [] {
      assert [] + [b] == [b];
      assert [b][1..] == [];
      var m := Meaning(out, b);
      assert m.Some? ==> MeaningAll(m.value, []) == m;
    } else {
      assert (blocks + [b])[1..] == blocks[1..] + [b];
      MeaningMore(Meaning(out, blocks[0]).value, blocks[1..], b);
    }
  }

  lemma AtGrows(s: seq<bool>, more: seq<bool>, pos: nat, e: seq<bool>)
    requires At(s, pos, e)
    ensures At(s + more, pos, e)
  {
    assert (s + more)[pos..pos + |e|] == s[pos..pos + |e|];
  }

  /** Whatever is sent later, the blocks sent before stay where they are. */
  lemma {:induction false} SentStays(s: seq<bool>, more: seq<bool>, pos: nat, blocks: seq<Block>, final: bool, end: nat)
    requires Sent(s, pos, blocks, final, end)
    ensures Sent(s + more, pos, blocks, final, end)
    decreases blocks
  {
    hide BlockBits, BlockOk, At;
    if blocks != [] {
      var b := blocks[0];
      AtGrows(s, more, pos, BlockBits(b, final && |blocks| == 1, pos));
      if |blocks| > 1 { SentStays(s, more, pos + |BlockBits(b, false, pos)|, blocks[1..], final, end); }
    }
  }

  /** One more block at the end. */
  lemma {:induction false} SentOneMore(s: seq<bool>, pos: nat, blocks: seq<Block>, mid: nat, b: Block, final: bool, end: nat)
    requires Sent(s, pos, blocks, false, mid) && BlockOk(b)
    requires At(s, mid, BlockBits(b, final, mid)) && end == mid + |BlockBits(b, final, mid)|
    ensures Sent(s, pos, blocks + [b], final, end)
    decreases blocks
  {
    hide BlockBits, BlockOk, At;
    if blocks == [] {
      assert [] + [b] == [b];
    } else {
      var c := blocks[0];
      assert (blocks + [b])[1..] == blocks[1..] + [b];
      var next := pos + |BlockBits(c, false, pos)|;
      if |blocks| == 1 {
        assert Sent(s, next, [], false, mid) by { AtEnds(s, pos, BlockBits(c, false, pos)); }
        assert blocks[1..] == [];
      }
      SentOneMore(s, next, blocks[1..], mid, b, final, end);
    }
  }

  lemma AtEnds(s: seq<bool>, pos: nat, e: seq<bool>)
    requires At(s, pos, e)
    ensures pos + |e| <= |s|
  {
  }

  /** The decoder takes a stream of blocks to exactly what they mean, and stops after the final one. */
  lemma {:induction false} StreamDecodes(s: seq<bool>, pos: nat, blocks: seq<Block>, out: seq<byte>, end: nat)
    requires Sent(s, pos, blocks, true, end) && MeaningAll(out, blocks).Some?
    ensures Inflate(s, pos, out) == Some(Progress(end, MeaningAll(out, blocks).value))
    decreases blocks
  {
    hide BlockBits, BlockOk, At, DecodeBlock, Meaning;
    var b := blocks[0];
    var next, last := pos + |BlockBits(b, |blocks| == 1, pos)|, |blocks| == 1;
    SameSize(b, pos);
    BlockDecodes(b, s, pos, last, out, next);
    if last {
      assert blocks[1..] == [];
    } else {
      StreamDecodes(s, next, blocks[1..], Meaning(out, b).value, end);
    }
  }

  lemma SameSize(b: Block, pos: nat)
    requires BlockOk(b)
    ensures |BlockBits(b, true, pos)| == |BlockBits(b, false, pos)|
  {
    hide DataBits, BlockOk;
  }
}

/** zip: the compressed file as a whole, and the theorem it exists for. */
module Gzip {
  import opened Optionals
  import opened Bits
  import opened BitWriters
  import opened Rfc1951
  import opened Hashing
  import opened Chains
  import opened Windows
  import opened LzWindows
  import opened Tokens
  import opened TokenBuffers
  import opened Blocks
  import opened CompressBlocks
  import opened FlushBlocks
  import opened BlTrees
  import opened Coders
  import opened Emissions
  import opened LazyRuns
  import opened Deflates

  /** The ten bytes of the member header: no name, no time, made on Unix. */
  function Header(): (s: seq<byte>)
    ensures |s| == 10
  {
    [0x1f, 0x8b, 8, 0, 0, 0, 0, 0, 0, 3]
  }

  /** The checksum and the length of the input, in 32 bits each. */
  function Trailer(crc: nat, size: nat): (s: seq<byte>)
    requires crc < 0x1_0000_0000
    ensures |s| == 8
  {
    Le32(crc) + Le32(U32(size))
  }

  /** out is a gzip file whose compressed data, decoded by RFC 1951, is data. */
  ghost predicate Compresses(out: seq<byte>, data: seq<byte>, crc: nat) {
    && crc < 0x1_0000_0000
    && Framed(out, Header(), Trailer(crc, |data|))
    && exists end: nat :: InflatesTo(out, data, end) && end <= 8 * (|out| - 8) < end + 8
  }

  /** Four bytes read with the low one first. */
  function ReadLe32(s: seq<byte>, i: nat): nat
    requires i + 4 <= |s|
  {
    (s[i] as int) + 0x100 * (s[i + 1] as int) + 0x1_0000 * (s[i + 2] as int) + 0x100_0000 * (s[i + 3] as int)
  }

  lemma Le32Reads(n: nat)
    requires n < 0x1_0000_0000
    ensures ReadLe32(Le32(n), 0) == n
  {
  }

  /** The last eight bytes are read as the checksum and the length modulo 2^32; the first ten are the header. */
  lemma TrailerReads(out: seq<byte>, data: seq<byte>, crc: nat)
    requires Compresses(out, data, crc)
    ensures |out| >= 18 && out[..10] == [31, 139, 8, 0, 0, 0, 0, 0, 0, 3]
    ensures ReadLe32(out, |out| - 8) == crc && ReadLe32(out, |out| - 4) == |data| % 0x1_0000_0000
  {
    hide Le32, InflatesTo;
    Le32Reads(crc);
    Le32Reads(U32(|data|));
    var a, b := Le32(crc), Le32(U32(|data|));
    var t := out[|out| - 8..];
    assert t == a + b;
    assert forall k :: 0 <= k < 4 ==> out[|out| - 8 + k] == t[k] == a[k];
    assert forall k :: 0 <= k < 4 ==> out[|out| - 4 + k] == t[4 + k] == b[k];
  }

  lemma HeaderWords()
    ensures Le32(0x00088b1f) + Le32(0) + Le16(0x300) == Header()
  {
  }

  /** From the bit at 80 on, the file inflates to data. */
  ghost predicate InflatesTo(out: seq<byte>, data: seq<byte>, end: nat) {
    Inflate(BytesBits(out), 80, []) == Some(Progress(end, data))
  }

  lemma BodyInflates(body: seq<byte>, tail: seq<byte>, blocks: seq<Block>, data: seq<byte>, end: nat)
    requires AllSent(BytesBits(body), BytesBits(Header()), blocks, data, end)
    ensures InflatesTo(body + tail, data, end)
    ensures end <= 8 * |body| < end + 8
  {
    hide Inflate, Sent, MeaningAll, BytesBits;
    BytesBitsAppend(body, tail);
    CompleteInflates(BytesBits(body), BytesBits(tail), BytesBits(Header()), blocks, data, end);
  }

  /** The file begins with the header and ends with the trailer. */
  ghost predicate Framed(out: seq<byte>, head: seq<byte>, tail: seq<byte>) {
    && |out| >= |head| + |tail| && out[..|head|] == head && out[|out| - |tail|..] == tail
  }

  lemma FramedNow(body: seq<byte>, head: seq<byte>, tail: seq<byte>)
    requires |body| >= |head| && body[..|head|] == head
    ensures Framed(body + tail, head, tail)
  {
    var out := body + tail;
    assert out[..|head|] == body[..|head|];
    assert out[|out| - |tail|..] == tail;
  }

  lemma CompressesNow(out: seq<byte>, data: seq<byte>, crc: nat, end: nat)
    requires crc < 0x1_0000_0000 && Framed(out, Header(), Trailer(crc, |data|))
    requires InflatesTo(out, data, end) && end <= 8 * (|out| - 8) < end + 8
    ensures Compresses(out, data, crc)
  {
    hide Framed, InflatesTo, Trailer, Header;
  }

  /** Different bytes have different bits. */
  lemma {:induction false} SameBytes(a: seq<byte>, b: seq<byte>)
    requires |a| == |b| && BytesBits(a) == BytesBits(b)
    ensures a == b
  {
    hide BytesBits;
    if a != [] {
      var n := |a| - 1;
      var (a', b') := (a[..n], b[..n]);
      assert a == a' + [a[n]] && b == b' + [b[n]];
      BytesBitsOne(a', a[n]);
      BytesBitsOne(b', b[n]);
      assert BytesBits(a') == BytesBits(a)[..8 * n] == BytesBits(b)[..8 * n] == BytesBits(b');
      assert LsbBits(a[n], 8) == BytesBits(a)[8 * n..] == BytesBits(b)[8 * n..] == LsbBits(b[n], 8);
      ValueOfLsb(a[n], 8);
      ValueOfLsb(b[n], 8);
      SameBytes(a', b');
    }
  }

  lemma Halves(s: seq<byte>, n: nat)
    requires n <= |s|
    ensures s == s[..n] + s[n..]
  {
  }

  lemma SameLead(a: seq<bool>, b: seq<bool>, lead: seq<bool>)
    requires lead <= a + b && |lead| == |a|
    ensures lead == a
  {
    assert lead == (a + b)[..|a|] == a;
  }

  lemma LeadStays(body: seq<byte>, head: seq<byte>)
    requires BytesBits(head) <= BytesBits(body)
    ensures |head| <= |body| && body[..|head|] == head
  {
    hide BytesBits;
    var a, b := body[..|head|], body[|head|..];
    BytesBitsAppend(a, b);
    Halves(body, |head|);
    SameLead(BytesBits(a), BytesBits(b), BytesBits(head));
    SameBytes(a, head);
  }

  lemma Leads(s: seq<bool>, lead: seq<bool>, blocks: seq<Block>, data: seq<byte>, end: nat)
    requires AllSent(s, lead, blocks, data, end)
    ensures lead <= s
  {
    hide Sent, MeaningAll;
  }

  lemma FileDecodes(body: seq<byte>, tail: seq<byte>, blocks: seq<Block>, data: seq<byte>, end: nat, crc: nat)
    requires AllSent(BytesBits(body), BytesBits(Header()), blocks, data, end)
    requires crc < 0x1_0000_0000 && tail == Trailer(crc, |data|)
    ensures Compresses(body + tail, data, crc)
  {
    hide AllSent, InflatesTo, Trailer, Header, BytesBits, Framed, Compresses;
    Leads(BytesBits(body), BytesBits(Header()), blocks, data, end);
    LeadStays(body, Header());
    BodyInflates(body, tail, blocks, data, end);
    FramedNow(body, Header(), tail);
    CompressesNow(body + tail, data, crc, end);
  }

  lemma Stands(w: BitWriter)
    requires w.Valid() && w.biValid == 0
    ensures w.Stream() == BytesBits(w.Bytes())
  {
    hide BytesBits;
    w.Drained();
  }

  /** The first eight bytes of the header. */
  method PutMagic(w: BitWriter)
    requires w.Valid() && w.Bytes() == [] && w.biValid == 0
    modifies w`written, w`outcnt, w.outbuf
    ensures w.Valid() && w.biValid == 0 && w.Bytes() == Le32(0x00088b1f) + Le32(0)
  {
    hide Le32;
    w.Put32bit(0x00088b1f);
    w.Put32bit(0);
    assert [] + Le32(0x00088b1f) + Le32(0) == Le32(0x00088b1f) + Le32(0);
  }

  /** The last two. */
  method PutFlags(w: BitWriter)
    requires w.Valid() && w.Bytes() == Le32(0x00088b1f) + Le32(0) && w.biValid == 0
    modifies w`written, w`outcnt, w.outbuf
    ensures w.Valid() && w.biValid == 0 && w.Bytes() == Header()
    ensures w.Stream() == BytesBits(Header())
  {
    hide Le16, Le32, Header;
    w.Put16bit(0x300);
    HeaderWords();
    Stands(w);
  }

  /** What zip writes behind the compressed data. */
  method PutTrailer(w: BitWriter, crc: nat, size: nat) returns (out: seq<byte>)
    requires w.Valid() && crc < 0x1_0000_0000 && size < 0x1_0000_0000
    modifies w`written, w`outcnt, w.outbuf
    ensures out == old(w.Bytes()) + (Le32(crc) + Le32(size))
  {
    hide Le32;
    ghost var body := w.Bytes();
    w.Put32bit(crc);
    w.Put32bit(size);
    w.FlushOutbuf();
    out := w.written;
    assert w.outbuf[..0] == [];
    assert body + Le32(crc) + Le32(size) == body + (Le32(crc) + Le32(size));
  }

  /** The new window has been filled and the coder has begun its first block: the main loop can start. */
  lemma CanStart(d: Deflater)
    requires d.Laid() && d.z.Ready() && d.Coding() && d.c.buf.tokens == [] && d.blocks == [] && d.parts == []
    requires d.z.At() == 0 && d.z.base + d.z.blockStart == 0
    requires if d.z.lookahead == 0 then d.z.eofile else d.z.primed && (d.z.eofile || d.z.lookahead >= MIN_LOOKAHEAD)
    requires d.c.w.Stream() == d.lead
    ensures d.InLoop([], false, 2)
  {
    hide Filled, Chained, Primed, Deflater.Coding, Deflater.Laid, Written, Pending;
    d.CodingRoom();
    WrittenStart(d.c.w.Stream(), d.z.input.data);
  }

  /** The window for a new file. */
  method NewWindow(data: seq<byte>, sizes: seq<nat>) returns (z: LzWindow)
    ensures fresh(z.Storage()) && z.Laid() && z.Ready() && z.At() == 0 && z.base == 0 && z.blockStart == 0
    ensures if z.lookahead == 0 then z.eofile else z.primed && (z.eofile || z.lookahead >= MIN_LOOKAHEAD)
    ensures z.input.data == data
  {
    hide LzWindow.Ready;
    var input := new Reader(data, sizes);
    z := new LzWindow(input);
    z.LmInit();
  }

  lemma Apart(c: Coder)
    requires c.Laid()
    ensures {c.w, c.w.outbuf} !! c.TreeStorage() && {c.w, c.w.outbuf} !! c.BufStorage() && {c.w, c.w.outbuf} !! c.Statics()
    ensures c.TreeStorage() !! c.BufStorage() && c.TreeStorage() !! c.Statics() && c.BufStorage() !! c.Statics()
  {
    hide LitDesc, DistDesc, BlDesc, TreesApart, StaticsApart, BufApart, TreeSet, BufSet, StaticSet;
  }

  /** The coder does not notice that the header is written. */
  method PutFlagsBefore(c: Coder)
    requires c.Laid() && c.Initialized() && c.Counted() && c.buf.Valid()
    requires c.w.Valid() && c.w.Bytes() == Le32(0x00088b1f) + Le32(0) && c.w.biValid == 0
    modifies c.w`written, c.w`outcnt, c.w.outbuf
    ensures c.w.Valid() && c.w.Stream() == BytesBits(Header())
    ensures c.Initialized() && c.Counted() && c.buf.Valid()
  {
    hide CtTables.Ready, Coder.Initialized, Coder.Counted, TokenBuffer.Valid, Header, BytesBits, Coder.Laid, Le32;
    Apart(c);
    PutFlags(c.w);
  }

  /** A coder with its first block begun, and the header written. */
  method NewStream() returns (c: Coder)
    ensures fresh(c) && fresh(c.w) && fresh(c.w.outbuf) && fresh(c.TreeStorage()) && fresh(c.BufStorage()) && fresh(c.Statics())
    ensures c.Laid() && c.Initialized() && c.Counted() && c.buf.Valid() && c.buf.tokens == []
    ensures c.w.Valid() && c.w.Stream() == BytesBits(Header())
  {
    hide CtTables.Ready, Coder.Initialized, Coder.Counted, TokenBuffer.Valid, Header, BytesBits, Coder.Laid,
      TreeSet, BufSet, StaticSet, Le32, BitWriter.Valid;
    var w := new BitWriter();
    PutMagic(w);
    c := NewCoder(w);
    Apart(c);
    c.Init();
    PutFlagsBefore(c);
  }

  /** The window and the coder together. */
  method Join(c: Coder, z: LzWindow) returns (d: Deflater)
    requires c.Laid() && c.Initialized() && c.Counted() && c.buf.Valid() && c.buf.tokens == []
    requires c.w.Valid() && c.w.Stream() == BytesBits(Header())
    requires z.Laid() && z.Ready() && z.At() == 0 && z.base == 0 && z.blockStart == 0
    requires if z.lookahead == 0 then z.eofile else z.primed && (z.eofile || z.lookahead >= MIN_LOOKAHEAD)
    requires z.Storage() !! {c.w, c.w.outbuf} && z.Storage() !! c.TreeStorage() && z.Storage() !! c.BufStorage()
    requires z.Storage() !! c.Statics()
    ensures fresh(d) && d.c == c && d.z == z && d.InLoop([], false, 2) && d.lead == BytesBits(Header())
  {
    hide CtTables.Ready, Coder.Initialized, Coder.Counted, TokenBuffer.Valid, LzWindow.Ready, Deflater.InLoop, Header,
      BytesBits, Coder.Laid, BitWriter.Valid;
    Apart(c);
    d := new Deflater(z, c, BytesBits(Header()));
    CanStart(d);
  }

  /** Everything that zip sets up before it calls deflate. */
  method Start(data: seq<byte>, sizes: seq<nat>) returns (d: Deflater)
    ensures fresh(d) && fresh(d.c.w) && fresh(d.c.w.outbuf) && fresh(d.c.TreeStorage()) && fresh(d.c.BufStorage())
    ensures fresh(d.z.Storage())
    ensures d.InLoop([], false, 2) && d.lead == BytesBits(Header()) && d.z.input.data == data
  {
    hide CtTables.Ready, Coder.Initialized, Coder.Counted, TokenBuffer.Valid, LzWindow.Ready, Deflater.InLoop, Header,
      BytesBits, Coder.Laid, BitWriter.Valid, LzWindow.Storage;
    var c := NewStream();
    var z := NewWindow(data, sizes);
    d := Join(c, z);
  }

  /** The blocks in the file hold the tokens of lazy evaluation, turn by turn, unless they are stored. */
  ghost predicate Lazily(out: seq<byte>, data: seq<byte>, blocks: seq<Block>, parts: seq<seq<Token>>, steps: seq<Step>) {
    && |out| >= 8 && BlocksOf(blocks, parts) && LazyTokens(data, steps, Joined(parts))
    && SentIn(BytesBits(out[..|out| - 8]), BytesBits(Header()), blocks, data)
  }

  ghost predicate SentIn(s: seq<bool>, lead: seq<bool>, blocks: seq<Block>, data: seq<byte>) {
    exists end: nat :: AllSent(s, lead, blocks, data, end)
  }

  lemma LazilyNow(out: seq<byte>, body: seq<byte>, tail: seq<byte>, data: seq<byte>, blocks: seq<Block>, parts: seq<seq<Token>>,
                  steps: seq<Step>, end: nat)
    requires out == body + tail && |tail| == 8 && BlocksOf(blocks, parts) && LazyTokens(data, steps, Joined(parts))
    requires AllSent(BytesBits(body), BytesBits(Header()), blocks, data, end)
    ensures Lazily(out, data, blocks, parts, steps)
  {
    hide AllSent, LazyTokens, BlocksOf, Header, BytesBits, Joined;
    assert out[..|out| - 8] == body;
  }

  /** Deflates data, which is read in pieces of any sizes, to a gzip file. crc is what updcrc has computed over it. */
  method Zip(data: seq<byte>, sizes: seq<nat>, crc: nat)
    returns (out: seq<byte>, ghost blocks: seq<Block>, ghost parts: seq<seq<Token>>, ghost steps: seq<Step>)
    requires crc < 0x1_0000_0000
    ensures Compresses(out, data, crc)
    ensures |out| >= 18 && out[..10] == [31, 139, 8, 0, 0, 0, 0, 0, 0, 3]
    ensures ReadLe32(out, |out| - 8) == crc && ReadLe32(out, |out| - 4) == |data| % 0x1_0000_0000
    ensures Lazily(out, data, blocks, parts, steps)
  {
    hide AllSent, Header, BytesBits, Deflater.InLoop, Compresses, Lazily, LazyTokens, BlocksOf, Joined;
    var d := Start(data, sizes);
    ghost var end;
    end, steps := d.Deflate();
    blocks, parts := d.blocks, d.parts;
    ghost var body := d.c.w.Bytes();
    out := PutTrailer(d.c.w, crc, d.z.input.isize);
    FileDecodes(body, Trailer(crc, |data|), d.blocks, data, end, crc);
    TrailerReads(out, data, crc);
    LazilyNow(out, body, Trailer(crc, |data|), data, blocks, parts, steps, end);
  }
}

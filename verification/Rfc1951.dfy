/** A reference decoder for the DEFLATE format, written from RFC 1951 alone.
    It is strict: a code that is over-subscribed or incomplete is an error. */
module Rfc1951 {
  import opened Optionals
  import opened Bits


  const MAX_BITS: nat := 15

  // ----- section 3.2.2: canonical codes from code lengths

  /** The number of symbols whose code is b bits long. */
  function Count(lens: seq<nat>, b: nat): nat {
    if lens == [] then 0
    else Count(lens[..|lens| - 1], b) + (if lens[|lens| - 1] == b then 1 else 0)
  }

  /** The numerically smallest code of b bits (step 2 of the algorithm). */
  function FirstCode(lens: seq<nat>, b: nat): nat {
    if b == 0 then 0
    else 2 * (FirstCode(lens, b - 1) + (if b == 1 then 0 else Count(lens, b - 1)))
  }

  /** Symbols of equal length get consecutive codes (step 3). */
  function CodeOf(lens: seq<nat>, n: nat): nat
    requires n < |lens|
  {
    FirstCode(lens, lens[n]) + Count(lens[..n], lens[n])
  }

  /** Codes are packed starting with their most significant bit. */
  function CodeBits(lens: seq<nat>, n: nat): (s: seq<bool>)
    requires n < |lens|
    ensures |s| == lens[n]
  {
    MsbBits(CodeOf(lens, n), lens[n])
  }

  /** What a code of b bits takes of a code space of 2^15. */
  function Share(b: nat): nat {
    if 1 <= b <= MAX_BITS then Pow2(MAX_BITS - b) else 0
  }

  function Space(lens: seq<nat>): nat {
    if lens == [] then 0 else Space(lens[..|lens| - 1]) + Share(lens[|lens| - 1])
  }

  predicate Complete(lens: seq<nat>) {
    && (forall i :: 0 <= i < |lens| ==> lens[i] <= MAX_BITS)
    && Space(lens) == Pow2(MAX_BITS)
  }

  /** The symbol, n or later, whose code stands at pos. */
  function DecodeSymbol(lens: seq<nat>, bits: seq<bool>, pos: nat, n: nat := 0): (r: Option<nat>)
    requires n <= |lens|
    ensures r.Some? ==> r.value < |lens| && lens[r.value] > 0 && pos + lens[r.value] <= |bits|
    decreases |lens| - n
  {
    if n == |lens| then None
    else if lens[n] > 0 && At(bits, pos, CodeBits(lens, n)) then Some(n)
    else DecodeSymbol(lens, bits, pos, n + 1)
  }

  function ReadBits(bits: seq<bool>, pos: nat, n: nat): (r: Option<nat>)
    ensures r.Some? ==> pos + n <= |bits|
  {
    if pos + n <= |bits| then Some(Value(bits[pos..pos + n])) else None
  }

  // ----- section 3.2.5: lengths and distances

  const LENGTH_CODES: nat := 29
  const DIST_CODES: nat := 30

  /** The least length of each length code, which is symbol 257 + c. */
  function LengthBase(c: nat): (r: nat)
    requires c < 29
  {
    match c
    case 0 => 3 case 1 => 4 case 2 => 5 case 3 => 6 case 4 => 7 case 5 => 8 case 6 => 9 case 7 => 10
    case 8 => 11 case 9 => 13 case 10 => 15 case 11 => 17 case 12 => 19 case 13 => 23 case 14 => 27
    case 15 => 31 case 16 => 35 case 17 => 43 case 18 => 51 case 19 => 59 case 20 => 67
    case 21 => 83 case 22 => 99 case 23 => 115 case 24 => 131 case 25 => 163 case 26 => 195
    case 27 => 227 case _ => 258
  }

  /** Its number of extra bits. */
  function LengthExtra(c: nat): (r: nat)
    requires c < 29
  {
    match c
    case 0 => 0 case 1 => 0 case 2 => 0 case 3 => 0 case 4 => 0 case 5 => 0 case 6 => 0 case 7 => 0
    case 8 => 1 case 9 => 1 case 10 => 1 case 11 => 1 case 12 => 2 case 13 => 2 case 14 => 2
    case 15 => 2 case 16 => 3 case 17 => 3 case 18 => 3 case 19 => 3 case 20 => 4 case 21 => 4
    case 22 => 4 case 23 => 4 case 24 => 5 case 25 => 5 case 26 => 5 case 27 => 5 case _ => 0
  }

  /** The least distance of each distance code. */
  function DistBase(c: nat): (r: nat)
    requires c < 30
  {
    match c
    case 0 => 1 case 1 => 2 case 2 => 3 case 3 => 4 case 4 => 5 case 5 => 7 case 6 => 9 case 7 => 13
    case 8 => 17 case 9 => 25 case 10 => 33 case 11 => 49 case 12 => 65 case 13 => 97 case 14 => 129
    case 15 => 193 case 16 => 257 case 17 => 385 case 18 => 513 case 19 => 769 case 20 => 1025
    case 21 => 1537 case 22 => 2049 case 23 => 3073 case 24 => 4097 case 25 => 6145 case 26 => 8193
    case 27 => 12289 case 28 => 16385 case _ => 24577
  }

  /** Its number of extra bits. */
  function DistExtra(c: nat): (r: nat)
    requires c < 30
  {
    match c
    case 0 => 0 case 1 => 0 case 2 => 0 case 3 => 0 case 4 => 1 case 5 => 1 case 6 => 2 case 7 => 2
    case 8 => 3 case 9 => 3 case 10 => 4 case 11 => 4 case 12 => 5 case 13 => 5 case 14 => 6
    case 15 => 6 case 16 => 7 case 17 => 7 case 18 => 8 case 19 => 8 case 20 => 9 case 21 => 9
    case 22 => 10 case 23 => 10 case 24 => 11 case 25 => 11 case 26 => 12 case 27 => 12
    case 28 => 13 case _ => 13
  }

  const END_OF_BLOCK: nat := 256

  /** Copies `length` bytes from `distance` back, which may overlap what is being written. */
  function Copy(out: seq<byte>, length: nat, distance: nat): (r: seq<byte>)
    requires 1 <= distance <= |out|
    ensures |r| == |out| + length
    decreases length
  {
    if length == 0 then out
    else Copy(out + [out[|out| - distance]], length - 1, distance)
  }

  // ----- section 3.2.3: the compressed data of a block

  datatype Progress = Progress(pos: nat, out: seq<byte>)

  /** The distance half of a match whose length has been read. */
  function DecodeDistance(dlens: seq<nat>, bits: seq<bool>, pos: nat): (r: Option<(nat, nat)>)
    ensures r.Some? ==> pos <= r.value.0 <= |bits| && r.value.1 > 0
  {
    match DecodeSymbol(dlens, bits, pos)
    case None => None
    case Some(d) =>
      if d >= DIST_CODES then None
      else
        match ReadBits(bits, pos + dlens[d], DistExtra(d))
        case None => None
        case Some(x) => Some((pos + dlens[d] + DistExtra(d), DistBase(d) + x))
  }

  /** A match as read: where it ends, its length and its distance. */
  datatype Read = Read(pos: nat, length: nat, distance: nat)

  /** The match whose length code is c; its extra bits are at pos. */
  function DecodeMatch(dlens: seq<nat>, bits: seq<bool>, pos: nat, c: nat): (r: Option<Read>)
    ensures r.Some? ==> pos <= r.value.pos <= |bits| && r.value.distance > 0
  {
    if c >= LENGTH_CODES then None
    else
      match ReadBits(bits, pos, LengthExtra(c))
      case None => None
      case Some(x) =>
        match DecodeDistance(dlens, bits, pos + LengthExtra(c))
        case None => None
        case Some(d) => Some(Read(d.0, LengthBase(c) + x, d.1))
  }

  /** Section 3.2.3's loop up to the end-of-block symbol. */
  function DecodeBody(llens: seq<nat>, dlens: seq<nat>, bits: seq<bool>, pos: nat, out: seq<byte>)
    : (r: Option<Progress>)
    ensures r.Some? ==> pos < r.value.pos <= |bits|
    decreases |bits| - pos
  {
    match DecodeSymbol(llens, bits, pos)
    case None => None
    case Some(s) =>
      var p := pos + llens[s];
      if s < END_OF_BLOCK then DecodeBody(llens, dlens, bits, p, out + [s])
      else if s == END_OF_BLOCK then Some(Progress(p, out))
      else
        match DecodeMatch(dlens, bits, p, s - 257)
        case None => None
        case Some(m) =>
          if m.distance > |out| then None
          else DecodeBody(llens, dlens, bits, m.pos, Copy(out, m.length, m.distance))
  }

  // ----- section 3.2.7: code lengths for dynamic blocks

  /** The order in which the lengths of the code length code are sent. */
  function CodeLengthOrder(i: nat): (r: nat)
    requires i < 19
    ensures r < 19
  {
    match i
    case 0 => 16 case 1 => 17 case 2 => 18 case 3 => 0 case 4 => 8 case 5 => 7 case 6 => 9
    case 7 => 6 case 8 => 10 case 9 => 5 case 10 => 11 case 11 => 4 case 12 => 12 case 13 => 3
    case 14 => 13 case 15 => 2 case 16 => 14 case 17 => 1 case _ => 15
  }

  /** The code lengths for the code length alphabet, in their odd order, over `lens`. */
  function DecodeCodeLengthLens(bits: seq<bool>, pos: nat, i: nat, n: nat, lens: seq<nat>): (r: Option<seq<nat>>)
    requires |lens| == 19
    requires i <= n <= 19
    ensures r.Some? ==> |r.value| == 19
    ensures r.Some? && i < n ==> pos + 3 * (n - i) <= |bits|
    decreases n - i
  {
    if i == n then Some(lens)
    else
      match ReadBits(bits, pos, 3)
      case None => None
      case Some(b) => DecodeCodeLengthLens(bits, pos + 3, i + 1, n, lens[CodeLengthOrder(i) := b])
  }

  /** What one code length symbol with its extra bits adds to the lengths read so far. */
  function Repeats(acc: seq<nat>, sym: nat, extra: nat): Option<seq<nat>> {
    if sym < 16 then Some([sym])
    else if sym == 16 then
      if acc == [] then None else Some(seq(3 + extra, _ => acc[|acc| - 1]))
    else if sym == 17 then Some(seq(3 + extra, _ => 0))
    else if sym == 18 then Some(seq(11 + extra, _ => 0))
    else None
  }

  function RepeatExtra(sym: nat): nat {
    if sym == 16 then 2 else if sym == 17 then 3 else if sym == 18 then 7 else 0
  }

  /** Reads exactly `total` code lengths; a repeat that overshoots is an error. */
  function DecodeLens(clens: seq<nat>, bits: seq<bool>, pos: nat, acc: seq<nat>, total: nat)
    : (r: Option<(nat, seq<nat>)>)
    ensures r.Some? ==> |r.value.1| == total && pos <= r.value.0
    ensures r.Some? && |acc| < total ==> r.value.0 <= |bits|
    decreases |bits| - pos
  {
    if |acc| == total then Some((pos, acc))
    else if |acc| > total then None
    else
      match DecodeSymbol(clens, bits, pos)
      case None => None
      case Some(s) =>
        var p := pos + clens[s];
        match ReadBits(bits, p, RepeatExtra(s))
        case None => None
        case Some(x) =>
          match Repeats(acc, s, x)
          case None => None
          case Some(more) => DecodeLens(clens, bits, p + RepeatExtra(s), acc + more, total)
  }

  /** The trees of a dynamic block: where its data starts, and the two sets of lengths. */
  datatype Trees = Trees(pos: nat, llens: seq<nat>, dlens: seq<nat>)

  /** HLIT, HDIST and HCLEN, as the numbers of lengths they announce. */
  datatype Counts = Counts(hlit: nat, hdist: nat, hclen: nat)

  function DecodeCounts(bits: seq<bool>, pos: nat): (r: Option<Counts>)
    ensures r.Some? ==> pos + 14 <= |bits| && r.value.hclen <= 19
  {
    if pos + 14 > |bits| then None
    else
      var hlit := Value(bits[pos..pos + 5]) + 257;
      var hdist := Value(bits[pos + 5..pos + 10]) + 1;
      var hclen := Value(bits[pos + 10..pos + 14]) + 4;
      if hclen > 19 || hlit > 286 then None else Some(Counts(hlit, hdist, hclen))
  }

  function DecodeClens(bits: seq<bool>, pos: nat, hclen: nat): (r: Option<seq<nat>>)
    requires hclen <= 19
  {
    match DecodeCodeLengthLens(bits, pos, 0, hclen, seq(19, _ => 0))
    case None => None
    case Some(clens) => if Complete(clens) then Some(clens) else None
  }

  /** One sequence of lengths holds both trees. */
  function SplitLens(pos: nat, lens: seq<nat>, hlit: nat): (r: Option<Trees>)
    ensures r.Some? ==> r.value.pos == pos
  {
    if hlit > |lens| then None
    else
      var llens, dlens := lens[..hlit], lens[hlit..];
      if Complete(llens) && Complete(dlens) then Some(Trees(pos, llens, dlens)) else None
  }

  /** The trees whose lengths begin at pos, once the counts and the code for lengths are known. */
  function DecodeBoth(bits: seq<bool>, pos: nat, clens: seq<nat>, c: Counts): (r: Option<Trees>)
    ensures r.Some? ==> pos <= r.value.pos <= |bits|
  {
    match DecodeLens(clens, bits, pos, [], c.hlit + c.hdist)
    case None => None
    case Some(r) => if r.0 > |bits| then None else SplitLens(r.0, r.1, c.hlit)
  }

  function DecodeTrees(bits: seq<bool>, pos: nat): (r: Option<Trees>)
    ensures r.Some? ==> pos <= r.value.pos <= |bits|
  {
    match DecodeCounts(bits, pos)
    case None => None
    case Some(c) =>
      match DecodeClens(bits, pos + 14, c.hclen)
      case None => None
      case Some(clens) => DecodeBoth(bits, pos + 14 + 3 * c.hclen, clens, c)
  }

  // ----- section 3.2.6: fixed codes

  function FixedLens(): (s: seq<nat>)
    ensures |s| == 288
  {
    seq(288, i => if i < 144 then 8 else if i < 256 then 9 else if i < 280 then 7 else 8)
  }

  function FixedDistLens(): (s: seq<nat>)
    ensures |s| == 32
  {
    seq(32, _ => 5)
  }

  // ----- sections 3.2.3 and 3.2.4: blocks

  /** Bytes of a stored block, each eight bits from pos on. */
  function DecodeBytes(bits: seq<bool>, pos: nat, n: nat): (r: Option<seq<byte>>)
    ensures r.Some? ==> pos + 8 * n <= |bits| || n == 0
    decreases n
  {
    if n == 0 then Some([])
    else if pos + 8 > |bits| then None
    else
      ValueBound(bits[pos..pos + 8]);
      match DecodeBytes(bits, pos + 8, n - 1)
      case None => None
      case Some(rest) => Some([Value(bits[pos..pos + 8])] + rest)
  }

  lemma ValueBound(s: seq<bool>)
    ensures Value(s) < Pow2(|s|)
    ensures |s| == 8 ==> Value(s) < 256
  {
    if s != [] { ValueBound(s[1..]); }
    if |s| == 8 { Pow2At8(); }
  }

  /** The first multiple of 8 from pos on. */
  function ByteBoundary(pos: nat): (r: nat)
    ensures pos <= r < pos + 8
  {
    8 * ((pos + 7) / 8)
  }

  function DecodeStored(bits: seq<bool>, pos: nat, out: seq<byte>): (r: Option<Progress>)
    ensures r.Some? ==> pos < r.value.pos
  {
    var p := ByteBoundary(pos);
    if p + 32 > |bits| then None
    else
      var len := Value(bits[p..p + 16]);
      var nlen := Value(bits[p + 16..p + 32]);
      if len + nlen != 0xffff then None
      else
        match DecodeBytes(bits, p + 32, len)
        case None => None
        case Some(s) => Some(Progress(p + 32 + 8 * len, out + s))
  }

  /** The block whose two type bits are at pos. */
  function DecodeBlock(bits: seq<bool>, pos: nat, out: seq<byte>): (r: Option<Progress>)
    requires pos + 2 <= |bits|
    ensures r.Some? ==> pos < r.value.pos
  {
    var btype := Value(bits[pos..pos + 2]);
    if btype == 0 then DecodeStored(bits, pos + 2, out)
    else if btype == 1 then DecodeBody(FixedLens(), FixedDistLens(), bits, pos + 2, out)
    else if btype == 2 then
      match DecodeTrees(bits, pos + 2)
      case None => None
      case Some(t) => DecodeBody(t.llens, t.dlens, bits, t.pos, out)
    else None
  }

  /** Decodes blocks from pos on, appending to out, up to and with the one marked final. */
  function Inflate(bits: seq<bool>, pos: nat, out: seq<byte>): Option<Progress>
    decreases |bits| - pos
  {
    if pos + 3 > |bits| then None
    else
      match DecodeBlock(bits, pos + 1, out)
      case None => None
      case Some(p) => if bits[pos] then Some(p) else Inflate(bits, p.pos, p.out)
  }

  // ----- the tables as rules

  /** Eight bits but for 144 to 255, which have nine, and 256 to 279, which have seven. */
  lemma FixedRule(s: nat)
    requires s < 288
    ensures |FixedLens()| == 288 && FixedLens()[s] == if 256 <= s < 280 then 7 else if 144 <= s < 256 then 9 else 8
  {
  }

  /** From the ninth length code on, four codes at a time have one extra bit more; the last one has none. */
  lemma LengthRule(c: nat)
    requires c < 29
    ensures LengthExtra(c) == if c < 8 || c == 28 then 0 else (c - 4) / 4
  {
  }

  /** From the fifth distance code on, two codes at a time have one extra bit more. */
  lemma DistRule(c: nat)
    requires c < 30
    ensures DistExtra(c) == if c < 4 then 0 else (c - 2) / 2
  {
  }

  /** The three symbols with repeat counts come first, then the lengths from 8 on, nearer ones before farther ones. */
  lemma OrderRule(i: nat)
    requires i < 19
    ensures CodeLengthOrder(i) == if i < 3 then 16 + i else if i == 3 then 0 else if i % 2 == 0 then 6 + i / 2 else 9 - i / 2
  {
  }

  lemma RepeatRule()
    ensures RepeatExtra(16) == 2 && RepeatExtra(17) == 3 && RepeatExtra(18) == 7
  {
  }
}

/** Literals and matches, the symbols that stand for them, and what a block of them decodes to. */
module Tokens {
  import opened Optionals
  import opened Bits
  import opened Rfc1951
  import opened PrefixCodes
  import opened TreeHeaders

  /** What ct_tally is given: a byte, or a match length less 3 and a distance less 1. */
  datatype Token = Literal(b: byte) | Match(lc: byte, dist: nat)

  predicate TokenOk(t: Token) {
    t.Match? ==> t.dist < 0x8000
  }

  predicate TokensOk(ts: seq<Token>) {
    forall i :: 0 <= i < |ts| ==> TokenOk(ts[i])
  }

  // ----- symbols

  /** The greatest code up to c whose range starts at or below length l + 3. */
  function LenSymFrom(l: nat, c: nat): (r: nat)
    requires c < 28
    ensures r <= c
  {
    if c == 0 || LengthBase(c) <= l + 3 then c else LenSymFrom(l, c - 1)
  }

  /** The length code of a match of l + 3 bytes; the longest has a code of its own. */
  function LenSym(l: nat): (r: nat)
    ensures r < 29
  {
    if l == 255 then 28 else LenSymFrom(l, 27)
  }

  /** The longest match has the last code, which stands for nothing else. */
  lemma LongestHasItsOwn(l: nat)
    requires l <= 255
    ensures LenSym(l) == 28 <==> l == 255
  {
  }

  function DistSymFrom(d: nat, c: nat): (r: nat)
    requires c < 30
    ensures r <= c
  {
    if c == 0 || DistBase(c) <= d + 1 then c else DistSymFrom(d, c - 1)
  }

  /** The distance code of a distance of d + 1. */
  function DistSym(d: nat): (r: nat)
    ensures r < 30
  {
    DistSymFrom(d, 29)
  }

  // Each code's range ends where the next one's begins.

  lemma LengthRange(c: nat)
    requires c < 28
    ensures c < 27 ==> LengthBase(c) + Pow2(LengthExtra(c)) == LengthBase(c + 1)
    ensures c == 27 ==> LengthBase(c) + Pow2(LengthExtra(c)) == 259
    ensures LengthBase(0) == 3
  {
    PowersTo5();
  }

  lemma PowersTo5()
    ensures Pow2(0) == 1 && Pow2(1) == 2 && Pow2(2) == 4 && Pow2(3) == 8 && Pow2(4) == 16 && Pow2(5) == 32
  {
  }

  lemma DistRange(c: nat)
    requires c < 30
    ensures c < 29 ==> DistBase(c) + Pow2(DistExtra(c)) == DistBase(c + 1)
    ensures c == 29 ==> DistBase(c) + Pow2(DistExtra(c)) == 0x8001
    ensures DistBase(0) == 1
  {
    PowersTo5();
    PowersTo13();
  }

  lemma PowersTo13()
    ensures Pow2(6) == 64 && Pow2(7) == 128 && Pow2(8) == 256 && Pow2(9) == 512 && Pow2(10) == 1024
    ensures Pow2(11) == 2048 && Pow2(12) == 4096 && Pow2(13) == 8192
  {
    PowersTo5();
    Pow2Add(5, 1);
    Pow2Add(5, 2);
    Pow2Add(5, 3);
    Pow2Add(5, 4);
    Pow2Add(5, 5);
    Pow2Add(8, 3);
    Pow2Add(8, 4);
    Pow2Add(8, 5);
  }

  /** l lies in the range of its code. */
  lemma {:induction false} LenSymRange(l: nat, c: nat)
    requires c < 28 && l + 3 < LengthBase(c) + Pow2(LengthExtra(c))
    ensures var s := LenSymFrom(l, c); LengthBase(s) <= l + 3 < LengthBase(s) + Pow2(LengthExtra(s))
  {
    LengthRange(c);
    if c > 0 && LengthBase(c) > l + 3 {
      LengthRange(c - 1);
      LenSymRange(l, c - 1);
    }
  }

  lemma {:induction false} DistSymRange(d: nat, c: nat)
    requires c < 30 && d + 1 < DistBase(c) + Pow2(DistExtra(c))
    ensures var s := DistSymFrom(d, c); DistBase(s) <= d + 1 < DistBase(s) + Pow2(DistExtra(s))
  {
    DistRange(c);
    if c > 0 && DistBase(c) > d + 1 {
      DistRange(c - 1);
      DistSymRange(d, c - 1);
    }
  }

  /** What is sent after the length code: how far l is above the least length of its code. */
  function LenRest(l: byte): (x: nat)
    ensures x < Pow2(LengthExtra(LenSym(l)))
    ensures LengthBase(LenSym(l)) + x == l + 3
  {
    if l == 255 then PowersTo5(); 0
    else
      LengthRange(27);
      LenSymRange(l, 27);
      l + 3 - LengthBase(LenSym(l))
  }

  function DistRest(d: nat): (x: nat)
    requires d < 0x8000
    ensures x < Pow2(DistExtra(DistSym(d)))
    ensures DistBase(DistSym(d)) + x == d + 1
  {
    DistRange(29);
    DistSymRange(d, 29);
    d + 1 - DistBase(DistSym(d))
  }

  // ----- bits

  /** Codes exist for the symbols of the tokens. */
  predicate CanSend(llens: seq<nat>, dlens: seq<nat>, t: Token) {
    match t
    case Literal(b) => b < |llens| && llens[b] > 0
    case Match(l, d) =>
      && d < 0x8000
      && LenSym(l) + 257 < |llens| && llens[LenSym(l) + 257] > 0
      && DistSym(d) < |dlens| && dlens[DistSym(d)] > 0
  }

  predicate CanSendAll(llens: seq<nat>, dlens: seq<nat>, ts: seq<Token>) {
    && |llens| > 256 && llens[256] > 0
    && forall i :: 0 <= i < |ts| ==> CanSend(llens, dlens, ts[i])
  }

  function LengthBits(llens: seq<nat>, l: byte): seq<bool>
    requires LenSym(l) + 257 < |llens|
  {
    CodeBits(llens, LenSym(l) + 257) + LsbBits(LenRest(l), LengthExtra(LenSym(l)))
  }

  function DistBits(dlens: seq<nat>, d: nat): seq<bool>
    requires d < 0x8000 && DistSym(d) < |dlens|
  {
    CodeBits(dlens, DistSym(d)) + LsbBits(DistRest(d), DistExtra(DistSym(d)))
  }

  function TokenBits(llens: seq<nat>, dlens: seq<nat>, t: Token): seq<bool>
    requires CanSend(llens, dlens, t)
  {
    match t
    case Literal(b) => CodeBits(llens, b)
    case Match(l, d) => LengthBits(llens, l) + DistBits(dlens, d)
  }

  /** The tokens one after the other. */
  function TokensBits(llens: seq<nat>, dlens: seq<nat>, ts: seq<Token>): seq<bool>
    requires CanSendAll(llens, dlens, ts)
  {
    if ts == [] then []
    else TokensBits(llens, dlens, ts[..|ts| - 1]) + TokenBits(llens, dlens, ts[|ts| - 1])
  }

  /** The compressed data of a block, up to and with the end-of-block code. */
  function BodyBits(llens: seq<nat>, dlens: seq<nat>, ts: seq<Token>): seq<bool>
    requires CanSendAll(llens, dlens, ts)
  {
    TokensBits(llens, dlens, ts) + CodeBits(llens, 256)
  }

  lemma {:induction false} BodyFirst(llens: seq<nat>, dlens: seq<nat>, ts: seq<Token>)
    requires CanSendAll(llens, dlens, ts) && ts != []
    ensures BodyBits(llens, dlens, ts) == TokenBits(llens, dlens, ts[0]) + BodyBits(llens, dlens, ts[1..])
  {
    TokensFirst(llens, dlens, ts);
    Assoc(TokenBits(llens, dlens, ts[0]), TokensBits(llens, dlens, ts[1..]), CodeBits(llens, 256));
  }

  lemma {:induction false} TokensFirst(llens: seq<nat>, dlens: seq<nat>, ts: seq<Token>)
    requires CanSendAll(llens, dlens, ts) && ts != []
    ensures TokensBits(llens, dlens, ts) == TokenBits(llens, dlens, ts[0]) + TokensBits(llens, dlens, ts[1..])
  {
    hide TokenBits;
    var n := |ts| - 1;
    var a, z := TokenBits(llens, dlens, ts[0]), TokenBits(llens, dlens, ts[n]);
    if n > 0 {
      var init, rest := ts[..n], ts[1..];
      TokensFirst(llens, dlens, init);
      assert init[1..] == rest[..n - 1] && rest[n - 1] == ts[n] && init[0] == ts[0];
      Assoc(a, TokensBits(llens, dlens, init[1..]), z);
    } else {
      assert ts[..0] == [] && ts[1..] == [];
    }
  }

  // ----- meaning

  /** The bytes that a token stands for come after those before it. */
  function Expand(out: seq<byte>, ts: seq<Token>): (r: Option<seq<byte>>)
    decreases ts
  {
    if ts == [] then Some(out)
    else
      match ts[0]
      case Literal(b) => Expand(out + [b], ts[1..])
      case Match(l, d) => if d + 1 > |out| then None else Expand(Copy(out, l + 3, d + 1), ts[1..])
  }

  lemma LengthDecodes(llens: seq<nat>, bits: seq<bool>, pos: nat, l: byte)
    requires Bounded(llens) && Space(llens) <= Pow2(MAX_BITS)
    requires LenSym(l) + 257 < |llens| && llens[LenSym(l) + 257] > 0 && At(bits, pos, LengthBits(llens, l))
    ensures DecodeSymbol(llens, bits, pos) == Some(LenSym(l) + 257)
    ensures ReadBits(bits, pos + llens[LenSym(l) + 257], LengthExtra(LenSym(l))) == Some(LenRest(l))
  {
    hide LengthBase, LengthExtra, LenSym, LenRest, DecodeSymbol, ReadBits, CodeBits, LsbBits, At;
    CodeAndExtra(llens, bits, pos, LenSym(l) + 257, LenRest(l), LengthExtra(LenSym(l)));
  }

  lemma DistDecodes(dlens: seq<nat>, bits: seq<bool>, pos: nat, d: nat, end: nat)
    requires Bounded(dlens) && Space(dlens) <= Pow2(MAX_BITS) && d < 0x8000
    requires DistSym(d) < |dlens| && dlens[DistSym(d)] > 0 && At(bits, pos, DistBits(dlens, d))
    requires end == pos + |DistBits(dlens, d)|
    ensures DecodeDistance(dlens, bits, pos) == Some((end, d + 1))
  {
    hide DistBase, DistExtra, DistSym, DistRest, DecodeSymbol, DecodeDistance, ReadBits, CodeBits, LsbBits, At;
    CodeAndExtra(dlens, bits, pos, DistSym(d), DistRest(d), DistExtra(DistSym(d)));
    DistanceIs(dlens, bits, pos, DistSym(d), DistRest(d));
  }

  lemma DistanceIs(dlens: seq<nat>, bits: seq<bool>, pos: nat, s: nat, x: nat)
    requires DecodeSymbol(dlens, bits, pos) == Some(s) && s < 30 && s < |dlens|
    requires ReadBits(bits, pos + dlens[s], DistExtra(s)) == Some(x)
    ensures DecodeDistance(dlens, bits, pos) == Some((pos + dlens[s] + DistExtra(s), DistBase(s) + x))
  {
  }

  // ----- the decoder's loop

  lemma LiteralStep(llens: seq<nat>, dlens: seq<nat>, bits: seq<bool>, pos: nat, out: seq<byte>, b: byte, next: nat)
    requires DecodeSymbol(llens, bits, pos) == Some(b as nat) && b < |llens| && llens[b] > 0 && next == pos + llens[b]
    ensures DecodeBody(llens, dlens, bits, pos, out) == DecodeBody(llens, dlens, bits, next, out + [b])
  {
    hide DecodeSymbol, CodeBits, DecodeMatch;
  }

  lemma EndStep(llens: seq<nat>, dlens: seq<nat>, bits: seq<bool>, pos: nat, out: seq<byte>, end: nat)
    requires DecodeSymbol(llens, bits, pos) == Some(256) && 256 < |llens| && end == pos + llens[256]
    ensures DecodeBody(llens, dlens, bits, pos, out) == Some(Progress(end, out))
  {
  }

  lemma MatchStep(llens: seq<nat>, dlens: seq<nat>, bits: seq<bool>, pos: nat, out: seq<byte>, c: nat, mid: nat, m: Read)
    requires c < 29 && c + 257 < |llens| && llens[c + 257] > 0 && mid == pos + llens[c + 257]
    requires DecodeSymbol(llens, bits, pos) == Some(c + 257)
    requires DecodeMatch(dlens, bits, mid, c) == Some(m) && m.distance <= |out|
    ensures DecodeBody(llens, dlens, bits, pos, out)
         == DecodeBody(llens, dlens, bits, m.pos, Copy(out, m.length, m.distance))
  {
    hide DecodeMatch, DecodeSymbol;
  }

  lemma DecodeMatchIs(dlens: seq<nat>, bits: seq<bool>, pos: nat, c: nat, x: nat, mid: nat, d: nat, next: nat)
    requires c < 29 && ReadBits(bits, pos, LengthExtra(c)) == Some(x)
    requires mid == pos + LengthExtra(c) && DecodeDistance(dlens, bits, mid) == Some((next, d))
    ensures DecodeMatch(dlens, bits, pos, c) == Some(Read(next, LengthBase(c) + x, d))
  {
  }

  /** Codes that can be decoded. */
  predicate Decodable(llens: seq<nat>, dlens: seq<nat>) {
    && Bounded(llens) && Space(llens) <= Pow2(MAX_BITS)
    && Bounded(dlens) && Space(dlens) <= Pow2(MAX_BITS)
  }

  /** Both halves of a match are read. */
  lemma MatchDecodes(llens: seq<nat>, dlens: seq<nat>, bits: seq<bool>, pos: nat, l: byte, d: nat, mid: nat, next: nat)
    requires Decodable(llens, dlens) && CanSend(llens, dlens, Match(l, d))
    requires At(bits, pos, LengthBits(llens, l)) && At(bits, mid, DistBits(dlens, d))
    requires mid == pos + |LengthBits(llens, l)| && next == mid + |DistBits(dlens, d)|
    ensures DecodeSymbol(llens, bits, pos) == Some(LenSym(l) + 257)
    ensures DecodeMatch(dlens, bits, pos + llens[LenSym(l) + 257], LenSym(l)) == Some(Read(next, l + 3, d + 1))
  {
    hide LengthBase, LengthExtra, DistBase, DistExtra, LenSym, DistSym, LenRest, DistRest, Pow2, ReadBits,
      DecodeDistance, CodeBits, Space, DistBits, DecodeSymbol;
    LengthDecodes(llens, bits, pos, l);
    DistDecodes(dlens, bits, mid, d, next);
    DecodeMatchIs(dlens, bits, pos + llens[LenSym(l) + 257], LenSym(l), LenRest(l), mid, d + 1, next);
  }

  /** One token is read as what it means. */
  lemma TokenDecodes(llens: seq<nat>, dlens: seq<nat>, bits: seq<bool>, pos: nat, out: seq<byte>, t: Token, next: nat)
    returns (more: seq<byte>)
    requires Decodable(llens, dlens) && CanSend(llens, dlens, t)
    requires At(bits, pos, TokenBits(llens, dlens, t)) && next == pos + |TokenBits(llens, dlens, t)|
    requires Expand(out, [t]).Some?
    ensures Expand(out, [t]) == Some(more)
    ensures DecodeBody(llens, dlens, bits, pos, out) == DecodeBody(llens, dlens, bits, next, more)
  {
    hide DecodeBody, DecodeMatch, DecodeSymbol, CodeBits, DistBits, LenSym, DistSym, Copy, Complete, Space, Bounded, At,
      LsbBits;
    assert [t][1..] == [];
    more := Expand(out, [t]).value;
    match t
    case Literal(b) =>
      SymbolDecodes(llens, bits, pos, b);
      LiteralStep(llens, dlens, bits, pos, out, b, next);
    case Match(l, d) =>
      var c, mid := LenSym(l), pos + |LengthBits(llens, l)|;
      AtSplit(bits, pos, LengthBits(llens, l), DistBits(dlens, d));
      MatchDecodes(llens, dlens, bits, pos, l, d, mid, next);
      MatchStep(llens, dlens, bits, pos, out, c, pos + llens[c + 257], Read(next, l + 3, d + 1));
  }

  lemma {:induction false} ExpandAppend(out: seq<byte>, a: seq<Token>, b: seq<Token>)
    ensures Expand(out, a + b) == match Expand(out, a) case None => None case Some(s) => Expand(s, b)
    decreases a
  {
    if a == [] {
      assert a + b == b;
    } else {
      assert (a + b)[1..] == a[1..] + b;
      match a[0]
      case Literal(v) => ExpandAppend(out + [v], a[1..], b);
      case Match(l, d) => if d + 1 <= |out| { ExpandAppend(Copy(out, l + 3, d + 1), a[1..], b); }
    }
  }

  lemma FirstToken(out: seq<byte>, ts: seq<Token>)
    requires ts != [] && Expand(out, ts).Some?
    ensures Expand(out, [ts[0]]).Some?
    ensures Expand(Expand(out, [ts[0]]).value, ts[1..]) == Expand(out, ts)
  {
    assert ts == [ts[0]] + ts[1..];
    ExpandAppend(out, [ts[0]], ts[1..]);
  }

  /** The decoder makes of a block's data exactly what its tokens mean. */
  lemma {:induction false} BodyDecodes(llens: seq<nat>, dlens: seq<nat>, bits: seq<bool>, pos: nat, out: seq<byte>,
                                       ts: seq<Token>, end: nat)
    requires Decodable(llens, dlens) && CanSendAll(llens, dlens, ts)
    requires At(bits, pos, BodyBits(llens, dlens, ts)) && end == pos + |BodyBits(llens, dlens, ts)|
    requires Expand(out, ts).Some?
    ensures DecodeBody(llens, dlens, bits, pos, out) == Some(Progress(end, Expand(out, ts).value))
    decreases ts
  {
    hide DecodeBody, DecodeSymbol, CodeBits, TokenBits, Copy, Space;
    if ts == [] {
      assert TokensBits(llens, dlens, ts) + CodeBits(llens, 256) == CodeBits(llens, 256);
      SymbolDecodes(llens, bits, pos, 256);
      EndStep(llens, dlens, bits, pos, out, end);
    } else {
      var next := pos + |TokenBits(llens, dlens, ts[0])|;
      BodyFirst(llens, dlens, ts);
      AtSplit(bits, pos, TokenBits(llens, dlens, ts[0]), BodyBits(llens, dlens, ts[1..]));
      FirstToken(out, ts);
      var more := TokenDecodes(llens, dlens, bits, pos, out, ts[0], next);
      BodyDecodes(llens, dlens, bits, next, more, ts[1..], end);
    }
  }
}

/** The compressed format as sections 3.1 and 3.2 of RFC 1951 tell a writer to produce it.

    Nothing here is taken from the decoder: the codes of the fixed trees and the tables of lengths and
    distances are written down from the rules of the standard, and bits are a sequence. */
module Format {
  import opened Zlib
  import opened Canonical
  import opened DeflateTokens

  type BitSeq = seq<bool>

  // ----- section 3.1.1: bits

  function Power(k: nat): nat
  {
    if k == 0 then 1 else 2 * Power(k - 1)
  }

  /** A number of n bits, the least significant first. */
  function Number(x: nat, n: nat): (b: BitSeq)
    ensures |b| == n
  {
    if n == 0 then [] else [x % 2 == 1] + Number(x / 2, n - 1)
  }

  /** A Huffman code of n bits, the most significant first. */
  function Code(c: nat, n: nat): (b: BitSeq)
    ensures |b| == n
  {
    if n == 0 then [] else Code(c / 2, n - 1) + [c % 2 == 1]
  }

  /** What a sequence of bits is worth, the least significant first. */
  function Value(b: BitSeq): nat
  {
    if b == [] then 0 else (if b[0] then 1 else 0) + 2 * Value(b[1..])
  }

  lemma {:induction false} ValueBound(b: BitSeq)
    ensures Value(b) < Power(|b|)
  {
    if b != [] {
      ValueBound(b[1..]);
    }
  }

  /** Bits packed into bytes from the least significant on, the last byte filled up with zeros. */
  function Pack(b: BitSeq): (s: seq<byte>)
    ensures |s| == (|b| + 7) / 8
  {
    if b == [] then []
    else if |b| <= 8 then ByteSize(b); [Value(b)]
    else ByteSize(b[..8]); [Value(b[..8])] + Pack(b[8..])
  }

  lemma ByteSize(b: BitSeq)
    requires |b| <= 8
    ensures Value(b) < 256
  {
    ValueBound(b);
    PowerMono(|b|, 8);
    assert Power(8) == 256;
  }

  lemma {:induction false} PowerMono(i: nat, j: nat)
    requires i <= j
    ensures 0 < Power(i) <= Power(j)
  {
    if i < j {
      PowerMono(i, j - 1);
    } else if i > 0 {
      PowerMono(i - 1, i - 1);
    }
  }

  function BytesBits(s: seq<byte>): (b: BitSeq)
    ensures |b| == 8 * |s|
  {
    if s == [] then [] else Number(s[0], 8) + BytesBits(s[1..])
  }

  // ----- section 3.2.5: lengths and distances

  /** The extra bits of a length symbol. */
  function LenExtra(sym: nat): nat
    requires 257 <= sym <= 285
  {
    if sym < 265 || sym == 285 then 0 else (sym - 261) / 4
  }

  /** The first length of a symbol: each symbol takes up where the one before ends, but the greatest
      length has a symbol of its own. */
  function LenBase(sym: nat): nat
    requires 257 <= sym <= 285
  {
    if sym == 257 then 3
    else if sym == 285 then 258
    else LenBase(sym - 1) + Power(LenExtra(sym - 1))
  }

  function DistExtra(sym: nat): nat
    requires sym < 30
  {
    if sym < 2 then 0 else (sym - 2) / 2
  }

  function DistBase(sym: nat): nat
    requires sym < 30
  {
    if sym == 0 then 1 else DistBase(sym - 1) + Power(DistExtra(sym - 1))
  }

  /** The last symbol, from sym down, whose lengths begin at len or before. */
  function LenSymFrom(len: nat, sym: nat): (r: nat)
    requires 257 <= sym <= 285 && 3 <= len
    ensures 257 <= r <= sym && LenBase(r) <= len && (r < sym ==> len < LenBase(r + 1))
  {
    if LenBase(sym) <= len then sym else LenSymFrom(len, sym - 1)
  }

  function LenSym(len: nat): (r: nat)
    requires 3 <= len <= 258
    ensures 257 <= r <= 285 && LenBase(r) <= len < LenBase(r) + Power(LenExtra(r))
  {
    LenBases();
    LenSymFrom(len, 285)
  }

  function DistSymFrom(dist: nat, sym: nat): (r: nat)
    requires sym < 30 && 1 <= dist
    ensures r <= sym && DistBase(r) <= dist && (r < sym ==> dist < DistBase(r + 1))
  {
    if DistBase(sym) <= dist then sym else DistSymFrom(dist, sym - 1)
  }

  function DistSym(dist: nat): (r: nat)
    requires 1 <= dist <= 32768
    ensures r < 30 && DistBase(r) <= dist < DistBase(r) + Power(DistExtra(r))
  {
    DistBases();
    DistSymFrom(dist, 29)
  }

  /** The numbers of the two tables of the section. */
  lemma LenBases()
    ensures LenBase(257) == 3 && LenBase(258) == 4 && LenBase(259) == 5 && LenBase(260) == 6
    ensures LenBase(261) == 7 && LenBase(262) == 8 && LenBase(263) == 9 && LenBase(264) == 10
    ensures LenBase(265) == 11 && LenBase(266) == 13 && LenBase(267) == 15 && LenBase(268) == 17
    ensures LenBase(269) == 19 && LenBase(270) == 23 && LenBase(271) == 27 && LenBase(272) == 31
    ensures LenBase(273) == 35 && LenBase(274) == 43 && LenBase(275) == 51 && LenBase(276) == 59
    ensures LenBase(277) == 67 && LenBase(278) == 83 && LenBase(279) == 99 && LenBase(280) == 115
    ensures LenBase(281) == 131 && LenBase(282) == 163 && LenBase(283) == 195 && LenBase(284) == 227
    ensures LenBase(285) == 258
  {
    Powers();
  }

  lemma DistBases()
    ensures DistBase(0) == 1 && DistBase(1) == 2 && DistBase(2) == 3 && DistBase(3) == 4 && DistBase(4) == 5
    ensures DistBase(5) == 7 && DistBase(6) == 9 && DistBase(7) == 13 && DistBase(8) == 17 && DistBase(9) == 25
    ensures DistBase(10) == 33 && DistBase(11) == 49 && DistBase(12) == 65 && DistBase(13) == 97
    ensures DistBase(14) == 129 && DistBase(15) == 193 && DistBase(16) == 257 && DistBase(17) == 385
    ensures DistBase(18) == 513 && DistBase(19) == 769 && DistBase(20) == 1025 && DistBase(21) == 1537
    ensures DistBase(22) == 2049 && DistBase(23) == 3073 && DistBase(24) == 4097 && DistBase(25) == 6145
    ensures DistBase(26) == 8193 && DistBase(27) == 12289 && DistBase(28) == 16385 && DistBase(29) == 24577
  {
    Powers();
  }

  lemma Powers()
    ensures Power(0) == 1 && Power(1) == 2 && Power(2) == 4 && Power(3) == 8 && Power(4) == 16 && Power(5) == 32
    ensures Power(6) == 64 && Power(7) == 128 && Power(8) == 256 && Power(9) == 512 && Power(10) == 1024
    ensures Power(11) == 2048 && Power(12) == 4096 && Power(13) == 8192 && Power(16) == 65536
  {
    assert Power(4) == 16;
    assert Power(8) == 256;
    assert Power(12) == 4096;
  }

  // ----- codes

  /** Section 3.2.6: the fixed literal/length codes. */
  function FixedLit(sym: nat): BitSeq
    requires sym < 288
  {
    if sym < 144 then Code(0x30 + sym, 8)
    else if sym < 256 then Code(0x190 + (sym - 144), 9)
    else if sym < 280 then Code(sym - 256, 7)
    else Code(0xc0 + (sym - 280), 8)
  }

  /** Section 3.2.2: the code of a symbol of a code given by its lengths. */
  function CodeBits(lens: seq<nat>, sym: nat): BitSeq
    requires sym < |lens|
  {
    Code(CodeOf(lens, sym), lens[sym])
  }

  /** Which codes a block uses. */
  datatype Coding = Fixed | Given(lit: seq<nat>, dst: seq<nat>)

  /** There is a code for the symbol. */
  predicate HasLit(c: Coding, sym: nat)
  {
    if c.Fixed? then sym < 288 else sym < |c.lit| && c.lit[sym] > 0
  }

  predicate HasDist(c: Coding, sym: nat)
  {
    if c.Fixed? then sym < 30 else sym < |c.dst| && c.dst[sym] > 0
  }

  function LitBits(c: Coding, sym: nat): BitSeq
    requires HasLit(c, sym)
  {
    if c.Fixed? then FixedLit(sym) else CodeBits(c.lit, sym)
  }

  function DistBits(c: Coding, sym: nat): BitSeq
    requires HasDist(c, sym)
  {
    if c.Fixed? then Code(sym, 5) else CodeBits(c.dst, sym)
  }

  // ----- section 3.2.3: blocks of codes

  /** A literal, or a length and a distance, each as a symbol and the number in its extra bits.  The
      greatest length can be written in two ways. */
  datatype Spelling = Byte(c: byte) | Reference(lsym: nat, lext: nat, dsym: nat, dext: nat)

  type Piece = p: Spelling | PieceOk(p) witness Byte(0)

  predicate PieceOk(p: Spelling)
  {
    p.Reference? ==>
      257 <= p.lsym <= 285 && p.lext < Power(LenExtra(p.lsym)) && p.dsym < 30 && p.dext < Power(DistExtra(p.dsym))
  }

  function TokenOf(p: Piece): Token
  {
    match p
    case Byte(c) => Literal(c)
    case Reference(lsym, lext, dsym, dext) => Pair(DistBase(dsym) + dext, LenBase(lsym) + lext)
  }

  /** A token has a spelling. */
  function PieceOf(t: Token): (p: Piece)
    requires t.Pair? ==> 3 <= t.len <= 258 && 1 <= t.dist <= 32768
    ensures TokenOf(p) == t
  {
    match t
    case Literal(c) => Byte(c)
    case Pair(dist, len) =>
      Spells(len, dist);
      Spell(len, dist)
  }

  function Spell(len: nat, dist: nat): Spelling
    requires 3 <= len <= 258 && 1 <= dist <= 32768
  {
    var l, d := LenSym(len), DistSym(dist);
    Reference(l, len - LenBase(l), d, dist - DistBase(d))
  }

  lemma Spells(len: nat, dist: nat)
    requires 3 <= len <= 258 && 1 <= dist <= 32768
    ensures PieceOk(Spell(len, dist)) && TokenOf(Spell(len, dist)) == Pair(dist, len)
  {
    hide LenBase, DistBase, LenExtra, DistExtra, Power;
  }

  /** What the pieces of a block spell. */
  function Tokens(pieces: seq<Piece>): seq<Token>
  {
    if pieces == [] then [] else [TokenOf(pieces[0])] + Tokens(pieces[1..])
  }

  /** There are codes for it. */
  predicate Writable(c: Coding, p: Piece)
  {
    match p
    case Byte(b) => HasLit(c, b)
    case Reference(lsym, _, dsym, _) => HasLit(c, lsym) && HasDist(c, dsym)
  }

  function PieceBits(c: Coding, p: Piece): BitSeq
    requires Writable(c, p)
  {
    match p
    case Byte(b) => LitBits(c, b)
    case Reference(lsym, lext, dsym, dext) =>
      LitBits(c, lsym) + Number(lext, LenExtra(lsym)) + DistBits(c, dsym) + Number(dext, DistExtra(dsym))
  }

  predicate AllWritable(c: Coding, pieces: seq<Piece>)
  {
    HasLit(c, 256) && forall k :: 0 <= k < |pieces| ==> Writable(c, pieces[k])
  }

  /** The pieces one after the other, and the end of the block. */
  function PiecesBits(c: Coding, pieces: seq<Piece>): BitSeq
    requires AllWritable(c, pieces)
  {
    if pieces == [] then LitBits(c, 256) else PieceBits(c, pieces[0]) + PiecesBits(c, pieces[1..])
  }

  // ----- section 3.2.7: the code lengths of a block

  /** The k-th of the code length codes in the order in which their lengths are sent: 16, 17, 18, 0, and
      then from the middle outwards. */
  function Order(k: nat): nat
    requires k < 19
  {
    if k < 3 then 16 + k else if k == 3 then 0 else if k % 2 == 0 then 8 + (k - 4) / 2 else 7 - (k - 5) / 2
  }

  /** A code length, the one before again, or zeros. */
  datatype Item = Length(n: nat) | Again(times: nat) | Zeros(times: nat) | ManyZeros(times: nat)

  /** The symbol of an item, and its extra bits. */
  function Symbol(it: Item): nat
  {
    match it
    case Length(n) => n
    case Again(_) => 16
    case Zeros(_) => 17
    case ManyZeros(_) => 18
  }

  predicate ItemOk(it: Item, before: seq<nat>)
  {
    match it
    case Length(n) => n < 16
    case Again(times) => 3 <= times <= 6 && before != []
    case Zeros(times) => 3 <= times <= 10
    case ManyZeros(times) => 11 <= times <= 138
  }

  function Times(x: nat, n: nat): seq<nat>
  {
    if n == 0 then [] else [x] + Times(x, n - 1)
  }

  function AfterItem(before: seq<nat>, it: Item): seq<nat>
    requires ItemOk(it, before)
  {
    match it
    case Length(n) => before + [n]
    case Again(times) => before + Times(before[|before| - 1], times)
    case Zeros(times) => before + Times(0, times)
    case ManyZeros(times) => before + Times(0, times)
  }

  predicate ItemsOk(items: seq<Item>, before: seq<nat>)
    decreases |items|
  {
    items == [] || (ItemOk(items[0], before) && ItemsOk(items[1..], AfterItem(before, items[0])))
  }

  function AfterItems(before: seq<nat>, items: seq<Item>): seq<nat>
    requires ItemsOk(items, before)
    decreases |items|
  {
    if items == [] then before else AfterItems(AfterItem(before, items[0]), items[1..])
  }

  function ItemBits(clens: seq<nat>, it: Item): BitSeq
    requires Symbol(it) < |clens| && (it.Length? || 3 <= it.times) && (it.ManyZeros? ==> 11 <= it.times)
  {
    CodeBits(clens, Symbol(it)) +
    match it
    case Length(_) => []
    case Again(times) => Number(times - 3, 2)
    case Zeros(times) => Number(times - 3, 3)
    case ManyZeros(times) => Number(times - 11, 7)
  }

  /** Items for which there are codes. */
  predicate Sendable(clens: seq<nat>, items: seq<Item>)
  {
    forall k :: 0 <= k < |items| ==>
      var it := items[k];
      && Symbol(it) < |clens| && clens[Symbol(it)] > 0 && (it.Length? || 3 <= it.times)
      && (it.ManyZeros? ==> 11 <= it.times)
  }

  function ItemsBits(clens: seq<nat>, items: seq<Item>): BitSeq
    requires Sendable(clens, items)
    decreases |items|
  {
    if items == [] then [] else ItemBits(clens, items[0]) + ItemsBits(clens, items[1..])
  }

  /** The lengths of the code length codes from the k-th to the last one sent. */
  function OrderBits(clens: seq<nat>, k: nat, count: nat): BitSeq
    requires |clens| == 19 && k <= count <= 19
    decreases count - k
  {
    if k == count then [] else Number(clens[Order(k)], 3) + OrderBits(clens, k + 1, count)
  }

  // ----- section 3.2.3: blocks

  datatype Block =
    | Raw(data: seq<byte>, fill: nat)  // the bits up to the next byte may be any
    | FixedCodes(pieces: seq<Piece>)
    | OwnCodes(lit: seq<nat>, dst: seq<nat>, clens: seq<nat>, count: nat, items: seq<Item>, pieces: seq<Piece>)

  predicate HeaderOk(b: Block)
    requires b.OwnCodes?
  {
    && 257 <= |b.lit| <= 286 && 1 <= |b.dst| <= 30 && |b.clens| == 19 && 4 <= b.count <= 19
    && (forall k :: 0 <= k < 19 ==> b.clens[k] < 8) && (forall k :: b.count <= k < 19 ==> b.clens[Order(k)] == 0)
    && Sendable(b.clens, b.items) && ItemsOk(b.items, []) && AfterItems([], b.items) == b.lit + b.dst
  }

  /** What section 3.2 asks of a block. */
  predicate BlockOk(b: Block)
  {
    match b
    case Raw(data, _) => |data| <= 65535
    case FixedCodes(pieces) => AllWritable(Fixed, pieces)
    case OwnCodes(lit, dst, _, _, _, pieces) => HeaderOk(b) && AllWritable(Given(lit, dst), pieces)
  }

  function HeaderBits(b: Block): BitSeq
    requires b.OwnCodes? && HeaderOk(b)
  {
    Number(|b.lit| - 257, 5) + Number(|b.dst| - 1, 5) + Number(b.count - 4, 4) + OrderBits(b.clens, 0, b.count)
      + ItemsBits(b.clens, b.items)
  }

  /** Bits to the next byte. */
  function ToByte(pos: nat): nat
  {
    (8 - pos % 8) % 8
  }

  /** A block that begins at bit pos; `last` marks the last one. */
  function BlockBits(pos: nat, b: Block, last: bool): BitSeq
    requires BlockOk(b)
  {
    [last] +
    match b
    case Raw(data, fill) =>
      Number(0, 2) + Number(fill, ToByte(pos + 3)) + Number(|data|, 16) + Number(0xffff - |data|, 16) + BytesBits(data)
    case FixedCodes(pieces) => Number(1, 2) + PiecesBits(Fixed, pieces)
    case OwnCodes(lit, dst, _, _, _, pieces) => Number(2, 2) + HeaderBits(b) + PiecesBits(Given(lit, dst), pieces)
  }

  predicate BlocksOk(blocks: seq<Block>)
  {
    forall k :: 0 <= k < |blocks| ==> BlockOk(blocks[k])
  }

  /** The blocks one after the other from bit pos on, the last one marked. */
  function BlocksBits(pos: nat, blocks: seq<Block>): BitSeq
    requires BlocksOk(blocks)
    decreases |blocks|
  {
    if blocks == [] then []
    else
      var b := BlockBits(pos, blocks[0], |blocks| == 1);
      b + BlocksBits(pos + |b|, blocks[1..])
  }

  // ----- what blocks stand for

  function ApplyAll(out: seq<byte>, tokens: seq<Token>): seq<byte>
    decreases |tokens|
  {
    if tokens == [] then out else ApplyAll(Apply(out, tokens[0]), tokens[1..])
  }

  /** Every distance stays within what is written and within a window of W bytes. */
  predicate Near(out: seq<byte>, tokens: seq<Token>, W: nat)
    decreases |tokens|
  {
    tokens == [] ||
    (&& (tokens[0].Pair? ==> tokens[0].dist <= |out| && tokens[0].dist <= W)
     && Near(Apply(out, tokens[0]), tokens[1..], W))
  }

  function AfterBlock(out: seq<byte>, b: Block): seq<byte>
  {
    if b.Raw? then out + b.data else ApplyAll(out, Tokens(b.pieces))
  }

  predicate BlockNear(out: seq<byte>, b: Block, W: nat)
  {
    b.Raw? || Near(out, Tokens(b.pieces), W)
  }

  function Decoded(out: seq<byte>, blocks: seq<Block>): seq<byte>
    decreases |blocks|
  {
    if blocks == [] then out else Decoded(AfterBlock(out, blocks[0]), blocks[1..])
  }

  predicate AllNear(out: seq<byte>, blocks: seq<Block>, W: nat)
    decreases |blocks|
  {
    blocks == [] || (BlockNear(out, blocks[0], W) && AllNear(AfterBlock(out, blocks[0]), blocks[1..], W))
  }
}

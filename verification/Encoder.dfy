/**
  An encoder for the compressed format of RFC 1951: for every list of blocks that the format
  has an encoding for, bytes that hold it, so that what is proved of encoded blocks is a round
  trip.
 */
module Encoder {
  import opened Options
  import opened Bits
  import opened CanonicalCode
  import opened Huffman
  import opened Inflate
  import opened Deflate
  import Inflator

  // ---- Bits ----

  /** The n bits of a number, least significant bit first. */
  function FieldBits(v: nat, n: nat): (w: seq<bit>)
    requires v < Pow2(n)
    ensures |w| == n
  {
    if n == 0 then []
    else
      assert v < 2 * Pow2(n - 1);
      FieldBits(if v < Pow2(n - 1) then v else v - Pow2(n - 1), n - 1) + [if v < Pow2(n - 1) then 0 else 1]
  }

  lemma WordAtSplit(data: seq<byte>, bp: nat, a: seq<bit>, b: seq<bit>)
    requires WordAt(data, bp, a + b)
    ensures WordAt(data, bp, a) && WordAt(data, bp + |a|, b)
  {
    hide BitAt;
    forall i | 0 <= i < |a|
      ensures BitAt(data, bp + i) == a[i]
    {
      assert (a + b)[i] == a[i];
    }
    forall i | 0 <= i < |b|
      ensures BitAt(data, bp + |a| + i) == b[i]
    {
      assert (a + b)[|a| + i] == b[i];
      assert bp + |a| + i == bp + (|a| + i);
    }
  }

  lemma {:induction false} FieldIsThere(data: seq<byte>, bp: nat, v: nat, n: nat)
    requires v < Pow2(n) && WordAt(data, bp, FieldBits(v, n))
    ensures FieldAt(data, bp, n, v)
  {
    hide BitAt;
    if n > 0 {
      var high := if v < Pow2(n - 1) then 0 else 1;
      var low := if v < Pow2(n - 1) then v else v - Pow2(n - 1);
      assert v < 2 * Pow2(n - 1);
      WordAtSplit(data, bp, FieldBits(low, n - 1), [high]);
      FieldIsThere(data, bp, low, n - 1);
      assert BitAt(data, bp + (n - 1) + 0) == [high][0];
    }
  }

  // ---- Tokens ----

  ghost predicate TokenSendable(lit: seq<seq<bit>>, dist: seq<seq<bit>>, t: Token) {
    match t
    case Literal(b) => InUse(lit, b)
    case Copy(k, _, kd, _) => t.Valid() && InUse(lit, 257 + k) && InUse(dist, kd)
  }

  ghost predicate TokensSendable(lit: seq<seq<bit>>, dist: seq<seq<bit>>, toks: seq<Token>) {
    InUse(lit, 256) && forall i | 0 <= i < |toks| :: TokenSendable(lit, dist, toks[i])
  }

  ghost function TokenCode(lit: seq<seq<bit>>, dist: seq<seq<bit>>, t: Token): seq<bit>
    requires TokenSendable(lit, dist, t)
  {
    match t
    case Literal(b) => lit[b]
    case Copy(k, _, _, _) => lit[257 + k] + CopyCode(dist, t)
  }

  /** What follows the length symbol of a copy. */
  ghost function CopyCode(dist: seq<seq<bit>>, t: Token): seq<bit>
    requires t.Copy? && t.Valid() && InUse(dist, t.kd)
  {
    FieldBits(t.extra, LengthExtra(t.k)) + (dist[t.kd] + FieldBits(t.extraD, DistanceExtra(t.kd)))
  }

  ghost function TokensCode(lit: seq<seq<bit>>, dist: seq<seq<bit>>, toks: seq<Token>): seq<bit>
    requires TokensSendable(lit, dist, toks)
  {
    if toks == [] then lit[256] else TokenCode(lit, dist, toks[0]) + TokensCode(lit, dist, toks[1..])
  }

  lemma TokenIsThere(lit: seq<seq<bit>>, dist: seq<seq<bit>>, data: seq<byte>, bp: nat, t: Token)
    requires TokenSendable(lit, dist, t) && WordAt(data, bp, TokenCode(lit, dist, t))
    ensures TokenAt(lit, dist, data, bp, t)
    ensures TokenBits(lit, dist, data, bp, t) == |TokenCode(lit, dist, t)|
  {
    hide WordAt, FieldBits, FieldAt, LengthExtra, DistanceExtra;
    if t.Copy? {
      var w := lit[257 + t.k];
      WordAtSplit(data, bp, w, CopyCode(dist, t));
      CopyIsThere(dist, data, bp + |w|, t);
    }
  }

  lemma CopyIsThere(dist: seq<seq<bit>>, data: seq<byte>, bp: nat, t: Token)
    requires t.Copy? && t.Valid() && InUse(dist, t.kd) && WordAt(data, bp, CopyCode(dist, t))
    ensures CopyAt(dist, data, bp, t) && CopyBits(dist, t) == |CopyCode(dist, t)|
  {
    hide WordAt, FieldBits, FieldAt, LengthExtra, DistanceExtra;
    var e, d := FieldBits(t.extra, LengthExtra(t.k)), FieldBits(t.extraD, DistanceExtra(t.kd));
    var w := dist[t.kd];
    WordAtSplit(data, bp, e, w + d);
    WordAtSplit(data, bp + |e|, w, d);
    FieldIsThere(data, bp, t.extra, LengthExtra(t.k));
    FieldIsThere(data, bp + |e| + |w|, t.extraD, DistanceExtra(t.kd));
  }

  lemma {:induction false} TokensAreThere(lit: seq<seq<bit>>, dist: seq<seq<bit>>, data: seq<byte>, bp: nat, toks: seq<Token>)
    requires TokensSendable(lit, dist, toks) && WordAt(data, bp, TokensCode(lit, dist, toks))
    ensures TokensAt(lit, dist, data, bp, toks, bp + |TokensCode(lit, dist, toks)|)
    decreases |toks|
  {
    hide WordAt, TokenCode, TokenSendable, TokenAt, TokenBits, InUse;
    if toks != [] {
      var first, rest := TokenCode(lit, dist, toks[0]), TokensCode(lit, dist, toks[1..]);
      WordAtSplit(data, bp, first, rest);
      TokenIsThere(lit, dist, data, bp, toks[0]);
      TokensAreThere(lit, dist, data, bp + |first|, toks[1..]);
      assert bp + |first| + |rest| == bp + |first + rest|;
    }
  }

  // ---- Headers of dynamic blocks ----

  ghost predicate InstrSendable(ws: seq<seq<bit>>, instr: Instr) {
    instr.Valid() && InUse(ws, instr.Symbol())
  }

  ghost function InstrCode(ws: seq<seq<bit>>, instr: Instr): seq<bit>
    requires InstrSendable(ws, instr)
  {
    ws[instr.Symbol()] + (if instr.Run? then FieldBits(instr.extra, RunExtra(instr.code)) else [])
  }

  ghost function InstrsCode(ws: seq<seq<bit>>, instrs: seq<Instr>): seq<bit>
    requires forall i | 0 <= i < |instrs| :: InstrSendable(ws, instrs[i])
  {
    if instrs == [] then [] else InstrCode(ws, instrs[0]) + InstrsCode(ws, instrs[1..])
  }

  lemma InstrIsThere(ws: seq<seq<bit>>, data: seq<byte>, bp: nat, instr: Instr)
    requires InstrSendable(ws, instr) && WordAt(data, bp, InstrCode(ws, instr))
    ensures InstrAt(ws, data, bp, instr) && InstrBits(ws, instr) == |InstrCode(ws, instr)|
  {
    hide WordAt, FieldBits, FieldAt;
    var w := ws[instr.Symbol()];
    if instr.Run? {
      WordAtSplit(data, bp, w, FieldBits(instr.extra, RunExtra(instr.code)));
      FieldIsThere(data, bp + |w|, instr.extra, RunExtra(instr.code));
    } else {
      assert w + [] == w;
    }
  }

  lemma {:induction false} InstrsAreThere(ws: seq<seq<bit>>, data: seq<byte>, bp: nat, instrs: seq<Instr>)
    requires (forall i | 0 <= i < |instrs| :: InstrSendable(ws, instrs[i])) && WordAt(data, bp, InstrsCode(ws, instrs))
    ensures InstrsAt(ws, data, bp, instrs, bp + |InstrsCode(ws, instrs)|)
    decreases |instrs|
  {
    hide WordAt, InstrCode, InstrSendable, InstrAt, InstrBits;
    if instrs != [] {
      var first, rest := InstrCode(ws, instrs[0]), InstrsCode(ws, instrs[1..]);
      WordAtSplit(data, bp, first, rest);
      InstrIsThere(ws, data, bp, instrs[0]);
      InstrsAreThere(ws, data, bp + |first|, instrs[1..]);
      assert bp + |first| + |rest| == bp + |first + rest|;
    }
  }

  /** The counts and the code length code of a header are in the ranges of their fields. */
  ghost predicate CountsSendable(h: Header) {
    && 257 <= h.hlit <= 288 && 1 <= h.hdist <= 32 && 4 <= h.hclen <= 19 && |h.clens| == 19
    && (forall s | 0 <= s < 19 :: h.clens[s] < 8)
    && (forall i | h.hclen <= i < 19 :: h.clens[OrderAt(i)] == 0)
  }

  lemma FieldSizes()
    ensures Pow2(1) == 2 && Pow2(2) == 4 && Pow2(3) == 8 && Pow2(4) == 16 && Pow2(5) == 32 && Pow2(8) == 256
  {
  }

  ghost function LengthsCode(h: Header, n: nat): (w: seq<bit>)
    requires CountsSendable(h) && n <= 19
    ensures |w| == 3 * n
  {
    FieldSizes();
    if n == 0 then [] else LengthsCode(h, n - 1) + FieldBits(h.clens[OrderAt(n - 1)], 3)
  }

  ghost function CountsCode(h: Header): (w: seq<bit>)
    requires CountsSendable(h)
    ensures |w| == 14
  {
    FieldSizes();
    FieldBits(h.hlit - 257, 5) + (FieldBits(h.hdist - 1, 5) + FieldBits(h.hclen - 4, 4))
  }

  lemma {:induction false} LengthsAreThere(data: seq<byte>, bp: nat, h: Header, n: nat)
    requires CountsSendable(h) && n <= 19 && WordAt(data, bp, LengthsCode(h, n))
    ensures forall i | 0 <= i < n :: FieldAt(data, bp + 3 * i, 3, h.clens[OrderAt(i)])
  {
    hide WordAt, FieldAt, FieldBits;
    if n > 0 {
      FieldSizes();
      WordAtSplit(data, bp, LengthsCode(h, n - 1), FieldBits(h.clens[OrderAt(n - 1)], 3));
      LengthsAreThere(data, bp, h, n - 1);
      FieldIsThere(data, bp + 3 * (n - 1), h.clens[OrderAt(n - 1)], 3);
    }
  }

  lemma CountsAreThere(data: seq<byte>, bp: nat, h: Header)
    requires CountsSendable(h) && WordAt(data, bp, CountsCode(h) + LengthsCode(h, h.hclen))
    ensures CountsAt(data, bp, h)
  {
    hide WordAt, FieldAt, FieldBits;
    FieldSizes();
    WordAtSplit(data, bp, CountsCode(h), LengthsCode(h, h.hclen));
    var a, b, c := FieldBits(h.hlit - 257, 5), FieldBits(h.hdist - 1, 5), FieldBits(h.hclen - 4, 4);
    WordAtSplit(data, bp, a, b + c);
    WordAtSplit(data, bp + 5, b, c);
    FieldIsThere(data, bp, h.hlit - 257, 5);
    FieldIsThere(data, bp + 5, h.hdist - 1, 5);
    FieldIsThere(data, bp + 10, h.hclen - 4, 4);
    LengthsAreThere(data, bp + 14, h, h.hclen);
  }

  /** The two lists of code lengths that the instructions of a header stand for. */
  ghost predicate HeaderSendable(h: Header, lit: seq<nat>, dist: seq<nat>) {
    && CountsSendable(h) && Decodable(h.clens, 7)
    && (forall i | 0 <= i < |h.instrs| :: InstrSendable(Words(h.clens), h.instrs[i]))
    && StandsFor(h, lit, dist)
    && lit[256] > 0 && Decodable(lit, 15) && Decodable(dist, 15)
  }

  ghost function HeaderCode(h: Header): seq<bit>
    requires CountsSendable(h) && forall i | 0 <= i < |h.instrs| :: InstrSendable(Words(h.clens), h.instrs[i])
  {
    (CountsCode(h) + LengthsCode(h, h.hclen)) + InstrsCode(Words(h.clens), h.instrs)
  }

  lemma HeaderIsThere(data: seq<byte>, bp: nat, h: Header, lit: seq<nat>, dist: seq<nat>)
    requires HeaderSendable(h, lit, dist) && WordAt(data, bp, HeaderCode(h))
    ensures HeaderAt(data, bp, h, lit, dist, bp + |HeaderCode(h)|)
  {
    hide WordAt, Decodable, StandsFor, InstrsCode, InstrSendable, CountsAt, InstrsAt, FieldBits, LengthsCode;
    WordAtSplit(data, bp, CountsCode(h) + LengthsCode(h, h.hclen), InstrsCode(Words(h.clens), h.instrs));
    CountsAreThere(data, bp, h);
    InstrsAreThere(Words(h.clens), data, bp + 14 + 3 * h.hclen, h.instrs);
  }

  // ---- Bytes ----

  /** A bit string as a number, least significant bit first. */
  function Number(w: seq<bit>): (v: nat)
    ensures v < Pow2(|w|)
  {
    if w == [] then 0 else w[0] + 2 * Number(w[1..])
  }

  lemma {:induction false} BitOfNumber(w: seq<bit>, i: nat)
    requires i < |w|
    ensures Number(w) / Pow2(i) % 2 == w[i]
  {
    if i > 0 {
      BitOfNumber(w[1..], i - 1);
      assert Number(w) / 2 == Number(w[1..]);
      DivTwice(Number(w), Pow2(i - 1));
    }
  }

  /** The bits in bytes, each byte filled from its least significant bit, the last one with zeros. */
  function Pack(w: seq<bit>): (bytes: seq<byte>)
    ensures |w| <= 8 * |bytes| < |w| + 8
    decreases |w|
  {
    assert Pow2(8) == 256;
    if w == [] then []
    else if |w| < 8 then [Number(w + Padding(8 - |w|))]
    else [Number(w[..8])] + Pack(w[8..])
  }

  function Padding(n: nat): (w: seq<bit>)
    ensures |w| == n
  {
    seq<bit>(n, _ => 0)
  }

  lemma {:induction false} PackedBits(w: seq<bit>, i: nat)
    requires i < |w|
    ensures BitAt(Pack(w), i) == w[i]
    decreases |w|
  {
    if |w| < 8 {
      BitOfNumber(w + Padding(8 - |w|), i);
    } else if i < 8 {
      BitOfNumber(w[..8], i);
    } else {
      PackedBits(w[8..], i - 8);
      assert i / 8 == (i - 8) / 8 + 1 && i % 8 == (i - 8) % 8;
      hide Number;
    }
  }

  lemma PackedIsThere(w: seq<bit>)
    ensures WordAt(Pack(w), 0, w)
  {
    hide BitAt;
    forall i | 0 <= i < |w|
      ensures BitAt(Pack(w), 0 + i) == w[i]
    {
      PackedBits(w, i);
    }
  }

  /** The low bits of a byte as a field. */
  lemma {:induction false} FieldOfByte(data: seq<byte>, p: nat, n: nat)
    requires n <= 8
    ensures Field(data, 8 * p, n) == ByteAt(data, p) % Pow2(n)
  {
    if n > 0 {
      FieldOfByte(data, p, n - 1);
      assert (8 * p + n - 1) / 8 == p && (8 * p + n - 1) % 8 == n - 1;
      SplitMod(ByteAt(data, p), Pow2(n - 1));
    }
  }

  lemma SplitMod(v: nat, d: nat)
    requires d > 0
    ensures v % (2 * d) == v % d + v / d % 2 * d
  {
    var q, r := v / d, v % d;
    assert v == q * d + r;
    Regroup(q / 2, q % 2, d);
    assert q == 2 * (q / 2) + q % 2;
    DivUnique(v, 2 * d, q / 2, q % 2 * d + r);
  }

  lemma Regroup(a: nat, b: nat, d: nat)
    requires b < 2
    ensures (2 * a + b) * d == a * (2 * d) + b * d && b * d <= d
  {
  }

  lemma ByteIsThere(data: seq<byte>, p: nat, b: byte)
    requires Pow2(8) == 256 && WordAt(data, 8 * p, FieldBits(b, 8))
    ensures p < |data| && data[p] == b
  {
    hide FieldBits, WordAt, Field, Pow2;
    FieldIsThere(data, 8 * p, b, 8);
    FieldOfByte(data, p, 8);
  }

  function BytesCode(bytes: seq<byte>): (w: seq<bit>)
    ensures |w| == 8 * |bytes|
  {
    if bytes == [] then [] else FieldSizes(); FieldBits(bytes[0], 8) + BytesCode(bytes[1..])
  }

  lemma {:induction false} BytesAreThere(data: seq<byte>, p: nat, bytes: seq<byte>)
    requires WordAt(data, 8 * p, BytesCode(bytes))
    ensures p + |bytes| <= |data| && data[p..p + |bytes|] == bytes
    decreases |bytes|
  {
    hide WordAt, FieldBits;
    if bytes == [] {
      WordEnds(data, 8 * p, []);
    } else {
      FieldSizes();
      WordAtSplit(data, 8 * p, FieldBits(bytes[0], 8), BytesCode(bytes[1..]));
      ByteIsThere(data, p, bytes[0]);
      assert 8 * p + 8 == 8 * (p + 1);
      BytesAreThere(data, p + 1, bytes[1..]);
      assert data[p..p + |bytes|] == [data[p]] + data[p + 1..p + 1 + |bytes[1..]|];
    }
  }

  lemma WordEnds(data: seq<byte>, bp: nat, w: seq<bit>)
    requires WordAt(data, bp, w)
    ensures bp + |w| <= 8 * |data|
  {
  }

  // ---- Blocks ----

  /** The block has an encoding. A dynamic one has a header that stands for codes with all symbols. */
  ghost predicate Sendable(block: Block) {
    match block
    case StoredBlock(bytes) => |bytes| <= 65535
    case FixedBlock(toks) => TokensSendable(Words(FixedLengths()), Words(FixedDistances()), toks)
    case DynamicBlock(h, toks) =>
      exists lit, dist :: HeaderSendable(h, lit, dist) && TokensSendable(Words(lit), Words(dist), toks)
  }

  /** Number of bits up to the next byte. */
  function ToBoundary(bp: nat): nat {
    (bp + 7) / 8 * 8 - bp
  }

  function Word(n: nat): seq<byte>
    requires n <= 65535
  {
    [n % 256, n / 256]
  }

  /** The bits of a block that starts at bp, without its header. */
  ghost function BodyCode(block: Block, bp: nat): seq<bit>
    requires Sendable(block)
  {
    match block
    case StoredBlock(bytes) =>
      Padding(ToBoundary(bp)) + BytesCode(Word(|bytes|) + Word(65535 - |bytes|) + bytes)
    case FixedBlock(toks) => TokensCode(Words(FixedLengths()), Words(FixedDistances()), toks)
    case DynamicBlock(h, toks) =>
      var lit, dist :| HeaderSendable(h, lit, dist) && TokensSendable(Words(lit), Words(dist), toks);
      HeaderCode(h) + TokensCode(Words(lit), Words(dist), toks)
  }

  lemma StoredIsThere(data: seq<byte>, bp: nat, bytes: seq<byte>)
    requires |bytes| <= 65535 && WordAt(data, bp, BodyCode(StoredBlock(bytes), bp))
    ensures BodyAt(data, bp, StoredBlock(bytes), bp + |BodyCode(StoredBlock(bytes), bp)|)
  {
    hide WordAt;
    var p := (bp + 7) / 8;
    var all := Word(|bytes|) + Word(65535 - |bytes|) + bytes;
    WordAtSplit(data, bp, Padding(ToBoundary(bp)), BytesCode(all));
    BytesAreThere(data, p, all);
    var there := data[p..p + |all|];
    assert there[0] == data[p] && there[1] == data[p + 1] && there[2] == data[p + 2] && there[3] == data[p + 3];
    assert there[4..] == data[p + 4..p + 4 + |bytes|] && all[4..] == bytes;
  }

  lemma BodyIsThere(data: seq<byte>, bp: nat, block: Block)
    requires Sendable(block) && WordAt(data, bp, BodyCode(block, bp))
    ensures BodyAt(data, bp, block, bp + |BodyCode(block, bp)|)
  {
    hide WordAt, HeaderSendable, TokensSendable, HeaderAt, TokensAt, TokensCode, FixedLengths, FixedDistances;
    match block
    case StoredBlock(bytes) => StoredIsThere(data, bp, bytes);
    case FixedBlock(toks) => TokensAreThere(Words(FixedLengths()), Words(FixedDistances()), data, bp, toks);
    case DynamicBlock(h, toks) => DynamicIsThere(data, bp, h, toks);
  }

  lemma DynamicIsThere(data: seq<byte>, bp: nat, h: Header, toks: seq<Token>)
    requires Sendable(DynamicBlock(h, toks)) && WordAt(data, bp, BodyCode(DynamicBlock(h, toks), bp))
    ensures BodyAt(data, bp, DynamicBlock(h, toks), bp + |BodyCode(DynamicBlock(h, toks), bp)|)
  {
    hide WordAt, TokensSendable, HeaderAt, TokensAt, TokensCode, HeaderCode, CountsSendable, InstrSendable, Decodable, StandsFor;
    var lit, dist :| HeaderSendable(h, lit, dist) && TokensSendable(Words(lit), Words(dist), toks)
      && BodyCode(DynamicBlock(h, toks), bp) == HeaderCode(h) + TokensCode(Words(lit), Words(dist), toks);
    var head, tail := HeaderCode(h), TokensCode(Words(lit), Words(dist), toks);
    WordAtSplit(data, bp, head, tail);
    HeaderIsThere(data, bp, h, lit, dist);
    TokensAreThere(Words(lit), Words(dist), data, bp + |head|, toks);
    assert bp + |head| + |tail| == bp + |head + tail|;
  }

  /** The bits of a list of blocks that starts at bp. */
  ghost function BlocksCode(blocks: seq<Block>, bp: nat): seq<bit>
    requires forall i | 0 <= i < |blocks| :: Sendable(blocks[i])
    decreases |blocks|
  {
    if blocks == [] then []
    else
      FieldSizes();
      var head := FieldBits(if |blocks| == 1 then 1 else 0, 1) + FieldBits(BlockType(blocks[0]), 2);
      var body := BodyCode(blocks[0], bp + 3);
      head + (body + BlocksCode(blocks[1..], bp + 3 + |body|))
  }

  lemma {:induction false} BlocksAreThere(data: seq<byte>, bp: nat, blocks: seq<Block>) returns (ends: seq<nat>)
    requires blocks != [] && (forall i | 0 <= i < |blocks| :: Sendable(blocks[i])) && WordAt(data, bp, BlocksCode(blocks, bp))
    ensures BlocksAt(data, bp, blocks, ends)
    decreases |blocks|
  {
    hide WordAt, FieldAt, FieldBits, BodyCode, BodyAt, Sendable;
    FieldSizes();
    var final := if |blocks| == 1 then 1 else 0;
    var a, b := FieldBits(final, 1), FieldBits(BlockType(blocks[0]), 2);
    var body := BodyCode(blocks[0], bp + 3);
    var rest := BlocksCode(blocks[1..], bp + 3 + |body|);
    WordAtSplit(data, bp, a + b, body + rest);
    WordAtSplit(data, bp, a, b);
    WordAtSplit(data, bp + 3, body, rest);
    FieldIsThere(data, bp, final, 1);
    FieldIsThere(data, bp + 1, BlockType(blocks[0]), 2);
    BodyIsThere(data, bp + 3, blocks[0]);
    ends := [bp + 3 + |body|];
    if |blocks| > 1 {
      var more := BlocksAreThere(data, bp + 3 + |body|, blocks[1..]);
      ends := ends + more;
    }
  }

  /** A zlib stream: header, blocks, trailer. */
  ghost function Encode(blocks: seq<Block>, trailer: seq<byte>): seq<byte>
    requires forall i | 0 <= i < |blocks| :: Sendable(blocks[i])
  {
    [0x78, 0x01] + (Pack(BlocksCode(blocks, 0)) + trailer)
  }

  lemma BitsBefore(data: seq<byte>, more: seq<byte>, bp: nat, w: seq<bit>)
    requires WordAt(data, bp, w)
    ensures WordAt(data + more, bp, w)
  {
    forall i | 0 <= i < |w|
      ensures BitAt(data + more, bp + i) == w[i]
    {
      assert BitAt(data, bp + i) == w[i];
      assert (data + more)[(bp + i) / 8] == data[(bp + i) / 8];
    }
  }

  /**
    Every list of blocks that can be sent comes back as its LZ77 expansion: the header is
    accepted, and what follows it is inflated.
   */
  lemma DecompressInvertsEncode(blocks: seq<Block>, trailer: seq<byte>)
    requires blocks != [] && (forall i | 0 <= i < |blocks| :: Sendable(blocks[i])) && BlocksOk([], blocks)
    ensures var in_ := Encode(blocks, trailer);
      |in_| >= 2 && Inflator.HeaderError(in_[0], in_[1]) == 0 &&
      Blocks(in_[2..], |in_|, 0, []) == Ok(ExpandBlocks([], blocks))
  {
    hide Sendable, BlocksCode, Pack, Blocks, WordAt, BlocksAt, BlocksOk, ExpandBlocks;
    var in_ := Encode(blocks, trailer);
    var data := Pack(BlocksCode(blocks, 0));
    PackedIsThere(BlocksCode(blocks, 0));
    BitsBefore(data, trailer, 0, BlocksCode(blocks, 0));
    assert in_[2..] == data + trailer;
    var ends := BlocksAreThere(data + trailer, 0, blocks);
    BlocksDecode(data + trailer, |in_|, 0, blocks, ends, []);
  }
}

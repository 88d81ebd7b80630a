/**
  The compressed format of RFC 1951 as a relation between a byte sequence and the blocks
  it holds, written from the side of the encoder, and the proof that inflate inverts it.
 */
module Deflate {
  import opened Options
  import opened Bits
  import opened CanonicalCode
  import opened Huffman
  import opened Inflate

  // ---- Tokens and blocks ----

  /** A literal byte, or length code 257 + k and distance code kd with their extra bits. */
  datatype Token = Literal(b: byte) | Copy(k: nat, extra: nat, kd: nat, extraD: nat) {
    ghost predicate Valid() {
      Copy? ==>
        && k < 29 && extra < Pow2(LengthExtra(k))
        && kd < 30 && extraD < Pow2(DistanceExtra(kd))
    }

    ghost function Length(): nat
      requires Copy? && Valid()
    {
      LengthBase(k) + extra
    }

    ghost function Distance(): (d: nat)
      requires Copy? && Valid()
      ensures d >= 1
    {
      DistanceBase(kd) + extraD
    }

    /** Number of bytes the token stands for. */
    ghost function Size(): nat
      requires Valid()
    {
      if Copy? then Length() else 1
    }

    /** The token may follow n bytes of output: a copy starts within them. */
    ghost predicate Fits(n: nat) {
      Valid() && (Copy? ==> Distance() <= n)
    }
  }

  ghost function ExpandToken(out: seq<byte>, t: Token): (r: seq<byte>)
    requires t.Fits(|out|)
    ensures |r| == |out| + t.Size()
  {
    match t
    case Literal(b) => out + [b]
    case Copy(_, _, _, _) => CopyBack(out, t.Distance(), t.Length())
  }

  /** Each token fits behind the output of those before it. */
  ghost predicate TokensOk(out: seq<byte>, toks: seq<Token>)
    decreases |toks|
  {
    |toks| > 0 ==> toks[0].Fits(|out|) && TokensOk(ExpandToken(out, toks[0]), toks[1..])
  }

  /** LZ77 expansion of the tokens behind what is out already. */
  ghost function Expand(out: seq<byte>, toks: seq<Token>): seq<byte>
    requires TokensOk(out, toks)
    decreases |toks|
  {
    if |toks| == 0 then out else Expand(ExpandToken(out, toks[0]), toks[1..])
  }

  /** One instruction of the run-length code of section 3.2.7: a length, or symbols 16, 17, 18. */
  datatype Instr = Length(v: nat) | Run(code: nat, extra: nat) {
    ghost predicate Valid() {
      match this
      case Length(v) => v <= 15
      case Run(code, extra) => 16 <= code <= 18 && extra < Pow2(RunExtra(code))
    }

    ghost function Symbol(): nat {
      match this
      case Length(v) => v
      case Run(code, _) => code
    }

    ghost function Count(): nat {
      match this
      case Length(_) => 1
      case Run(code, extra) => RunBase(code) + extra
    }
  }

  /** What one instruction adds to the lengths; symbol 16 repeats the last of them. */
  ghost function Apply(lens: seq<nat>, instr: Instr): (r: Option<seq<nat>>)
    ensures r.Some? ==> |r.value| == |lens| + instr.Count()
  {
    match instr
    case Length(v) => Some(lens + [v])
    case Run(code, _) =>
      if code == 16 && |lens| == 0 then None
      else Some(lens + Repeated(if code == 16 then lens[|lens| - 1] else 0, instr.Count()))
  }

  /** The lengths that instructions stand for, behind those given. */
  ghost function Lengths(lens: seq<nat>, instrs: seq<Instr>): Option<seq<nat>>
    decreases |instrs|
  {
    if |instrs| == 0 then Some(lens)
    else
      match Apply(lens, instrs[0])
      case None => None
      case Some(lens') => Lengths(lens', instrs[1..])
  }

  /** Header of a dynamic block: the code length code and the instructions sent with it. */
  datatype Header = Header(hlit: nat, hdist: nat, hclen: nat, clens: seq<nat>, instrs: seq<Instr>)

  datatype Block =
    | StoredBlock(bytes: seq<byte>)
    | FixedBlock(toks: seq<Token>)
    | DynamicBlock(header: Header, toks: seq<Token>)

  /** What a block adds to the output, where its tokens fit. */
  ghost predicate BlockOk(out: seq<byte>, block: Block) {
    !block.StoredBlock? ==> TokensOk(out, block.toks)
  }

  ghost function ExpandBlock(out: seq<byte>, block: Block): seq<byte>
    requires BlockOk(out, block)
  {
    if block.StoredBlock? then out + block.bytes else Expand(out, block.toks)
  }

  ghost predicate BlocksOk(out: seq<byte>, blocks: seq<Block>)
    decreases |blocks|
  {
    |blocks| > 0 ==> BlockOk(out, blocks[0]) && BlocksOk(ExpandBlock(out, blocks[0]), blocks[1..])
  }

  ghost function ExpandBlocks(out: seq<byte>, blocks: seq<Block>): seq<byte>
    requires BlocksOk(out, blocks)
    decreases |blocks|
  {
    if |blocks| == 0 then out else ExpandBlocks(ExpandBlock(out, blocks[0]), blocks[1..])
  }

  // ---- Encodings ----

  /** The bits of w stand in the input from bp on. */
  ghost predicate WordAt(data: seq<byte>, bp: nat, w: seq<bit>) {
    bp + |w| <= 8 * |data| && forall i | 0 <= i < |w| :: BitAt(data, bp + i) == w[i]
  }

  /** The number v stands in the n bits from bp on. */
  ghost predicate FieldAt(data: seq<byte>, bp: nat, n: nat, v: nat) {
    bp + n <= 8 * |data| && Field(data, bp, n) == v
  }

  /** The code word of symbol n, which is in use, stands at bp. */
  ghost predicate SymbolAt(ws: seq<seq<bit>>, data: seq<byte>, bp: nat, n: nat) {
    InUse(ws, n) && WordAt(data, bp, ws[n])
  }

  /** The token is encoded at bp: its symbols, each followed by its extra bits. */
  ghost predicate TokenAt(lit: seq<seq<bit>>, dist: seq<seq<bit>>, data: seq<byte>, bp: nat, t: Token) {
    match t
    case Literal(b) => SymbolAt(lit, data, bp, b)
    case Copy(k, extra, kd, extraD) =>
      && t.Valid()
      && SymbolAt(lit, data, bp, 257 + k)
      && CopyAt(dist, data, bp + |lit[257 + k]|, t)
  }

  /** What follows the length symbol of a copy is encoded at bp. */
  ghost predicate CopyAt(dist: seq<seq<bit>>, data: seq<byte>, bp: nat, t: Token)
    requires t.Copy? && t.Valid()
  {
    && FieldAt(data, bp, LengthExtra(t.k), t.extra)
    && SymbolAt(dist, data, bp + LengthExtra(t.k), t.kd)
    && FieldAt(data, bp + LengthExtra(t.k) + |dist[t.kd]|, DistanceExtra(t.kd), t.extraD)
  }

  ghost function CopyBits(dist: seq<seq<bit>>, t: Token): nat
    requires t.Copy? && t.Valid() && t.kd < |dist|
  {
    LengthExtra(t.k) + |dist[t.kd]| + DistanceExtra(t.kd)
  }

  /** Number of bits of the token. */
  ghost function TokenBits(lit: seq<seq<bit>>, dist: seq<seq<bit>>, data: seq<byte>, bp: nat, t: Token): (n: nat)
    requires TokenAt(lit, dist, data, bp, t)
    ensures n > 0 && bp + n <= 8 * |data|
  {
    match t
    case Literal(b) => |lit[b]|
    case Copy(k, _, _, _) => |lit[257 + k]| + CopyBits(dist, t)
  }

  /** The tokens and the end code are encoded from bp to end. */
  ghost predicate TokensAt(lit: seq<seq<bit>>, dist: seq<seq<bit>>, data: seq<byte>, bp: nat, toks: seq<Token>, end: nat)
    decreases |toks|
  {
    if |toks| == 0 then SymbolAt(lit, data, bp, 256) && end == bp + |lit[256]|
    else
      && TokenAt(lit, dist, data, bp, toks[0])
      && TokensAt(lit, dist, data, bp + TokenBits(lit, dist, data, bp, toks[0]), toks[1..], end)
  }

  ghost predicate InstrAt(ws: seq<seq<bit>>, data: seq<byte>, bp: nat, instr: Instr) {
    && instr.Valid()
    && SymbolAt(ws, data, bp, instr.Symbol())
    && (instr.Run? ==> FieldAt(data, bp + |ws[instr.Symbol()]|, RunExtra(instr.code), instr.extra))
  }

  ghost function InstrBits(ws: seq<seq<bit>>, instr: Instr): nat
    requires InUse(ws, instr.Symbol())
  {
    |ws[instr.Symbol()]| + if instr.Run? then RunExtra(instr.code) else 0
  }

  /** The instructions are encoded from bp to end. */
  ghost predicate InstrsAt(ws: seq<seq<bit>>, data: seq<byte>, bp: nat, instrs: seq<Instr>, end: nat)
    decreases |instrs|
  {
    if |instrs| == 0 then end == bp
    else InstrAt(ws, data, bp, instrs[0]) && InstrsAt(ws, data, bp + InstrBits(ws, instrs[0]), instrs[1..], end)
  }

  /** Lengths of a code that the decoder has room for; a complete code always qualifies. */
  ghost predicate Decodable(lens: seq<nat>, max: nat) {
    2 <= |lens| <= FREE / 2 && Kraft(lens, max) && |Inner(Words(lens))| < |lens|
  }

  /** The counts and the code length code of a header are encoded at bp. */
  ghost predicate CountsAt(data: seq<byte>, bp: nat, h: Header) {
    && 257 <= h.hlit <= 288 && 1 <= h.hdist <= 32 && 4 <= h.hclen <= 19 && |h.clens| == 19
    && FieldAt(data, bp, 5, h.hlit - 257)
    && FieldAt(data, bp + 5, 5, h.hdist - 1)
    && FieldAt(data, bp + 10, 4, h.hclen - 4)
    && (forall i | 0 <= i < h.hclen :: FieldAt(data, bp + 14 + 3 * i, 3, h.clens[OrderAt(i)]))
    && (forall i | h.hclen <= i < 19 :: h.clens[OrderAt(i)] == 0)
  }

  /** The instructions of a header stand for the two lists of code lengths. */
  ghost predicate StandsFor(h: Header, lit: seq<nat>, dist: seq<nat>) {
    && 257 <= h.hlit <= 288 && 1 <= h.hdist <= 32
    && var r := Lengths([], h.instrs);
    && r.Some? && |r.value| == h.hlit + h.hdist
    && lit == Pad(r.value[..h.hlit], 288) && dist == Pad(r.value[h.hlit..], 32)
  }

  /** The header is encoded from bp to end and stands for the two lists of code lengths. */
  ghost predicate HeaderAt(data: seq<byte>, bp: nat, h: Header, lit: seq<nat>, dist: seq<nat>, end: nat) {
    && CountsAt(data, bp, h) && Decodable(h.clens, 7)
    && InstrsAt(Words(h.clens), data, bp + 14 + 3 * h.hclen, h.instrs, end)
    && StandsFor(h, lit, dist)
    && lit[256] > 0 && Decodable(lit, 15) && Decodable(dist, 15)
  }

  /** The body of a block, behind its three header bits, is encoded from bp to end. */
  ghost predicate BodyAt(data: seq<byte>, bp: nat, block: Block, end: nat) {
    match block
    case StoredBlock(bytes) =>
      var p := (bp + 7) / 8;
      && |bytes| <= 65535 && p + 4 + |bytes| <= |data| && end == 8 * (p + 4 + |bytes|)
      && WordLE(data, p) == |bytes| && WordLE(data, p + 2) == 65535 - |bytes|
      && data[p + 4..p + 4 + |bytes|] == bytes
    case FixedBlock(toks) =>
      TokensAt(Words(FixedLengths()), Words(FixedDistances()), data, bp, toks, end)
    case DynamicBlock(h, toks) =>
      exists lit, dist, bp1 ::
        HeaderAt(data, bp, h, lit, dist, bp1) && TokensAt(Words(lit), Words(dist), data, bp1, toks, end)
  }

  ghost function BlockType(block: Block): nat {
    match block
    case StoredBlock(_) => 0
    case FixedBlock(_) => 1
    case DynamicBlock(_, _) => 2
  }

  /**
    A non-empty list of blocks, the last one marked final, is encoded from bp on; ends
    gives the bit position behind each of them.
   */
  ghost predicate BlocksAt(data: seq<byte>, bp: nat, blocks: seq<Block>, ends: seq<nat>)
    decreases |blocks|
  {
    && |blocks| == |ends| > 0
    && FieldAt(data, bp, 1, if |blocks| == 1 then 1 else 0)
    && FieldAt(data, bp + 1, 2, BlockType(blocks[0]))
    && BodyAt(data, bp + 3, blocks[0], ends[0])
    && (|blocks| > 1 ==> BlocksAt(data, ends[0], blocks[1..], ends[1..]))
  }

  // ---- Inflate inverts the encoding ----

  /** Along an encoded code word, decoding reaches its symbol. */
  lemma {:induction false} DecodeFrom(tree: seq<nat>, paths: seq<seq<bit>>, ws: seq<seq<bit>>, data: seq<byte>, inlength: nat, bp: nat, m: nat, k: nat)
    requires PrefixFree(ws) && Meaning(tree, paths, ws) && inlength >= |data|
    requires SymbolAt(ws, data, bp, m) && k < |paths| && |paths[k]| < |ws[m]| && IsPrefix(paths[k], ws[m])
    ensures DecodeSymbol(tree, data, inlength, bp + |paths[k]|, k) == Ok((m, bp + |ws[m]|))
    decreases |ws[m]| - |paths[k]|
  {
    var j := |paths[k]|;
    DecodeAlongCode(tree, paths, ws, m, k);
    if j + 1 < |ws[m]| {
      var k' := DecodeBit(tree, k, ws[m][j]).pos;
      DecodeFrom(tree, paths, ws, data, inlength, bp, m, k');
    }
  }

  lemma DecodeEncoded(tree: seq<nat>, ws: seq<seq<bit>>, data: seq<byte>, inlength: nat, bp: nat, m: nat)
    requires PrefixFree(ws) && Represents(tree, ws) && inlength >= |data| && SymbolAt(ws, data, bp, m)
    ensures DecodeSymbol(tree, data, inlength, bp, 0) == Ok((m, bp + |ws[m]|))
  {
    var paths :| Meaning(tree, paths, ws);
    DecodeFrom(tree, paths, ws, data, inlength, bp, m, 0);
  }

  lemma ReadEncodedCopy(dist: seq<nat>, wd: seq<seq<bit>>, data: seq<byte>, inlength: nat, bp: nat, t: Token)
    requires PrefixFree(wd) && Represents(dist, wd) && inlength >= |data|
    requires t.Copy? && t.Valid() && CopyAt(wd, data, bp, t) && bp + CopyBits(wd, t) < 8 * |data|
    ensures ReadCopy(dist, data, inlength, bp, t.k) == Ok((t.Length(), t.Distance(), bp + CopyBits(wd, t)))
  {
    hide Represents, PrefixFree, LengthBase, LengthExtra, DistanceBase, DistanceExtra, Field, DecodeSymbol, WordAt, Budget;
    DecodeEncoded(dist, wd, data, inlength, bp + LengthExtra(t.k), t.kd);
  }

  /** Encoded tokens end with the end code, so they leave input to read before it. */
  lemma {:induction false} TokensEnd(wl: seq<seq<bit>>, wd: seq<seq<bit>>, data: seq<byte>, bp: nat, toks: seq<Token>, end: nat)
    requires TokensAt(wl, wd, data, bp, toks, end)
    ensures bp < end <= 8 * |data|
    decreases |toks|
  {
    hide TokenAt;
    if |toks| > 0 {
      TokensEnd(wl, wd, data, bp + TokenBits(wl, wd, data, bp, toks[0]), toks[1..], end);
    }
  }

  /** One encoded token is read as the output it stands for. */
  lemma TokenDecodes(lit: seq<nat>, dist: seq<nat>, wl: seq<seq<bit>>, wd: seq<seq<bit>>, data: seq<byte>, inlength: nat, bp: nat, t: Token, out: seq<byte>)
    requires PrefixFree(wl) && Represents(lit, wl) && PrefixFree(wd) && Represents(dist, wd)
    requires inlength >= |data| && TokenAt(wl, wd, data, bp, t) && t.Fits(|out|)
    requires bp + TokenBits(wl, wd, data, bp, t) < 8 * |data|
    ensures Tokens(lit, dist, data, inlength, bp, out)
         == Tokens(lit, dist, data, inlength, bp + TokenBits(wl, wd, data, bp, t), ExpandToken(out, t))
  {
    hide Represents, PrefixFree, LengthBase, LengthExtra, DistanceBase, DistanceExtra, CopyBack, ReadCopy, DecodeSymbol;
    match t
    case Literal(b) => DecodeEncoded(lit, wl, data, inlength, bp, b);
    case Copy(k, _, _, _) =>
      DecodeEncoded(lit, wl, data, inlength, bp, 257 + k);
      ReadEncodedCopy(dist, wd, data, inlength, bp + |wl[257 + k]|, t);
  }

  lemma EndDecodes(lit: seq<nat>, dist: seq<nat>, wl: seq<seq<bit>>, data: seq<byte>, inlength: nat, bp: nat, out: seq<byte>)
    requires PrefixFree(wl) && Represents(lit, wl) && inlength >= |data| && SymbolAt(wl, data, bp, 256)
    ensures Tokens(lit, dist, data, inlength, bp, out) == Ok((out, bp + |wl[256]|))
  {
    hide Represents, PrefixFree;
    DecodeEncoded(lit, wl, data, inlength, bp, 256);
  }

  /** The symbols of an encoded block come out as their LZ77 expansion. */
  lemma {:induction false} TokensDecode(lit: seq<nat>, dist: seq<nat>, wl: seq<seq<bit>>, wd: seq<seq<bit>>, data: seq<byte>, inlength: nat, bp: nat, toks: seq<Token>, end: nat, out: seq<byte>)
    requires PrefixFree(wl) && Represents(lit, wl) && PrefixFree(wd) && Represents(dist, wd)
    requires inlength >= |data| && TokensAt(wl, wd, data, bp, toks, end) && TokensOk(out, toks)
    ensures Tokens(lit, dist, data, inlength, bp, out) == Ok((Expand(out, toks), end))
    decreases |toks|
  {
    hide Represents, PrefixFree, TokenAt, TokenBits, ExpandToken, Tokens, SymbolAt, Token.Fits, Token.Valid, InUse;
    if |toks| == 0 {
      EndDecodes(lit, dist, wl, data, inlength, bp, out);
    } else {
      var bp' := bp + TokenBits(wl, wd, data, bp, toks[0]);
      TokensEnd(wl, wd, data, bp', toks[1..], end);
      TokenDecodes(lit, dist, wl, wd, data, inlength, bp, toks[0], out);
      TokensDecode(lit, dist, wl, wd, data, inlength, bp', toks[1..], end, ExpandToken(out, toks[0]));
    }
  }

  // ---- Headers ----

  lemma {:induction false} LengthsGrow(lens: seq<nat>, instrs: seq<Instr>)
    requires Lengths(lens, instrs).Some?
    ensures |Lengths(lens, instrs).value| >= |lens| + |instrs|
    decreases |instrs|
  {
    if |instrs| > 0 {
      LengthsGrow(Apply(lens, instrs[0]).value, instrs[1..]);
    }
  }

  ghost predicate Short(lens: seq<nat>) {
    forall i | 0 <= i < |lens| :: lens[i] <= 15
  }

  /** One encoded instruction is carried out, or stops with the error of its kind when it overruns. */
  lemma InstrDecodes(tree: seq<nat>, ws: seq<seq<bit>>, data: seq<byte>, inlength: nat, bp: nat, instr: Instr, total: nat, lens: seq<nat>)
      returns (lens': seq<nat>)
    requires PrefixFree(ws) && Represents(tree, ws) && inlength > |data|
    requires InstrAt(ws, data, bp, instr) && |lens| < total && Short(lens)
    requires Apply(lens, instr).Some?
    ensures Apply(lens, instr) == Some(lens') && Short(lens')
    ensures CodeLengths(tree, data, inlength, bp, total, lens)
         == if |lens'| <= total then CodeLengths(tree, data, inlength, bp + InstrBits(ws, instr), total, lens')
            else Err(instr.Symbol() - 3)
  {
    hide Represents, PrefixFree, DecodeSymbol, CodeLengths, AddRun, WordAt;
    DecodeEncoded(tree, ws, data, inlength, bp, instr.Symbol());
    lens' := Apply(lens, instr).value;
    CodeLengthsStep(tree, data, inlength, bp, total, lens, instr.Symbol(), bp + |ws[instr.Symbol()]|);
    if instr.Run? {
      RunIsAdded(data, inlength, bp + |ws[instr.code]|, instr, total, lens);
    }
  }

  lemma CodeLengthsStep(tree: seq<nat>, data: seq<byte>, inlength: nat, bp: nat, total: nat, lens: seq<nat>, code: nat, bp1: nat)
    requires |lens| < total && Short(lens) && code <= 18 && DecodeSymbol(tree, data, inlength, bp, 0) == Ok((code, bp1))
    ensures code <= 15 ==>
      CodeLengths(tree, data, inlength, bp, total, lens) == CodeLengths(tree, data, inlength, bp1, total, lens + [code])
    ensures code > 15 ==>
      var r := AddRun(data, inlength, bp1, code, total, lens);
      CodeLengths(tree, data, inlength, bp, total, lens)
      == if r.Err? then Err(r.error) else CodeLengths(tree, data, inlength, r.value.1, total, r.value.0)
  {
    hide DecodeSymbol, AddRun;
  }

  lemma RunIsAdded(data: seq<byte>, inlength: nat, bp: nat, instr: Instr, total: nat, lens: seq<nat>)
    requires instr.Run? && instr.Valid() && Apply(lens, instr).Some? && |lens| < total && Short(lens)
    requires inlength > |data| && FieldAt(data, bp, RunExtra(instr.code), instr.extra)
    ensures var lens' := Apply(lens, instr).value;
      AddRun(data, inlength, bp, instr.code, total, lens)
      == if |lens'| <= total then Ok((lens', bp + RunExtra(instr.code))) else Err(instr.code - 3)
  {
    hide Field;
  }

  /** Encoded instructions are carried out one after the other, repeats across the split included. */
  lemma {:induction false} InstrsDecode(tree: seq<nat>, ws: seq<seq<bit>>, data: seq<byte>, inlength: nat, bp: nat, instrs: seq<Instr>, end: nat, total: nat, lens: seq<nat>)
      returns (r: seq<nat>)
    requires PrefixFree(ws) && Represents(tree, ws) && inlength > |data|
    requires InstrsAt(ws, data, bp, instrs, end) && Short(lens)
    requires Lengths(lens, instrs).Some? && |Lengths(lens, instrs).value| <= total
    ensures Lengths(lens, instrs) == Some(r) && |lens| <= |r| && Short(r)
    ensures CodeLengths(tree, data, inlength, bp, total, lens)
         == CodeLengths(tree, data, inlength, end, total, r)
    decreases |instrs|
  {
    hide Represents, PrefixFree, FieldAt, WordAt, Apply, CodeLengths;
    LengthsGrow(lens, instrs);
    r := lens;
    if |instrs| > 0 {
      LengthsGrow(Apply(lens, instrs[0]).value, instrs[1..]);
      var lens' := InstrDecodes(tree, ws, data, inlength, bp, instrs[0], total, lens);
      r := InstrsDecode(tree, ws, data, inlength, bp + InstrBits(ws, instrs[0]), instrs[1..], end, total, lens');
    }
  }

  /** Instructions whose last one overruns the code lengths stop with error 13, 14 or 15. */
  lemma InstrsOverrun(tree: seq<nat>, ws: seq<seq<bit>>, data: seq<byte>, inlength: nat, bp: nat, instrs: seq<Instr>, mid: nat, last: Instr, total: nat)
    requires PrefixFree(ws) && Represents(tree, ws) && inlength > |data|
    requires InstrsAt(ws, data, bp, instrs, mid) && InstrAt(ws, data, mid, last)
    requires Lengths([], instrs).Some? && |Lengths([], instrs).value| < total
    requires Apply(Lengths([], instrs).value, last).Some?
    requires |Apply(Lengths([], instrs).value, last).value| > total
    ensures CodeLengths(tree, data, inlength, bp, total, []) == Err(last.code - 3) && 13 <= last.code - 3 <= 15
  {
    hide Represents, PrefixFree, SymbolAt, CodeLengths;
    var r := InstrsDecode(tree, ws, data, inlength, bp, instrs, mid, total, []);
    var r' := InstrDecodes(tree, ws, data, inlength, mid, last, total, r);
  }

  lemma ClensDecode(data: seq<byte>, bp: nat, h: Header)
    requires CountsAt(data, bp, h)
    ensures CodeLengthLengths(data, bp + 14, h.hclen) == h.clens
  {
    forall s | 0 <= s < 19
      ensures CodeLengthLengths(data, bp + 14, h.hclen)[s] == h.clens[s]
    {
      var i := OrderOf(s);
      assert OrderAt(i) == s;
      if i < h.hclen {
        assert FieldAt(data, bp + 14 + 3 * i, 3, h.clens[OrderAt(i)]);
      }
    }
  }

  lemma TableDecodes(lens: seq<nat>, max: nat)
    requires Decodable(lens, max)
    ensures PrefixFree(Words(lens)) && Table(lens).Ok? && Represents(Table(lens).value, Words(lens))
  {
    LengthsMakeDecoder(lens, max);
  }

  /** An encoded header yields tables that represent the two codes it stands for. */
  lemma HeaderDecodes(data: seq<byte>, inlength: nat, bp: nat, h: Header, lit: seq<nat>, dist: seq<nat>, end: nat)
    requires HeaderAt(data, bp, h, lit, dist, end) && inlength >= |data| + 2
    ensures Table(lit).Ok? && Table(dist).Ok?
    ensures DynamicTables(data, inlength, bp) == Ok((Table(lit).value, Table(dist).value, end))
  {
    hide Represents, PrefixFree, Kraft, Decodable, Table, DynamicTables, InstrsAt, Lengths;
    TableDecodes(h.clens, 7);
    TableDecodes(lit, 15);
    TableDecodes(dist, 15);
    var total := h.hlit + h.hdist;
    var r := InstrsDecode(Table(h.clens).value, Words(h.clens), data, inlength, bp + 14 + 3 * h.hclen, h.instrs, end, total, []);
    InstrsEnd(data, bp, h, end);
    TablesFrom(data, inlength, bp, h, r, end);
  }

  lemma InstrsEnd(data: seq<byte>, bp: nat, h: Header, end: nat)
    requires CountsAt(data, bp, h)
    ensures bp + 14 <= 8 * |data|
  {
  }

  /** The rest of the dynamic tables, once the code lengths have been read. */
  lemma TablesFrom(data: seq<byte>, inlength: nat, bp: nat, h: Header, lens: seq<nat>, end: nat)
    requires inlength >= |data| + 2 && CountsAt(data, bp, h)
    requires Table(h.clens).Ok? && Short(lens) && |lens| == h.hlit + h.hdist && lens[256] > 0
    requires CodeLengths(Table(h.clens).value, data, inlength, bp + 14 + 3 * h.hclen, h.hlit + h.hdist, []) == Ok((lens, end))
    requires Table(Pad(lens[..h.hlit], 288)).Ok? && Table(Pad(lens[h.hlit..], 32)).Ok?
    ensures DynamicTables(data, inlength, bp)
         == Ok((Table(Pad(lens[..h.hlit], 288)).value, Table(Pad(lens[h.hlit..], 32)).value, end))
  {
    hide Table, CodeLengths, Pad;
    ClensDecode(data, bp, h);
  }

  // ---- The fixed code ----

  lemma {:induction false} KraftSumConcat(a: seq<nat>, b: seq<nat>, max: nat)
    requires Bounded(a, max) && Bounded(b, max) && Bounded(a + b, max)
    ensures KraftSum(a + b, max) == KraftSum(a, max) + KraftSum(b, max)
  {
    if |b| == 0 {
      assert a + b == a;
    } else {
      var b' := b[..|b| - 1];
      assert (a + b)[..|a + b| - 1] == a + b';
      KraftSumConcat(a, b', max);
    }
  }

  lemma {:induction false} KraftSumRepeated(v: nat, n: nat, max: nat)
    requires 0 < v <= max
    ensures KraftSum(Repeated(v, n), max) == n * Pow2(max - v)
  {
    if n > 0 {
      assert Repeated(v, n)[..n - 1] == Repeated(v, n - 1);
      KraftSumRepeated(v, n - 1, max);
    }
  }

  lemma FixedLengthsComplete()
    ensures Complete(FixedLengths(), 15)
  {
    hide KraftSum, Pow2;
    var a, b, c, d := Repeated(8, 144), Repeated(9, 112), Repeated(7, 24), Repeated(8, 8);
    KraftSumRepeated(8, 144, 15);
    KraftSumRepeated(9, 112, 15);
    KraftSumRepeated(7, 24, 15);
    KraftSumRepeated(8, 8, 15);
    SmallPowers();
    assert Bounded(a + b, 15) && Bounded(a + b + c, 15) && Bounded(a + b + c + d, 15);
    KraftSumConcat(a, b, 15);
    KraftSumConcat(a + b, c, 15);
    KraftSumConcat(a + b + c, d, 15);
  }

  /** The fixed codes of section 3.2.6 are complete, so that their tables always fit. */
  lemma FixedComplete()
    ensures Complete(FixedLengths(), 15) && Complete(FixedDistances(), 15)
  {
    FixedLengthsComplete();
    hide KraftSum, Pow2;
    KraftSumRepeated(5, 32, 15);
    SmallPowers();
  }

  lemma SmallPowers()
    ensures Pow2(6) == 64 && Pow2(7) == 128 && Pow2(8) == 256 && Pow2(10) == 1024 && Pow2(15) == 32768
  {
    Pow2Sum(8, 7);
  }

  lemma FixedDecodable()
    ensures Decodable(FixedLengths(), 15) && Decodable(FixedDistances(), 15)
  {
    FixedComplete();
    CompleteInnerSize(FixedLengths(), 15);
    CompleteInnerSize(FixedDistances(), 15);
  }

  // ---- Blocks ----

  lemma StoredDecodes(data: seq<byte>, inlength: nat, bp: nat, block: Block, end: nat, out: seq<byte>)
    requires inlength >= |data| + 2 && block.StoredBlock? && BodyAt(data, bp, block, end)
    ensures Stored(data, inlength, bp, out) == Ok((ExpandBlock(out, block), end))
  {
    var p := (bp + 7) / 8;
    forall i | 0 <= i < |block.bytes|
      ensures ByteAt(data, p + 4 + i) == block.bytes[i]
    {
      assert data[p + 4..p + 4 + |block.bytes|][i] == data[p + 4 + i];
    }
    assert BytesAt(data, p + 4, |block.bytes|) == block.bytes;
  }

  lemma HuffmanDecodes(lit: seq<nat>, dist: seq<nat>, data: seq<byte>, inlength: nat, bp: nat, toks: seq<Token>, end: nat, out: seq<byte>)
    requires inlength >= |data| + 2 && Decodable(lit, 15) && Decodable(dist, 15)
    requires TokensAt(Words(lit), Words(dist), data, bp, toks, end) && TokensOk(out, toks)
    ensures Table(lit).Ok? && Table(dist).Ok?
    ensures Tokens(Table(lit).value, Table(dist).value, data, inlength, bp, out) == Ok((Expand(out, toks), end))
  {
    TableDecodes(lit, 15);
    TableDecodes(dist, 15);
    TokensDecode(Table(lit).value, Table(dist).value, Words(lit), Words(dist), data, inlength, bp, toks, end, out);
  }

  lemma BodyDecodes(data: seq<byte>, inlength: nat, bp: nat, block: Block, end: nat, out: seq<byte>)
    requires inlength >= |data| + 2 && BodyAt(data, bp, block, end) && BlockOk(out, block)
    ensures BlockBody(data, inlength, bp, out, BlockType(block)) == Ok((ExpandBlock(out, block), end))
  {
    hide HuffmanBlock, Stored, HeaderAt, TokensAt, TokensOk, Expand, FixedLengths, FixedDistances;
    match block
    case StoredBlock(bytes) =>
      StoredDecodes(data, inlength, bp, block, end, out);
    case FixedBlock(toks) =>
      FixedBodyDecodes(data, inlength, bp, toks, end, out);
    case DynamicBlock(h, toks) =>
      var lit, dist, bp1 :| HeaderAt(data, bp, h, lit, dist, bp1) && TokensAt(Words(lit), Words(dist), data, bp1, toks, end);
      DynamicBodyDecodes(data, inlength, bp, h, lit, dist, bp1, toks, end, out);
  }

  lemma FixedBodyDecodes(data: seq<byte>, inlength: nat, bp: nat, toks: seq<Token>, end: nat, out: seq<byte>)
    requires inlength >= |data| + 2 && TokensOk(out, toks)
    requires TokensAt(Words(FixedLengths()), Words(FixedDistances()), data, bp, toks, end)
    ensures HuffmanBlock(data, inlength, bp, out, 1) == Ok((Expand(out, toks), end))
  {
    hide Decodable, Table, Tokens, Expand, TokensAt, TokensOk, FixedLengths, FixedDistances;
    FixedDecodable();
    HuffmanDecodes(FixedLengths(), FixedDistances(), data, inlength, bp, toks, end, out);
  }

  lemma DynamicBodyDecodes(data: seq<byte>, inlength: nat, bp: nat, h: Header, lit: seq<nat>, dist: seq<nat>, bp1: nat, toks: seq<Token>, end: nat, out: seq<byte>)
    requires inlength >= |data| + 2 && TokensOk(out, toks)
    requires HeaderAt(data, bp, h, lit, dist, bp1) && TokensAt(Words(lit), Words(dist), data, bp1, toks, end)
    ensures HuffmanBlock(data, inlength, bp, out, 2) == Ok((Expand(out, toks), end))
  {
    hide Decodable, Table, Tokens, Expand, TokensAt, TokensOk, DynamicTables, CountsAt, InstrsAt, StandsFor;
    HeaderDecodes(data, inlength, bp, h, lit, dist, bp1);
    HuffmanDecodes(lit, dist, data, inlength, bp1, toks, end, out);
  }

  /** The bytes of every encoded list of blocks come out, whatever follows them in the input. */
  lemma {:induction false} BlocksDecode(data: seq<byte>, inlength: nat, bp: nat, blocks: seq<Block>, ends: seq<nat>, out: seq<byte>)
    requires inlength >= |data| + 2 && BlocksAt(data, bp, blocks, ends) && BlocksOk(out, blocks)
    ensures Blocks(data, inlength, bp, out) == Ok(ExpandBlocks(out, blocks))
    decreases |blocks|
  {
    hide BodyAt, BlockBody, ExpandBlock, BlockOk;
    HeaderBits(data, bp, if |blocks| == 1 then 1 else 0, BlockType(blocks[0]));
    BodyDecodes(data, inlength, bp + 3, blocks[0], ends[0], out);
    if |blocks| > 1 {
      BlocksDecode(data, inlength, ends[0], blocks[1..], ends[1..], ExpandBlock(out, blocks[0]));
    }
  }

  lemma HeaderBits(data: seq<byte>, bp: nat, final: nat, btype: nat)
    requires FieldAt(data, bp, 1, final) && FieldAt(data, bp + 1, 2, btype)
    ensures BitAt(data, bp) == final && BitAt(data, bp + 1) + 2 * BitAt(data, bp + 2) == btype
    ensures bp < 8 * |data|
  {
    assert Field(data, bp, 0) == 0 && Field(data, bp + 1, 0) == 0;
    assert Pow2(0) == 1 && Pow2(1) == 2;
    assert Field(data, bp + 1, 1) == BitAt(data, bp + 1);
  }
}

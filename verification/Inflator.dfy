/**
  The methods of picopng's inflate decoder (lsapi/picopng.cpp, Zlib and Inflator), which
  fill the output buffer in place. Each of them computes, on every input, what the function
  of the same step in module Inflate says; Decompress inverts the format of module Deflate.
 */
module Inflator {
  import opened Options
  import opened Bits
  import opened CanonicalCode
  import opened Huffman
  import opened Inflate
  import Deflate

  /** std::vector::resize: cuts off, or fills up with zeros. */
  function Resize(v: seq<byte>, n: nat): (r: seq<byte>)
    ensures |r| == n
    ensures forall i | 0 <= i < |v| && i < n :: r[i] == v[i]
  {
    if n <= |v| then v[..n] else v + seq(n - |v|, _ => 0)
  }

  method ReadBits(data: seq<byte>, bp: nat, nbits: nat) returns (result: nat, bp': nat)
    ensures result == Field(data, bp, nbits) && bp' == bp + nbits
  {
    result, bp' := 0, bp;
    for i := 0 to nbits
      invariant result == Field(data, bp, i) && bp' == bp + i
    {
      result := result + BitAt(data, bp') * Pow2(i);
      bp' := bp' + 1;
    }
  }

  // ---- The wrap-around copy ----

  /** From start on, every byte equals the one d before it. */
  ghost predicate Periodic(out: seq<byte>, start: nat, pos: nat, d: nat) {
    1 <= d <= start <= pos <= |out| && forall j | start <= j < pos :: out[j] == out[j - d]
  }

  lemma {:induction false} PeriodicBack(out: seq<byte>, start: nat, pos: nat, d: nat, back: nat, c: nat)
    requires Periodic(out, start, pos, d) && start - d <= back < start && back + c * d < pos
    ensures out[back + c * d] == out[back]
  {
    if c > 0 {
      assert back + c * d == back + (c - 1) * d + d;
      assert (c - 1) * d >= 0;
      PeriodicBack(out, start, pos, d, back, c - 1);
    }
  }

  /**
    Copies length bytes from dist back. The read position runs around the dist bytes before
    the start, which is the same as reading what the copy itself has written.
   */
  method CopyLoop(out: seq<byte>, pos: nat, length: nat, dist: nat) returns (out': seq<byte>, pos': nat)
    requires 1 <= dist <= pos && pos + length <= |out|
    ensures pos' == pos + length && |out'| == |out|
    ensures out'[..pos'] == CopyBack(out[..pos], dist, length)
  {
    out', pos' := out, pos;
    var start, back := pos, pos - dist;
    ghost var c: nat := 0;
    for i := 0 to length
      invariant |out'| == |out| && pos' == pos + i
      invariant out'[..start] == out[..start]
      invariant start - dist <= back < start && back + (c + 1) * dist == pos'
      invariant Periodic(out', start, pos', dist)
    {
      PeriodicBack(out', start, pos', dist, back, c) by {
        assert (c + 1) * dist == c * dist + dist;
      }
      assert out'[back] == out'[pos' - dist] by {
        assert (c + 1) * dist == c * dist + dist;
      }
      out' := out'[pos' := out'[back]];
      pos' := pos' + 1;
      back := back + 1;
      if back >= start {
        back := start - dist;
        assert (c + 2) * dist == (c + 1) * dist + dist;
        c := c + 1;
      }
    }
    PeriodicIsCopy(out'[..pos'], CopyBack(out[..pos], dist, length), start, dist);
  }

  lemma PeriodicIsCopy(a: seq<byte>, b: seq<byte>, start: nat, d: nat)
    requires |a| == |b| && Periodic(a, start, |a|, d) && Periodic(b, start, |b|, d) && a[..start] == b[..start]
    ensures a == b
  {
    var n := start;
    while n < |a|
      invariant start <= n <= |a| && a[..n] == b[..n]
    {
      assert a[n] == a[..n][n - d] == b[..n][n - d] == b[n];
      n := n + 1;
    }
  }

  // ---- The two length vectors of a dynamic block ----

  /** bitlen and bitlenD hold lens, split at hlit and filled up with zeros. */
  ghost predicate Split(bitlen: seq<nat>, bitlenD: seq<nat>, lens: seq<nat>, hlit: nat) {
    && |bitlen| == 288 && |bitlenD| == 32 && hlit <= 288 && |lens| <= hlit + 32
    && (forall i | 0 <= i < 288 :: bitlen[i] == if i < |lens| && i < hlit then lens[i] else 0)
    && (forall i | 0 <= i < 32 :: bitlenD[i] == if hlit + i < |lens| then lens[hlit + i] else 0)
  }

  /** Stores one more length, in the vector that its index falls into. */
  method StoreLength(bitlen: seq<nat>, bitlenD: seq<nat>, i: nat, hlit: nat, value: nat, ghost lens: seq<nat>)
      returns (bitlen': seq<nat>, bitlenD': seq<nat>)
    requires Split(bitlen, bitlenD, lens, hlit) && i == |lens| < hlit + 32
    ensures Split(bitlen', bitlenD', lens + [value], hlit)
  {
    bitlen', bitlenD' := bitlen, bitlenD;
    if i < hlit {
      bitlen' := bitlen[i := value];
    } else {
      bitlenD' := bitlenD[i - hlit := value];
    }
  }

  /** Stores a length replength times; false when that would take more than total lengths. */
  method RepeatLength(bitlen: seq<nat>, bitlenD: seq<nat>, i: nat, hlit: nat, total: nat, value: nat, replength: nat, ghost lens: seq<nat>)
      returns (ok: bool, bitlen': seq<nat>, bitlenD': seq<nat>, i': nat)
    requires Split(bitlen, bitlenD, lens, hlit) && i == |lens| <= total <= hlit + 32
    ensures ok <==> |lens| + replength <= total
    ensures ok ==> i' == i + replength && Split(bitlen', bitlenD', lens + Repeated(value, replength), hlit)
  {
    bitlen', bitlenD', i' := bitlen, bitlenD, i;
    assert lens + Repeated(value, 0) == lens;
    for n := 0 to replength
      invariant i' == i + n <= total
      invariant Split(bitlen', bitlenD', lens + Repeated(value, n), hlit)
    {
      if i' >= total {
        return false, bitlen', bitlenD', i';
      }
      bitlen', bitlenD' := StoreLength(bitlen', bitlenD', i', hlit, value, lens + Repeated(value, n));
      assert lens + Repeated(value, n + 1) == lens + Repeated(value, n) + [value];
      i' := i' + 1;
    }
    return true, bitlen', bitlenD', i';
  }

  lemma SplitPads(bitlen: seq<nat>, bitlenD: seq<nat>, lens: seq<nat>, hlit: nat)
    requires Split(bitlen, bitlenD, lens, hlit) && |lens| >= hlit
    ensures bitlen == Pad(lens[..hlit], 288) && bitlenD == Pad(lens[hlit..], 32)
  {
  }

  lemma OrderInverse(i: nat)
    requires i < 19
    ensures OrderOf(OrderAt(i)) == i
    ensures forall s | 0 <= s < 19 && OrderOf(s) == i :: s == OrderAt(i)
  {
  }

  lemma OrderBound()
    ensures forall s | 0 <= s < 19 :: OrderOf(s) < 19
  {
  }

  lemma CodeLengthAt(data: seq<byte>, bp: nat, hclen: nat, i: nat)
    requires i < 19
    ensures CodeLengthLengths(data, bp, hclen)[OrderAt(i)] == if i < hclen then Field(data, bp + 3 * i, 3) else 0
  {
    OrderInverse(i);
    hide OrderAt, OrderOf;
  }

  /** HuffmanTree::makeFromLengths, its result as that of Table. */
  method MakeTree(tree: HuffmanTree, bitlen: seq<nat>, maxbitlen: nat) returns (error: nat)
    requires |bitlen| >= 2 && Bounded(bitlen, maxbitlen) && maxbitlen <= 32
    modifies tree
    ensures |tree.tree2d| == 2 * |bitlen|
    ensures match Table(bitlen)
            case Ok(t) => error == 0 && tree.tree2d == t
            case Err(e) => error == e
  {
    error := tree.MakeFromLengths(bitlen, maxbitlen);
  }

  class Inflator {
    var error: nat
    const codetree: HuffmanTree
    const codetreeD: HuffmanTree
    const codelengthcodetree: HuffmanTree

    constructor ()
      ensures Valid() && fresh(codetree) && fresh(codetreeD) && fresh(codelengthcodetree)
      ensures error == 0
    {
      error := 0;
      codetree := new HuffmanTree();
      codetreeD := new HuffmanTree();
      codelengthcodetree := new HuffmanTree();
    }

    /** The three trees are different objects. */
    ghost predicate Valid() {
      codetree != codetreeD && codetree != codelengthcodetree && codetreeD != codelengthcodetree
    }

    method HuffmanDecodeSymbol(data: seq<byte>, bp: nat, tree: HuffmanTree, inlength: nat)
        returns (ct: nat, bp': nat)
      requires |tree.tree2d| % 2 == 0
      modifies this`error
      ensures match DecodeSymbol(tree.tree2d, data, inlength, bp, 0)
              case Ok((n, p)) => error == 0 && ct == n && bp' == p
              case Err(e) => error == e
    {
      var treepos := 0;
      bp' := bp;
      while true
        invariant DecodeSymbol(tree.tree2d, data, inlength, bp', treepos)
               == DecodeSymbol(tree.tree2d, data, inlength, bp, 0)
        decreases Budget(inlength, bp')
      {
        if bp' % 8 == 0 && bp' / 8 > inlength {
          error := 10;
          return 0, bp';
        }
        var decoded;
        BudgetShrinksByOne(inlength, bp');
        error, decoded, ct, treepos := tree.Decode(treepos, BitAt(data, bp'));
        bp' := bp' + 1;
        if error != 0 {
          return 0, bp';
        }
        if decoded {
          return;
        }
      }
    }

    /** Appends LEN bytes of the input. */
    static method CopyBytes(out: seq<byte>, data: seq<byte>, p: nat, pos: nat, LEN: nat)
        returns (out': seq<byte>, pos': nat)
      requires pos + LEN <= |out|
      ensures |out'| == |out| && pos' == pos + LEN && out'[..pos'] == out[..pos] + BytesAt(data, p, LEN)
    {
      out', pos' := out, pos;
      for n := 0 to LEN
        invariant pos' == pos + n && |out'| == |out|
        invariant out'[..pos'] == out[..pos] + BytesAt(data, p, n)
      {
        out' := out'[pos' := ByteAt(data, p + n)];
        pos' := pos' + 1;
      }
    }

    /** The byte at or behind bit bp. */
    static method ToByteBoundary(bp: nat) returns (p: nat)
      ensures p == (bp + 7) / 8
    {
      var bp' := bp;
      ghost var end := (bp + 7) / 8 * 8;
      while bp' % 8 != 0
        invariant bp <= bp' <= end
        decreases end - bp'
      {
        bp' := bp' + 1;
      }
      p := bp' / 8;
    }

    method InflateNoCompression(out: seq<byte>, data: seq<byte>, bp: nat, pos: nat, inlength: nat)
        returns (out': seq<byte>, bp': nat, pos': nat)
      requires pos <= |out| && error == 0
      modifies this`error
      ensures match Stored(data, inlength, bp, out[..pos])
              case Ok((o, b)) => error == 0 && bp' == b && pos' == |o| <= |out'| && out'[..pos'] == o
              case Err(e) => error == e
    {
      hide BytesAt, ByteAt, WordLE;
      out', bp', pos' := out, bp, pos;
      var p := ToByteBoundary(bp);
      if inlength >= 4 && p >= inlength - 4 {
        error := 52;
        return;
      }
      var LEN, NLEN := WordLE(data, p), WordLE(data, p + 2);
      p := p + 4;
      if LEN + NLEN != 65535 {
        error := 21;
        return;
      }
      if pos' + LEN >= |out'| {
        out' := Resize(out', pos' + LEN);
      }
      if p + LEN > inlength {
        error := 23;
        return;
      }
      out', pos' := CopyBytes(out', data, p, pos', LEN);
      p := p + LEN;
      bp' := p * 8;
    }
  
    method GenerateFixedTrees()
      requires Valid()
      modifies codetree, codetreeD
      ensures Table(FixedLengths()) == Ok(codetree.tree2d)
      ensures Table(FixedDistances()) == Ok(codetreeD.tree2d)
    {
      var bitlen, bitlenD: seq<nat> := Repeated(8, 288), Repeated(5, 32);
      for i := 144 to 256
        invariant bitlen == Repeated(8, 144) + Repeated(9, i - 144) + Repeated(8, 288 - i)
      {
        bitlen := bitlen[i := 9];
      }
      for i := 256 to 280
        invariant bitlen == Repeated(8, 144) + Repeated(9, 112) + Repeated(7, i - 256) + Repeated(8, 288 - i)
      {
        bitlen := bitlen[i := 7];
      }
      Deflate.FixedDecodable();
      Deflate.TableDecodes(bitlen, 15);
      Deflate.TableDecodes(bitlenD, 15);
      var _ := MakeTree(codetree, bitlen, 15);
      var _ := MakeTree(codetreeD, bitlenD, 15);
    }

    /** Reads the lengths of the code length code and makes its tree. */
    method ReadCodeLengthCode(data: seq<byte>, bp: nat, HCLEN: nat) returns (bp': nat)
      requires Valid() && HCLEN <= 19
      modifies this`error, codelengthcodetree
      ensures bp' == bp + 3 * HCLEN && |codelengthcodetree.tree2d| == 38
      ensures match Table(CodeLengthLengths(data, bp, HCLEN))
              case Ok(t) => error == 0 && codelengthcodetree.tree2d == t
              case Err(e) => error == e
    {
      hide OrderOf, OrderAt, CodeLengthLengths;
      bp' := bp;
      var codelengthcode: seq<nat> := Repeated(0, 19);
      for i := 0 to 19
        invariant |codelengthcode| == 19 && bp' == bp + 3 * (if i < HCLEN then i else HCLEN)
        invariant forall s | 0 <= s < 19 && OrderOf(s) < i :: codelengthcode[s] == CodeLengthLengths(data, bp, HCLEN)[s]
      {
        OrderInverse(i);
        var l := 0;
        if i < HCLEN {
          l, bp' := ReadBits(data, bp', 3);
        }
        CodeLengthAt(data, bp, HCLEN, i);
        codelengthcode := codelengthcode[OrderAt(i) := l];
      }
      OrderBound();
      assert codelengthcode == CodeLengthLengths(data, bp, HCLEN);
      error := MakeTree(codelengthcodetree, codelengthcode, 7);
    }
  
    /** Decodes the lengths of the two codes, with the run-length symbols 16, 17 and 18. */
    method ReadCodeLengths(data: seq<byte>, bp: nat, inlength: nat, HLIT: nat, HDIST: nat)
        returns (bp': nat, bitlen: seq<nat>, bitlenD: seq<nat>, ghost lens: seq<nat>)
      requires HLIT <= 288 && HDIST <= 32 && |codelengthcodetree.tree2d| % 2 == 0
      modifies this`error
      ensures match CodeLengths(codelengthcodetree.tree2d, data, inlength, bp, HLIT + HDIST, [])
              case Ok((l, p)) => error == 0 && bp' == p && lens == l && Split(bitlen, bitlenD, l, HLIT)
              case Err(e) => error == e
    {
      hide DecodeSymbol, AddRun;
      ghost var tree := codelengthcodetree.tree2d;
      var total := HLIT + HDIST;
      bp', bitlen, bitlenD, lens := bp, Repeated(0, 288), Repeated(0, 32), [];
      error := 0;
      var i := 0;
      while i < total
        invariant i == |lens| <= total && error == 0 && Deflate.Short(lens)
        invariant Split(bitlen, bitlenD, lens, HLIT)
        invariant CodeLengths(tree, data, inlength, bp', total, lens) == CodeLengths(tree, data, inlength, bp, total, [])
        decreases total - i
      {
        var code;
        code, bp' := HuffmanDecodeSymbol(data, bp', codelengthcodetree, inlength);
        if error != 0 {
          return;
        }
        if code <= 15 {
          bitlen, bitlenD := StoreLength(bitlen, bitlenD, i, HLIT, code, lens);
          i, lens := i + 1, lens + [code];
        } else if code > 18 {
          error := 16;
          return;
        } else {
          bitlen, bitlenD, i, bp', lens := ReadRun(data, bp', inlength, code, bitlen, bitlenD, i, HLIT, total, lens);
          if error != 0 {
            return;
          }
        }
      }
    }

    /** What one of the symbols 16, 17 and 18 adds. */
    method ReadRun(data: seq<byte>, bp: nat, inlength: nat, code: nat, bitlen: seq<nat>, bitlenD: seq<nat>, i: nat, HLIT: nat, total: nat, ghost lens: seq<nat>)
        returns (bitlen': seq<nat>, bitlenD': seq<nat>, i': nat, bp': nat, ghost lens': seq<nat>)
      requires 16 <= code <= 18 && Split(bitlen, bitlenD, lens, HLIT) && i == |lens| <= total <= HLIT + 32
      requires Deflate.Short(lens) && error == 0
      modifies this`error
      ensures match AddRun(data, inlength, bp, code, total, lens)
              case Ok((l, p)) => error == 0 && lens' == l && bp' == p && i' == |l| && Split(bitlen', bitlenD', l, HLIT)
              case Err(e) => error == e
    {
      bitlen', bitlenD', i', bp', lens' := bitlen, bitlenD, i, bp, lens;
      if bp / 8 >= inlength {
        error := 50;
        return;
      }
      var replength;
      replength, bp' := ReadBits(data, bp, RunExtra(code));
      replength := replength + RunBase(code);
      var value := 0;
      if code == 16 {
        if i == 0 {
          error := UNDEFINED_BEHAVIOUR;
          return;
        }
        value := if i - 1 < HLIT then bitlen[i - 1] else bitlenD[i - HLIT - 1];
      }
      var ok;
      ok, bitlen', bitlenD', i' := RepeatLength(bitlen, bitlenD, i, HLIT, total, value, replength, lens);
      lens' := lens + Repeated(value, replength);
      if !ok {
        error := code - 3;
      }
    }

    /** The numbers of literal, distance and code length codes. */
    static method ReadCounts(data: seq<byte>, bp: nat) returns (HLIT: nat, HDIST: nat, HCLEN: nat, bp': nat)
      ensures bp' == bp + 14
      ensures HLIT == Field(data, bp, 5) + 257 <= 288
      ensures HDIST == Field(data, bp + 5, 5) + 1 <= 32
      ensures HCLEN == Field(data, bp + 10, 4) + 4 <= 19
    {
      assert Pow2(4) == 16 && Pow2(5) == 32;
      bp' := bp;
      HLIT, bp' := ReadBits(data, bp', 5);
      HDIST, bp' := ReadBits(data, bp', 5);
      HCLEN, bp' := ReadBits(data, bp', 4);
      HLIT, HDIST, HCLEN := HLIT + 257, HDIST + 1, HCLEN + 4;
    }

    /** Makes the two trees of a dynamic block from their lengths. */
    method MakeTrees(bitlen: seq<nat>, bitlenD: seq<nat>, ghost lens: seq<nat>, ghost HLIT: nat, ghost bp: nat)
      requires Valid() && Split(bitlen, bitlenD, lens, HLIT) && Deflate.Short(lens)
      requires 257 <= HLIT <= 288 && HLIT <= |lens|
      modifies this`error, codetree, codetreeD
      ensures match TwoTables(lens, HLIT, bp)
              case Ok((lit, dist, _)) => error == 0 && codetree.tree2d == lit && codetreeD.tree2d == dist
              case Err(e) => error == e
    {
      hide Table;
      SplitPads(bitlen, bitlenD, lens, HLIT);
      if bitlen[256] == 0 {
        error := 64;
        return;
      }
      error := MakeTree(codetree, bitlen, 15);
      if error != 0 {
        return;
      }
      error := MakeTree(codetreeD, bitlenD, 15);
    }

    method GetTreeInflateDynamic(data: seq<byte>, bp: nat, inlength: nat) returns (bp': nat)
      requires Valid()
      modifies this`error, codetree, codetreeD, codelengthcodetree
      ensures match DynamicTables(data, inlength, bp)
              case Ok((lit, dist, p)) => error == 0 && codetree.tree2d == lit && codetreeD.tree2d == dist && bp' == p
              case Err(e) => error == e
    {
      hide CodeLengths, CodeLengthLengths, Table, TwoTables, Split, Field, Pow2;
      bp' := bp;
      if inlength >= 2 && bp' / 8 >= inlength - 2 {
        error := 49;
        return;
      }
      var HLIT, HDIST, HCLEN;
      HLIT, HDIST, HCLEN, bp' := ReadCounts(data, bp');
      bp' := ReadCodeLengthCode(data, bp', HCLEN);
      if error != 0 {
        return;
      }
      var bitlen, bitlenD;
      ghost var lens;
      bp', bitlen, bitlenD, lens := ReadCodeLengths(data, bp', inlength, HLIT, HDIST);
      if error != 0 {
        return;
      }
      MakeTrees(bitlen, bitlenD, lens, HLIT, bp');
    }
  
    /** Reads what follows a length symbol: its extra bits, the distance symbol and its extra bits. */
    method ReadLengthAndDistance(data: seq<byte>, bp: nat, inlength: nat, code: nat)
        returns (length: nat, dist: nat, bp': nat)
      requires 257 <= code <= 285 && |codetreeD.tree2d| % 2 == 0 && error == 0
      modifies this`error
      ensures match ReadCopy(codetreeD.tree2d, data, inlength, bp, code - 257)
              case Ok((n, d, p)) => error == 0 && length == n && dist == d && bp' == p
              case Err(e) => error == e
    {
      hide DecodeSymbol;
      length, dist, bp' := 0, 0, bp;
      var numextrabits := LengthExtra(code - 257);
      if bp' / 8 >= inlength {
        error := 51;
        return;
      }
      length, bp' := ReadBits(data, bp', numextrabits);
      length := length + LengthBase(code - 257);
      var codeD;
      codeD, bp' := HuffmanDecodeSymbol(data, bp', codetreeD, inlength);
      if error != 0 {
        return;
      }
      if codeD > 29 {
        error := 18;
        return;
      }
      if bp' / 8 >= inlength {
        error := 51;
        return;
      }
      dist, bp' := ReadBits(data, bp', DistanceExtra(codeD));
      dist := dist + DistanceBase(codeD);
    }

    /** The loop over the symbols of a block, up to its end code. */
    method InflateSymbols(out: seq<byte>, data: seq<byte>, bp: nat, pos: nat, inlength: nat)
        returns (out': seq<byte>, bp': nat, pos': nat)
      requires Valid() && pos <= |out| && error == 0
      requires |codetree.tree2d| % 2 == 0 && |codetreeD.tree2d| % 2 == 0
      modifies this`error
      ensures match Tokens(codetree.tree2d, codetreeD.tree2d, data, inlength, bp, out[..pos])
              case Ok((o, b)) => error == 0 && bp' == b && pos' == |o| <= |out'| && out'[..pos'] == o
              case Err(e) => error == e
    {
      hide DecodeSymbol, ReadCopy, CopyBack;
      ghost var lit, dst := codetree.tree2d, codetreeD.tree2d;
      out', bp', pos' := out, bp, pos;
      while true
        invariant pos' <= |out'| && error == 0
        invariant Tokens(lit, dst, data, inlength, bp', out'[..pos']) == Tokens(lit, dst, data, inlength, bp, out[..pos])
        decreases Budget(inlength, bp')
      {
        ghost var before := out'[..pos'];
        var code;
        code, bp' := HuffmanDecodeSymbol(data, bp', codetree, inlength);
        if error != 0 || code == 256 {
          return;
        }
        if code <= 255 {
          if pos' >= |out'| {
            out' := Resize(out', (pos' + 1) * 2);
          }
          out' := out'[pos' := code as byte];
          pos' := pos' + 1;
          assert out'[..pos'] == before + [code as byte];
        } else if 257 <= code <= 285 {
          var length, dist;
          length, dist, bp' := ReadLengthAndDistance(data, bp', inlength, code);
          if error != 0 {
            return;
          }
          if dist > pos' {
            error := UNDEFINED_BEHAVIOUR;
            return;
          }
          if pos' + length >= |out'| {
            out' := Resize(out', (pos' + length) * 2);
          }
          assert out'[..pos'] == before;
          out', pos' := CopyLoop(out', pos', length, dist);
        }
      }
    }

    method InflateHuffmanBlock(out: seq<byte>, data: seq<byte>, bp: nat, pos: nat, inlength: nat, btype: nat)
        returns (out': seq<byte>, bp': nat, pos': nat)
      requires Valid() && pos <= |out| && error == 0 && (btype == 1 || btype == 2)
      modifies this`error, codetree, codetreeD, codelengthcodetree
      ensures match HuffmanBlock(data, inlength, bp, out[..pos], btype)
              case Ok((o, b)) => error == 0 && bp' == b && pos' == |o| <= |out'| && out'[..pos'] == o
              case Err(e) => error == e
    {
      hide Tokens, DynamicTables, Table, FixedLengths, FixedDistances;
      out', bp', pos' := out, bp, pos;
      if btype == 1 {
        GenerateFixedTrees();
      } else {
        bp' := GetTreeInflateDynamic(data, bp', inlength);
        if error != 0 {
          return;
        }
      }
      out', bp', pos' := InflateSymbols(out', data, bp', pos', inlength);
    }

    /** The body of one block, by its type. */
    method InflateBlock(out: seq<byte>, data: seq<byte>, bp: nat, pos: nat, inlength: nat, BTYPE: nat)
        returns (out': seq<byte>, bp': nat, pos': nat)
      requires Valid() && pos <= |out| && error == 0 && BTYPE <= 3
      modifies this`error, codetree, codetreeD, codelengthcodetree
      ensures match BlockBody(data, inlength, bp, out[..pos], BTYPE)
              case Ok((o, b)) => error == 0 && bp' == b && pos' == |o| <= |out'| && out'[..pos'] == o
              case Err(e) => error == e
    {
      hide HuffmanBlock, Stored;
      out', bp', pos' := out, bp, pos;
      if BTYPE == 3 {
        error := 20;
      } else if BTYPE == 0 {
        out', bp', pos' := InflateNoCompression(out, data, bp, pos, inlength);
      } else {
        out', bp', pos' := InflateHuffmanBlock(out, data, bp, pos, inlength, BTYPE);
      }
    }

    /** Inflates what follows the first inpos bytes of the input. */
    method Inflate(out: seq<byte>, in_: seq<byte>, inpos: nat) returns (out': seq<byte>)
      requires Valid() && inpos <= |in_|
      modifies this`error, codetree, codetreeD, codelengthcodetree
      ensures match Blocks(in_[inpos..], |in_|, 0, [])
              case Ok(o) => error == 0 && out' == o
              case Err(e) => error == e
    {
      hide BlockBody;
      out' := out;
      ghost var data := in_[inpos..];
      var bp: nat, pos: nat, BFINAL: nat := 0, 0, 0;
      error := 0;
      while BFINAL == 0
        invariant pos <= |out'| && error == 0
        invariant if BFINAL == 0 then Blocks(data, |in_|, bp, out'[..pos]) == Blocks(data, |in_|, 0, [])
                  else Blocks(data, |in_|, 0, []) == Ok(out'[..pos])
        decreases 1 - BFINAL, 8 * |in_| - bp
      {
        if bp / 8 >= |in_| {
          error := 52;
          return;
        }
        BFINAL := BitAt(in_[inpos..], bp);
        var BTYPE := BitAt(in_[inpos..], bp + 1) + 2 * BitAt(in_[inpos..], bp + 2);
        bp := bp + 3;
        out', bp, pos := InflateBlock(out', in_[inpos..], bp, pos, |in_|, BTYPE);
        if error != 0 {
          return;
        }
      }
      out' := Resize(out', pos);
    }
  }

  // ---- zlib ----

  /** The error for a header that is not accepted, as the source checks it. */
  function HeaderError(b0: byte, b1: byte): nat {
    if (b0 as nat * 256 + b1 as nat) % 31 != 0 then 24
    else if b0 % 16 != 8 || b0 / 16 > 7 then 25
    else if b1 / 32 % 2 != 0 then 26
    else 0
  }

  method Decompress(out: seq<byte>, in_: seq<byte>) returns (error: nat, out': seq<byte>)
    ensures |in_| < 2 ==> error == 53
    ensures |in_| >= 2 && HeaderError(in_[0], in_[1]) != 0 ==> error == HeaderError(in_[0], in_[1]) && out' == out
    ensures |in_| >= 2 && HeaderError(in_[0], in_[1]) == 0 ==>
      match Blocks(in_[2..], |in_|, 0, [])
      case Ok(o) => error == 0 && out' == o
      case Err(e) => error == e
  {
    hide Blocks;
    out' := out;
    if |in_| < 2 {
      return 53, out';
    }
    error := HeaderError(in_[0], in_[1]);
    if error != 0 {
      return;
    }
    var inflator := new Inflator();
    out' := inflator.Inflate(out', in_, 2);
    error := inflator.error;
  }

  /**
    For every zlib stream that encodes a list of stored, fixed and dynamic blocks, with any
    bytes after the last of them, decompress succeeds and yields the LZ77 expansion.
   */
  lemma DecompressInvertsDeflate(in_: seq<byte>, blocks: seq<Deflate.Block>, ends: seq<nat>)
    requires |in_| >= 2 && Deflate.BlocksAt(in_[2..], 0, blocks, ends) && Deflate.BlocksOk([], blocks)
    ensures Blocks(in_[2..], |in_|, 0, []) == Ok(Deflate.ExpandBlocks([], blocks))
  {
    Deflate.BlocksDecode(in_[2..], |in_|, 0, blocks, ends, []);
  }
}

/**
  The inflate loop of picopng (lsapi/picopng.cpp, Zlib and Inflator), first as functions
  from the input to what the loops compute, then as the methods themselves.

  The source passes a pointer past the two header bytes together with the size of the
  whole buffer. Here `data` is what that pointer sees and `inlength` the size passed along;
  a byte past the end of `data` reads as 0.
 */
module Inflate {
  import opened Options
  import opened Bits
  import opened CanonicalCode
  import opened Huffman

  const LENBASE: seq<nat> := [3, 4, 5, 6, 7, 8, 9, 10, 11, 13, 15, 17, 19, 23, 27, 31, 35, 43, 51, 59, 67, 83, 99, 115, 131, 163, 195, 227, 258]
  const LENEXTRA: seq<nat> := [0, 0, 0, 0, 0, 0, 0, 0, 1, 1, 1, 1, 2, 2, 2, 2, 3, 3, 3, 3, 4, 4, 4, 4, 5, 5, 5, 5, 0]
  const DISTBASE: seq<nat> := [1, 2, 3, 4, 5, 7, 9, 13, 17, 25, 33, 49, 65, 97, 129, 193, 257, 385, 513, 769, 1025, 1537, 2049, 3073, 4097, 6145, 8193, 12289, 16385, 24577]
  const DISTEXTRA: seq<nat> := [0, 0, 0, 0, 1, 1, 2, 2, 3, 3, 4, 4, 5, 5, 6, 6, 7, 7, 8, 8, 9, 9, 10, 10, 11, 11, 12, 12, 13, 13]

  /** Order in which the lengths of the code length code are sent. */
  const CLCL: seq<nat> := [16, 17, 18, 0, 8, 7, 9, 6, 10, 5, 11, 4, 12, 3, 13, 2, 14, 1, 15]

  /** Stands for input on which the source indexes a vector out of its bounds. */
  const UNDEFINED_BEHAVIOUR: nat := 1000

  // ---- Reading bits ----

  /** Two bytes as a number, the low byte first. */
  function WordLE(data: seq<byte>, p: nat): nat {
    (ByteAt(data, p) as nat) + 256 * (ByteAt(data, p + 1) as nat)
  }

  function BitAt(data: seq<byte>, bp: nat): bit {
    ByteAt(data, bp / 8) / Pow2(bp % 8) % 2
  }

  /** n bits from bp on as a number, least significant bit first. */
  function Field(data: seq<byte>, bp: nat, n: nat): (v: nat)
    ensures v < Pow2(n)
  {
    if n == 0 then 0 else Field(data, bp, n - 1) + BitAt(data, bp + n - 1) * Pow2(n - 1)
  }

  // ---- Symbols ----

  /** Bounds the bits that can still be read before the end of the input is noticed. */
  function Budget(inlength: nat, bp: nat): nat {
    var end := 8 * (inlength + 1);
    if bp < end then end - bp + 8 else (8 - bp % 8) % 8
  }

  lemma BudgetShrinks(inlength: nat, bp: nat, bp': nat)
    requires bp < bp' && bp < 8 * (inlength + 1)
    ensures Budget(inlength, bp') < Budget(inlength, bp)
  {
  }

  lemma BudgetShrinksByOne(inlength: nat, bp: nat)
    requires bp % 8 != 0 || bp / 8 <= inlength
    ensures Budget(inlength, bp + 1) < Budget(inlength, bp)
  {
  }

  /** One symbol read with a table, standing at a node of it: the symbol and the next position. */
  function DecodeSymbol(tree: seq<nat>, data: seq<byte>, inlength: nat, bp: nat, treepos: nat): (r: Result<(nat, nat), nat>)
    ensures r.Ok? ==> r.value.1 > bp && Budget(inlength, r.value.1) < Budget(inlength, bp)
    ensures r.Ok? ==> r.value.0 < |tree| / 2
    ensures r.Err? ==> r.error != 0
    decreases Budget(inlength, bp)
  {
    if bp % 8 == 0 && bp / 8 > inlength then Err(10)
    else
      BudgetShrinksByOne(inlength, bp);
      match DecodeBit(tree, treepos, BitAt(data, bp))
      case Outside => Err(ERROR_OUTSIDE_TREE)
      case Symbol(n) => Ok((n, bp + 1))
      case Node(pos) => DecodeSymbol(tree, data, inlength, bp + 1, pos)
  }

  // ---- Literals and copies ----

  function LengthBase(k: nat): nat
    requires k < 29
  {
    LENBASE[k]
  }

  function LengthExtra(k: nat): nat
    requires k < 29
  {
    LENEXTRA[k]
  }

  function DistanceBase(kd: nat): (d: nat)
    requires kd < 30
    ensures d >= 1
  {
    DISTBASE[kd]
  }

  function DistanceExtra(kd: nat): nat
    requires kd < 30
  {
    DISTEXTRA[kd]
  }

  /** LZ77 copy of n bytes from d back; the copy may read what it has written. */
  function CopyBack(out: seq<byte>, d: nat, n: nat): (r: seq<byte>)
    requires 1 <= d <= |out|
    ensures |r| == |out| + n && r[..|out|] == out
    ensures forall j | |out| <= j < |r| :: r[j] == r[j - d]
    decreases n
  {
    if n == 0 then out else CopyBack(out + [out[|out| - d]], d, n - 1)
  }

  /** Length and distance of a copy whose length symbol ends at bp, and the position after it. */
  function ReadCopy(dist: seq<nat>, data: seq<byte>, inlength: nat, bp: nat, k: nat): (r: Result<(nat, nat, nat), nat>)
    requires k < 29
    ensures r.Ok? ==> bp < 8 * inlength && r.value.1 >= 1
    ensures r.Ok? ==> r.value.2 > bp && Budget(inlength, r.value.2) < Budget(inlength, bp)
    ensures r.Err? ==> r.error != 0
  {
    if bp / 8 >= inlength then Err(51)
    else
      var length := LengthBase(k) + Field(data, bp, LengthExtra(k));
      match DecodeSymbol(dist, data, inlength, bp + LengthExtra(k), 0)
      case Err(e) => Err(e)
      case Ok((kd, bp1)) =>
        if kd > 29 then Err(18)
        else if bp1 / 8 >= inlength then Err(51)
        else
          var d := DistanceBase(kd) + Field(data, bp1, DistanceExtra(kd));
          BudgetShrinks(inlength, bp, bp1 + DistanceExtra(kd));
          Ok((length, d, bp1 + DistanceExtra(kd)))
  }

  /** The symbols of a block up to its end code, appended to what is out already. */
  function Tokens(lit: seq<nat>, dist: seq<nat>, data: seq<byte>, inlength: nat, bp: nat, out: seq<byte>): (r: Result<(seq<byte>, nat), nat>)
    ensures r.Ok? ==> r.value.1 > bp
    ensures r.Err? ==> r.error != 0
    decreases Budget(inlength, bp)
  {
    match DecodeSymbol(lit, data, inlength, bp, 0)
    case Err(e) => Err(e)
    case Ok((code, bp1)) =>
      if code == 256 then Ok((out, bp1))
      else if code <= 255 then Tokens(lit, dist, data, inlength, bp1, out + [code as byte])
      else if code <= 285 then
        match ReadCopy(dist, data, inlength, bp1, code - 257)
        case Err(e) => Err(e)
        case Ok((length, d, bp2)) =>
          if d > |out| then Err(UNDEFINED_BEHAVIOUR)
          else Tokens(lit, dist, data, inlength, bp2, CopyBack(out, d, length))
      else Tokens(lit, dist, data, inlength, bp1, out)
  }

  // ---- Stored blocks ----

  function Stored(data: seq<byte>, inlength: nat, bp: nat, out: seq<byte>): (r: Result<(seq<byte>, nat), nat>)
    ensures r.Ok? ==> r.value.1 > bp
    ensures r.Err? ==> r.error != 0
  {
    var p := (bp + 7) / 8;
    if inlength >= 4 && p >= inlength - 4 then Err(52)
    else
      var len, nlen := WordLE(data, p), WordLE(data, p + 2);
      if len + nlen != 65535 then Err(21)
      else if p + 4 + len > inlength then Err(23)
      else Ok((out + BytesAt(data, p + 4, len), 8 * (p + 4 + len)))
  }

  // ---- Fixed and dynamic tables ----

  function Repeated(v: nat, n: nat): seq<nat> {
    seq(n, _ => v)
  }

  function FixedLengths(): seq<nat> {
    Repeated(8, 144) + Repeated(9, 112) + Repeated(7, 24) + Repeated(8, 8)
  }

  function FixedDistances(): seq<nat> {
    Repeated(5, 32)
  }

  /** Table of a code given by its lengths. */
  function Table(lens: seq<nat>): (r: Result<seq<nat>, nat>)
    requires |lens| >= 2
    ensures r.Ok? ==> |r.value| == 2 * |lens|
    ensures r.Err? ==> r.error != 0
  {
    match Build(Words(lens))
    case None => Err(ERROR_TREE_FULL)
    case Some(b) => Ok(b.tree)
  }

  /** The symbol whose length is sent as the i-th of the code length code. */
  function OrderAt(i: nat): (s: nat)
    requires i < 19
    ensures s < 19
  {
    CLCL[i]
  }

  /** Where symbol s comes in the order of CLCL. */
  function OrderOf(s: nat): nat
    requires s < 19
  {
    [3, 17, 15, 13, 11, 9, 7, 5, 4, 6, 8, 10, 12, 14, 16, 18, 0, 1, 2][s]
  }

  /** Lengths of the code length code, of which the first hclen in the order of CLCL are sent. */
  function CodeLengthLengths(data: seq<byte>, bp: nat, hclen: nat): (lens: seq<nat>)
    ensures |lens| == 19 && forall s | 0 <= s < 19 :: lens[s] <= 7
  {
    seq(19, s requires 0 <= s < 19 =>
      var i := OrderOf(s);
      if i < hclen then (assert Pow2(3) == 8; Field(data, bp + 3 * i, 3)) else 0)
  }

  /** Number of extra bits of the run-length symbols 16, 17 and 18. */
  function RunExtra(code: nat): nat {
    if code == 16 then 2 else if code == 17 then 3 else 7
  }

  /** Shortest run of the run-length symbols 16, 17 and 18. */
  function RunBase(code: nat): (n: nat)
    ensures n >= 3
  {
    if code == 18 then 11 else 3
  }

  /** The run-length coded code lengths, after those in lens, until there are total of them. */
  function CodeLengths(tree: seq<nat>, data: seq<byte>, inlength: nat, bp: nat, total: nat, lens: seq<nat>): (r: Result<(seq<nat>, nat), nat>)
    requires |lens| <= total && forall i | 0 <= i < |lens| :: lens[i] <= 15
    ensures r.Ok? ==> |r.value.0| == total && r.value.1 >= bp
    ensures r.Ok? ==> forall i | 0 <= i < total :: r.value.0[i] <= 15
    ensures r.Err? ==> r.error != 0
    decreases total - |lens|
  {
    if |lens| == total then Ok((lens, bp))
    else
      match DecodeSymbol(tree, data, inlength, bp, 0)
      case Err(e) => Err(e)
      case Ok((code, bp1)) =>
        if code <= 15 then CodeLengths(tree, data, inlength, bp1, total, lens + [code])
        else if code > 18 then Err(16)
        else
          match AddRun(data, inlength, bp1, code, total, lens)
          case Err(e) => Err(e)
          case Ok((lens', bp2)) => CodeLengths(tree, data, inlength, bp2, total, lens')
  }

  /** What one of the run-length symbols 16, 17 and 18 adds to the lengths. */
  function AddRun(data: seq<byte>, inlength: nat, bp: nat, code: nat, total: nat, lens: seq<nat>): (r: Result<(seq<nat>, nat), nat>)
    requires 16 <= code <= 18 && |lens| <= total && forall i | 0 <= i < |lens| :: lens[i] <= 15
    ensures r.Err? ==> r.error != 0
    ensures r.Ok? ==> |lens| < |r.value.0| <= total && r.value.1 >= bp
    ensures r.Ok? ==> forall i | 0 <= i < |r.value.0| :: r.value.0[i] <= 15
  {
    if bp / 8 >= inlength then Err(50)
    else if code == 16 && |lens| == 0 then Err(UNDEFINED_BEHAVIOUR)
    else
      var n := Field(data, bp, RunExtra(code)) + RunBase(code);
      var v := if code == 16 then lens[|lens| - 1] else 0;
      if |lens| + n > total then Err(code - 3)
      else Ok((lens + Repeated(v, n), bp + RunExtra(code)))
  }

  function Pad(lens: seq<nat>, n: nat): (r: seq<nat>)
    requires |lens| <= n
    ensures |r| == n
  {
    lens + Repeated(0, n - |lens|)
  }

  /** The tables of the two codes that a list of lengths splits into, and the position passed along. */
  function TwoTables(lens: seq<nat>, hlit: nat, bp: nat): (r: Result<(seq<nat>, seq<nat>, nat), nat>)
    requires 257 <= hlit <= 288 && hlit <= |lens| <= hlit + 32
    ensures r.Err? ==> r.error != 0
    ensures r.Ok? ==> |r.value.0| == 576 && |r.value.1| == 64 && r.value.2 == bp
  {
    if lens[256] == 0 then Err(64)
    else
      match Table(Pad(lens[..hlit], 288))
      case Err(e) => Err(e)
      case Ok(lit) =>
        match Table(Pad(lens[hlit..], 32))
        case Err(e) => Err(e)
        case Ok(dist) => Ok((lit, dist, bp))
  }

  /** The two tables of a dynamic block and the position after them. */
  function DynamicTables(data: seq<byte>, inlength: nat, bp: nat): (r: Result<(seq<nat>, seq<nat>, nat), nat>)
    ensures r.Err? ==> r.error != 0
    ensures r.Ok? ==> |r.value.0| == 576 && |r.value.1| == 64 && r.value.2 > bp
  {
    if inlength >= 2 && bp / 8 >= inlength - 2 then Err(49)
    else
      assert Pow2(4) == 16 && Pow2(5) == 32;
      var hlit := Field(data, bp, 5) + 257;
      var hdist := Field(data, bp + 5, 5) + 1;
      var hclen := Field(data, bp + 10, 4) + 4;
      match Table(CodeLengthLengths(data, bp + 14, hclen))
      case Err(e) => Err(e)
      case Ok(tree) =>
        match CodeLengths(tree, data, inlength, bp + 14 + 3 * hclen, hlit + hdist, [])
        case Err(e) => Err(e)
        case Ok((lens, bp1)) => TwoTables(lens, hlit, bp1)
  }

  // ---- Blocks ----

  function HuffmanBlock(data: seq<byte>, inlength: nat, bp: nat, out: seq<byte>, btype: nat): (r: Result<(seq<byte>, nat), nat>)
    requires btype == 1 || btype == 2
    ensures r.Ok? ==> r.value.1 > bp
    ensures r.Err? ==> r.error != 0
  {
    if btype == 1 then
      match (Table(FixedLengths()), Table(FixedDistances()))
      case (Ok(lit), Ok(dist)) => Tokens(lit, dist, data, inlength, bp, out)
      case _ => Err(ERROR_TREE_FULL)
    else
      match DynamicTables(data, inlength, bp)
      case Err(e) => Err(e)
      case Ok((lit, dist, bp1)) => Tokens(lit, dist, data, inlength, bp1, out)
  }

  function BlockBody(data: seq<byte>, inlength: nat, bp: nat, out: seq<byte>, btype: nat): (r: Result<(seq<byte>, nat), nat>)
    requires btype <= 3
    ensures r.Ok? ==> r.value.1 > bp
    ensures r.Err? ==> r.error != 0
  {
    if btype == 3 then Err(20)
    else if btype == 0 then Stored(data, inlength, bp, out)
    else HuffmanBlock(data, inlength, bp, out, btype)
  }

  /** All blocks up to the one marked final. */
  function Blocks(data: seq<byte>, inlength: nat, bp: nat, out: seq<byte>): (r: Result<seq<byte>, nat>)
    ensures r.Err? ==> r.error != 0
    decreases 8 * inlength - bp
  {
    if bp / 8 >= inlength then Err(52)
    else
      match BlockBody(data, inlength, bp + 3, out, BitAt(data, bp + 1) + 2 * BitAt(data, bp + 2))
      case Err(e) => Err(e)
      case Ok((out', bp')) => if BitAt(data, bp) == 1 then Ok(out') else Blocks(data, inlength, bp', out')
  }
}

/**
  What the tables of lsapi/picopng.cpp have to be: the values that RFC 1950 and RFC 1951 give to
  the codes for lengths and distances, the order of the code length code, the fixed codes, the
  order of the bits and the zlib header, each in closed form or by the property that defines it.
 */
module Format {
  import opened Options
  import opened Bits
  import opened CanonicalCode
  import opened Inflate
  import Huffman
  import Deflate
  import Encoder
  import Inflator

  // ---- Lengths and distances, section 3.2.5 of RFC 1951 ----

  lemma SmallPowers()
    ensures Pow2(0) == 1 && Pow2(1) == 2 && Pow2(2) == 4 && Pow2(3) == 8 && Pow2(4) == 16 && Pow2(5) == 32 && Pow2(6) == 64
    ensures Pow2(7) == 128 && Pow2(8) == 256 && Pow2(9) == 512 && Pow2(10) == 1024 && Pow2(11) == 2048 && Pow2(12) == 4096
    ensures Pow2(13) == 8192 && Pow2(16) == 65536
  {
    assert Pow2(3) == 8;
    assert Pow2(6) == 64;
    assert Pow2(9) == 512;
    assert Pow2(12) == 4096;
  }

  /** The lengths of a code follow those of the code before it, from 3 on; the last code is for 258. */
  lemma LengthTable(k: nat)
    requires k < 29
    ensures LengthExtra(k) == if k < 4 || k == 28 then 0 else (k - 4) / 4
    ensures LengthBase(0) == 3 && LengthBase(28) == 258
    ensures k < 27 ==> LengthBase(k + 1) == LengthBase(k) + Pow2(LengthExtra(k))
    ensures k == 27 ==> LengthBase(k) + Pow2(LengthExtra(k)) == 259
  {
    SmallPowers();
    hide Pow2;
  }

  lemma DistanceExtraIs(kd: nat)
    requires kd < 30
    ensures DistanceExtra(kd) == if kd < 4 then 0 else kd / 2 - 1
  {
  }

  lemma DistanceTable(kd: nat)
    requires kd < 30
    ensures DistanceExtra(kd) == if kd < 4 then 0 else kd / 2 - 1
    ensures DistanceBase(0) == 1
    ensures kd < 29 ==> DistanceBase(kd + 1) == DistanceBase(kd) + Pow2(DistanceExtra(kd))
    ensures kd == 29 ==> DistanceBase(kd) + Pow2(DistanceExtra(kd)) == 32769
  {
    SmallPowers();
    DistanceExtraIs(kd);
    hide Pow2, DistanceExtra;
    if kd < 15 {
      NearDistances(kd);
    } else {
      FarDistances(kd);
    }
    hide DistanceBase;
  }

  lemma NearDistances(kd: nat)
    requires kd < 15
    ensures DistanceBase(0) == 1 && DistanceBase(kd + 1) == DistanceBase(kd) + Pow2(if kd < 4 then 0 else kd / 2 - 1)
  {
    SmallPowers();
    hide Pow2;
  }

  lemma FarDistances(kd: nat)
    requires 15 <= kd < 30
    ensures DistanceBase(0) == 1
    ensures (if kd < 29 then DistanceBase(kd + 1) else 32769) == DistanceBase(kd) + Pow2(kd / 2 - 1)
  {
    SmallPowers();
    hide Pow2;
  }

  /** The code stands for the length, with some value of its extra bits. */
  predicate CodesLength(k: nat, n: nat)
    requires k < 29
  {
    LengthBase(k) <= n < LengthBase(k) + Pow2(LengthExtra(k))
  }

  predicate CodesDistance(kd: nat, d: nat)
    requires kd < 30
  {
    DistanceBase(kd) <= d < DistanceBase(kd) + Pow2(DistanceExtra(kd))
  }

  lemma {:induction false} LengthsGrow(j: nat, k: nat)
    requires j < k < 28
    ensures LengthBase(j) + Pow2(LengthExtra(j)) <= LengthBase(k)
  {
    hide LengthBase, LengthExtra, Pow2;
    LengthTable(k - 1);
    if j < k - 1 {
      LengthsGrow(j, k - 1);
    } else {
      assert k - 1 == j;
    }
  }

  lemma {:induction false} DistancesGrow(j: nat, k: nat)
    requires j < k < 30
    ensures DistanceBase(j) + Pow2(DistanceExtra(j)) <= DistanceBase(k)
  {
    hide DistanceBase, DistanceExtra, Pow2;
    DistanceTable(k - 1);
    if j < k - 1 {
      DistancesGrow(j, k - 1);
    } else {
      assert k - 1 == j;
    }
  }

  lemma {:induction false} FindLength(n: nat, k: nat) returns (j: nat)
    requires k < 28 && 3 <= n < LengthBase(k) + Pow2(LengthExtra(k))
    ensures j <= k && CodesLength(j, n)
  {
    hide LengthBase, LengthExtra, Pow2;
    if LengthBase(k) <= n {
      j := k;
    } else {
      LengthTable(0);
      LengthTable(k - 1);
      j := FindLength(n, k - 1);
    }
  }

  lemma {:induction false} FindDistance(d: nat, k: nat) returns (j: nat)
    requires k < 30 && 1 <= d < DistanceBase(k) + Pow2(DistanceExtra(k))
    ensures j <= k && CodesDistance(j, d)
  {
    hide DistanceBase, DistanceExtra, Pow2;
    if DistanceBase(k) <= d {
      j := k;
    } else {
      DistanceTable(0);
      DistanceTable(k - 1);
      j := FindDistance(d, k - 1);
    }
  }

  /**
    Each length from 3 to 257 has exactly one code. 258 has a code of its own, although the one
    before it reaches it as well. There are no other lengths.
   */
  lemma LengthHasCode(n: nat) returns (k: nat)
    ensures 3 <= n <= 258 <==> k < 29 && CodesLength(k, n)
    ensures n == 258 ==> k == 28
    ensures forall j | 0 <= j < 29 && CodesLength(j, n) :: j == k || (n == 258 && j == 27)
  {
    hide LengthBase, LengthExtra, Pow2;
    LengthTable(0);
    LengthTable(27);
    LengthTable(28);
    assert Pow2(0) == 1 by { SmallPowers(); }
    k := 29;
    if n == 258 {
      k := 28;
    } else if 3 <= n < 258 {
      k := FindLength(n, 27);
    }
    forall j | 0 <= j < 29 && CodesLength(j, n)
      ensures 3 <= n <= 258 && (j == k || (n == 258 && j == 27))
    {
      if 0 < j < 28 {
        LengthsGrow(0, j);
      }
      if j < 27 {
        LengthsGrow(j, 27);
      }
      if j < k < 28 {
        LengthsGrow(j, k);
      } else if k < j < 28 {
        LengthsGrow(k, j);
      }
    }
  }

  /** Each distance from 1 to 32768 has exactly one code, and there are no other distances. */
  lemma DistanceHasCode(d: nat) returns (k: nat)
    ensures 1 <= d <= 32768 <==> k < 30 && CodesDistance(k, d)
    ensures forall j | 0 <= j < 30 && CodesDistance(j, d) :: j == k
  {
    hide DistanceBase, DistanceExtra, Pow2;
    DistanceTable(0);
    DistanceTable(29);
    k := 30;
    if 1 <= d <= 32768 {
      k := FindDistance(d, 29);
    }
    forall j | 0 <= j < 30 && CodesDistance(j, d)
      ensures 1 <= d <= 32768 && j == k
    {
      if 0 < j {
        DistancesGrow(0, j);
      }
      if j < 29 {
        DistancesGrow(j, 29);
      }
      if j < k < 30 {
        DistancesGrow(j, k);
      } else if k < j {
        DistancesGrow(k, j);
      }
    }
  }

  // ---- The code length code, section 3.2.7 ----

  /** 16, 17, 18, 0, and from then on 8, 9, ... at even places and 7, 6, ... at odd ones. */
  lemma OrderIs(i: nat)
    requires i < 19
    ensures OrderAt(i)
         == if i < 3 then 16 + i else if i == 3 then 0 else if i % 2 == 0 then 6 + i / 2 else 9 - i / 2
  {
  }

  /** Symbol 16 stands for 3 to 6 lengths, 17 for 3 to 10 and 18 for 11 to 138. */
  lemma RunCounts(code: nat, n: nat)
    requires 16 <= code <= 18
    ensures (exists extra: nat :: Deflate.Run(code, extra).Valid() && Deflate.Run(code, extra).Count() == n)
       <==> if code == 16 then 3 <= n <= 6 else if code == 17 then 3 <= n <= 10 else 11 <= n <= 138
  {
    SmallPowers();
    var least := if code == 18 then 11 else 3;
    if n >= least {
      assert Deflate.Run(code, n - least).Count() == n;
    }
  }

  /** They repeat the last length for symbol 16, where there is one, and zeros for the others. */
  lemma RunMeans(lens: seq<nat>, code: nat, extra: nat)
    requires 16 <= code <= 18
    ensures var r, n := Deflate.Apply(lens, Deflate.Run(code, extra)), Deflate.Run(code, extra).Count();
      if code > 16 then r == Some(lens + Zeros(n))
      else if lens == [] then r == None
      else r.Some? && r.value[..|lens|] == lens && forall i | |lens| <= i < |lens| + n :: r.value[i] == lens[|lens| - 1]
  {
  }

  function Zeros(n: nat): seq<nat> {
    seq(n, _ => 0)
  }

  /** Symbols and distances of which no lengths are sent do not occur. */
  lemma UnsentLengths(h: Deflate.Header, lit: seq<nat>, dist: seq<nat>, i: nat)
    requires Deflate.StandsFor(h, lit, dist)
    ensures |lit| == 288 && |dist| == 32
    ensures h.hlit <= i < 288 ==> lit[i] == 0
    ensures h.hdist <= i < 32 ==> dist[i] == 0
  {
    hide Deflate.Lengths;
  }

  // ---- The fixed codes, section 3.2.6 ----

  /** The lengths of the fixed codes; all 32 distances have codes of five bits. */
  lemma FixedLengthsAre(n: nat, d: nat)
    requires n < 288 && d < 32
    ensures |FixedLengths()| == 288 && |FixedDistances()| == 32
    ensures FixedLengths()[n] == if n <= 143 then 8 else if n <= 255 then 9 else if n <= 279 then 7 else 8
    ensures FixedDistances()[d] == 5
  {
  }

  lemma {:induction false} CountRun(lens: seq<nat>, m: nat, n: nat, b: nat, v: nat)
    requires m <= n <= |lens| && forall i | m <= i < n :: lens[i] == v
    ensures Count(lens[..n], b) == Count(lens[..m], b) + if v == b then n - m else 0
  {
    if m < n {
      assert lens[..n][..n - 1] == lens[..n - 1];
      CountRun(lens, m, n - 1, b, v);
    }
  }

  /** How many of the first n fixed codes have a length. */
  lemma FixedCount(n: nat, b: nat)
    requires n <= 288
    ensures |FixedLengths()| == 288
    ensures Count(FixedLengths()[..n], b)
         == (if b == 8 then Least(n, 144) + Beyond(n, 280, 8)
             else if b == 9 then Beyond(n, 144, 112)
             else if b == 7 then Beyond(n, 256, 24) else 0)
  {
    var lens := FixedLengths();
    assert lens[..0] == [];
    CountRun(lens, 0, Least(n, 144), b, 8);
    if n > 144 {
      CountRun(lens, 144, Least(n, 256), b, 9);
    }
    if n > 256 {
      CountRun(lens, 256, Least(n, 280), b, 7);
    }
    if n > 280 {
      CountRun(lens, 280, n, b, 8);
    }
    hide FixedLengths;
  }

  function Least(a: nat, b: nat): nat {
    if a < b then a else b
  }

  /** How many of the numbers below n are among the c from m on. */
  function Beyond(n: nat, m: nat, c: nat): nat {
    if n <= m then 0 else Least(n - m, c)
  }

  lemma FixedFirsts()
    ensures var lens := FixedLengths();
      FirstCode(lens, 7) == 0 && FirstCode(lens, 8) == 0x30 && FirstCode(lens, 9) == 0x190
  {
    var lens := FixedLengths();
    forall b: nat
      ensures Count(lens, b) == if b == 8 then 152 else if b == 9 then 112 else if b == 7 then 24 else 0
    {
      assert lens[..288] == lens;
      FixedCount(288, b);
    }
    hide FixedLengths, Count;
    assert FirstCode(lens, 3) == 0;
    assert FirstCode(lens, 6) == 0;
    assert FirstCode(lens, 8) == 0x30;
  }

  /** The codes that the section lists: from 00110000, 110010000, 0000000 and 11000000 on. */
  lemma FixedCodesAre(n: nat)
    requires n < 288
    ensures |FixedLengths()| == 288
    ensures Code(FixedLengths(), n)
         == if n <= 143 then 0x30 + n else if n <= 255 then 0x190 + (n - 144) else if n <= 279 then n - 256 else 0xC0 + (n - 280)
  {
    FixedLengthsAre(n, 0);
    FixedCount(n, FixedLengths()[n]);
    FixedFirsts();
    hide FixedLengths, Count, FirstCode;
  }

  // ---- Canonical codes, section 3.2.2 ----

  /** Bit strings in the order of their first difference. */
  predicate Before(u: seq<bit>, w: seq<bit>) {
    exists j | 0 <= j < |u| && j < |w| :: u[..j] == w[..j] && u[j] < w[j]
  }

  lemma {:induction false} SmallerBefore(v: nat, u: nat, l: nat)
    requires v < u < Pow2(l)
    ensures Before(BitsOf(v, l), BitsOf(u, l))
  {
    var a, b := BitsOf(v, l), BitsOf(u, l);
    assert l > 0;
    assert a[..l - 1] == BitsOf(v / 2, l - 1) && b[..l - 1] == BitsOf(u / 2, l - 1);
    if v / 2 < u / 2 {
      SmallerBefore(v / 2, u / 2, l - 1);
      var j :| 0 <= j < l - 1 && a[..l - 1][..j] == b[..l - 1][..j] && a[..l - 1][j] < b[..l - 1][j];
      assert a[..j] == a[..l - 1][..j] && b[..j] == b[..l - 1][..j];
    } else {
      assert v / 2 == u / 2 && a[l - 1] < b[l - 1];
    }
  }

  /**
    The two rules: shorter codes come before longer ones, and codes of a length are in the
    order of their symbols, as consecutive numbers.
   */
  lemma CanonicalOrder(lens: seq<nat>, max: nat, m: nat, n: nat)
    requires Kraft(lens, max) && m < |lens| && n < |lens| && 0 < lens[m]
    requires lens[m] < lens[n] || (lens[m] == lens[n] && m < n)
    ensures Before(Words(lens)[m], Words(lens)[n])
    ensures lens[m] == lens[n] && (forall i | m < i < n :: lens[i] != lens[m]) ==> Code(lens, n) == Code(lens, m) + 1
  {
    CodeFits(lens, max, m);
    CodeFits(lens, max, n);
    var lm, ln := lens[m], lens[n];
    if lm < ln {
      var c := Shift(Code(lens, n), ln - lm);
      ShorterFirst(lens, m, n);
      ShiftBounds(Code(lens, n), Code(lens, m) + 1, ln - lm);
      Pow2Sum(lm, ln - lm);
      ShiftBounds(Code(lens, n), Pow2(lm), ln - lm);
      SmallerBefore(Code(lens, m), c, lm);
      BitsOfPrefix(Code(lens, n), ln, lm);
      BeforeExtended(Words(lens)[m], BitsOf(c, lm), Words(lens)[n]);
    } else {
      SameLengthApart(lens, m, n);
      SmallerBefore(Code(lens, m), Code(lens, n), lm);
      if forall i | m < i < n :: lens[i] != lens[m] {
        CountBetween(lens, m, n);
      }
    }
  }

  lemma {:induction false} CountBetween(lens: seq<nat>, m: nat, n: nat)
    requires m < n <= |lens| && forall i | m < i < n :: lens[i] != lens[m]
    ensures Count(lens[..n], lens[m]) == Count(lens[..m], lens[m]) + 1
  {
    assert lens[..n][..n - 1] == lens[..n - 1];
    if m < n - 1 {
      CountBetween(lens, m, n - 1);
    }
  }

  lemma BeforeExtended(u: seq<bit>, w: seq<bit>, more: seq<bit>)
    requires Before(u, w) && IsPrefix(w, more)
    ensures Before(u, more)
  {
    var j :| 0 <= j < |u| && j < |w| && u[..j] == w[..j] && u[j] < w[j];
    assert more[..j] == more[..|w|][..j] && more[j] == more[..|w|][j];
  }

  // ---- Bits and bytes, section 3.1.1 ----

  lemma {:induction false} FieldSplit(data: seq<byte>, bp: nat, m: nat, n: nat)
    ensures Field(data, bp, m + n) == Field(data, bp, m) + Pow2(m) * Field(data, bp + m, n)
  {
    hide BitAt;
    if n > 0 {
      FieldSplit(data, bp, m, n - 1);
      Pow2Sum(m, n - 1);
      assert bp + (m + n) - 1 == bp + m + n - 1;
      Distribute(Pow2(m), Field(data, bp + m, n - 1), BitAt(data, bp + m + n - 1), Pow2(n - 1));
    } else {
      assert Field(data, bp + m, 0) == 0;
    }
  }

  lemma Distribute(a: nat, x: nat, b: nat, c: nat)
    ensures a * (x + b * c) == a * x + b * (a * c)
  {
    assert a * (x + b * c) == a * x + a * (b * c);
    assert a * (b * c) == b * (a * c);
  }

  lemma FieldIsByte(data: seq<byte>, p: nat)
    ensures Field(data, 8 * p, 8) == ByteAt(data, p)
  {
    SmallPowers();
    hide Field, Pow2;
    Encoder.FieldOfByte(data, p, 8);
  }

  /** Bits are taken from the least significant end of a byte, and numbers have the low byte first. */
  lemma FieldsAreBytes(data: seq<byte>, p: nat)
    ensures Field(data, 8 * p, 8) == ByteAt(data, p)
    ensures Field(data, 8 * p, 16) == ByteAt(data, p) as nat + 256 * ByteAt(data, p + 1) as nat
    ensures WordLE(data, p) == Field(data, 8 * p, 16)
  {
    SmallPowers();
    hide Field, Pow2, ByteAt;
    FieldIsByte(data, p);
    FieldIsByte(data, p + 1);
    FieldSplit(data, 8 * p, 8, 8);
    assert 8 * p + 8 == 8 * (p + 1);
  }

  // ---- The zlib header, section 2.2 of RFC 1950 ----

  /**
    A header is accepted exactly if its check bits make it a multiple of 31, the method is 8,
    the window has at most 32 KB and there is no dictionary.
   */
  lemma HeaderAccepted(b0: byte, b1: byte)
    ensures Inflator.HeaderError(b0, b1) == 0
       <==> (256 * b0 + b1) % 31 == 0 && Field([b0, b1], 0, 4) == 8 && Field([b0, b1], 4, 4) <= 7 && Field([b0, b1], 13, 1) == 0
  {
    FirstByte([b0, b1]);
    BitOfSecond([b0, b1]);
    hide Field, Pow2;
    assert b0 == 16 * (b0 / 16) + b0 % 16;
  }

  lemma FirstByte(data: seq<byte>)
    ensures Field(data, 0, 4) == ByteAt(data, 0) % 16
    ensures ByteAt(data, 0) == Field(data, 0, 4) + 16 * Field(data, 4, 4)
  {
    SmallPowers();
    hide Field, Pow2, ByteAt;
    Encoder.FieldOfByte(data, 0, 4);
    Encoder.FieldOfByte(data, 0, 8);
    FieldSplit(data, 0, 4, 4);
  }

  lemma BitOfSecond(data: seq<byte>)
    ensures Field(data, 13, 1) == ByteAt(data, 1) / 32 % 2
  {
    SmallPowers();
    assert Field(data, 13, 0) == 0;
    hide Pow2, ByteAt;
  }

  // ---- Streams that are rejected ----

  /** A block of type 3, or none where there is to be one. */
  lemma BlockRejected(data: seq<byte>, inlength: nat, bp: nat, out: seq<byte>)
    ensures bp / 8 >= inlength ==> Blocks(data, inlength, bp, out) == Err(52)
    ensures bp / 8 < inlength && Deflate.FieldAt(data, bp + 1, 2, 3) ==> Blocks(data, inlength, bp, out) == Err(20)
  {
    if Deflate.FieldAt(data, bp + 1, 2, 3) {
      assert Deflate.FieldAt(data, bp, 1, Field(data, bp, 1));
      hide Field, BitAt, Stored, HuffmanBlock;
      Deflate.HeaderBits(data, bp, Field(data, bp, 1), 3);
    }
  }

  /** A stored block whose length is not the complement of its check, or that is longer than the input, and no other. */
  lemma StoredRejected(data: seq<byte>, inlength: nat, bp: nat, out: seq<byte>)
    requires inlength >= |data| + 2
    ensures var p := (bp + 7) / 8;
      var len, check := Field(data, 8 * p, 16), Field(data, 8 * p + 16, 16);
      && (p + 4 < inlength && len + check != 65535 ==> Stored(data, inlength, bp, out) == Err(21))
      && (p + 4 < inlength && len + check == 65535 && p + 4 + len > inlength ==> Stored(data, inlength, bp, out) == Err(23))
      && (p + 4 < inlength && len + check == 65535 && p + 4 + len <= inlength ==> Stored(data, inlength, bp, out).Ok?)
      && (p + 4 >= inlength >= 4 ==> Stored(data, inlength, bp, out) == Err(52))
  {
    var p := (bp + 7) / 8;
    FieldsAreBytes(data, p);
    FieldsAreBytes(data, p + 2);
    assert 8 * (p + 2) == 8 * p + 16;
    hide Field, ByteAt;
  }

  /** A dynamic header that would begin behind the data, of which the size counts the zlib header, too. */
  lemma HeaderRejected(data: seq<byte>, inlength: nat, bp: nat)
    requires 2 <= inlength <= bp / 8 + 2
    ensures DynamicTables(data, inlength, bp) == Err(49)
  {
    hide CodeLengths, Table, CodeLengthLengths, TwoTables, Field;
  }

  /** A copy with one of the two distance codes that stand for nothing. */
  lemma DistanceRejected(dist: seq<nat>, words: seq<seq<bit>>, data: seq<byte>, inlength: nat, bp: nat, k: nat, kd: nat)
    requires PrefixFree(words) && Huffman.Represents(dist, words) && inlength >= |data| && k < 29 && bp / 8 < inlength
    requires Deflate.SymbolAt(words, data, bp + LengthExtra(k), kd) && kd >= 30
    ensures ReadCopy(dist, data, inlength, bp, k) == Err(18)
  {
    hide PrefixFree, Huffman.Represents, LengthExtra, LengthBase, Field, DecodeSymbol;
    Deflate.DecodeEncoded(dist, words, data, inlength, bp + LengthExtra(k), kd);
  }
}

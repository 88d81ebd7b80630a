/**
  Bit strings and powers of two, shared by the Huffman tree and the inflate loop.
  A code word is a bit string with its most significant bit first, as section 3.1.1
  of RFC 1951 packs Huffman codes.
 */
module Bits {
  type bit = b: nat | b < 2

  type byte = b: nat | b < 256

  function Pow2(n: nat): (p: nat)
    ensures p >= 1
  {
    if n == 0 then 1 else 2 * Pow2(n - 1)
  }

  lemma {:induction false} Pow2Sum(a: nat, b: nat)
    ensures Pow2(a + b) == Pow2(a) * Pow2(b)
  {
    if a > 0 {
      Pow2Sum(a - 1, b);
    }
  }

  lemma MulPow2(x: nat, n: nat)
    requires n > 0
    ensures x * Pow2(n) == 2 * (x * Pow2(n - 1))
  {
    assert Pow2(n) == 2 * Pow2(n - 1);
  }

  /** The low l bits of v, most significant first. */
  function BitsOf(v: nat, l: nat): (w: seq<bit>)
    ensures |w| == l
  {
    if l == 0 then [] else BitsOf(v / 2, l - 1) + [v % 2]
  }

  /** v shifted right by k. */
  function Shift(v: nat, k: nat): nat {
    if k == 0 then v else Shift(v / 2, k - 1)
  }

  lemma {:induction false} ShiftIsDivision(v: nat, k: nat)
    ensures Shift(v, k) == v / Pow2(k)
  {
    if k > 0 {
      ShiftIsDivision(v / 2, k - 1);
      DivTwice(v, Pow2(k - 1));
    }
  }

  lemma DivTwice(v: nat, p: nat)
    requires p >= 1
    ensures v / 2 / p == v / (2 * p)
  {
    var q := v / 2 / p;
    var r := (v / 2) % p;
    assert v / 2 == q * p + r;
    assert v == 2 * (v / 2) + v % 2;
    assert v == q * (2 * p) + (2 * r + v % 2);
    DivUnique(v, 2 * p, q, 2 * r + v % 2);
  }

  lemma MulLe(a: nat, b: nat, d: nat)
    requires a <= b
    ensures a * d <= b * d
  {
    assert (b - a) * d >= 0;
  }

  lemma MulLess(a: nat, b: nat, d: nat)
    ensures a < b ==> a * d + d <= b * d
  {
    if a < b {
      MulLe(a + 1, b, d);
    }
  }

  lemma DivUnique(v: nat, d: nat, q: nat, r: nat)
    requires d >= 1 && v == q * d + r && r < d
    ensures v / d == q
  {
    MulLess(v / d, q, d);
    MulLess(q, v / d, d);
  }

  /** Bit i of the code, as the source extracts it: (v >> (l - i - 1)) & 1. */
  lemma {:induction false} BitsOfAt(v: nat, l: nat, i: nat)
    requires i < l
    ensures BitsOf(v, l)[i] == (v / Pow2(l - i - 1)) % 2
  {
    if i < l - 1 {
      BitsOfAt(v / 2, l - 1, i);
      DivTwice(v, Pow2(l - i - 2));
    }
  }

  lemma {:induction false} BitsOfPrefix(v: nat, l: nat, j: nat)
    requires j <= l
    ensures BitsOf(v, l)[..j] == BitsOf(Shift(v, l - j), j)
  {
    if j < l {
      BitsOfPrefix(v / 2, l - 1, j);
      assert BitsOf(v, l)[..j] == BitsOf(v / 2, l - 1)[..j];
    }
  }

  lemma {:induction false} BitsOfInjective(v: nat, u: nat, l: nat)
    requires v < Pow2(l) && u < Pow2(l) && BitsOf(v, l) == BitsOf(u, l)
    ensures v == u
  {
    if l > 0 {
      assert BitsOf(v, l)[l - 1] == v % 2 && BitsOf(u, l)[l - 1] == u % 2;
      assert BitsOf(v, l)[..l - 1] == BitsOf(v / 2, l - 1);
      assert BitsOf(u, l)[..l - 1] == BitsOf(u / 2, l - 1);
      BitsOfInjective(v / 2, u / 2, l - 1);
    }
  }

  /** Only the low l bits of v matter. */
  lemma {:induction false} BitsOfLow(v: nat, z: nat, l: nat)
    ensures BitsOf(v + z * Pow2(l), l) == BitsOf(v, l)
  {
    if l > 0 {
      var p := Pow2(l - 1);
      MulPow2(z, l);
      assert (v + 2 * (z * p)) / 2 == v / 2 + z * p;
      BitsOfLow(v / 2, z, l - 1);
    }
  }

  /** Every bit string is the code of a number. */
  function ValueOf(w: seq<bit>): (v: nat)
    ensures v < Pow2(|w|)
    ensures BitsOf(v, |w|) == w
  {
    if |w| == 0 then 0
    else
      var l := |w| - 1;
      AppendBit(ValueOf(w[..l]), w[..l], w[l]);
      assert w == w[..l] + [w[l]];
      2 * ValueOf(w[..l]) + w[l]
  }

  lemma AppendBit(v: nat, w: seq<bit>, b: bit)
    requires v < Pow2(|w|) && BitsOf(v, |w|) == w
    ensures 2 * v + b < Pow2(|w| + 1) && BitsOf(2 * v + b, |w| + 1) == w + [b]
  {
    assert (2 * v + b) / 2 == v && (2 * v + b) % 2 == b;
  }

  lemma {:induction false} ShiftBounds(v: nat, c: nat, k: nat)
    ensures v >= c * Pow2(k) ==> Shift(v, k) >= c
    ensures v < c * Pow2(k) ==> Shift(v, k) < c
  {
    if k > 0 {
      var p := Pow2(k - 1);
      MulPow2(c, k);
      ShiftBounds(v / 2, c, k - 1);
    }
  }

  predicate IsPrefix(u: seq<bit>, w: seq<bit>) {
    |u| <= |w| && w[..|u|] == u
  }

  /** Bytes past the end of a buffer count as 0. */
  function ByteAt(data: seq<byte>, p: nat): byte {
    if p < |data| then data[p] else 0
  }

  function BytesAt(data: seq<byte>, p: nat, n: nat): (bytes: seq<byte>)
    ensures |bytes| == n
    ensures forall i | 0 <= i < n :: bytes[i] == ByteAt(data, p + i)
  {
    seq<byte>(n, i requires 0 <= i < n => ByteAt(data, p + i))
  }
}

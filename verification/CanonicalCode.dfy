/**
  Canonical Huffman codes, section 3.2.2 of RFC 1951. A code is given by a sequence of
  code lengths, one per symbol; length 0 means that the symbol does not occur.
 */
module CanonicalCode {
  import opened Bits

  /** Number of symbols whose code has length b. */
  function Count(len: seq<nat>, b: nat): nat {
    if |len| == 0 then 0 else Count(len[..|len| - 1], b) + if len[|len| - 1] == b then 1 else 0
  }

  /** Smallest code of length b: step 2 of section 3.2.2, where bl_count[0] is 0. */
  function FirstCode(len: seq<nat>, b: nat): nat {
    if b <= 1 then 0 else 2 * (FirstCode(len, b - 1) + Count(len, b - 1))
  }

  /** Code of symbol n: step 3 of section 3.2.2. */
  function Code(len: seq<nat>, n: nat): nat
    requires n < |len|
  {
    FirstCode(len, len[n]) + Count(len[..n], len[n])
  }

  /** The code words, the empty string for a symbol that does not occur. */
  function Words(len: seq<nat>): (ws: seq<seq<bit>>)
    ensures |ws| == |len|
    ensures forall n | 0 <= n < |len| :: |ws[n]| == len[n]
  {
    seq(|len|, n requires 0 <= n < |len| => BitsOf(Code(len, n), len[n]))
  }

  /** Kraft sum, scaled by 2^max: each symbol of length b weighs 2^(max - b). */
  function KraftSum(len: seq<nat>, max: nat): nat
    requires forall n | 0 <= n < |len| :: len[n] <= max
  {
    if |len| == 0 then 0
    else
      var l := len[|len| - 1];
      KraftSum(len[..|len| - 1], max) + if l == 0 then 0 else Pow2(max - l)
  }

  ghost predicate Bounded(len: seq<nat>, max: nat) {
    forall n | 0 <= n < |len| :: len[n] <= max
  }

  /** The lengths do not over-subscribe the code space. */
  ghost predicate Kraft(len: seq<nat>, max: nat) {
    Bounded(len, max) && KraftSum(len, max) <= Pow2(max)
  }

  /** The lengths use the code space up. */
  ghost predicate Complete(len: seq<nat>, max: nat) {
    Bounded(len, max) && KraftSum(len, max) == Pow2(max)
  }

  ghost predicate PrefixFree(ws: seq<seq<bit>>) {
    forall m, n | 0 <= m < |ws| && 0 <= n < |ws| && m != n && |ws[m]| > 0 && |ws[n]| > 0 ::
      !IsPrefix(ws[m], ws[n])
  }

  // ---- The Kraft sum counts the code space used level by level ----

  /** Nodes of depth b at or below a code word, in the order of the codes. */
  function Used(len: seq<nat>, b: nat): nat {
    if b == 0 then 0 else 2 * Used(len, b - 1) + Count(len, b)
  }

  lemma {:induction false} FirstCodeIsUsed(len: seq<nat>, b: nat)
    ensures b >= 1 ==> FirstCode(len, b) == 2 * Used(len, b - 1)
  {
    if b > 1 {
      FirstCodeIsUsed(len, b - 1);
    }
  }

  lemma {:induction false} UsedSnoc(len: seq<nat>, b: nat)
    requires |len| > 0
    ensures var l := len[|len| - 1];
            Used(len, b) == Used(len[..|len| - 1], b) + if 0 < l <= b then Pow2(b - l) else 0
  {
    if b > 0 {
      UsedSnoc(len, b - 1);
    }
  }

  lemma {:induction false} UsedEmpty(b: nat)
    ensures Used([], b) == 0
  {
    if b > 0 {
      UsedEmpty(b - 1);
    }
  }

  lemma {:induction false} KraftSumIsUsed(len: seq<nat>, max: nat)
    requires Bounded(len, max)
    ensures KraftSum(len, max) == Used(len, max)
  {
    if |len| == 0 {
      UsedEmpty(max);
    } else {
      KraftSumIsUsed(len[..|len| - 1], max);
      UsedSnoc(len, max);
    }
  }

  lemma {:induction false} UsedGrows(len: seq<nat>, b: nat, k: nat)
    ensures Used(len, b + k) >= Used(len, b) * Pow2(k)
  {
    if k > 0 {
      UsedGrows(len, b, k - 1);
      MulPow2(Used(len, b), k);
    }
  }

  lemma UsedFits(len: seq<nat>, max: nat, b: nat)
    requires Kraft(len, max) && b <= max
    ensures Used(len, b) <= Pow2(b)
  {
    KraftSumIsUsed(len, max);
    UsedGrows(len, b, max - b);
    Pow2Sum(b, max - b);
    MulLess(Pow2(b), Used(len, b), Pow2(max - b));
  }

  lemma {:induction false} CountPrefix(len: seq<nat>, i: nat, j: nat, b: nat)
    requires i <= j <= |len|
    ensures Count(len[..i], b) <= Count(len[..j], b)
    ensures i < j && len[i] == b ==> Count(len[..i], b) < Count(len[..j], b)
  {
    if i < j {
      CountPrefix(len, i, j - 1, b);
      assert len[..j][..j - 1] == len[..j - 1];
    }
  }

  /** A code lies between the first code of its length and the codes used up at that depth. */
  lemma CodeRange(len: seq<nat>, n: nat)
    requires n < |len| && len[n] > 0
    ensures FirstCode(len, len[n]) <= Code(len, n) < Used(len, len[n])
  {
    CountPrefix(len, n, |len|, len[n]);
    assert len[..|len|] == len;
    FirstCodeIsUsed(len, len[n]);
  }

  lemma CodeFits(len: seq<nat>, max: nat, n: nat)
    requires Kraft(len, max) && n < |len| && len[n] > 0
    ensures Code(len, n) < Pow2(len[n])
  {
    CodeRange(len, n);
    UsedFits(len, max, len[n]);
  }

  // ---- Canonical codes are prefix free ----

  lemma SameLengthApart(len: seq<nat>, m: nat, n: nat)
    requires m < n < |len| && len[m] == len[n]
    ensures Code(len, m) < Code(len, n)
  {
    CountPrefix(len, m, n, len[n]);
  }

  lemma ShorterFirst(len: seq<nat>, m: nat, n: nat)
    requires m < |len| && n < |len| && 0 < len[m] < len[n]
    ensures Code(len, n) >= (Code(len, m) + 1) * Pow2(len[n] - len[m])
  {
    var k := len[n] - len[m];
    CodeRange(len, m);
    CodeRange(len, n);
    FirstCodeIsUsed(len, len[n]);
    UsedGrows(len, len[m], k - 1);
    assert len[m] + (k - 1) == len[n] - 1;
    MulLe(Code(len, m) + 1, Used(len, len[m]), Pow2(k - 1));
    MulPow2(Code(len, m) + 1, k);
  }

  lemma CodesDiffer(len: seq<nat>, m: nat, n: nat)
    requires m < |len| && n < |len| && m != n && 0 < len[m] <= len[n]
    ensures Shift(Code(len, n), len[n] - len[m]) != Code(len, m)
  {
    if m < n && len[m] == len[n] {
      SameLengthApart(len, m, n);
    } else if n < m && len[m] == len[n] {
      SameLengthApart(len, n, m);
    } else {
      ShorterFirst(len, m, n);
      ShiftBounds(Code(len, n), Code(len, m) + 1, len[n] - len[m]);
    }
  }

  lemma CodesApart(len: seq<nat>, max: nat, m: nat, n: nat)
    requires Kraft(len, max) && m < |len| && n < |len| && m != n && 0 < len[m] <= len[n]
    ensures !IsPrefix(Words(len)[m], Words(len)[n])
  {
    var lm, ln := len[m], len[n];
    var c := Shift(Code(len, n), ln - lm);
    CodeFits(len, max, m);
    CodeFits(len, max, n);
    BitsOfPrefix(Code(len, n), ln, lm);
    Pow2Sum(lm, ln - lm);
    ShiftBounds(Code(len, n), Pow2(lm), ln - lm);
    CodesDiffer(len, m, n);
    if BitsOf(c, lm) == BitsOf(Code(len, m), lm) {
      BitsOfInjective(c, Code(len, m), lm);
    }
  }

  /** Canonical codes within the Kraft inequality are prefix free. */
  lemma CanonicalPrefixFree(len: seq<nat>, max: nat)
    requires Kraft(len, max)
    ensures PrefixFree(Words(len))
  {
    var ws := Words(len);
    forall m, n | 0 <= m < |ws| && 0 <= n < |ws| && m != n && |ws[m]| > 0 && |ws[n]| > 0
      ensures !IsPrefix(ws[m], ws[n])
    {
      if len[m] <= len[n] {
        CodesApart(len, max, m, n);
      }
    }
  }

  // ---- A complete code has one inner node less than it has code words ----

  /** Proper prefixes of the code words: the inner nodes of the code tree. */
  ghost function Inner(ws: seq<seq<bit>>): set<seq<bit>> {
    set n, j | 0 <= n < |ws| && 0 <= j < |ws[n]| :: ws[n][..j]
  }

  /** The code words in use: the leaves of the code tree. */
  ghost function Leaves(ws: seq<seq<bit>>): set<seq<bit>> {
    set n | 0 <= n < |ws| && |ws[n]| > 0 :: ws[n]
  }

  lemma {:induction false} SymbolWithRank(len: seq<nat>, b: nat, r: nat) returns (n: nat)
    requires r < Count(len, b)
    ensures n < |len| && len[n] == b && Count(len[..n], b) == r
  {
    var k := |len| - 1;
    if len[k] == b && Count(len[..k], b) == r {
      n := k;
    } else {
      n := SymbolWithRank(len[..k], b, r);
      assert len[..k][..n] == len[..n];
    }
  }

  /** In a complete code every node that is not below a leaf has a leaf at or below it. */
  lemma {:induction false} Covered(len: seq<nat>, max: nat, d: nat, v: nat) returns (n: nat)
    requires Complete(len, max) && d <= max && v < Pow2(d) && v >= 2 * (if d == 0 then 0 else Used(len, d - 1))
    requires d == 0 ==> max > 0
    ensures n < |len| && len[n] > 0 && IsPrefix(BitsOf(v, d), Words(len)[n])
    decreases max - d
  {
    KraftSumIsUsed(len, max);
    FirstCodeIsUsed(len, d);
    if d > 0 && v < Used(len, d) {
      n := SymbolWithRank(len, d, v - FirstCode(len, d));
      assert Code(len, n) == v;
    } else {
      assert d < max;
      n := Covered(len, max, d + 1, 2 * v);
      DoubleBits(v, d);
      PrefixChain(BitsOf(v, d), BitsOf(2 * v, d + 1), Words(len)[n]);
    }
  }

  lemma DoubleBits(v: nat, d: nat)
    ensures IsPrefix(BitsOf(v, d), BitsOf(2 * v, d + 1))
  {
    assert 2 * v / 2 == v;
  }

  lemma HalfBits(v: nat, d: nat)
    requires d > 0
    ensures IsPrefix(BitsOf(v / 2, d - 1), BitsOf(v, d))
  {
  }

  lemma PrefixChain(a: seq<bit>, b: seq<bit>, c: seq<bit>)
    requires IsPrefix(a, b) && IsPrefix(b, c)
    ensures IsPrefix(a, c)
  {
    assert c[..|a|] == c[..|b|][..|a|];
  }

  /** In any code, a node whose number is below the first code of its depth is below a leaf. */
  lemma {:induction false} BelowLeaf(len: seq<nat>, d: nat, v: nat) returns (n: nat)
    requires d > 0 && v < FirstCode(len, d)
    ensures n < |len| && 0 < len[n] < d && IsPrefix(Words(len)[n], BitsOf(v, d))
  {
    FirstCodeIsUsed(len, d);
    FirstCodeIsUsed(len, d - 1);
    HalfBits(v, d);
    if v / 2 < FirstCode(len, d - 1) {
      n := BelowLeaf(len, d - 1, v / 2);
    } else {
      n := SymbolWithRank(len, d - 1, v / 2 - FirstCode(len, d - 1));
      assert Code(len, n) == v / 2;
    }
    PrefixChain(Words(len)[n], BitsOf(v / 2, d - 1), BitsOf(v, d));
  }

  /** No leaf lies strictly above a child of an inner node. */
  lemma NoLeafAbove(ws: seq<seq<bit>>, m: nat, j: nat, b: bit, n: nat)
    requires PrefixFree(ws) && m < |ws| && n < |ws| && j < |ws[m]| && 0 < |ws[n]| <= j
    ensures !IsPrefix(ws[n], ws[m][..j] + [b])
  {
    assert (ws[m][..j] + [b])[..|ws[n]|] == ws[m][..|ws[n]|];
  }

  /** Both children of an inner node of a complete code are inner nodes or leaves. */
  lemma ChildrenPresent(len: seq<nat>, max: nat, w: seq<bit>, b: bit)
    requires Complete(len, max) && w in Inner(Words(len))
    ensures w + [b] in Inner(Words(len)) + Leaves(Words(len))
  {
    hide BitsOf, Code, FirstCode, KraftSum, PrefixFree, ValueOf;
    var ws := Words(len);
    var m, j :| 0 <= m < |ws| && 0 <= j < |ws[m]| && ws[m][..j] == w;
    var u := w + [b];
    var v := ValueOf(u);
    CanonicalPrefixFree(len, max);
    FirstCodeIsUsed(len, |u|);
    if v < FirstCode(len, |u|) {
      var n := BelowLeaf(len, |u|, v);
      NoLeafAbove(ws, m, j, b, n);
      assert false;
    } else {
      var n := Covered(len, max, |u|, v);
      InnerOrLeaf(ws, n, u);
    }
  }

  lemma InnerOrLeaf(ws: seq<seq<bit>>, n: nat, u: seq<bit>)
    requires n < |ws| && u != [] && IsPrefix(u, ws[n])
    ensures u in Inner(ws) + Leaves(ws)
  {
    assert ws[n][..|u|] == u;
    if |ws[n]| == |u| {
      assert ws[n] == u;
    }
  }

  lemma SnocInjective(x: seq<bit>, y: seq<bit>, b: bit)
    ensures x + [b] == y + [b] ==> x == y
  {
    assert (x + [b])[..|x + [b]| - 1] == x && (y + [b])[..|y + [b]| - 1] == y;
  }

  ghost function Children(s: set<seq<bit>>, b: bit): set<seq<bit>> {
    set w | w in s :: w + [b]
  }

  lemma {:induction false} ChildrenSize(s: set<seq<bit>>, b: bit)
    ensures |Children(s, b)| == |s|
  {
    if s == {} {
      assert Children(s, b) == {};
    } else {
      var x :| x in s;
      ChildrenSize(s - {x}, b);
      assert Children(s, b) == Children(s - {x}, b) + {x + [b]};
      forall y | y in s - {x}
        ensures y + [b] != x + [b]
      {
        SnocInjective(x, y, b);
      }
    }
  }

  lemma ChildrenApart(s: set<seq<bit>>)
    ensures Children(s, 0) !! Children(s, 1)
  {
    forall u | u in Children(s, 0)
      ensures u !in Children(s, 1)
    {
      assert u[|u| - 1] == 0;
    }
  }

  lemma ChildrenWithin(len: seq<nat>, max: nat, b: bit)
    requires Complete(len, max)
    ensures Children(Inner(Words(len)), b) <= Inner(Words(len)) + Leaves(Words(len)) - {[]}
  {
    forall u | u in Children(Inner(Words(len)), b)
      ensures u in Inner(Words(len)) + Leaves(Words(len)) - {[]}
    {
      var w :| w in Inner(Words(len)) && u == w + [b];
      ChildrenPresent(len, max, w, b);
    }
  }

  lemma {:induction false} LeavesSize(ws: seq<seq<bit>>)
    ensures |Leaves(ws)| <= |ws|
  {
    if |ws| == 0 {
      assert Leaves(ws) == {};
    } else {
      var k := |ws| - 1;
      LeavesSize(ws[..k]);
      assert Leaves(ws) <= Leaves(ws[..k]) + {ws[k]};
      SubsetSize(Leaves(ws), Leaves(ws[..k]) + {ws[k]});
    }
  }

  lemma {:induction false} SubsetSize<T>(a: set<T>, b: set<T>)
    requires a <= b
    ensures |a| <= |b|
  {
    if a != {} {
      var x :| x in a;
      SubsetSize(a - {x}, b - {x});
    }
  }

  lemma RootIsInner(len: seq<nat>, max: nat)
    requires Complete(len, max) && max > 0
    ensures [] in Inner(Words(len))
  {
    var n := Covered(len, max, 0, 0);
    assert Words(len)[n][..0] == [];
  }

  /** A complete code over |len| symbols has fewer than |len| inner nodes. */
  lemma CompleteInnerSize(len: seq<nat>, max: nat)
    requires Complete(len, max) && max > 0
    ensures |Inner(Words(len))| < |len|
  {
    var inner, leaves := Inner(Words(len)), Leaves(Words(len));
    var both := Children(inner, 0) + Children(inner, 1);
    ChildrenSize(inner, 0);
    ChildrenSize(inner, 1);
    ChildrenApart(inner);
    ChildrenWithin(len, max, 0);
    ChildrenWithin(len, max, 1);
    RootIsInner(len, max);
    assert [] in inner + leaves;
    SubsetSize(both, inner + leaves - {[]});
    LeavesSize(Words(len));
  }

}

/** Comparison of strings without regard to the case of letters, as in the C locale. */
module Strings {
  function LowerCase(c: char): char {
    if 'A' <= c <= 'Z' then c - 'A' + 'a' else c
  }

  function Fold(s: string): (f: string) {
    if s == "" then "" else [LowerCase(s[0])] + Fold(s[1..])
  }

  /** The strings are equal but for the case of letters. */
  predicate Same(a: string, b: string) {
    Fold(a) == Fold(b)
  }

  predicate StartOf(a: string, b: string) {
    |a| <= |b| && a == b[..|a|]
  }

  lemma FoldOne(s: string)
    requires |s| == 1
    ensures Fold(s) == [LowerCase(s[0])]
  {
    assert s[1..] == "";
  }

  lemma {:induction false} FoldLength(s: string)
    ensures |Fold(s)| == |s|
  {
    if s != "" {
      FoldLength(s[1..]);
    }
  }

  lemma {:induction false} FoldAt(s: string, i: nat)
    requires i < |s|
    ensures |Fold(s)| == |s| && Fold(s)[i] == LowerCase(s[i])
  {
    FoldLength(s);
    if i > 0 {
      FoldAt(s[1..], i - 1);
    }
  }

  lemma {:induction false} FoldLower(s: string)
    requires forall i | 0 <= i < |s| :: 'a' <= s[i] <= 'z'
    ensures Fold(s) == s
  {
    if s != "" {
      FoldLower(s[1..]);
    }
  }

  /** The same letter, as a capital or not, or the same other character. */
  predicate SameLetter(a: char, b: char) {
    || a == b
    || ('A' <= a <= 'Z' && b as int - a as int == 'a' as int - 'A' as int)
    || ('A' <= b <= 'Z' && a as int - b as int == 'a' as int - 'A' as int)
  }

  /** Strings are the same if and only if they are so character by character. */
  lemma {:induction false} SameIs(a: string, b: string)
    ensures Same(a, b) <==> |a| == |b| && forall i | 0 <= i < |a| :: SameLetter(a[i], b[i])
  {
    FoldLength(a);
    FoldLength(b);
    if a != "" && b != "" {
      SameIs(a[1..], b[1..]);
      assert SameLetter(a[0], b[0]) <==> LowerCase(a[0]) == LowerCase(b[0]);
      assert Fold(a)[1..] == Fold(a[1..]) && Fold(b)[1..] == Fold(b[1..]);
      if |a| == |b| && forall i | 0 <= i < |a[1..]| :: SameLetter(a[1..][i], b[1..][i]) {
        assert forall i | 1 <= i < |a| :: a[i] == a[1..][i - 1];
        assert forall i | 1 <= i < |b| :: b[i] == b[1..][i - 1];
      }
      if |a| == |b| && forall i | 0 <= i < |a| :: SameLetter(a[i], b[i]) {
        assert forall i | 0 <= i < |a[1..]| :: a[1..][i] == a[i + 1] && b[1..][i] == b[i + 1];
      }
    }
  }

  /** Position of the first c, the length if there is none. */
  function Find(s: string, c: char): (n: nat)
    ensures n <= |s| && (n < |s| ==> s[n] == c)
    ensures forall i | 0 <= i < n :: s[i] != c
  {
    if s == "" || s[0] == c then 0 else 1 + Find(s[1..], c)
  }

  lemma {:induction false} FindIs(s: string, c: char, n: nat)
    requires n < |s| && s[n] == c && c !in s[..n]
    ensures Find(s, c) == n
  {
    if n > 0 {
      assert s[0] == s[..n][0];
      assert s[..n][1..] == s[1..][..n - 1];
      FindIs(s[1..], c, n - 1);
    }
  }
}

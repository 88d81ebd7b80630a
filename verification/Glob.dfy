/**
  Wildcard patterns as the comment above matcheA in lsapi/match.cpp describes them: their
  syntax, the language each well-formed pattern stands for, and the language that the
  matcher really accepts, which differs for patterns that end in several stars.
 */
module Glob {
  import opened Options

  /** One construct of a pattern. A set holds pairs of characters, in either order. */
  datatype Item =
    | Literal(c: char)
    | AnyOne
    | AnyRun
    | Set(invert: bool, ranges: seq<(char, char)>)

  // ---- Syntax ----

  /** A C string: past its end stands the character 0. */
  function At(s: string, i: nat): char {
    if i < |s| then s[i] else '\0'
  }

  /** One end of a range at i, possibly quoted, and the index behind it. */
  function ParseChar(p: string, i: nat): (r: Option<(char, nat)>)
    ensures r.Some? ==> i < r.value.1 <= |p|
  {
    if i >= |p| then None
    else if p[i] != '\\' then Some((p[i], i + 1))
    else if i + 1 < |p| then Some((p[i + 1], i + 2))
    else None
  }

  /** One character or range of a set at i, and the index behind it. */
  function ParseRange(p: string, i: nat): (r: Option<((char, char), nat)>)
    ensures r.Some? ==> i < r.value.1 <= |p|
  {
    match ParseChar(p, i)
    case None => None
    case Some((lo, j)) =>
      if At(p, j) != '-' then Some(((lo, lo), j))
      else if At(p, j + 1) == ']' then None
      else
        match ParseChar(p, j + 1)
        case None => None
        case Some((hi, k)) => Some(((lo, hi), k))
  }

  /** The characters and ranges from i up to the closing bracket, and its index. */
  function ParseRanges(p: string, i: nat): (r: Option<(seq<(char, char)>, nat)>)
    ensures r.Some? ==> i <= r.value.1 < |p| && p[r.value.1] == ']'
    decreases |p| - i
  {
    if At(p, i) == ']' then (if i < |p| then Some(([], i)) else None)
    else
      match ParseRange(p, i)
      case None => None
      case Some((range, j)) =>
        match ParseRanges(p, j)
        case None => None
        case Some((ranges, k)) => Some(([range] + ranges, k))
  }

  /** Index of the first range of the set whose opening bracket is at i. */
  function RangesStart(p: string, i: nat): nat {
    if At(p, i + 1) == '!' || At(p, i + 1) == '^' then i + 2 else i + 1
  }

  function ParseSet(p: string, i: nat): (r: Option<(Item, nat)>)
    ensures r.Some? ==> i < r.value.1 <= |p| && r.value.0.Set?
  {
    var start := RangesStart(p, i);
    if At(p, start) == ']' then None
    else
      match ParseRanges(p, start)
      case None => None
      case Some((ranges, k)) => Some((Set(start == i + 2, ranges), k + 1))
  }

  /** The construct at i and the index behind it. */
  function ParseItem(p: string, i: nat): (r: Option<(Item, nat)>)
    requires i < |p|
    ensures r.Some? ==> i < r.value.1 <= |p|
  {
    if p[i] == '?' then Some((AnyOne, i + 1))
    else if p[i] == '*' then Some((AnyRun, i + 1))
    else if p[i] == '[' then ParseSet(p, i)
    else
      match ParseChar(p, i)
      case None => None
      case Some((c, j)) => Some((Literal(c), j))
  }

  /** The constructs of a pattern from i on; None where it is malformed. */
  function Parse(p: string, i: nat): Option<seq<Item>>
    decreases |p| - i
  {
    if i >= |p| then Some([])
    else
      match ParseItem(p, i)
      case None => None
      case Some((item, j)) =>
        match Parse(p, j)
        case None => None
        case Some(items) => Some([item] + items)
  }

  // ---- The language of a pattern ----

  predicate Covers(range: (char, char), c: char) {
    if range.0 < range.1 then range.0 <= c <= range.1 else range.1 <= c <= range.0
  }

  predicate Member(ranges: seq<(char, char)>, c: char) {
    exists i | 0 <= i < |ranges| :: Covers(ranges[i], c)
  }

  /** An item other than a star, against the one character it takes; fold removes the case. */
  predicate Takes(fold: char -> char, item: Item, c: char)
    requires !item.AnyRun?
  {
    match item
    case Literal(l) => fold(l) == fold(c)
    case AnyOne => true
    case Set(invert, ranges) => Member(ranges, c) != invert
  }

  /** The whole text is in the language of the items. */
  ghost predicate Matches(fold: char -> char, items: seq<Item>, t: string)
    decreases |items|
  {
    if |items| == 0 then |t| == 0
    else if items[0].AnyRun? then exists k | 0 <= k <= |t| :: Matches(fold, items[1..], t[k..])
    else |t| > 0 && Takes(fold, items[0], t[0]) && Matches(fold, items[1..], t[1..])
  }

  // ---- What the matcher accepts ----

  predicate StarsOnly(items: seq<Item>) {
    forall i | 0 <= i < |items| :: items[i].AnyRun?
  }

  /**
    The items that the matcher acts on. Where the last run of ? and * has several stars and
    nothing else behind its first star, the matcher wants one more character of text.
    inRun is true behind a star of the same run.
   */
  function Effective(items: seq<Item>, inRun: bool): (r: seq<Item>)
    ensures |items| == 0 <==> |r| == 0
  {
    if |items| == 0 then []
    else
      var rest := items[1..];
      match items[0]
      case AnyRun =>
        if !inRun && |rest| > 0 && StarsOnly(rest) then [AnyOne, AnyRun]
        else [AnyRun] + Effective(rest, true)
      case AnyOne => [AnyOne] + Effective(rest, inRun)
      case _ => [items[0]] + Effective(rest, false)
  }

  /** The pattern ends in a run of ? and * whose first star has only stars, at least one, behind it. */
  predicate DeadTail(items: seq<Item>, inRun: bool) {
    if |items| == 0 then false
    else
      match items[0]
      case AnyRun => (!inRun && |items| > 1 && StarsOnly(items[1..])) || DeadTail(items[1..], true)
      case AnyOne => DeadTail(items[1..], inRun)
      case _ => DeadTail(items[1..], false)
  }

  /** Some character is taken by every item that is no star. */
  ghost predicate Satisfiable(fold: char -> char, items: seq<Item>) {
    forall i | 0 <= i < |items| && !items[i].AnyRun? :: exists c :: Takes(fold, items[i], c)
  }

  /** Number of characters that the items take at least. */
  function MinLength(items: seq<Item>): nat {
    if |items| == 0 then 0 else MinLength(items[1..]) + if items[0].AnyRun? then 0 else 1
  }

  lemma {:induction false} MatchNeeds(fold: char -> char, items: seq<Item>, t: string)
    ensures Matches(fold, items, t) ==> |t| >= MinLength(items)
    decreases |items|
  {
    if Matches(fold, items, t) && |items| > 0 {
      if items[0].AnyRun? {
        var k :| 0 <= k <= |t| && Matches(fold, items[1..], t[k..]);
        MatchNeeds(fold, items[1..], t[k..]);
      } else {
        MatchNeeds(fold, items[1..], t[1..]);
      }
    }
  }

  /** A shortest text of satisfiable items has no character for the stars. */
  lemma {:induction false} ShortestText(fold: char -> char, items: seq<Item>) returns (t: string)
    requires Satisfiable(fold, items)
    ensures Matches(fold, items, t) && |t| == MinLength(items)
  {
    if |items| == 0 {
      t := [];
    } else {
      assert Satisfiable(fold, items[1..]) by {
        forall i | 0 <= i < |items[1..]| && !items[1..][i].AnyRun?
          ensures exists c :: Takes(fold, items[1..][i], c)
        {
          assert items[1..][i] == items[i + 1];
        }
      }
      var rest := ShortestText(fold, items[1..]);
      if items[0].AnyRun? {
        t := rest;
        assert t[0..] == rest;
      } else {
        var c :| Takes(fold, items[0], c);
        t := [c] + rest;
        assert t[1..] == rest;
      }
    }
  }

  lemma {:induction false} StarsMatchAll(fold: char -> char, items: seq<Item>, t: string)
    requires StarsOnly(items)
    ensures |items| > 0 || |t| == 0 ==> Matches(fold, items, t)
    ensures MinLength(items) == 0
    decreases |items|
  {
    if |items| > 0 {
      StarsMatchAll(fold, items[1..], t[|t|..]);
      if |items| > 1 {
        StarsMatchAll(fold, items[1..], t);
      }
    }
  }

  /** Without a dead tail the matcher acts on the pattern as it is. */
  lemma {:induction false} EffectiveIsExact(items: seq<Item>, inRun: bool)
    ensures !DeadTail(items, inRun) ==> Effective(items, inRun) == items
    ensures DeadTail(items, inRun) ==> MinLength(Effective(items, inRun)) == MinLength(items) + 1
  {
    if |items| > 0 {
      var rest := items[1..];
      assert items == [items[0]] + rest;
      match items[0]
      case AnyRun =>
        if !inRun && |rest| > 0 && StarsOnly(rest) {
          assert MinLength([AnyOne, AnyRun]) == 1 by {
            assert [AnyOne, AnyRun][1..] == [AnyRun] && [AnyRun][1..] == [];
          }
          StarsMatchAll(c => c, rest, []);
          StarsHaveNoTail(rest, true);
        } else {
          EffectiveIsExact(rest, true);
          assert ([AnyRun] + Effective(rest, true))[1..] == Effective(rest, true);
        }
      case AnyOne =>
        EffectiveIsExact(rest, inRun);
        assert ([AnyOne] + Effective(rest, inRun))[1..] == Effective(rest, inRun);
      case _ =>
        EffectiveIsExact(rest, false);
        assert ([items[0]] + Effective(rest, false))[1..] == Effective(rest, false);
    }
  }

  lemma {:induction false} StarsHaveNoTail(items: seq<Item>, inRun: bool)
    requires StarsOnly(items) && inRun
    ensures !DeadTail(items, inRun)
  {
    if |items| > 0 {
      StarsHaveNoTail(items[1..], true);
    }
  }

  /**
    The matcher's language is the promised one for every text exactly when the pattern has
    no dead tail, or holds an item that no character satisfies.
   */
  lemma PromiseKept(fold: char -> char, items: seq<Item>)
    ensures (forall t :: Matches(fold, Effective(items, false), t) <==> Matches(fold, items, t))
       <==> !DeadTail(items, false) || !Satisfiable(fold, items)
  {
    EffectiveIsExact(items, false);
    if DeadTail(items, false) && Satisfiable(fold, items) {
      var t := ShortestText(fold, items);
      MatchNeeds(fold, Effective(items, false), t);
      assert Matches(fold, items, t) && !Matches(fold, Effective(items, false), t);
    } else if !Satisfiable(fold, items) {
      forall t
        ensures !Matches(fold, items, t) && !Matches(fold, Effective(items, false), t)
      {
        Unsatisfiable(fold, items, t);
        EffectiveUnsatisfiable(fold, items, false);
        Unsatisfiable(fold, Effective(items, false), t);
      }
    }
  }

  /** An input for which the promise is not kept: ** does not match the empty text. */
  lemma DeadTailFails(fold: char -> char)
    ensures Parse("**", 0) == Some([AnyRun, AnyRun]) && DeadTail([AnyRun, AnyRun], false)
    ensures Matches(fold, [AnyRun, AnyRun], "") && !Matches(fold, Effective([AnyRun, AnyRun], false), "")
  {
    hide *;
    var items: seq<Item> := [AnyRun, AnyRun];
    TwoStars();
    StarsMatchAll(fold, items, "");
    EffectiveIsExact(items, false);
    MatchNeeds(fold, Effective(items, false), "");
  }

  lemma TwoStars()
    ensures Parse("**", 0) == Some([AnyRun, AnyRun])
    ensures StarsOnly([AnyRun, AnyRun]) && DeadTail([AnyRun, AnyRun], false)
  {
    hide MinLength, Matches, Effective, ParseSet, ParseChar;
    assert Parse("**", 2) == Some([]);
    assert ParseItem("**", 1) == Some((AnyRun, 2)) && ParseItem("**", 0) == Some((AnyRun, 1));
    assert [AnyRun] + [] == [AnyRun] && [AnyRun] + [AnyRun] == [AnyRun, AnyRun];
    assert Parse("**", 1) == Some([AnyRun]);
    assert [AnyRun, AnyRun][1..] == [AnyRun];
  }

  lemma {:induction false} Unsatisfiable(fold: char -> char, items: seq<Item>, t: string)
    ensures Matches(fold, items, t) ==> Satisfiable(fold, items)
    decreases |items|
  {
    if Matches(fold, items, t) && |items| > 0 {
      if items[0].AnyRun? {
        var k :| 0 <= k <= |t| && Matches(fold, items[1..], t[k..]);
        Unsatisfiable(fold, items[1..], t[k..]);
      } else {
        Unsatisfiable(fold, items[1..], t[1..]);
      }
      forall i | 0 <= i < |items| && !items[i].AnyRun?
        ensures exists c :: Takes(fold, items[i], c)
      {
        if i > 0 {
          assert items[1..][i - 1] == items[i];
        }
      }
    }
  }

  lemma {:induction false} EffectiveUnsatisfiable(fold: char -> char, items: seq<Item>, inRun: bool)
    ensures Satisfiable(fold, Effective(items, inRun)) ==> Satisfiable(fold, items)
  {
    if Satisfiable(fold, Effective(items, inRun)) && |items| > 0 {
      var rest := items[1..];
      var eff := Effective(items, inRun);
      if items[0].AnyRun? && !inRun && |rest| > 0 && StarsOnly(rest) {
        assert forall i | 0 <= i < |items| :: items[i].AnyRun? by {
          forall i | 0 < i < |items| ensures items[i].AnyRun? { assert rest[i - 1] == items[i]; }
        }
      } else {
        var flag := items[0].AnyRun? || (items[0].AnyOne? && inRun);
        assert eff == [items[0]] + Effective(rest, flag);
        forall i | 0 <= i < |Effective(rest, flag)| && !Effective(rest, flag)[i].AnyRun?
          ensures exists c :: Takes(fold, Effective(rest, flag)[i], c)
        {
          assert eff[i + 1] == Effective(rest, flag)[i];
        }
        EffectiveUnsatisfiable(fold, rest, flag);
        forall i | 0 <= i < |items| && !items[i].AnyRun?
          ensures exists c :: Takes(fold, items[i], c)
        {
          if i > 0 {
            assert rest[i - 1] == items[i];
          } else {
            assert eff[0] == items[0];
          }
        }
      }
    }
  }
}

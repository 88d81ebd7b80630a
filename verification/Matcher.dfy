/**
  The backtracking matcher of lsapi/match.cpp: matche and matche_after_star. Both walk
  the pattern with p and the text with t; here p and t are indices into C strings.
 */
module Matcher {
  import opened Options
  import opened Glob

  /** The return values of matche. */
  datatype Match = MatchPattern | MatchLiteral | MatchRange | MatchAbort | MatchEnd | MatchValid

  // ---- Facts about the language, used along the walk ----

  /** No suffix of the text from ti on is in the language. */
  ghost predicate NoSuffix(fold: char -> char, items: seq<Item>, t: string, ti: nat) {
    forall k | ti <= k <= |t| :: !Matches(fold, items, t[k..])
  }

  ghost predicate Agrees(r: Match, fold: char -> char, items: seq<Item>, t: string, ti: nat)
    requires ti <= |t|
  {
    && r != MatchPattern
    && (r == MatchValid <==> Matches(fold, items, t[ti..]))
    && (r == MatchAbort ==> NoSuffix(fold, items, t, ti))
  }

  /** What agrees with the rest of a pattern and text agrees with the whole. */
  ghost predicate CarriesOver(fold: char -> char, rest: seq<Item>, ti': nat, items: seq<Item>, ti: nat, t: string)
    requires ti <= |t| && ti' <= |t|
  {
    && (Matches(fold, rest, t[ti'..]) <==> Matches(fold, items, t[ti..]))
    && (NoSuffix(fold, rest, t, ti') ==> NoSuffix(fold, items, t, ti))
  }

  lemma OneStep(fold: char -> char, item: Item, rest: seq<Item>, t: string, ti: nat)
    requires !item.AnyRun? && ti < |t|
    ensures Matches(fold, [item] + rest, t[ti..])
       <==> Takes(fold, item, t[ti]) && Matches(fold, rest, t[ti + 1..])
    ensures NoSuffix(fold, rest, t, ti + 1) ==> NoSuffix(fold, [item] + rest, t, ti)
  {
    assert ([item] + rest)[1..] == rest;
    assert t[ti..][1..] == t[ti + 1..];
    forall k | ti <= k <= |t| && Matches(fold, [item] + rest, t[k..])
      ensures Matches(fold, rest, t[k + 1..])
    {
      assert t[k..][1..] == t[k + 1..];
    }
  }

  /** At the end of the text only the empty pattern and a lone star match. */
  lemma AtEnd(fold: char -> char, items: seq<Item>)
    requires |items| > 0
    ensures Matches(fold, Effective(items, false), []) <==> items == [AnyRun]
  {
    var eff := Effective(items, false);
    if items == [AnyRun] {
      assert eff == [AnyRun] + [];
      StarsMatchAll(fold, eff, []);
    } else if items[0].AnyRun? {
      NotAllStars(items[1..]);
      assert MinLength(eff) > 0 by {
        if !StarsOnly(items[1..]) {
          assert eff[1..] == Effective(items[1..], true);
        } else {
          assert eff == [AnyOne, AnyRun] && eff[1..] == [AnyRun];
        }
      }
      MatchNeeds(fold, eff, []);
    }
  }

  lemma {:induction false} NotAllStars(items: seq<Item>)
    ensures !StarsOnly(items) ==> MinLength(Effective(items, true)) > 0
  {
    if |items| > 0 {
      var rest := items[1..];
      if items[0].AnyRun? {
        NotAllStars(rest);
        assert Effective(items, true)[1..] == Effective(rest, true);
        if StarsOnly(rest) {
          forall i | 0 <= i < |items| ensures items[i].AnyRun? {
            if i > 0 { assert rest[i - 1] == items[i]; }
          }
        }
      }
    }
  }

  /** Behind a star, another star changes nothing. */
  lemma StarStar(fold: char -> char, rest: seq<Item>, t: string)
    ensures Matches(fold, [AnyRun, AnyRun] + rest, t) <==> Matches(fold, [AnyRun] + rest, t)
  {
    var one, two := [AnyRun] + rest, [AnyRun, AnyRun] + rest;
    assert two[1..] == one && one[1..] == rest;
    if Matches(fold, two, t) {
      var k :| 0 <= k <= |t| && Matches(fold, one, t[k..]);
      var j :| 0 <= j <= |t[k..]| && Matches(fold, rest, t[k..][j..]);
      assert t[k..][j..] == t[k + j..];
    }
    if Matches(fold, one, t) {
      assert t[0..] == t;
    }
  }

  /** Behind a star, ? takes the first character as well as any other. */
  lemma StarAny(fold: char -> char, rest: seq<Item>, t: string)
    ensures Matches(fold, [AnyRun, AnyOne] + rest, t) <==> |t| > 0 && Matches(fold, [AnyRun] + rest, t[1..])
  {
    var one, two := [AnyRun] + rest, [AnyRun, AnyOne] + rest;
    assert one[1..] == rest && two[1..] == [AnyOne] + rest && ([AnyOne] + rest)[1..] == rest;
    if Matches(fold, two, t) {
      var k :| 0 <= k <= |t| && Matches(fold, [AnyOne] + rest, t[k..]);
      assert t[k..][1..] == t[1..][k..];
    }
    if |t| > 0 && Matches(fold, one, t[1..]) {
      var k :| 0 <= k <= |t[1..]| && Matches(fold, rest, t[1..][k..]);
      assert t[k..][1..] == t[1..][k..];
    }
  }

  lemma StarSuffix(fold: char -> char, rest: seq<Item>, t: string, ti: nat)
    requires ti <= |t|
    ensures Matches(fold, [AnyRun] + rest, t[ti..]) <==> !NoSuffix(fold, rest, t, ti)
    ensures NoSuffix(fold, rest, t, ti) ==> NoSuffix(fold, [AnyRun] + rest, t, ti)
  {
    assert ([AnyRun] + rest)[1..] == rest;
    forall k, j | ti <= k <= |t| && 0 <= j <= |t| - k
      ensures t[k..][j..] == t[k + j..]
    {
    }
    if k :| ti <= k <= |t| && Matches(fold, rest, t[k..]) {
      assert t[ti..][k - ti..] == t[k..];
    }
  }

  /** On a text that is not empty, a star outside a run means what it means inside. */
  lemma FirstStar(fold: char -> char, rest: seq<Item>, t: string, ti: nat)
    requires ti < |t|
    ensures Matches(fold, Effective([AnyRun] + rest, false), t[ti..])
       <==> Matches(fold, [AnyRun] + Effective(rest, true), t[ti..])
    ensures NoSuffix(fold, [AnyRun] + Effective(rest, true), t, ti) ==>
            NoSuffix(fold, Effective([AnyRun] + rest, false), t, ti)
  {
    assert ([AnyRun] + rest)[1..] == rest;
    if |rest| > 0 && StarsOnly(rest) {
      EffectiveStars(rest);
      assert [AnyRun] + Effective(rest, true) == [AnyRun] + rest;
      StarsMatchAll(fold, [AnyRun] + rest, t[ti..]);
      assert [AnyOne, AnyRun][1..] == [AnyRun] && t[ti..][1..] == t[ti + 1..];
      StarsMatchAll(fold, [AnyRun], t[ti + 1..]);
    }
  }

  lemma {:induction false} EffectiveStars(items: seq<Item>)
    requires StarsOnly(items)
    ensures Effective(items, true) == items
  {
    if |items| > 0 {
      EffectiveStars(items[1..]);
      assert items == [AnyRun] + items[1..];
    }
  }

  // ---- Sets ----

  /** Where the loop that skips the rest of a set stops: at the next bracket that is not quoted. */
  function Closing(p: string, q: nat): Option<nat>
    decreases |p| - q
  {
    if q >= |p| then None
    else if p[q] == ']' then Some(q)
    else if p[q] != '\\' then Closing(p, q + 1)
    else if q + 1 < |p| then Closing(p, q + 2)
    else None
  }

  lemma CharClosing(p: string, q: nat)
    requires ParseChar(p, q).Some? && At(p, q) != ']'
    ensures Closing(p, q) == Closing(p, ParseChar(p, q).value.1)
  {
  }

  lemma RangeClosing(p: string, q: nat)
    requires ParseRange(p, q).Some? && At(p, q) != ']'
    ensures Closing(p, q) == Closing(p, ParseRange(p, q).value.1)
  {
    CharClosing(p, q);
    var j := ParseChar(p, q).value.1;
    if At(p, j) == '-' {
      assert Closing(p, j) == Closing(p, j + 1);
      CharClosing(p, j + 1);
    }
  }

  lemma {:induction false} RangesClosing(p: string, q: nat)
    requires ParseRanges(p, q).Some?
    ensures Closing(p, q) == Some(ParseRanges(p, q).value.1)
    decreases |p| - q
  {
    if At(p, q) != ']' {
      RangeClosing(p, q);
      RangesClosing(p, ParseRange(p, q).value.1);
    }
  }

  /** Reads one character or range of a set; ok is false where the pattern is bad there. */
  method ReadRange(p: string, q: nat) returns (ok: bool, range_start: char, range_end: char, q': nat)
    requires '\0' !in p
    ensures match ParseRange(p, q)
            case None => !ok
            case Some((range, j)) => ok && range == (range_start, range_end) && q' == j
  {
    q' := q;
    if At(p, q') == '\\' {
      q' := q' + 1;
    }
    range_start, range_end := At(p, q'), At(p, q');
    if At(p, q') == '\0' {
      return false, range_start, range_end, q';
    }
    q' := q' + 1;
    if At(p, q') == '-' {
      q' := q' + 1;
      range_end := At(p, q');
      if range_end == '\0' || range_end == ']' {
        return false, range_start, range_end, q';
      }
      if range_end == '\\' {
        q' := q' + 1;
        range_end := At(p, q');
        if range_end == '\0' {
          return false, range_start, range_end, q';
        }
      }
      q' := q' + 1;
    }
    ok := true;
  }

  /**
    The [..] construct at i against the text character c. On a match q is the index of the
    closing bracket.
   */
  method MatchSet(fold: char -> char, p: string, i: nat, c: char) returns (r: Match, q: nat)
    requires '\0' !in p && i < |p| && p[i] == '['
    ensures r == MatchPattern || r == MatchRange || r == MatchValid
    ensures r == MatchValid ==> i < q < |p|
    ensures match ParseSet(p, i)
            case None => true
            case Some((item, k)) => r != MatchPattern && (r == MatchValid <==> Takes(fold, item, c)) && (r == MatchValid ==> q + 1 == k)
  {
    var invert := false;
    q := i + 1;
    if At(p, q) == '!' || At(p, q) == '^' {
      invert := true;
      q := q + 1;
    }
    if At(p, q) == ']' {
      return MatchPattern, q;
    }
    ghost var start := q;
    var ok, member_match;
    ok, member_match, q := ScanRanges(p, q, c);
    if !ok {
      return MatchPattern, q;
    }
    if (invert && member_match) || !(invert || member_match) {
      return MatchRange, q;
    }
    if member_match {
      ok, q := SkipRanges(p, q);
      if !ok {
        return MatchPattern, q;
      }
    }
    r := MatchValid;
  }

  /** Looks for the character among the ranges from start on, until one covers it or they end. */
  method ScanRanges(p: string, start: nat, c: char) returns (ok: bool, member_match: bool, q: nat)
    requires '\0' !in p
    ensures start <= q && (ok && !member_match ==> At(p, q) == ']' && q < |p|)
    ensures match ParseRanges(p, start)
            case None => true
            case Some((ranges, k)) => ok && (member_match <==> Member(ranges, c)) && Closing(p, q) == Some(k)
  {
    hide ParseRange, Covers;
    ghost var all := ParseRanges(p, start);
    q, member_match := start, false;
    var loop := true;
    ghost var seen: seq<(char, char)> := [];
    assert all.Some? ==> seen + all.value.0 == all.value.0;
    while loop
      invariant q >= start && (loop ==> !member_match)
      invariant !loop && !member_match ==> At(p, q) == ']' && q < |p|
      invariant member_match <==> Member(seen, c)
      invariant all.Some? ==> ParseRanges(p, q).Some?
      invariant all.Some? ==> all.value == (seen + ParseRanges(p, q).value.0, ParseRanges(p, q).value.1)
      decreases |p| - q, loop
    {
      if At(p, q) == ']' {
        loop := false;
        continue;
      }
      var range_start, range_end, q';
      ok, range_start, range_end, q' := ReadRange(p, q);
      if !ok {
        return;
      }
      member_match := InRange(range_start, range_end, c);
      loop := !member_match;
      ghost var range := (range_start, range_end);
      MemberSnoc(seen, range, c);
      assert all.Some? ==> seen + ParseRanges(p, q).value.0 == seen + [range] + ParseRanges(p, q').value.0;
      seen, q := seen + [range], q';
    }
    ok := true;
    if all.Some? {
      RangesClosing(p, q);
      MemberOfMore(seen, ParseRanges(p, q).value.0, c);
    }
  }

  /** The comparison of the source, which allows for ranges in either order. */
  method InRange(range_start: char, range_end: char, c: char) returns (b: bool)
    ensures b <==> Covers((range_start, range_end), c)
  {
    b := false;
    if range_start < range_end {
      if c >= range_start && c <= range_end {
        b := true;
      }
    } else {
      if c >= range_end && c <= range_start {
        b := true;
      }
    }
  }

  /** Skips the rest of a set that has matched. */
  method SkipRanges(p: string, start: nat) returns (ok: bool, q: nat)
    requires '\0' !in p
    ensures ok <==> Closing(p, start).Some?
    ensures ok ==> Closing(p, start) == Some(q) && start <= q < |p|
  {
    q := start;
    while At(p, q) != ']'
      invariant start <= q && Closing(p, q) == Closing(p, start)
      decreases |p| - q
    {
      if At(p, q) == '\0' {
        return false, q;
      }
      q := q + 1;
      if p[q - 1] == '\\' {
        if At(p, q) == '\0' {
          return false, q;
        }
        q := q + 1;
      }
    }
    ok := true;
  }

  lemma MemberSnoc(ranges: seq<(char, char)>, range: (char, char), c: char)
    ensures Member(ranges + [range], c) <==> Member(ranges, c) || Covers(range, c)
  {
    var more := ranges + [range];
    if Covers(range, c) {
      assert Covers(more[|ranges|], c);
    }
    if i :| 0 <= i < |ranges| && Covers(ranges[i], c) {
      assert Covers(more[i], c);
    }
  }

  lemma MemberOfMore(seen: seq<(char, char)>, rest: seq<(char, char)>, c: char)
    ensures Member(seen, c) ==> Member(seen + rest, c)
    ensures |rest| == 0 ==> seen + rest == seen
  {
    if i :| 0 <= i < |seen| && Covers(seen[i], c) {
      assert Covers((seen + rest)[i], c);
    }
  }

  // ---- matche ----

  /** What one construct that is no star does to the text character at ti. */
  method MatchItem(fold: char -> char, p: string, pi: nat, c: char) returns (r: Match, pi': nat)
    requires '\0' !in p && pi < |p| && p[pi] != '*'
    ensures r != MatchAbort && r != MatchEnd
    ensures r == MatchValid ==> pi <= pi' < |p|
    ensures match ParseItem(p, pi)
            case None => true
            case Some((item, k)) =>
              && !item.AnyRun? && r != MatchPattern
              && (r == MatchValid <==> Takes(fold, item, c)) && (r == MatchValid ==> pi' + 1 == k)
  {
    pi' := pi;
    match p[pi] {
      case '?' => r := MatchValid;
      case '[' => r, pi' := MatchSet(fold, p, pi, c);
      case '\\' =>
        pi' := pi' + 1;
        if At(p, pi') == '\0' {
          return MatchPattern, pi';
        }
        r := if fold(At(p, pi')) != fold(c) then MatchLiteral else MatchValid;
      case _ =>
        r := if fold(At(p, pi')) != fold(c) then MatchLiteral else MatchValid;
    }
  }

  /** The items that the matcher acts on from pi on. */
  ghost function ItemsFrom(p: string, pi: nat): seq<Item>
    requires Parse(p, pi).Some?
  {
    Effective(Parse(p, pi).value, false)
  }

  lemma ParseEnd(p: string, pi: nat)
    requires pi >= |p|
    ensures Parse(p, pi) == Some([]) && Effective([], false) == []
  {
  }

  /** At the end of the text. */
  lemma AgreesAtEnd(r: Match, fold: char -> char, p: string, pi: nat, t: string)
    requires pi < |p| && Parse(p, pi).Some?
    requires r == if p[pi] == '*' && pi + 1 == |p| then MatchValid else MatchAbort
    ensures Agrees(r, fold, ItemsFrom(p, pi), t, |t|)
  {
    var item, k := ParseItem(p, pi).value.0, ParseItem(p, pi).value.1;
    var rest := Parse(p, k).value;
    var items := [item] + rest;
    assert Parse(p, pi).value == items && t[|t|..] == [];
    AtEnd(fold, items);
    if k < |p| {
      assert |rest| > 0;
      assert items != [AnyRun] by {
        assert |items| > 1;
      }
    }
    forall n | |t| <= n <= |t|
      ensures t[n..] == []
    {
    }
  }

  /** Behind an item that takes its character, the rest of the pattern and text decide. */
  lemma ItemCarriesOver(fold: char -> char, p: string, pi: nat, k: nat, t: string, ti: nat)
    requires pi < |p| && p[pi] != '*' && Parse(p, pi).Some? && ti < |t|
    requires ParseItem(p, pi).Some? && k == ParseItem(p, pi).value.1 && !ParseItem(p, pi).value.0.AnyRun?
    ensures Parse(p, k).Some?
    ensures Takes(fold, ParseItem(p, pi).value.0, t[ti]) ==> CarriesOver(fold, ItemsFrom(p, k), ti + 1, ItemsFrom(p, pi), ti, t)
    ensures !Takes(fold, ParseItem(p, pi).value.0, t[ti]) ==> !Matches(fold, ItemsFrom(p, pi), t[ti..])
  {
    var item, rest := ParseItem(p, pi).value.0, Parse(p, k).value;
    assert Parse(p, pi).value == [item] + rest && ([item] + rest)[1..] == rest;
    assert ItemsFrom(p, pi) == [item] + Effective(rest, false);
    OneStep(fold, item, Effective(rest, false), t, ti);
  }

  /**
    Matches the pattern from pi on with the text from ti on. For a well-formed pattern the
    result is MatchValid exactly on the language of the effective items, and MatchAbort
    only where no later start in the text can match either.
   */
  method Matche(fold: char -> char, p: string, pi: nat, t: string, ti: nat) returns (r: Match)
    requires '\0' !in p && '\0' !in t && pi <= |p| && ti <= |t|
    ensures Parse(p, pi).Some? ==> Agrees(r, fold, ItemsFrom(p, pi), t, ti)
    decreases |p| - pi, 1
  {
    hide ParseItem, Parse, Takes, ItemsFrom;
    var pi', ti' := pi, ti;
    ghost var good := Parse(p, pi).Some?;
    while At(p, pi') != '\0'
      invariant pi <= pi' <= |p| && ti <= ti' <= |t|
      invariant good ==> Parse(p, pi').Some? && CarriesOver(fold, ItemsFrom(p, pi'), ti', ItemsFrom(p, pi), ti, t)
      decreases |p| - pi'
    {
      if At(t, ti') == '\0' {
        r := if p[pi'] == '*' && At(p, pi' + 1) == '\0' then MatchValid else MatchAbort;
        if good {
          AgreesAtEnd(r, fold, p, pi', t);
        }
        return;
      }
      if p[pi'] == '*' {
        r := MatcheAfterStar(fold, p, pi', t, ti');
        return;
      }
      ghost var from := pi';
      r, pi' := MatchItem(fold, p, pi', t[ti']);
      if good {
        ItemParsed(p, from);
        ItemCarriesOver(fold, p, from, ParseItem(p, from).value.1, t, ti');
      }
      if r != MatchValid {
        return;
      }
      pi', ti' := pi' + 1, ti' + 1;
    }
    if good {
      ParseEnd(p, pi');
      assert ItemsFrom(p, pi') == [] by {
        NoItems(p, pi');
      }
    }
    r := if At(t, ti') != '\0' then MatchEnd else MatchValid;
  }

  lemma ItemParsed(p: string, pi: nat)
    requires pi < |p| && p[pi] != '*' && Parse(p, pi).Some?
    ensures ParseItem(p, pi).Some? && !ParseItem(p, pi).value.0.AnyRun?
  {
  }

  lemma NoItems(p: string, pi: nat)
    requires pi >= |p|
    ensures Parse(p, pi).Some? && ItemsFrom(p, pi) == []
  {
  }

  // ---- matche_after_star ----

  /** Behind the first star of a run, for items that begin somewhere in the run or behind it. */
  ghost function StarFrom(p: string, pi: nat): seq<Item>
    requires Parse(p, pi).Some?
  {
    [AnyRun] + Effective(Parse(p, pi).value, true)
  }

  /** Passing over one more ? or * of the run. */
  lemma RunCarriesOver(fold: char -> char, p: string, pi: nat, t: string, ti: nat)
    requires pi < |p| && Parse(p, pi).Some? && ti <= |t|
    ensures p[pi] == '*' ==> Parse(p, pi + 1).Some? && CarriesOver(fold, StarFrom(p, pi + 1), ti, StarFrom(p, pi), ti, t)
    ensures p[pi] == '?' ==> Parse(p, pi + 1).Some?
    ensures p[pi] == '?' && ti < |t| ==> CarriesOver(fold, StarFrom(p, pi + 1), ti + 1, StarFrom(p, pi), ti, t)
    ensures p[pi] == '?' && ti == |t| ==> Agrees(MatchAbort, fold, StarFrom(p, pi), t, ti)
  {
    if p[pi] == '*' {
      var rest := Parse(p, pi + 1).value;
      assert Parse(p, pi).value == [AnyRun] + rest && ([AnyRun] + rest)[1..] == rest;
      forall k | ti <= k <= |t|
        ensures Matches(fold, StarFrom(p, pi), t[k..]) <==> Matches(fold, StarFrom(p, pi + 1), t[k..])
      {
        StarFromStar(fold, p, pi, t[k..]);
      }
    } else if p[pi] == '?' {
      var rest := Parse(p, pi + 1).value;
      assert Parse(p, pi).value == [AnyOne] + rest && ([AnyOne] + rest)[1..] == rest;
      assert StarFrom(p, pi) == [AnyRun, AnyOne] + Effective(rest, true);
      forall k | ti <= k <= |t|
        ensures Matches(fold, StarFrom(p, pi), t[k..]) <==> k < |t| && Matches(fold, StarFrom(p, pi + 1), t[k + 1..])
      {
        StarAny(fold, Effective(rest, true), t[k..]);
        if k < |t| {
          assert t[k..][1..] == t[k + 1..];
        }
      }
    }
  }

  /** Behind the run stands a literal or a set, so that the run is over. */
  lemma BehindRun(fold: char -> char, p: string, pi: nat, t: string, ti: nat)
    requires pi < |p| && p[pi] != '?' && p[pi] != '*' && Parse(p, pi).Some? && ti <= |t|
    ensures StarFrom(p, pi) == [AnyRun] + ItemsFrom(p, pi)
    ensures Matches(fold, StarFrom(p, pi), t[ti..]) <==> !NoSuffix(fold, ItemsFrom(p, pi), t, ti)
    ensures NoSuffix(fold, ItemsFrom(p, pi), t, ti) ==> NoSuffix(fold, StarFrom(p, pi), t, ti)
    ensures !Matches(fold, ItemsFrom(p, pi), t[|t|..])
    ensures p[pi] != '[' ==> forall k | 0 <= k < |t| && Matches(fold, ItemsFrom(p, pi), t[k..]) ::
      fold(if p[pi] == '\\' then At(p, pi + 1) else p[pi]) == fold(t[k])
  {
    var items := Parse(p, pi).value;
    assert items[0].Literal? || items[0].Set?;
    assert Effective(items, true) == Effective(items, false);
    StarSuffix(fold, Effective(items, false), t, ti);
  }

  method MatcheAfterStar(fold: char -> char, p: string, pi: nat, t: string, ti: nat) returns (r: Match)
    requires '\0' !in p && '\0' !in t && pi < |p| && p[pi] == '*' && ti < |t|
    ensures Parse(p, pi).Some? ==> Agrees(r, fold, ItemsFrom(p, pi), t, ti)
    decreases |p| - pi, 0
  {
    hide ParseItem, Parse, Takes, ItemsFrom, StarFrom, Effective, Matches;
    ghost var good := Parse(p, pi).Some?;
    var pi', ti' := pi, ti;
    if good {
      StarCarriesOver(fold, p, pi, t, ti);
    }
    while At(p, pi') == '?' || At(p, pi') == '*'
      invariant pi <= pi' <= |p| && ti <= ti' <= |t| && (pi' == pi ==> p[pi'] == '*')
      invariant good ==> Parse(p, pi').Some? && CarriesOver(fold, StarFrom(p, pi'), ti', ItemsFrom(p, pi), ti, t)
      decreases |p| - pi'
    {
      if good {
        RunCarriesOver(fold, p, pi', t, ti');
      }
      pi' := pi' + 1;
      if p[pi' - 1] == '?' {
        if At(t, ti') == '\0' {
          return MatchAbort;
        }
        ti' := ti' + 1;
      }
    }
    if At(p, pi') == '\0' {
      if good {
        RunAtEnd(fold, p, pi', t, ti');
      }
      return MatchValid;
    }
    var nextp := p[pi'];
    if nextp == '\\' {
      nextp := At(p, pi' + 1);
      if nextp == '\0' {
        if good {
          NoQuoteAtEnd(p, pi');
        }
        return MatchPattern;
      }
    }
    r := TryEveryStart(fold, p, pi', nextp, t, ti');
    if good {
      BehindRun(fold, p, pi', t, ti');
    }
  }

  /** The loop over the text behind the run, skipping starts whose first character does not fit. */
  method TryEveryStart(fold: char -> char, p: string, pi: nat, nextp: char, t: string, ti: nat) returns (r: Match)
    requires '\0' !in p && '\0' !in t && pi < |p| && p[pi] != '?' && p[pi] != '*' && ti <= |t|
    requires nextp == if p[pi] == '\\' then At(p, pi + 1) else p[pi]
    ensures r == MatchValid || r == MatchAbort || r == MatchPattern
    ensures Parse(p, pi).Some? ==> r != MatchPattern
    ensures Parse(p, pi).Some? ==> (r == MatchValid <==> !NoSuffix(fold, ItemsFrom(p, pi), t, ti))
    decreases |p| - pi, 2
  {
    hide Parse, ItemsFrom, Effective, Matches;
    ghost var good := Parse(p, pi).Some?;
    if good {
      BehindRun(fold, p, pi, t, ti);
    }
    var ti' := ti;
    r := MatchLiteral;
    while true
      invariant ti <= ti' <= |t|
      invariant r != MatchValid && r != MatchAbort && r != MatchPattern
      invariant good ==> forall k | ti <= k < ti' :: !Matches(fold, ItemsFrom(p, pi), t[k..])
      decreases |t| - ti'
    {
      if fold(nextp) == fold(At(t, ti')) || p[pi] == '[' {
        r := Matche(fold, p, pi, t, ti');
      }
      assert good && r != MatchAbort ==> (r == MatchValid <==> Matches(fold, ItemsFrom(p, pi), t[ti'..]));
      if At(t, ti') == '\0' {
        r := MatchAbort;
      }
      if r == MatchValid || r == MatchAbort || r == MatchPattern {
        return;
      }
      ti' := ti' + 1;
    }
  }

  lemma StarFromStar(fold: char -> char, p: string, pi: nat, t: string)
    requires pi < |p| && p[pi] == '*' && Parse(p, pi).Some?
    ensures Matches(fold, StarFrom(p, pi), t) <==> Matches(fold, StarFrom(p, pi + 1), t)
  {
    var rest := Parse(p, pi + 1).value;
    assert Parse(p, pi).value == [AnyRun] + rest && ([AnyRun] + rest)[1..] == rest;
    assert StarFrom(p, pi) == [AnyRun, AnyRun] + Effective(rest, true);
    StarStar(fold, Effective(rest, true), t);
  }

  lemma StarCarriesOver(fold: char -> char, p: string, pi: nat, t: string, ti: nat)
    requires pi < |p| && p[pi] == '*' && Parse(p, pi).Some? && ti < |t|
    ensures CarriesOver(fold, StarFrom(p, pi), ti, ItemsFrom(p, pi), ti, t)
  {
    RunCarriesOver(fold, p, pi, t, ti);
    var rest := Parse(p, pi + 1).value;
    assert Parse(p, pi).value == [AnyRun] + rest;
    assert StarFrom(p, pi + 1) == [AnyRun] + Effective(rest, true);
    forall k | ti <= k <= |t|
      ensures Matches(fold, StarFrom(p, pi), t[k..]) <==> Matches(fold, StarFrom(p, pi + 1), t[k..])
    {
      StarFromStar(fold, p, pi, t[k..]);
    }
    FirstStar(fold, rest, t, ti);
  }

  lemma RunAtEnd(fold: char -> char, p: string, pi: nat, t: string, ti: nat)
    requires pi >= |p| && ti <= |t|
    ensures Parse(p, pi).Some? && Matches(fold, StarFrom(p, pi), t[ti..])
  {
    assert StarFrom(p, pi) == [AnyRun];
    StarsMatchAll(fold, [AnyRun], t[ti..]);
  }

  lemma NoQuoteAtEnd(p: string, pi: nat)
    requires pi < |p| && p[pi] == '\\' && '\0' !in p && At(p, pi + 1) == '\0'
    ensures Parse(p, pi) == None
  {
  }

  /** match: whether the whole text matches the whole pattern. */
  method IsMatch(fold: char -> char, p: string, t: string) returns (b: bool)
    requires '\0' !in p && '\0' !in t
    ensures Parse(p, 0).Some? ==> (b <==> Matches(fold, Effective(Parse(p, 0).value, false), t))
    ensures Parse(p, 0).Some? && !DeadTail(Parse(p, 0).value, false) ==> (b <==> Matches(fold, Parse(p, 0).value, t))
  {
    var r := Matche(fold, p, 0, t, 0);
    b := r == MatchValid;
    assert t[0..] == t;
    if Parse(p, 0).Some? {
      EffectiveIsExact(Parse(p, 0).value, false);
    }
  }
}

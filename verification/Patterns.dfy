/**
  How wildcard patterns are written (the comment above matcheA in lsapi/match.cpp): every list of
  constructs is read back from each way to write it, with characters quoted or not.
 */
module Patterns {
  import opened Options
  import opened Glob

  /** A character as it is or behind a backslash. */
  datatype Mark = Mark(c: char, quoted: bool)

  datatype RangeText = One(at: Mark) | Span(lo: Mark, hi: Mark)

  /** A set is inverted by the sign ! or ^. */
  datatype ItemText = Char(at: Mark) | Question | Star | SetOf(sign: string, ranges: seq<RangeText>)

  // ---- What is written ----

  function WriteMark(m: Mark): (s: string)
    ensures s != ""
  {
    if m.quoted then ['\\', m.c] else [m.c]
  }

  function WriteRange(r: RangeText): (s: string)
    ensures s != ""
  {
    match r
    case One(at) => WriteMark(at)
    case Span(lo, hi) => WriteMark(lo) + ("-" + WriteMark(hi))
  }

  function WriteRanges(rs: seq<RangeText>): string {
    if rs == [] then "" else WriteRange(rs[0]) + WriteRanges(rs[1..])
  }

  function WriteItem(t: ItemText): string {
    match t
    case Char(at) => WriteMark(at)
    case Question => "?"
    case Star => "*"
    case SetOf(sign, ranges) => "[" + (sign + (WriteRanges(ranges) + "]"))
  }

  function Write(ts: seq<ItemText>): string {
    if ts == [] then "" else WriteItem(ts[0]) + Write(ts[1..])
  }

  // ---- What it stands for ----

  function RangeOf(r: RangeText): (char, char) {
    match r
    case One(at) => (at.c, at.c)
    case Span(lo, hi) => (lo.c, hi.c)
  }

  function RangesOf(rs: seq<RangeText>): seq<(char, char)> {
    if rs == [] then [] else [RangeOf(rs[0])] + RangesOf(rs[1..])
  }

  function ItemOf(t: ItemText): Item {
    match t
    case Char(at) => Literal(at.c)
    case Question => AnyOne
    case Star => AnyRun
    case SetOf(sign, ranges) => Set(sign != "", RangesOf(ranges))
  }

  function ItemsOf(ts: seq<ItemText>): seq<Item> {
    if ts == [] then [] else [ItemOf(ts[0])] + ItemsOf(ts[1..])
  }

  // ---- What has to be quoted ----

  predicate RangeOk(r: RangeText) {
    match r
    case One(at) => at.quoted || at.c !in "\\]"
    case Span(lo, hi) => (lo.quoted || lo.c !in "\\]") && (hi.quoted || hi.c !in "\\]")
  }

  /** Behind a single character a - would make a range. */
  predicate RangesOk(rs: seq<RangeText>) {
    rs != [] ==>
      && RangeOk(rs[0]) && RangesOk(rs[1..])
      && (rs[0].One? && |rs| > 1 ==> WriteRange(rs[1])[0] != '-')
  }

  predicate ItemOk(t: ItemText) {
    match t
    case Char(at) => at.quoted || at.c !in "\\?*["
    case SetOf(sign, ranges) =>
      && (sign == "" || sign == "!" || sign == "^") && ranges != [] && RangesOk(ranges)
      && (sign == "" ==> WriteRange(ranges[0])[0] !in "!^")
    case _ => true
  }

  predicate Writable(ts: seq<ItemText>) {
    forall i | 0 <= i < |ts| :: ItemOk(ts[i])
  }

  // ---- It is read back ----

  /** The text stands in the pattern from i on, with the rest behind it. */
  predicate Stands(p: string, i: nat, s: string, rest: string) {
    i <= |p| && p[i..] == s + rest
  }

  lemma Behind(p: string, i: nat, s: string, rest: string)
    requires Stands(p, i, s, rest)
    ensures i + |s| <= |p| && p[i + |s|..] == rest
    ensures s != "" ==> i < |p| && p[i] == At(p, i) == s[0]
    ensures |s| > 1 ==> i + 1 < |p| && p[i + 1] == s[1]
    ensures rest != "" ==> At(p, i + |s|) == rest[0]
  {
    assert p[i..][|s|..] == p[i + |s|..];
    assert s != "" ==> p[i] == p[i..][0];
    assert |s| > 1 ==> p[i + 1] == p[i..][1];
    assert rest != "" ==> p[i + |s|] == p[i + |s|..][0];
  }

  lemma ReadMark(p: string, i: nat, m: Mark, rest: string)
    requires Stands(p, i, WriteMark(m), rest) && (m.quoted || m.c != '\\')
    ensures ParseChar(p, i) == Some((m.c, i + |WriteMark(m)|)) && p[i + |WriteMark(m)|..] == rest
  {
    Behind(p, i, WriteMark(m), rest);
  }

  lemma ReadRange(p: string, i: nat, r: RangeText, rest: string)
    requires Stands(p, i, WriteRange(r), rest) && RangeOk(r) && rest != "" && (r.One? ==> rest[0] != '-')
    ensures ParseRange(p, i) == Some((RangeOf(r), i + |WriteRange(r)|)) && p[i + |WriteRange(r)|..] == rest
  {
    hide ParseChar, WriteMark, ParseRange;
    match r
    case One(at) =>
      ReadMark(p, i, at, rest);
      Behind(p, i, WriteMark(at), rest);
      OneParsed(p, i, at.c, i + |WriteMark(at)|);
    case Span(lo, hi) =>
      ReadSpan(p, i, lo, hi, rest);
  }

  lemma OneParsed(p: string, i: nat, c: char, j: nat)
    requires ParseChar(p, i) == Some((c, j)) && At(p, j) != '-'
    ensures ParseRange(p, i) == Some(((c, c), j))
  {
  }

  lemma SpanParsed(p: string, i: nat, lo: char, j: nat, hi: char, k: nat)
    requires ParseChar(p, i) == Some((lo, j)) && At(p, j) == '-' && At(p, j + 1) != ']'
    requires ParseChar(p, j + 1) == Some((hi, k))
    ensures ParseRange(p, i) == Some(((lo, hi), k))
  {
  }

  lemma ReadSpan(p: string, i: nat, lo: Mark, hi: Mark, rest: string)
    requires Stands(p, i, WriteMark(lo) + ("-" + WriteMark(hi)), rest)
    requires (lo.quoted || lo.c !in "\\]") && (hi.quoted || hi.c !in "\\]")
    ensures var k := i + |WriteMark(lo)| + 1 + |WriteMark(hi)|;
      ParseRange(p, i) == Some(((lo.c, hi.c), k)) && k <= |p| && p[k..] == rest
  {
    hide *;
    var first, last := WriteMark(lo), WriteMark(hi);
    SpanStands(p, i, first, last, rest);
    ReadMark(p, i, lo, "-" + (last + rest));
    Behind(p, i, first, "-" + (last + rest));
    var j := i + |first|;
    ReadMark(p, j + 1, hi, rest);
    Behind(p, j + 1, last, rest);
    MarkStart(hi);
    SpanParsed(p, i, lo.c, j, hi.c, j + 1 + |last|);
  }

  lemma SpanStands(p: string, i: nat, a: string, b: string, rest: string)
    requires Stands(p, i, a + ("-" + b), rest)
    ensures Stands(p, i, a, "-" + (b + rest)) && Stands(p, i + |a| + 1, b, rest)
  {
    assert p[i..] == a + ("-" + (b + rest)) by {
      Associate(a, "-" + b, rest);
      Associate("-", b, rest);
    }
    assert p[i..][|a| + 1..] == b + rest;
    assert p[i + |a| + 1..] == p[i..][|a| + 1..];
  }

  lemma StandsMeans(p: string, i: nat)
    ensures forall j: nat, s, rest :: Stands(p, j, s, rest) <==> j <= |p| && p[j..] == s + rest
  {
  }

  lemma MarkStart(m: Mark)
    ensures WriteMark(m)[0] == if m.quoted then '\\' else m.c
  {
  }

  lemma {:induction false} ReadRanges(p: string, i: nat, rs: seq<RangeText>, rest: string)
    requires Stands(p, i, WriteRanges(rs), "]" + rest) && RangesOk(rs)
    ensures ParseRanges(p, i) == Some((RangesOf(rs), i + |WriteRanges(rs)|)) && p[i + |WriteRanges(rs)|..] == "]" + rest
    decreases |rs|
  {
    hide *;
    StandsMeans(p, i);
    if rs == [] {
      NoRanges(p, i, rest);
    } else {
      var first, more, end := WriteRange(rs[0]), WriteRanges(rs[1..]), "]" + rest;
      RangesWritten(rs);
      assert (first + more) + end == first + (more + end);
      NextRange(rs, rest);
      ReadRange(p, i, rs[0], more + end);
      Behind(p, i, first, more + end);
      ReadRanges(p, i + |first|, rs[1..], rest);
      RangeParsed(p, i, RangeOf(rs[0]), i + |first|, RangesOf(rs[1..]), i + |first| + |more|);
    }
  }

  lemma NoRanges(p: string, i: nat, rest: string)
    requires Stands(p, i, WriteRanges([]), "]" + rest)
    ensures WriteRanges([]) == "" && RangesOf([]) == [] && ParseRanges(p, i) == Some(([], i)) && p[i..] == "]" + rest
  {
    Behind(p, i, "", "]" + rest);
  }

  lemma RangesWritten(rs: seq<RangeText>)
    requires rs != [] && RangesOk(rs)
    ensures WriteRanges(rs) == WriteRange(rs[0]) + WriteRanges(rs[1..]) && RangesOf(rs) == [RangeOf(rs[0])] + RangesOf(rs[1..])
    ensures RangeOk(rs[0]) && RangesOk(rs[1..]) && WriteRange(rs[0]) != "" && WriteRange(rs[0])[0] != ']'
  {
    RangeStart(rs[0]);
  }

  lemma RangeParsed(p: string, i: nat, range: (char, char), j: nat, ranges: seq<(char, char)>, k: nat)
    requires At(p, i) != ']' && ParseRange(p, i) == Some((range, j)) && ParseRanges(p, j) == Some((ranges, k))
    ensures ParseRanges(p, i) == Some(([range] + ranges, k))
  {
    hide ParseRange;
  }

  lemma NextRange(rs: seq<RangeText>, rest: string)
    requires rs != [] && RangesOk(rs)
    ensures var tail := WriteRanges(rs[1..]) + ("]" + rest);
      tail != "" && (rs[0].One? ==> tail[0] != '-')
  {
    if |rs| > 1 {
      assert rs[1..][0] == rs[1];
      assert WriteRanges(rs[1..])[0] == WriteRange(rs[1])[0];
    }
  }

  lemma RangeStart(r: RangeText)
    requires RangeOk(r)
    ensures WriteRange(r)[0] != ']'
  {
  }

  lemma ReadSet(p: string, i: nat, sign: string, ranges: seq<RangeText>, rest: string)
    requires Stands(p, i, WriteItem(SetOf(sign, ranges)), rest) && ItemOk(SetOf(sign, ranges))
    ensures ParseSet(p, i) == Some((Set(sign != "", RangesOf(ranges)), i + |WriteItem(SetOf(sign, ranges))|))
  {
    hide *;
    var body := WriteRanges(ranges);
    var tail := body + ("]" + rest);
    SetIsOk(sign, ranges);
    SetStart(ranges);
    SetWritten(sign, ranges, rest);
    StandsMeans(p, i);
    Behind(p, i, "[", sign + tail);
    Behind(p, i + 1, sign, tail);
    assert sign != "" ==> At(p, i + 1) == sign[0];
    var start := i + 1 + |sign|;
    assert At(p, start) == tail[0] == body[0];
    Behind(p, start, body, "]" + rest);
    ReadRanges(p, start, ranges, rest);
    SetParsed(p, i, sign, start, RangesOf(ranges), start + |body|);
  }

  lemma SetIsOk(sign: string, ranges: seq<RangeText>)
    requires ItemOk(SetOf(sign, ranges))
    ensures sign == "" || sign == "!" || sign == "^"
    ensures ranges != [] && RangesOk(ranges) && (sign == "" ==> WriteRange(ranges[0])[0] !in "!^")
  {
    hide RangesOk, WriteRange;
  }

  lemma SetWritten(sign: string, ranges: seq<RangeText>, rest: string)
    ensures var body := WriteRanges(ranges);
      && WriteItem(SetOf(sign, ranges)) + rest == "[" + (sign + (body + ("]" + rest)))
      && |WriteItem(SetOf(sign, ranges))| == 2 + |sign| + |body|
  {
    hide *;
    var body := WriteRanges(ranges);
    SetIs(sign, ranges);
    Associate("[", sign + (body + "]"), rest);
    Associate(sign, body + "]", rest);
    Associate(body, "]", rest);
  }

  lemma SetIs(sign: string, ranges: seq<RangeText>)
    ensures WriteItem(SetOf(sign, ranges)) == "[" + (sign + (WriteRanges(ranges) + "]"))
  {
    hide WriteRanges;
  }

  lemma Associate(a: string, b: string, c: string)
    ensures (a + b) + c == a + (b + c)
  {
  }

  lemma SetParsed(p: string, i: nat, sign: string, start: nat, ranges: seq<(char, char)>, k: nat)
    requires start == i + 1 + |sign| && (if sign == "" then At(p, i + 1) !in "!^" else |sign| == 1 && At(p, i + 1) in "!^")
    requires At(p, start) != ']' && ParseRanges(p, start) == Some((ranges, k))
    ensures ParseSet(p, i) == Some((Set(sign != "", ranges), k + 1))
  {
    hide ParseRanges;
  }

  lemma SetStart(ranges: seq<RangeText>)
    requires ranges != [] && RangesOk(ranges)
    ensures WriteRanges(ranges) != "" && WriteRanges(ranges)[0] == WriteRange(ranges[0])[0] != ']'
  {
    RangeStart(ranges[0]);
  }

  lemma ReadItem(p: string, i: nat, t: ItemText, rest: string)
    requires Stands(p, i, WriteItem(t), rest) && ItemOk(t)
    ensures i < |p| && ParseItem(p, i) == Some((ItemOf(t), i + |WriteItem(t)|))
  {
    hide ParseSet, ParseChar, RangesOk, WriteRanges, WriteRange, RangesOf;
    Behind(p, i, WriteItem(t), rest);
    match t
    case Char(at) => ReadMark(p, i, at, rest);
    case SetOf(sign, ranges) => ReadSet(p, i, sign, ranges, rest);
    case _ =>
  }

  lemma {:induction false} ReadFrom(p: string, i: nat, ts: seq<ItemText>)
    requires Stands(p, i, Write(ts), "") && Writable(ts)
    ensures Parse(p, i) == Some(ItemsOf(ts))
    decreases |ts|
  {
    hide ParseItem, ItemOf, WriteItem, ItemOk;
    if ts != [] {
      var rest := Write(ts[1..]);
      assert Write(ts) + "" == WriteItem(ts[0]) + rest;
      ReadItem(p, i, ts[0], rest);
      Behind(p, i, WriteItem(ts[0]), rest);
      assert rest + "" == rest;
      ReadFrom(p, i + |WriteItem(ts[0])|, ts[1..]);
    }
  }

  /** Every pattern is read back from each way to write it. */
  lemma ParseInvertsWrite(ts: seq<ItemText>)
    requires Writable(ts)
    ensures Parse(Write(ts), 0) == Some(ItemsOf(ts))
  {
    assert Write(ts)[0..] == Write(ts) + "";
    ReadFrom(Write(ts), 0, ts);
  }

  // ---- Ranges ----

  function Distance(a: char, b: char): nat {
    if a < b then b as int - a as int else a as int - b as int
  }

  /** A range covers the characters between its ends, whichever comes first: those on no detour. */
  lemma RangeCoversBetween(a: char, b: char, c: char)
    ensures Covers((a, b), c) <==> Distance(a, c) + Distance(c, b) == Distance(a, b)
  {
  }

  /** A set takes the ends of its ranges, a single character only itself, an inverted set what the set does not take. */
  lemma SetsTake(fold: char -> char, ranges: seq<(char, char)>, a: char, c: char)
    ensures forall i | 0 <= i < |ranges| :: Takes(fold, Set(false, ranges), ranges[i].0) && Takes(fold, Set(false, ranges), ranges[i].1)
    ensures Takes(fold, Set(false, [(a, a)]), c) <==> c == a
    ensures Takes(fold, Set(true, ranges), c) <==> !Takes(fold, Set(false, ranges), c)
  {
    var one := [(a, a)];
    assert c == a ==> Covers(one[0], c);
    forall i | 0 <= i < |ranges|
      ensures Member(ranges, ranges[i].0) && Member(ranges, ranges[i].1)
    {
      assert Covers(ranges[i], ranges[i].0) && Covers(ranges[i], ranges[i].1);
    }
  }

  /** A literal takes itself and what differs from it in case only. */
  lemma LiteralsTake(fold: char -> char, l: char, c: char)
    ensures Takes(fold, Literal(l), l)
    ensures Takes(fold, Literal(l), c) <==> fold(c) == fold(l)
    ensures Takes(fold, AnyOne, c)
  {
  }
}

/**
  Prefix groups in configuration files (lsapi/SettingsFileParser.cpp). A line followed by a
  line that starts with { opens a group, whose lines carry its name in front of their keys
  until a line that starts with }. Lines are given without blank and comment lines and with
  their key and their stripped value apart.
 */
module Prefixes {
  import opened Strings

  datatype Raw = Raw(key: string, value: string)

  type RawLine = r: Raw | r.key != "" witness Raw("-", "")

  /** A line as the rest of the parser sees it: the key carries its prefix. */
  datatype Named = Named(name: string, value: string)

  /**
    Keys that take no prefix. They are meant to be the four keywords, but the comparison is
    over the length of the key, so that each beginning of a keyword is taken for it.
   */
  predicate Unprefixed(key: string) {
    var k := Fold(key);
    StartOf(k, "if") || StartOf(k, "else") || StartOf(k, "elseif") || StartOf(k, "endif")
  }

  predicate Keyword(key: string) {
    Same(key, "if") || Same(key, "else") || Same(key, "elseif") || Same(key, "endif")
  }

  predicate Opens(r: RawLine) {
    r.key[0] == '{'
  }

  predicate Closes(r: RawLine) {
    r.key[0] == '}'
  }

  /** A leading * stays in front of the prefix. */
  function Star(key: string): string {
    if key != "" && key[0] == '*' then "*" else ""
  }

  function Unstarred(key: string): string {
    if key != "" && key[0] == '*' then key[1..] else key
  }

  /** What of the key follows the prefix: a key that is just - names the group itself. */
  function Body(key: string): string {
    if Unstarred(key) == "-" then "" else Unstarred(key)
  }

  /** The key with the name of the innermost group, the first in the stack. */
  function FullKey(key: string, stack: seq<string>): string {
    if stack == [] then key
    else Star(key) + (if Unprefixed(Unstarred(key)) then "" else stack[0]) + Body(key)
  }

  // ---- References to group names in values ----

  /** Length of the run of characters c at the front. */
  function RunLength(s: string, c: char): (n: nat)
    ensures n <= |s| && (n < |s| ==> s[n] != c)
    ensures forall i | 0 <= i < n :: s[i] == c
  {
    if s != "" && s[0] == c then 1 + RunLength(s[1..], c) else 0
  }

  /** The k-th innermost group's name, counted from 1; empty beyond the outermost. */
  function GroupName(stack: seq<string>, k: nat): string
    requires k > 0
  {
    if k <= |stack| then stack[k - 1] else ""
  }

  /** The value around its first run of @: what is before it, its length, what is behind it. */
  function Split(value: string): (r: (string, nat, string))
    requires '@' in value
    ensures r.1 > 0 && |r.2| < |value|
  {
    var i := Find(value, '@');
    var k := RunLength(value[i..], '@');
    (value[..i], k, value[i + k..])
  }

  /** The value up to its last @, expanded. */
  function Kept(value: string, stack: seq<string>): string
    decreases |value|
  {
    if stack == [] || '@' !in value then ""
    else
      var r := Split(value);
      r.0 + GroupName(stack, r.1) + Kept(r.2, stack)
  }

  /** The value behind its last @. */
  function Last(value: string, stack: seq<string>): string
    decreases |value|
  {
    if stack == [] || '@' !in value then value
    else Last(Split(value).2, stack)
  }

  function Expand(value: string, stack: seq<string>): string {
    Kept(value, stack) + Last(value, stack)
  }

  /** A value as text and runs of @. */
  datatype Piece = Text(text: string) | Up(levels: nat)

  function Repeat(c: char, n: nat): string {
    if n == 0 then "" else [c] + Repeat(c, n - 1)
  }

  function Render(ps: seq<Piece>): string {
    if ps == [] then ""
    else (match ps[0] case Text(t) => t case Up(k) => Repeat('@', k)) + Render(ps[1..])
  }

  function Meaning(ps: seq<Piece>, stack: seq<string>): string
    requires forall i | 0 <= i < |ps| && ps[i].Up? :: ps[i].levels > 0
  {
    if ps == [] then ""
    else (match ps[0] case Text(t) => t case Up(k) => GroupName(stack, k)) + Meaning(ps[1..], stack)
  }

  /** Text has no @, runs of @ are not empty and have text between them. */
  predicate Pieces(ps: seq<Piece>) {
    && (forall i | 0 <= i < |ps| && ps[i].Up? :: ps[i].levels > 0)
    && (forall i | 0 <= i < |ps| && ps[i].Text? :: '@' !in ps[i].text)
    && (forall i, j | 0 <= i < |ps| - 1 && j == i + 1 :: ps[i].Up? ==> ps[j].Text? && ps[j].text != "")
  }

  lemma {:induction false} FindBehind(t: string, rest: string, c: char)
    requires c !in t
    ensures Find(t + rest, c) == |t| + Find(rest, c)
  {
    if t == "" {
      assert t + rest == rest;
    } else {
      assert (t + rest)[1..] == t[1..] + rest;
      FindBehind(t[1..], rest, c);
    }
  }

  lemma {:induction false} RunLengthIs(s: string, c: char, n: nat)
    requires n <= |s| && (n < |s| ==> s[n] != c) && forall i | 0 <= i < n :: s[i] == c
    ensures RunLength(s, c) == n
  {
    if n > 0 {
      RunLengthIs(s[1..], c, n - 1);
    }
  }

  lemma {:induction false} AllRepeated(c: char, k: nat)
    ensures |Repeat(c, k)| == k && forall j | 0 <= j < k :: Repeat(c, k)[j] == c
  {
    if k > 0 {
      AllRepeated(c, k - 1);
    }
  }

  lemma SplitIs(value: string, before: string, k: nat, after: string)
    requires value == before + Repeat('@', k) + after && k > 0 && |Repeat('@', k)| == k
    requires '@' !in before && (after == "" || after[0] != '@')
    ensures '@' in value && Split(value) == (before, k, after)
  {
    AllRepeated('@', k);
    assert value[|before|] == '@';
    assert value[..|before|] == before;
    FindIs(value, '@', |before|);
    var run := value[|before|..];
    assert run == Repeat('@', k) + after;
    RunLengthIs(run, '@', k);
    assert value[|before| + k..] == after;
  }

  lemma SplitParts(value: string)
    requires '@' in value
    ensures var r := Split(value);
      value == r.0 + Repeat('@', r.1) + r.2 && |Repeat('@', r.1)| == r.1
      && '@' !in r.0 && (r.2 == "" || r.2[0] != '@')
  {
    var i := Find(value, '@');
    var run := value[i..];
    var k := RunLength(run, '@');
    AllRepeated('@', k);
    assert run[..k] == Repeat('@', k);
    assert value == value[..i] + run[..k] + run[k..];
    assert value[i + k..] == run[k..];
  }

  lemma ExpandText(t: string, rest: string, stack: seq<string>)
    requires '@' !in t && stack != []
    ensures Expand(t + rest, stack) == t + Expand(rest, stack)
  {
    hide Split, GroupName;
    if '@' in rest {
      SplitParts(rest);
      var r := Split(rest);
      assert t + rest == (t + r.0) + Repeat('@', r.1) + r.2;
      SplitIs(t + rest, t + r.0, r.1, r.2);
      var name, kept := GroupName(stack, r.1), Kept(r.2, stack);
      assert Kept(t + rest, stack) == (t + r.0) + name + kept;
      assert Kept(rest, stack) == r.0 + name + kept;
      assert Last(t + rest, stack) == Last(rest, stack);
    }
  }

  lemma ExpandUp(k: nat, rest: string, stack: seq<string>)
    requires k > 0 && stack != [] && (rest == "" || rest[0] != '@')
    ensures Expand(Repeat('@', k) + rest, stack) == GroupName(stack, k) + Expand(rest, stack)
  {
    hide Split, GroupName, Repeat;
    AllRepeated('@', k);
    var all := Repeat('@', k) + rest;
    assert all == "" + Repeat('@', k) + rest;
    SplitIs(all, "", k, rest);
    var name, kept := GroupName(stack, k), Kept(rest, stack);
    assert Kept(all, stack) == "" + name + kept;
    assert Last(all, stack) == Last(rest, stack);
  }

  /** Inside of a group a run of k @ stands for the name of the k-th innermost group. */
  lemma {:induction false} ExpandIsMeaning(ps: seq<Piece>, stack: seq<string>)
    requires Pieces(ps) && stack != []
    ensures Expand(Render(ps), stack) == Meaning(ps, stack)
  {
    if ps != [] {
      var rest := Render(ps[1..]);
      forall i, j | 0 <= i < |ps[1..]| - 1 && j == i + 1
        ensures ps[1..][i].Up? ==> ps[1..][j].Text? && ps[1..][j].text != ""
      {
        var i', j' := i + 1, j + 1;
        assert ps[i'] == ps[1..][i] && ps[j'] == ps[1..][j];
      }
      ExpandIsMeaning(ps[1..], stack);
      match ps[0]
      case Text(t) => ExpandText(t, rest, stack);
      case Up(k) =>
        if |ps| > 1 {
          var j := 1;
          assert ps[j].Text? && ps[j].text != "" && ps[1..][0] == ps[1];
          assert rest[0] == ps[1].text[0];
        }
        ExpandUp(k, rest, stack);
    }
  }

  // ---- Reading lines ----

  datatype Read = End | Line(line: Named, lines: seq<RawLine>, stack: seq<string>)

  function Pop(stack: seq<string>): seq<string> {
    if stack == [] then [] else stack[1..]
  }

  /**
    The next line with its full key, and the lines and the stack behind it. Text is what
    the caller's buffer holds in front of the value: the head of a group leaves the part of
    its own value up to the last @ there.
   */
  function ReadLine(lines: seq<RawLine>, stack: seq<string>, text: string): (r: Read)
    ensures r.Line? ==> |r.lines| < |lines|
    decreases |lines|
  {
    if lines == [] then End
    else if Closes(lines[0]) then ReadLine(lines[1..], Pop(stack), text)
    else
      var name := FullKey(lines[0].key, stack);
      if |lines| > 1 && Opens(lines[1]) then
        ReadLine(lines[2..], [name] + stack, text + Kept(lines[0].value, stack))
      else
        Line(Named(name, text + Expand(lines[0].value, stack)), lines[1..], stack)
  }

  /** All lines that are going to be read. */
  function ReadAll(lines: seq<RawLine>, stack: seq<string>, text: string): seq<Named>
    decreases |lines|
  {
    match ReadLine(lines, stack, text)
    case End => []
    case Line(line, lines', stack') => [line] + ReadAll(lines', stack', "")
  }

  // ---- Trees of groups ----

  /** The lines of a file or a group. */
  datatype Groups =
    | Nil
    | Leaf(line: RawLine, next: Groups)
    | Group(head: RawLine, opening: RawLine, body: Groups, closing: RawLine, next: Groups)

  predicate WellFormed(g: Groups) {
    match g
    case Nil => true
    case Leaf(line, next) => !Opens(line) && !Closes(line) && WellFormed(next)
    case Group(head, opening, body, closing, next) =>
      && !Opens(head) && !Closes(head) && Opens(opening) && Closes(closing)
      && WellFormed(body) && WellFormed(next)
  }

  function Written(g: Groups): seq<RawLine> {
    match g
    case Nil => []
    case Leaf(line, next) => [line] + Written(next)
    case Group(head, opening, body, closing, next) =>
      [head, opening] + (Written(body) + ([closing] + Written(next)))
  }

  /** The flat file: each line with its full key, each value with its references resolved. */
  function Flat(g: Groups, stack: seq<string>): seq<Named> {
    match g
    case Nil => []
    case Leaf(line, next) =>
      [Named(FullKey(line.key, stack), Expand(line.value, stack))] + Flat(next, stack)
    case Group(head, _, body, _, next) =>
      Flat(body, [FullKey(head.key, stack)] + stack) + Flat(next, stack)
  }

  /** The lines with the text that heads of groups leave in front of the next value. */
  function Actual(g: Groups, stack: seq<string>, text: string): (seq<Named>, string) {
    match g
    case Nil => ([], text)
    case Leaf(line, next) =>
      var r := Actual(next, stack, "");
      ([Named(FullKey(line.key, stack), text + Expand(line.value, stack))] + r.0, r.1)
    case Group(head, _, body, _, next) =>
      var b := Actual(body, [FullKey(head.key, stack)] + stack, text + Kept(head.value, stack));
      var r := Actual(next, stack, b.1);
      (b.0 + r.0, r.1)
  }

  predicate NotOpening(rest: seq<RawLine>) {
    rest == [] || !Opens(rest[0])
  }

  lemma WrittenNotOpening(g: Groups, rest: seq<RawLine>)
    requires WellFormed(g) && NotOpening(rest)
    ensures NotOpening(Written(g) + rest)
  {
  }

  lemma ReadHead(lines: seq<RawLine>, stack: seq<string>, text: string)
    requires |lines| > 1 && !Closes(lines[0]) && Opens(lines[1])
    ensures ReadAll(lines, stack, text)
         == ReadAll(lines[2..], [FullKey(lines[0].key, stack)] + stack, text + Kept(lines[0].value, stack))
  {
  }

  lemma ReadLeaf(line: RawLine, rest: seq<RawLine>, stack: seq<string>, text: string)
    requires !Closes(line) && NotOpening(rest)
    ensures ReadAll([line] + rest, stack, text)
         == [Named(FullKey(line.key, stack), text + Expand(line.value, stack))] + ReadAll(rest, stack, "")
  {
    assert ([line] + rest)[1..] == rest;
  }

  lemma ReadClosing(line: RawLine, rest: seq<RawLine>, stack: seq<string>, text: string)
    requires Closes(line)
    ensures ReadAll([line] + rest, stack, text) == ReadAll(rest, Pop(stack), text)
  {
    assert ([line] + rest)[1..] == rest;
  }

  lemma WrittenGroup(g: Groups, rest: seq<RawLine>)
    requires g.Group?
    ensures Written(g) + rest == [g.head, g.opening] + (Written(g.body) + ([g.closing] + (Written(g.next) + rest)))
  {
  }

  lemma ReadWrittenHead(g: Groups, rest: seq<RawLine>, stack: seq<string>, text: string)
    requires g.Group? && WellFormed(g)
    ensures ReadAll(Written(g) + rest, stack, text)
         == ReadAll(Written(g.body) + ([g.closing] + (Written(g.next) + rest)),
                    [FullKey(g.head.key, stack)] + stack, text + Kept(g.head.value, stack))
  {
    hide ReadAll, Kept, Last, FullKey, Written;
    WrittenGroup(g, rest);
    var lines := Written(g) + rest;
    assert lines[2..] == Written(g.body) + ([g.closing] + (Written(g.next) + rest));
    ReadHead(lines, stack, text);
  }

  /** Reading a tree of groups; behind it the stack is what it was before. */
  lemma {:induction false} ReadGroups(g: Groups, rest: seq<RawLine>, stack: seq<string>, text: string)
    requires WellFormed(g) && NotOpening(rest)
    ensures ReadAll(Written(g) + rest, stack, text)
         == Actual(g, stack, text).0 + ReadAll(rest, stack, Actual(g, stack, text).1)
    decreases g, 1
  {
    match g
    case Nil =>
      assert Written(g) + rest == rest;
    case Leaf(line, next) =>
      hide ReadAll, Kept, Last, FullKey;
      assert Written(g) + rest == [line] + (Written(next) + rest);
      WrittenNotOpening(next, rest);
      ReadLeaf(line, Written(next) + rest, stack, text);
      ReadGroups(next, rest, stack, "");
    case Group(_, _, _, _, _) =>
      ReadGroup(g, rest, stack, text);
  }

  lemma {:induction false} ReadGroup(g: Groups, rest: seq<RawLine>, stack: seq<string>, text: string)
    requires g.Group? && WellFormed(g) && NotOpening(rest)
    ensures ReadAll(Written(g) + rest, stack, text)
         == Actual(g, stack, text).0 + ReadAll(rest, stack, Actual(g, stack, text).1)
    decreases g, 0
  {
    hide ReadAll, Kept, Last, FullKey, Written;
    var inner := [FullKey(g.head.key, stack)] + stack;
    var behind := [g.closing] + (Written(g.next) + rest);
    var b := Actual(g.body, inner, text + Kept(g.head.value, stack));
    ReadWrittenHead(g, rest, stack, text);
    ReadGroups(g.body, behind, inner, text + Kept(g.head.value, stack));
    ReadClosing(g.closing, Written(g.next) + rest, inner, b.1);
    assert Pop(inner) == stack;
    ReadGroups(g.next, rest, stack, b.1);
  }

  /** How much text the heads of the groups leave. */
  function Left(g: Groups, stack: seq<string>): nat {
    match g
    case Nil => 0
    case Leaf(_, next) => Left(next, stack)
    case Group(head, _, body, _, next) =>
      |Kept(head.value, stack)| + Left(body, [FullKey(head.key, stack)] + stack) + Left(next, stack)
  }

  function Total(lines: seq<Named>): nat {
    if lines == [] then 0 else |lines[0].value| + Total(lines[1..])
  }

  lemma {:induction false} TotalOfSum(a: seq<Named>, b: seq<Named>)
    ensures Total(a + b) == Total(a) + Total(b)
  {
    if a == [] {
      assert a + b == b;
    } else {
      assert (a + b)[1..] == a[1..] + b;
      TotalOfSum(a[1..], b);
    }
  }

  lemma {:induction false} TextIsConserved(g: Groups, stack: seq<string>, text: string)
    ensures Total(Actual(g, stack, text).0) + |Actual(g, stack, text).1|
         == Total(Flat(g, stack)) + |text| + Left(g, stack)
  {
    hide Kept, Last, FullKey;
    match g
    case Nil =>
    case Leaf(line, next) =>
      TextIsConserved(next, stack, "");
      TotalOfSum([Named(FullKey(line.key, stack), text + Expand(line.value, stack))], Actual(next, stack, "").0);
      TotalOfSum([Named(FullKey(line.key, stack), Expand(line.value, stack))], Flat(next, stack));
    case Group(head, _, body, _, next) =>
      var inner := [FullKey(head.key, stack)] + stack;
      var text' := text + Kept(head.value, stack);
      var b := Actual(body, inner, text');
      TextIsConserved(body, inner, text');
      TextIsConserved(next, stack, b.1);
      TotalOfSum(b.0, Actual(next, stack, b.1).0);
      TotalOfSum(Flat(body, inner), Flat(next, stack));
  }

  lemma {:induction false} CleanIsFlat(g: Groups, stack: seq<string>)
    requires Left(g, stack) == 0
    ensures Actual(g, stack, "") == (Flat(g, stack), "")
  {
    hide Kept, Last, FullKey;
    match g
    case Nil =>
    case Leaf(line, next) =>
      assert "" + Expand(line.value, stack) == Expand(line.value, stack);
      CleanIsFlat(next, stack);
    case Group(head, _, body, _, next) =>
      assert "" + Kept(head.value, stack) == "";
      CleanIsFlat(body, [FullKey(head.key, stack)] + stack);
      CleanIsFlat(next, stack);
  }

  /** How much of n characters in the buffer and of what the heads leave no line of the groups takes. */
  function Unused(g: Groups, stack: seq<string>, n: nat): nat {
    match g
    case Nil => n
    case Leaf(_, next) => Unused(next, stack, 0)
    case Group(head, _, body, _, next) =>
      Unused(next, stack, Unused(body, [FullKey(head.key, stack)] + stack, n + |Kept(head.value, stack)|))
  }

  lemma {:induction false} UnusedIs(g: Groups, stack: seq<string>, text: string)
    ensures |Actual(g, stack, text).1| == Unused(g, stack, |text|) <= |text| + Left(g, stack)
  {
    hide Kept, Last, FullKey;
    match g
    case Nil =>
    case Leaf(_, next) => UnusedIs(next, stack, "");
    case Group(head, _, body, _, next) =>
      var inner := [FullKey(head.key, stack)] + stack;
      var b := Actual(body, inner, text + Kept(head.value, stack));
      UnusedIs(body, inner, text + Kept(head.value, stack));
      UnusedIs(next, stack, b.1);
  }

  /** If no line takes any text, the lines are those of the flat file. */
  lemma {:induction false} UntakenIsFlat(g: Groups, stack: seq<string>, text: string)
    requires |text| + Left(g, stack) == Unused(g, stack, |text|)
    ensures Actual(g, stack, text).0 == Flat(g, stack)
  {
    hide Kept, Last, FullKey;
    match g
    case Nil =>
    case Leaf(line, next) =>
      UnusedIs(next, stack, "");
      assert text + Expand(line.value, stack) == Expand(line.value, stack);
      UntakenIsFlat(next, stack, "");
    case Group(head, _, body, _, next) =>
      var inner := [FullKey(head.key, stack)] + stack;
      var b := Actual(body, inner, text + Kept(head.value, stack));
      UnusedIs(body, inner, text + Kept(head.value, stack));
      UnusedIs(next, stack, b.1);
      UntakenIsFlat(body, inner, text + Kept(head.value, stack));
      UntakenIsFlat(next, stack, b.1);
  }

  function Prefixed(text: string, r: Read): Read {
    match r
    case End => End
    case Line(line, lines, stack) => Line(Named(line.name, text + line.value), lines, stack)
  }

  /** Text in the buffer comes in front of the next value. */
  lemma {:induction false} TextGoesFirst(lines: seq<RawLine>, stack: seq<string>, text: string, more: string)
    ensures ReadLine(lines, stack, text + more) == Prefixed(text, ReadLine(lines, stack, more))
    decreases |lines|
  {
    hide Kept, Last, FullKey;
    if lines != [] {
      if Closes(lines[0]) {
        TextGoesFirst(lines[1..], Pop(stack), text, more);
      } else {
        var kept, value := Kept(lines[0].value, stack), Expand(lines[0].value, stack);
        assert text + more + kept == text + (more + kept) && text + more + value == text + (more + value);
        if |lines| > 1 && Opens(lines[1]) {
          TextGoesFirst(lines[2..], [FullKey(lines[0].key, stack)] + stack, text, more + kept);
        }
      }
    }
  }

  lemma TextIsAdded(lines: seq<RawLine>, stack: seq<string>, text: string)
    ensures ReadAll(lines, stack, text) == [] <==> ReadAll(lines, stack, "") == []
    ensures ReadAll(lines, stack, "") != [] ==>
      Total(ReadAll(lines, stack, text)) == |text| + Total(ReadAll(lines, stack, ""))
  {
    hide ReadLine;
    TextGoesFirst(lines, stack, text, "");
    assert text + "" == text;
    var r := ReadLine(lines, stack, "");
    if r.Line? {
      var all, all' := ReadAll(lines, stack, ""), ReadAll(lines, stack, text);
      assert all[1..] == ReadAll(r.lines, r.stack, "") && all'[1..] == ReadAll(r.lines, r.stack, "");
    }
  }

  /**
    Groups mean their flat file, whatever follows, exactly if no head of a group has a value
    of which a part stays in the buffer until a line comes.
   */
  lemma GroupsMeanConcatenation(g: Groups, rest: seq<RawLine>, stack: seq<string>)
    requires WellFormed(g) && NotOpening(rest)
    ensures ReadAll(Written(g) + rest, stack, "") == Flat(g, stack) + ReadAll(rest, stack, "")
       <==> Left(g, stack) == if ReadAll(rest, stack, "") == [] then Unused(g, stack, 0) else 0
  {
    hide ReadAll, Actual, Flat, Written, Total, Left, Unused;
    var a, behind := Actual(g, stack, ""), ReadAll(rest, stack, "");
    var behind' := ReadAll(rest, stack, a.1);
    ReadGroups(g, rest, stack, "");
    TextIsConserved(g, stack, "");
    UnusedIs(g, stack, "");
    TextIsAdded(rest, stack, a.1);
    TotalOfSum(a.0, behind');
    TotalOfSum(Flat(g, stack), behind);
    if behind == [] {
      assert a.0 + behind' == a.0 && Flat(g, stack) + behind == Flat(g, stack);
      if Left(g, stack) == Unused(g, stack, 0) {
        UntakenIsFlat(g, stack, "");
      }
    } else if Left(g, stack) == 0 {
      CleanIsFlat(g, stack);
    }
  }

  /** Heads without a value leave nothing. */
  predicate ValuelessHeads(g: Groups) {
    match g
    case Nil => true
    case Leaf(_, next) => ValuelessHeads(next)
    case Group(head, _, body, _, next) => head.value == "" && ValuelessHeads(body) && ValuelessHeads(next)
  }

  lemma {:induction false} ValuelessLeaveNothing(g: Groups, stack: seq<string>)
    requires ValuelessHeads(g)
    ensures Left(g, stack) == 0
  {
    match g
    case Nil =>
    case Leaf(_, next) => ValuelessLeaveNothing(next, stack);
    case Group(head, _, body, _, next) =>
      ValuelessLeaveNothing(body, [FullKey(head.key, stack)] + stack);
      ValuelessLeaveNothing(next, stack);
  }

  /** Groups with valueless heads mean their flat file, in whatever way they end. */
  lemma ValuelessGroupsMeanConcatenation(g: Groups, rest: seq<RawLine>, stack: seq<string>)
    requires WellFormed(g) && NotOpening(rest) && ValuelessHeads(g)
    ensures ReadAll(Written(g) + rest, stack, "") == Flat(g, stack) + ReadAll(rest, stack, "")
  {
    ValuelessLeaveNothing(g, stack);
    CleanIsFlat(g, stack);
    ReadGroups(g, rest, stack, "");
  }

  lemma OneLetter(key: string, stack: seq<string>)
    requires |key| == 1 && stack != [] && key[0] !in "*-iIeE"
    ensures FullKey(key, stack) == stack[0] + key
  {
    FoldOne(key);
    assert Fold(key)[0] !in "ie";
    assert "if"[..1] == "i" && "else"[..1] == "e" && "elseif"[..1] == "e" && "endif"[..1] == "e";
  }

  function SpoiledInner(): Groups {
    Group(Raw("B", "@x"), Raw("{", ""), Leaf(Raw("C", "y"), Nil), Raw("}", ""), Nil)
  }

  /** A { B @x { C y } } */
  function Spoiled(): Groups {
    Group(Raw("A", ""), Raw("{", ""), SpoiledInner(), Raw("}", ""), Nil)
  }

  /** A head with a value can spoil the value below it. */
  lemma HeadSpoilsValue()
    ensures ReadAll(Written(Spoiled()), [], "") == [Named("ABC", "Ay")]
    ensures Flat(Spoiled(), []) == [Named("ABC", "y")]
  {
    SpoiledNames();
    SpoiledValues();
    EmptyRead();
    OneLineGroup(Raw("B", "@x"), Raw("{", ""), Raw("C", "y"), Raw("}", ""), ["A"]);
    OneGroupGroup(Raw("A", ""), Raw("{", ""), SpoiledInner(), Raw("}", ""));
    SpoiledWellFormed();
    hide *;
    ReadGroups(Spoiled(), [], [], "");
    assert Written(Spoiled()) + [] == Written(Spoiled());
    assert ["AB"] + ["A"] == ["AB", "A"];
    assert "A" + "y" == "Ay";
    var lines := [Named("ABC", "Ay")];
    assert lines + [] == lines;
  }

  lemma SpoiledWellFormed()
    ensures WellFormed(Spoiled()) && NotOpening([])
    ensures Spoiled() == Group(Raw("A", ""), Raw("{", ""), SpoiledInner(), Raw("}", ""), Nil)
    ensures SpoiledInner() == Group(Raw("B", "@x"), Raw("{", ""), Leaf(Raw("C", "y"), Nil), Raw("}", ""), Nil)
  {
  }

  lemma SpoiledNames()
    ensures FullKey("B", ["A"]) == "AB" && FullKey("C", ["AB", "A"]) == "ABC"
  {
    OneLetter("B", ["A"]);
    OneLetter("C", ["AB", "A"]);
  }

  lemma SpoiledValues()
    ensures Kept("@x", ["A"]) == "A" && Expand("y", ["AB", "A"]) == "y"
  {
    AllRepeated('@', 1);
    assert Repeat('@', 1) == "@";
    assert "@x" == "" + Repeat('@', 1) + "x";
    SplitIs("@x", "", 1, "x");
    assert Kept("x", ["A"]) == "";
  }

  lemma EmptyRead()
    ensures ReadAll([], [], "") == []
  {
  }

  /** A group of one line, read with some text in the buffer. */
  lemma OneLineGroup(head: RawLine, opening: RawLine, line: RawLine, closing: RawLine, stack: seq<string>)
    ensures var g := Group(head, opening, Leaf(line, Nil), closing, Nil);
      var inner := [FullKey(head.key, stack)] + stack;
      var name, value := FullKey(line.key, inner), Expand(line.value, inner);
      Actual(g, stack, "") == ([Named(name, Kept(head.value, stack) + value)], "") && Flat(g, stack) == [Named(name, value)]
  {
    hide Expand, Kept, Last, FullKey;
    var inner := [FullKey(head.key, stack)] + stack;
    var kept, value := Kept(head.value, stack), Expand(line.value, inner);
    assert "" + kept == kept;
    var read, flat := [Named(FullKey(line.key, inner), kept + value)], [Named(FullKey(line.key, inner), value)];
    assert read + [] == read && flat + [] == flat;
    assert Actual(Leaf(line, Nil), inner, kept) == (read + [], "");
    assert Flat(Leaf(line, Nil), inner) == flat + [];
  }

  /** A group of one group, which has no value. */
  lemma OneGroupGroup(head: RawLine, opening: RawLine, body: Groups, closing: RawLine)
    requires head.value == ""
    ensures var g := Group(head, opening, body, closing, Nil);
      Actual(g, [], "") == Actual(body, [head.key], "") && Flat(g, []) == Flat(body, [head.key])
  {
    assert FullKey(head.key, []) == head.key && Kept("", []) == "";
    hide Expand, Kept, Last, FullKey;
    assert [head.key] + [] == [head.key] && "" + "" == "";
    var read, flat := Actual(body, [head.key], "").0, Flat(body, [head.key]);
    assert read + [] == read && flat + [] == flat;
  }

  // ---- Full names ----

  /** The names of the groups along a path, the innermost first. */
  function Stack(path: seq<string>): seq<string> {
    if path == [] then []
    else var outer := Stack(path[..|path| - 1]); [FullKey(path[|path| - 1], outer)] + outer
  }

  function Join(parts: seq<string>): string {
    if parts == [] then "" else Join(parts[..|parts| - 1]) + parts[|parts| - 1]
  }

  /** The stars of the keys of a path below the first. */
  function Stars(path: seq<string>): string {
    if |path| <= 1 then "" else Star(path[|path| - 1]) + Stars(path[..|path| - 1])
  }

  /** The parts that the keys of a path contribute; the outermost key stays as it is. */
  function Bodies(path: seq<string>): seq<string> {
    seq(|path|, i requires 0 <= i < |path| => if i == 0 then path[0] else Body(path[i]))
  }

  /** No key below the first is a beginning of a keyword. */
  predicate Prefixable(path: seq<string>) {
    forall i | 1 <= i < |path| :: !Unprefixed(Unstarred(path[i]))
  }

  /**
    The full name of a key, the last of the path, is the concatenation of the path with all
    stars in front, and a group's name for a key that is just -.
   */
  lemma {:induction false} FullNameIsConcatenation(path: seq<string>)
    requires path != [] && Prefixable(path)
    ensures FullKey(path[|path| - 1], Stack(path[..|path| - 1])) == Stars(path) + Join(Bodies(path))
  {
    hide Unprefixed, Star, Body, FullKey;
    var n := |path| - 1;
    var outer := path[..n];
    if n == 0 {
      OneName(path);
    } else {
      FullNameIsConcatenation(outer);
      assert Stack(outer)[0] == FullKey(outer[n - 1], Stack(outer[..n - 1]));
      ApplyPrefix(path[n], Stack(outer), Stars(outer), Join(Bodies(outer)));
      assert Bodies(path) == Bodies(outer) + [Body(path[n])];
      assert Bodies(path)[..n] == Bodies(outer);
    }
  }

  lemma OneName(path: seq<string>)
    requires |path| == 1
    ensures FullKey(path[0], Stack(path[..0])) == Stars(path) + Join(Bodies(path))
  {
    assert Bodies(path) == [path[0]];
    assert Join([path[0]]) == Join([path[0]][..0]) + path[0];
  }

  lemma ApplyPrefix(key: string, stack: seq<string>, stars: string, name: string)
    requires stack != [] && stack[0] == stars + name && !Unprefixed(Unstarred(key))
    ensures FullKey(key, stack) == (Star(key) + stars) + (name + Body(key))
  {
    hide Unprefixed, Star, Body;
  }

  /** The path of keys that leads to each line of the groups, for groups that stand at a path themselves. */
  function Paths(g: Groups, path: seq<string>): seq<seq<string>> {
    match g
    case Nil => []
    case Leaf(line, next) => [path + [line.key]] + Paths(next, path)
    case Group(head, _, body, _, next) => Paths(body, path + [head.key]) + Paths(next, path)
  }

  /** In the flat file each line carries the full name of its path. */
  lemma {:induction false} FlatCarriesFullNames(g: Groups, path: seq<string>, i: nat)
    requires i < |Flat(g, Stack(path))|
    ensures |Paths(g, path)| == |Flat(g, Stack(path))|
    ensures Prefixable(Paths(g, path)[i]) ==>
      Flat(g, Stack(path))[i].name == Stars(Paths(g, path)[i]) + Join(Bodies(Paths(g, path)[i]))
  {
    PathsLength(g, path);
    hide FullKey, Expand, Kept, Last, Stars, Join, Bodies, Prefixable;
    match g
    case Leaf(line, next) =>
      if i == 0 {
        var full := path + [line.key];
        assert full[..|full| - 1] == path && full[|full| - 1] == line.key;
        if Prefixable(full) {
          FullNameIsConcatenation(full);
        }
      } else {
        FlatCarriesFullNames(next, path, i - 1);
      }
    case Group(head, _, body, _, next) =>
      var inner := path + [head.key];
      assert inner[..|inner| - 1] == path && inner[|inner| - 1] == head.key;
      PathsLength(body, inner);
      var n := |Paths(body, inner)|;
      if i < n {
        FlatCarriesFullNames(body, inner, i);
      } else {
        FlatCarriesFullNames(next, path, i - n);
      }
  }

  lemma {:induction false} PathsLength(g: Groups, path: seq<string>)
    ensures |Paths(g, path)| == |Flat(g, Stack(path))|
  {
    hide FullKey, Expand, Kept, Last;
    match g
    case Nil =>
    case Leaf(_, next) => PathsLength(next, path);
    case Group(head, _, body, _, next) =>
      var inner := path + [head.key];
      assert inner[..|inner| - 1] == path && inner[|inner| - 1] == head.key;
      PathsLength(body, inner);
      PathsLength(next, path);
  }

  /** Position k of the stack holds the name of the path without its last k keys. */
  lemma {:induction false} StackHoldsNames(path: seq<string>, k: nat)
    requires k < |path|
    ensures |Stack(path)| == |path|
    ensures Stack(path)[k] == FullKey(path[|path| - 1 - k], Stack(path[..|path| - 1 - k]))
  {
    hide FullKey;
    var n := |path| - 1;
    var outer := path[..n];
    assert Stack(path) == [FullKey(path[n], Stack(outer))] + Stack(outer);
    if outer == [] {
      assert Stack(outer) == [];
    } else if k == 0 {
      StackHoldsNames(outer, 0);
    } else {
      StackHoldsNames(outer, k - 1);
      assert outer[n - 1 - (k - 1)] == path[n - k];
      assert outer[..n - k] == path[..n - k];
    }
  }

  /** A run of k @ stands for the k-th innermost group's full name, or nothing beyond the outermost. */
  lemma RunNamesGroup(path: seq<string>, k: nat)
    requires path != [] && k > 0 && Prefixable(path)
    ensures Expand(Repeat('@', k), Stack(path))
         == if k > |path| then "" else var outer := path[..|path| - k + 1]; Stars(outer) + Join(Bodies(outer))
  {
    hide *;
    StackHoldsNames(path, 0);
    var stack := Stack(path);
    OneRun(k, stack);
    ExpandIsMeaning([Up(k)], stack);
    NameOfGroup(path, k);
  }

  lemma NameOfGroup(path: seq<string>, k: nat)
    requires path != [] && k > 0 && Prefixable(path)
    ensures GroupName(Stack(path), k)
         == if k > |path| then "" else var outer := path[..|path| - k + 1]; Stars(outer) + Join(Bodies(outer))
  {
    hide *;
    StackHoldsNames(path, 0);
    GroupNameIs(Stack(path), k);
    if k <= |path| {
      var n := |path| - k;
      var outer := path[..n + 1];
      StackHoldsNames(path, k - 1);
      assert outer[n] == path[n] && outer[..n] == path[..n];
      OuterPrefixable(path, n + 1);
      FullNameIsConcatenation(outer);
    }
  }

  lemma OuterPrefixable(path: seq<string>, n: nat)
    requires Prefixable(path) && n <= |path|
    ensures Prefixable(path[..n])
  {
    hide Unprefixed, Unstarred;
  }

  lemma GroupNameIs(stack: seq<string>, k: nat)
    requires k > 0
    ensures GroupName(stack, k) == if k <= |stack| then stack[k - 1] else ""
  {
  }

  lemma OneRun(k: nat, stack: seq<string>)
    requires k > 0
    ensures Pieces([Up(k)]) && Render([Up(k)]) == Repeat('@', k) && Meaning([Up(k)], stack) == GroupName(stack, k)
  {
    var ps := [Up(k)];
    assert ps[1..] == [];
    assert Render(ps) == Repeat('@', k) + "" && Meaning(ps, stack) == GroupName(stack, k) + "";
  }

  /**
    A key other than a keyword is given its prefix, exactly if it is not a proper beginning
    of a keyword either: inside of Menu, Items becomes MenuItems, but En stays En.
   */
  lemma PrefixIsApplied(key: string, stack: seq<string>)
    requires stack != [] && stack[0] != "" && !Keyword(Unstarred(key))
    ensures FullKey(key, stack) == Star(key) + stack[0] + Body(key) <==> !Unprefixed(Unstarred(key))
  {
  }

  /** A keyword is left as it is, so that blocks work inside of groups. */
  lemma KeywordsStay(key: string, stack: seq<string>)
    requires Keyword(Unstarred(key))
    ensures FullKey(key, stack) == key
  {
    KeywordsUnprefixed(Unstarred(key));
    StarInFront(key);
    hide Unprefixed, Unstarred, Star;
  }

  lemma KeywordsUnprefixed(key: string)
    requires Keyword(key)
    ensures Unprefixed(key) && key != "-"
  {
    FoldLower("if");
    FoldLower("else");
    FoldLower("elseif");
    FoldLower("endif");
    FoldLength(key);
    hide Fold, Unprefixed;
    KeywordsStart(Fold(key), key);
  }

  lemma KeywordsStart(folded: string, key: string)
    requires folded == Fold(key) && (folded == "if" || folded == "else" || folded == "elseif" || folded == "endif")
    ensures Unprefixed(key)
  {
    StartOfItself(folded);
    hide Fold, StartOf;
  }

  lemma StartOfItself(s: string)
    ensures StartOf(s, s)
  {
  }

  lemma StarInFront(key: string)
    ensures Star(key) + Unstarred(key) == key && Star(key) + "" == Star(key)
  {
  }

  lemma BeginningOfKeyword(stack: seq<string>)
    requires stack != []
    ensures !Keyword("En") && FullKey("En", stack) == "En"
  {
    assert Fold("En") == "en" by {
      assert "En"[1..] == "n";
      FoldOne("n");
    }
    assert |Fold("if")| == 2 && Fold("if")[0] == 'i' by {
      assert "if"[1..] == "f";
      FoldOne("f");
    }
    FoldLength("else");
    FoldLength("elseif");
    FoldLength("endif");
    assert "endif"[..2] == "en";
  }
}

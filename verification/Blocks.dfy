/**
  Conditional blocks and included files in configuration files (lsapi/SettingsFileParser.cpp),
  on the lines that ReadLine gives.
 */
module Blocks {
  import opened Options
  import opened Strings
  import opened Prefixes

  type Path = string
  type Settings = seq<Named>

  /**
    What the parser asks the rest of the system, in each case with the settings read so far:
    the value of a condition (none if it has an error), the target of an include directive,
    the files that a directive for a folder finds, the full path that a file name expands to
    (none if there is none), and what a !SetVar directive assigns.
   */
  datatype Environment = Environment(
    files: map<Path, seq<RawLine>>,
    evaluate: (Settings, string) -> Option<bool>,
    target: string -> Option<string>,
    folder: (Settings, string) -> seq<string>,
    resolve: (Settings, string) -> Option<Path>,
    assign: (Settings, string) -> Option<Named>
  )

  datatype Directive = If | ElseIf | Else | EndIf | Plain

  function Kind(line: Named): Directive {
    if Same(line.name, "if") then If
    else if Same(line.name, "elseif") then ElseIf
    else if Same(line.name, "else") then Else
    else if Same(line.name, "endif") then EndIf
    else Plain
  }

  lemma KindIs(line: Named)
    ensures Same(line.name, "if") <==> Kind(line).If?
    ensures Same(line.name, "elseif") <==> Kind(line).ElseIf?
    ensures Same(line.name, "else") <==> Kind(line).Else?
    ensures Same(line.name, "endif") <==> Kind(line).EndIf?
  {
    FoldLength("if");
    FoldLength("elseif");
    FoldLength("else");
    FoldLength("endif");
  }

  /** The map without the entries for a key. */
  function Without(s: Settings, name: string): Settings {
    if s == [] then []
    else (if Same(s[0].name, name) then [] else [s[0]]) + Without(s[1..], name)
  }

  /** What a !SetVar directive does: the new value replaces all that the variable had. */
  function Assigned(env: Environment, s: Settings, value: string): Settings {
    match env.assign(s, value)
    case None => s
    case Some(setting) => Without(s, setting.name) + [setting]
  }

  // ---- Included files ----

  /** The paths without regard to case. */
  function Folded(paths: set<Path>): set<string> {
    set p | p in paths :: Fold(p)
  }

  /** The file is being read. */
  predicate OnTrail(trail: seq<Path>, path: Path) {
    exists i | 0 <= i < |trail| :: Same(trail[i], path)
  }

  function Elements(trail: seq<Path>): set<Path> {
    set p | p in trail
  }

  /** The files that are not being read. */
  function Unvisited(env: Environment, trail: seq<Path>): nat {
    |Folded(env.files.Keys) - Folded(Elements(trail))|
  }

  lemma UnvisitedShrinks(env: Environment, trail: seq<Path>, path: Path)
    requires path in env.files && !OnTrail(trail, path)
    ensures Unvisited(env, trail + [path]) < Unvisited(env, trail)
  {
    var files, read := Folded(env.files.Keys), Folded(Elements(trail));
    FoldedMore(trail, path);
    NotRead(trail, path);
    assert Fold(path) in files;
    assert files - (read + {Fold(path)}) == (files - read) - {Fold(path)};
  }

  lemma NotRead(trail: seq<Path>, path: Path)
    requires !OnTrail(trail, path)
    ensures Fold(path) !in Folded(Elements(trail))
  {
    forall p | p in Elements(trail)
      ensures Fold(p) != Fold(path)
    {
      var i :| 0 <= i < |trail| && trail[i] == p;
      assert !Same(trail[i], path);
    }
  }

  lemma FoldedMore(trail: seq<Path>, path: Path)
    ensures Folded(Elements(trail + [path])) == Folded(Elements(trail)) + {Fold(path)}
  {
    assert Elements(trail + [path]) == Elements(trail) + {path};
  }

  /** The file that is to be read for a name: it exists and is not being read already. */
  function Opened(env: Environment, trail: seq<Path>, s: Settings, name: string): Option<Path> {
    match env.resolve(s, name)
    case None => None
    case Some(path) => if OnTrail(trail, path) || path !in env.files then None else Some(path)
  }

  function ParseFile(env: Environment, trail: seq<Path>, s: Settings, name: string): Settings
    decreases Unvisited(env, trail), 0, 0, 0
  {
    match Opened(env, trail, s, name)
    case None => s
    case Some(path) =>
      UnvisitedShrinks(env, trail, path);
      Run(env, trail + [path], s, ReadAll(env.files[path], [], ""), Top).0
  }

  function ParseFiles(env: Environment, trail: seq<Path>, s: Settings, names: seq<string>): Settings
    decreases Unvisited(env, trail), 0, 1, |names|
  {
    if names == [] then s
    else ParseFiles(env, trail, ParseFile(env, trail, s, names[0]), names[1..])
  }

  /** A line that is no directive of a block. In a release build a stray one is a setting, too. */
  function ProcessPlain(env: Environment, trail: seq<Path>, s: Settings, line: Named): Settings
    decreases Unvisited(env, trail), 0, 2, 0
  {
    if Same(line.name, "include") then
      match env.target(line.value)
      case None => s
      case Some(name) => ParseFile(env, trail, s, name)
    else if Same(line.name, "includefolder") then
      ParseFiles(env, trail, s, env.folder(s, line.value))
    else if Same(line.name, "!SetVar") then
      Assigned(env, s, line.value)
    else s + [line]
  }

  // ---- Blocks ----

  /** The loop the parser is in: over a file, a branch that was true, or an else branch. */
  datatype Mode = Top | Branch | Otherwise

  /** Skips through the endif that closes the block. */
  function SkipIf(lines: seq<Named>): (rest: seq<Named>)
    ensures |rest| <= |lines|
    decreases |lines|
  {
    if lines == [] then []
    else match Kind(lines[0])
      case If => SkipIf(SkipIf(lines[1..]))
      case EndIf => lines[1..]
      case _ => SkipIf(lines[1..])
  }

  function ProcessLine(env: Environment, trail: seq<Path>, s: Settings, line: Named, lines: seq<Named>): (r: (Settings, seq<Named>))
    ensures |r.1| <= |lines|
    decreases Unvisited(env, trail), |lines|, 5, 0
  {
    if Kind(line).If? then ProcessIf(env, trail, s, line.value, lines)
    else (ProcessPlain(env, trail, s, line), lines)
  }

  function Run(env: Environment, trail: seq<Path>, s: Settings, lines: seq<Named>, mode: Mode): (r: (Settings, seq<Named>))
    ensures |r.1| <= |lines|
    decreases Unvisited(env, trail), |lines|, 3, 0
  {
    if lines == [] then (s, [])
    else
      var kind := Kind(lines[0]);
      if kind.EndIf? && !mode.Top? then (s, lines[1..])
      else if (kind.ElseIf? && !mode.Top?) || (kind.Else? && mode.Branch?) then (s, SkipIf(lines[1..]))
      else
        var r := ProcessLine(env, trail, s, lines[0], lines[1..]);
        Run(env, trail, r.0, r.1, mode)
  }

  /** Looks for the branch to take after a condition that was false. */
  function FindBranch(env: Environment, trail: seq<Path>, s: Settings, lines: seq<Named>): (r: (Settings, seq<Named>))
    ensures |r.1| <= |lines|
    decreases Unvisited(env, trail), |lines|, 3, 0
  {
    if lines == [] then (s, [])
    else match Kind(lines[0])
      case If => FindBranch(env, trail, s, SkipIf(lines[1..]))
      case ElseIf => ProcessIf(env, trail, s, lines[0].value, lines[1..])
      case Else => Run(env, trail, s, lines[1..], Otherwise)
      case EndIf => (s, lines[1..])
      case Plain => FindBranch(env, trail, s, lines[1..])
  }

  function ProcessIf(env: Environment, trail: seq<Path>, s: Settings, expression: string, lines: seq<Named>): (r: (Settings, seq<Named>))
    ensures |r.1| <= |lines|
    decreases Unvisited(env, trail), |lines|, 4, 0
  {
    match env.evaluate(s, expression)
    case None => (s, SkipIf(lines))
    case Some(true) => Run(env, trail, s, lines, Branch)
    case Some(false) => FindBranch(env, trail, s, lines)
  }

  // ---- Trees ----

  /** The lines of a file or a branch. */
  datatype Tree =
    | Empty
    | Entry(line: Named, next: Tree)
    | Block(first: Named, body: Tree, alternative: Alternative, last: Named, next: Tree)

  /** What is between the first branch of a block and its endif. */
  datatype Alternative =
    | NoMore
    | Elsewise(head: Named, body: Tree, more: Alternative)
    | ElseWhen(head: Named, body: Tree, more: Alternative)

  /** An elseif may come behind an else, which is an error in the file, but no second else. */
  predicate WellFormedTree(t: Tree) {
    match t
    case Empty => true
    case Entry(line, next) => Kind(line).Plain? && WellFormedTree(next)
    case Block(first, body, alternative, last, next) =>
      && Kind(first).If? && WellFormedTree(body) && WellFormedAlternative(alternative)
      && Kind(last).EndIf? && WellFormedTree(next)
  }

  predicate WellFormedAlternative(a: Alternative) {
    match a
    case NoMore => true
    case Elsewise(head, body, more) =>
      Kind(head).Else? && WellFormedTree(body) && WellFormedAlternative(more) && !more.Elsewise?
    case ElseWhen(head, body, more) =>
      Kind(head).ElseIf? && WellFormedTree(body) && WellFormedAlternative(more)
  }

  function Lines(t: Tree): seq<Named> {
    match t
    case Empty => []
    case Entry(line, next) => [line] + Lines(next)
    case Block(first, body, alternative, last, next) =>
      [first] + (Lines(body) + (AlternativeLines(alternative) + ([last] + Lines(next))))
  }

  function AlternativeLines(a: Alternative): seq<Named> {
    match a
    case NoMore => []
    case Elsewise(head, body, more) => [head] + (Lines(body) + AlternativeLines(more))
    case ElseWhen(head, body, more) => [head] + (Lines(body) + AlternativeLines(more))
  }

  /** What a tree does to the settings: the meaning of blocks. */
  function Eval(env: Environment, trail: seq<Path>, s: Settings, t: Tree): Settings
    decreases t
  {
    match t
    case Empty => s
    case Entry(line, next) => Eval(env, trail, ProcessPlain(env, trail, s, line), next)
    case Block(first, body, alternative, _, next) =>
      var s' := match env.evaluate(s, first.value)
        case None => s
        case Some(true) => Eval(env, trail, s, body)
        case Some(false) => EvalAlternative(env, trail, s, alternative);
      Eval(env, trail, s', next)
  }

  function EvalAlternative(env: Environment, trail: seq<Path>, s: Settings, a: Alternative): Settings
    decreases a
  {
    match a
    case NoMore => s
    case Elsewise(_, body, _) => Eval(env, trail, s, body)
    case ElseWhen(head, body, more) =>
      match env.evaluate(s, head.value)
      case None => s
      case Some(true) => Eval(env, trail, s, body)
      case Some(false) => EvalAlternative(env, trail, s, more)
  }

  // ---- Skipping ----

  lemma SkipIfStep(line: Named, rest: seq<Named>)
    ensures SkipIf([line] + rest)
         == if Kind(line).If? then SkipIf(SkipIf(rest))
            else if Kind(line).EndIf? then rest
            else SkipIf(rest)
  {
    hide Kind;
    assert ([line] + rest)[1..] == rest;
  }

  lemma LinesOfBlock(t: Tree, rest: seq<Named>)
    requires t.Block?
    ensures Lines(t) + rest
         == [t.first] + (Lines(t.body) + (AlternativeLines(t.alternative) + ([t.last] + (Lines(t.next) + rest))))
  {
  }

  lemma LinesOfAlternative(a: Alternative, end: seq<Named>)
    requires !a.NoMore?
    ensures AlternativeLines(a) + end == [a.head] + (Lines(a.body) + (AlternativeLines(a.more) + end))
  {
  }

  lemma LinesOfTree(t: Tree, rest: seq<Named>)
    requires !t.Block?
    ensures Lines(t) + rest == if t.Empty? then rest else [t.line] + (Lines(t.next) + rest)
  {
  }

  /** A block is skipped as a whole, wherever it is. */
  lemma {:induction false} SkipTree(t: Tree, rest: seq<Named>)
    requires WellFormedTree(t)
    ensures SkipIf(Lines(t) + rest) == SkipIf(rest)
    decreases t, 1
  {
    hide Kind, SkipIf, Lines, AlternativeLines;
    if t.Block? {
      SkipBlock(t, rest);
    } else {
      LinesOfTree(t, rest);
      if t.Entry? {
        SkipIfStep(t.line, Lines(t.next) + rest);
        SkipTree(t.next, rest);
      }
    }
  }

  lemma {:induction false} SkipBlock(t: Tree, rest: seq<Named>)
    requires t.Block? && WellFormedTree(t)
    ensures SkipIf(Lines(t) + rest) == SkipIf(rest)
    decreases t, 0
  {
    hide Kind, SkipIf, Lines, AlternativeLines;
    LinesOfBlock(t, rest);
    var behind := AlternativeLines(t.alternative) + ([t.last] + (Lines(t.next) + rest));
    SkipIfStep(t.first, Lines(t.body) + behind);
    SkipTree(t.body, behind);
    SkipAlternative(t.alternative, t.last, Lines(t.next) + rest);
    SkipTree(t.next, rest);
  }

  lemma {:induction false} SkipAlternative(a: Alternative, last: Named, rest: seq<Named>)
    requires WellFormedAlternative(a) && Kind(last).EndIf?
    ensures SkipIf(AlternativeLines(a) + ([last] + rest)) == rest
    decreases a, 1
  {
    hide Kind, SkipIf;
    var end := [last] + rest;
    if a.NoMore? {
      assert AlternativeLines(a) + end == end;
      SkipIfStep(last, rest);
    } else {
      LinesOfAlternative(a, end);
      SkipIfStep(a.head, Lines(a.body) + (AlternativeLines(a.more) + end));
      SkipTree(a.body, AlternativeLines(a.more) + end);
      SkipAlternative(a.more, last, rest);
    }
  }

  function Delta(line: Named): int {
    match Kind(line)
    case If => 1
    case EndIf => -1
    case _ => 0
  }

  /** How much deeper in blocks the first n lines lead. */
  function Depth(lines: seq<Named>, n: nat): int
    requires n <= |lines|
  {
    if n == 0 then 0 else Delta(lines[0]) + Depth(lines[1..], n - 1)
  }

  /** Skipping that counts the blocks it is in instead of calling itself for each. */
  function SkipCounting(lines: seq<Named>, inside: nat): seq<Named> {
    if lines == [] then []
    else match Kind(lines[0])
      case If => SkipCounting(lines[1..], inside + 1)
      case EndIf => if inside == 0 then lines[1..] else SkipCounting(lines[1..], inside - 1)
      case _ => SkipCounting(lines[1..], inside)
  }

  lemma {:induction false} SkippingCounts(lines: seq<Named>, inside: nat)
    ensures SkipCounting(lines, inside)
         == if inside == 0 then SkipIf(lines) else SkipCounting(SkipIf(lines), inside - 1)
    decreases |lines|
  {
    hide Kind;
    if lines != [] {
      match Kind(lines[0])
      case If =>
        SkippingCounts(lines[1..], inside + 1);
        SkippingCounts(SkipIf(lines[1..]), inside);
      case EndIf =>
        if inside > 0 {
          SkippingCounts(lines[1..], inside - 1);
        }
      case _ => SkippingCounts(lines[1..], inside);
    }
  }

  /** Behind the first n lines, and not before, the endif of the block has passed, if there is one. */
  predicate Closed(lines: seq<Named>, inside: nat, n: nat) {
    && n <= |lines| && (forall m | 0 <= m < n :: inside + Depth(lines, m) >= 0)
    && (inside + Depth(lines, n) == -1 || (n == |lines| && inside + Depth(lines, n) >= 0))
  }

  lemma ClosedFurther(lines: seq<Named>, inside: nat, inside': nat, n: nat)
    requires lines != [] && inside' == inside + Delta(lines[0]) && Closed(lines[1..], inside', n)
    ensures Closed(lines, inside, n + 1)
  {
    hide Delta;
    forall m | 0 <= m < n + 1
      ensures inside + Depth(lines, m) >= 0
    {
      if m > 0 {
        assert inside' + Depth(lines[1..], m - 1) >= 0;
      }
    }
  }

  lemma {:induction false} CountingCloses(lines: seq<Named>, inside: nat) returns (n: nat)
    ensures n <= |lines| && Closed(lines, inside, n) && SkipCounting(lines, inside) == lines[n..]
    decreases |lines|
  {
    hide Kind, Closed, Delta;
    if lines == [] {
      n := 0;
      NothingToClose(inside);
    } else if Kind(lines[0]).EndIf? && inside == 0 {
      n := 1;
      ClosedAtOnce(lines);
    } else {
      var inside' := CountedInside(lines, inside);
      var k := CountingCloses(lines[1..], inside');
      ClosedFurther(lines, inside, inside', k);
      n := k + 1;
      assert lines[1..][k..] == lines[n..];
    }
  }

  lemma CountedInside(lines: seq<Named>, inside: nat) returns (inside': nat)
    requires lines != [] && !(Kind(lines[0]).EndIf? && inside == 0)
    ensures inside' == inside + Delta(lines[0])
    ensures SkipCounting(lines, inside) == SkipCounting(lines[1..], inside')
  {
    hide Kind;
    inside' := inside + Delta(lines[0]);
  }

  lemma NothingToClose(inside: nat)
    ensures Closed([], inside, 0)
  {
  }

  lemma ClosedAtOnce(lines: seq<Named>)
    requires lines != [] && Kind(lines[0]).EndIf?
    ensures Closed(lines, 0, 1)
  {
    assert Depth(lines, 1) == -1;
  }

  /** SkipIf takes exactly the lines through the endif that closes the block, or all if there is none. */
  lemma SkipIfCloses(lines: seq<Named>)
    ensures Closed(lines, 0, |lines| - |SkipIf(lines)|) && SkipIf(lines) == lines[|lines| - |SkipIf(lines)|..]
  {
    SkippingCounts(lines, 0);
    var n := CountingCloses(lines, 0);
  }

  // ---- Blocks mean their trees ----

  function Size(t: Tree): nat {
    match t
    case Empty => 0
    case Entry(_, next) => 1 + Size(next)
    case Block(_, body, alternative, _, next) => 2 + Size(body) + AlternativeSize(alternative) + Size(next)
  }

  function AlternativeSize(a: Alternative): nat {
    match a
    case NoMore => 0
    case Elsewise(_, body, more) => 2 + Size(body) + AlternativeSize(more)
    case ElseWhen(_, body, more) => 2 + Size(body) + AlternativeSize(more)
  }

  lemma RunStep(env: Environment, trail: seq<Path>, s: Settings, line: Named, rest: seq<Named>, mode: Mode)
    ensures var r := ProcessLine(env, trail, s, line, rest);
      Run(env, trail, s, [line] + rest, mode)
      == if Kind(line).EndIf? && !mode.Top? then (s, rest)
         else if (Kind(line).ElseIf? && !mode.Top?) || (Kind(line).Else? && mode.Branch?) then (s, SkipIf(rest))
         else Run(env, trail, r.0, r.1, mode)
  {
    hide Kind, ProcessLine, SkipIf;
    assert ([line] + rest)[1..] == rest;
  }

  lemma RunPlain(env: Environment, trail: seq<Path>, s: Settings, line: Named, rest: seq<Named>, mode: Mode)
    requires Kind(line).Plain?
    ensures Run(env, trail, s, [line] + rest, mode) == Run(env, trail, ProcessPlain(env, trail, s, line), rest, mode)
  {
    hide Kind, ProcessPlain;
    assert ([line] + rest)[1..] == rest;
  }

  lemma RunBlock(env: Environment, trail: seq<Path>, s: Settings, line: Named, lines: seq<Named>, mode: Mode)
    requires Kind(line).If?
    ensures var r := ProcessIf(env, trail, s, line.value, lines);
      Run(env, trail, s, [line] + lines, mode) == Run(env, trail, r.0, r.1, mode)
  {
    hide Kind, ProcessPlain, ProcessIf;
    assert ([line] + lines)[1..] == lines;
  }

  /** A loop over the lines of a tree does what the tree means, whatever follows. */
  lemma {:induction false} RunTree(env: Environment, trail: seq<Path>, s: Settings, t: Tree, rest: seq<Named>, mode: Mode)
    requires WellFormedTree(t)
    ensures Run(env, trail, s, Lines(t) + rest, mode) == Run(env, trail, Eval(env, trail, s, t), rest, mode)
    decreases Size(t), 1
  {
    hide Run, ProcessPlain, ProcessIf, Lines, Kind;
    if t.Block? {
      RunBlockTree(env, trail, s, t, rest, mode);
    } else {
      LinesOfTree(t, rest);
      if t.Entry? {
        RunPlain(env, trail, s, t.line, Lines(t.next) + rest, mode);
        RunTree(env, trail, ProcessPlain(env, trail, s, t.line), t.next, rest, mode);
      }
    }
  }

  lemma {:induction false} RunBlockTree(env: Environment, trail: seq<Path>, s: Settings, t: Tree, rest: seq<Named>, mode: Mode)
    requires t.Block? && WellFormedTree(t)
    ensures Run(env, trail, s, Lines(t) + rest, mode) == Run(env, trail, Eval(env, trail, s, t), rest, mode)
    decreases Size(t), 0
  {
    LinesOfBlock(t, rest);
    EvalOfBlock(env, trail, s, t);
    hide Run, ProcessPlain, ProcessIf, Eval, Choose, Lines, AlternativeLines, Kind;
    var behind := Lines(t.next) + rest;
    var lines := Lines(t.body) + (AlternativeLines(t.alternative) + ([t.last] + behind));
    BlockMeansTree(env, trail, s, t.first.value, t.body, t.alternative, t.last, behind);
    RunBlock(env, trail, s, t.first, lines, mode);
    RunTree(env, trail, Choose(env, trail, s, t.first.value, t.body, t.alternative), t.next, rest, mode);
  }

  lemma EvalOfBlock(env: Environment, trail: seq<Path>, s: Settings, t: Tree)
    requires t.Block?
    ensures Eval(env, trail, s, t) == Eval(env, trail, Choose(env, trail, s, t.first.value, t.body, t.alternative), t.next)
  {
    hide ProcessPlain;
  }

  function Choose(env: Environment, trail: seq<Path>, s: Settings, expression: string, body: Tree, alternative: Alternative): Settings {
    match env.evaluate(s, expression)
    case None => s
    case Some(true) => Eval(env, trail, s, body)
    case Some(false) => EvalAlternative(env, trail, s, alternative)
  }

  lemma {:induction false} BlockMeansTree(env: Environment, trail: seq<Path>, s: Settings, expression: string, body: Tree,
      alternative: Alternative, last: Named, rest: seq<Named>)
    requires WellFormedTree(body) && WellFormedAlternative(alternative) && Kind(last).EndIf?
    ensures ProcessIf(env, trail, s, expression, Lines(body) + (AlternativeLines(alternative) + ([last] + rest)))
         == (Choose(env, trail, s, expression, body, alternative), rest)
    decreases Size(body) + AlternativeSize(alternative) + 1, 0
  {
    hide Kind, Run, FindBranch;
    var behind := AlternativeLines(alternative) + ([last] + rest);
    match env.evaluate(s, expression)
    case None =>
      SkipTree(body, behind);
      SkipAlternative(alternative, last, rest);
    case Some(true) =>
      RunTree(env, trail, s, body, behind, Branch);
      EndOfBranch(env, trail, Eval(env, trail, s, body), alternative, last, rest);
    case Some(false) =>
      FindBranchBehind(env, trail, s, body, behind);
      AlternativeMeansTree(env, trail, s, alternative, last, rest);
  }

  lemma EndOfBranch(env: Environment, trail: seq<Path>, s: Settings, a: Alternative, last: Named, rest: seq<Named>)
    requires WellFormedAlternative(a) && Kind(last).EndIf?
    ensures Run(env, trail, s, AlternativeLines(a) + ([last] + rest), Branch) == (s, rest)
  {
    hide Kind, Run, SkipIf;
    var end := [last] + rest;
    if a.NoMore? {
      assert AlternativeLines(a) + end == end;
      RunStep(env, trail, s, last, rest, Branch);
    } else {
      LinesOfAlternative(a, end);
      RunStep(env, trail, s, a.head, Lines(a.body) + (AlternativeLines(a.more) + end), Branch);
      SkipTree(a.body, AlternativeLines(a.more) + end);
      SkipAlternative(a.more, last, rest);
    }
  }

  lemma FindBranchLine(env: Environment, trail: seq<Path>, s: Settings, line: Named, rest: seq<Named>)
    requires Kind(line).Plain? || Kind(line).If?
    ensures FindBranch(env, trail, s, [line] + rest)
         == FindBranch(env, trail, s, if Kind(line).If? then SkipIf(rest) else rest)
  {
    hide Kind, SkipIf;
    assert ([line] + rest)[1..] == rest;
  }

  lemma FindBranchPastBlock(env: Environment, trail: seq<Path>, s: Settings, t: Tree, rest: seq<Named>)
    requires t.Block? && WellFormedTree(t)
    ensures FindBranch(env, trail, s, Lines(t) + rest) == FindBranch(env, trail, s, Lines(t.next) + rest)
  {
    LinesOfBlock(t, rest);
    hide Kind, FindBranch, SkipIf, Lines, AlternativeLines;
    var behind := AlternativeLines(t.alternative) + ([t.last] + (Lines(t.next) + rest));
    FindBranchLine(env, trail, s, t.first, Lines(t.body) + behind);
    SkipTree(t.body, behind);
    SkipAlternative(t.alternative, t.last, Lines(t.next) + rest);
  }

  lemma {:induction false} FindBranchBehind(env: Environment, trail: seq<Path>, s: Settings, t: Tree, rest: seq<Named>)
    requires WellFormedTree(t)
    ensures FindBranch(env, trail, s, Lines(t) + rest) == FindBranch(env, trail, s, rest)
    decreases t
  {
    hide Kind, FindBranch, Lines;
    if t.Block? {
      FindBranchPastBlock(env, trail, s, t, rest);
      FindBranchBehind(env, trail, s, t.next, rest);
    } else {
      LinesOfTree(t, rest);
      if t.Entry? {
        FindBranchLine(env, trail, s, t.line, Lines(t.next) + rest);
        FindBranchBehind(env, trail, s, t.next, rest);
      }
    }
  }

  lemma {:induction false} AlternativeMeansTree(env: Environment, trail: seq<Path>, s: Settings, a: Alternative, last: Named, rest: seq<Named>)
    requires WellFormedAlternative(a) && Kind(last).EndIf?
    ensures FindBranch(env, trail, s, AlternativeLines(a) + ([last] + rest)) == (EvalAlternative(env, trail, s, a), rest)
    decreases AlternativeSize(a), 0
  {
    hide Run, ProcessIf;
    var end := [last] + rest;
    FindBranchStep(env, trail, s, a, last, rest);
    match a
    case NoMore =>
    case Elsewise(head, body, more) =>
      RunTree(env, trail, s, body, AlternativeLines(more) + end, Otherwise);
      EndOfElse(env, trail, Eval(env, trail, s, body), more, last, rest);
    case ElseWhen(head, body, more) =>
      BlockMeansTree(env, trail, s, head.value, body, more, last, rest);
  }

  lemma FindBranchStep(env: Environment, trail: seq<Path>, s: Settings, a: Alternative, last: Named, rest: seq<Named>)
    requires WellFormedAlternative(a) && Kind(last).EndIf?
    ensures var end := [last] + rest;
      FindBranch(env, trail, s, AlternativeLines(a) + end)
      == if a.NoMore? then (s, rest)
         else if a.Elsewise? then Run(env, trail, s, Lines(a.body) + (AlternativeLines(a.more) + end), Otherwise)
         else ProcessIf(env, trail, s, a.head.value, Lines(a.body) + (AlternativeLines(a.more) + end))
  {
    hide Kind, Run, ProcessIf;
    var end := [last] + rest;
    if a.NoMore? {
      assert AlternativeLines(a) + end == end && end[1..] == rest;
    } else {
      assert (AlternativeLines(a) + end)[1..] == Lines(a.body) + (AlternativeLines(a.more) + end);
    }
  }

  lemma EndOfElse(env: Environment, trail: seq<Path>, s: Settings, a: Alternative, last: Named, rest: seq<Named>)
    requires WellFormedAlternative(a) && !a.Elsewise? && Kind(last).EndIf?
    ensures Run(env, trail, s, AlternativeLines(a) + ([last] + rest), Otherwise) == (s, rest)
  {
    hide Kind, Run, SkipIf;
    var end := [last] + rest;
    if a.NoMore? {
      assert AlternativeLines(a) + end == end;
      RunStep(env, trail, s, last, rest, Otherwise);
    } else {
      LinesOfAlternative(a, end);
      RunStep(env, trail, s, a.head, Lines(a.body) + (AlternativeLines(a.more) + end), Otherwise);
      SkipTree(a.body, AlternativeLines(a.more) + end);
      SkipAlternative(a.more, last, rest);
    }
  }

  /** A file whose lines are those of a tree does what the tree means. */
  lemma FileMeansItsTree(env: Environment, trail: seq<Path>, s: Settings, name: string, t: Tree)
    requires WellFormedTree(t) && Opened(env, trail, s, name).Some?
    requires ReadAll(env.files[Opened(env, trail, s, name).value], [], "") == Lines(t)
    ensures ParseFile(env, trail, s, name) == Eval(env, trail + [Opened(env, trail, s, name).value], s, t)
  {
    var path := Opened(env, trail, s, name).value;
    assert Lines(t) + [] == Lines(t);
    RunTree(env, trail + [path], s, t, [], Top);
  }

  /** The same for a file that writes the lines of the tree in groups. */
  lemma GroupedFileMeansItsTree(env: Environment, trail: seq<Path>, s: Settings, name: string, g: Groups, t: Tree)
    requires WellFormed(g) && ValuelessHeads(g) && Flat(g, []) == Lines(t)
    requires WellFormedTree(t) && Opened(env, trail, s, name).Some?
    requires env.files[Opened(env, trail, s, name).value] == Written(g)
    ensures ParseFile(env, trail, s, name) == Eval(env, trail + [Opened(env, trail, s, name).value], s, t)
  {
    ValuelessGroupsMeanConcatenation(g, [], []);
    assert Written(g) + [] == Written(g);
    assert ReadAll([], [], "") == [];
    FileMeansItsTree(env, trail, s, name, t);
  }

  // ---- What files leave ----

  /** The line is a setting. */
  predicate IsSetting(line: Named) {
    && !Same(line.name, "if") && !Same(line.name, "elseif") && !Same(line.name, "else") && !Same(line.name, "endif")
    && !Same(line.name, "include") && !Same(line.name, "includefolder") && !Same(line.name, "!SetVar")
  }

  predicate AreSettings(lines: seq<Named>) {
    forall i | 0 <= i < |lines| :: IsSetting(lines[i])
  }

  function Entries(lines: seq<Named>): Tree {
    if lines == [] then Empty else Entry(lines[0], Entries(lines[1..]))
  }

  lemma {:induction false} EntriesEval(env: Environment, trail: seq<Path>, s: Settings, lines: seq<Named>)
    requires AreSettings(lines)
    ensures WellFormedTree(Entries(lines)) && Lines(Entries(lines)) == lines
    ensures Eval(env, trail, s, Entries(lines)) == s + lines
    decreases |lines|
  {
    hide Same;
    if lines == [] {
      assert s + lines == s;
    } else {
      EntriesEval(env, trail, s + [lines[0]], lines[1..]);
      assert [lines[0]] + lines[1..] == lines;
      assert s + [lines[0]] + lines[1..] == s + lines;
    }
  }

  /** A name leads to a file that is not being read, under whatever settings. */
  ghost predicate LeadsTo(env: Environment, trail: seq<Path>, name: string, path: Path) {
    (forall i | 0 <= i < |trail| :: !Same(trail[i], path)) && forall s :: env.resolve(s, name) == Some(path)
  }

  /** A file of settings adds its lines, with the names that its groups give them, in their order. */
  lemma FileOfSettings(env: Environment, trail: seq<Path>, s: Settings, name: string, path: Path, g: Groups)
    requires env.resolve(s, name) == Some(path) && path in env.files && forall i | 0 <= i < |trail| :: !Same(trail[i], path)
    requires env.files[path] == Written(g) && WellFormed(g) && ValuelessHeads(g) && AreSettings(Flat(g, []))
    ensures ParseFile(env, trail, s, name) == s + Flat(g, [])
  {
    EntriesEval(env, trail + [path], s, Flat(g, []));
    assert Opened(env, trail, s, name) == Some(path);
    hide Opened, ParseFile, Eval, AreSettings;
    GroupedFileMeansItsTree(env, trail, s, name, g, Entries(Flat(g, [])));
  }

  /** A name that leads nowhere, to no file or to one that is being read adds nothing. */
  lemma FileNotRead(env: Environment, trail: seq<Path>, s: Settings, name: string)
    requires env.resolve(s, name).None?
      || env.resolve(s, name).value !in env.files
      || exists i | 0 <= i < |trail| :: Same(trail[i], env.resolve(s, name).value)
    ensures ParseFile(env, trail, s, name) == s
  {
  }

  /** An include directive reads the file it names, and nothing else happens. */
  lemma IncludeReads(env: Environment, trail: seq<Path>, s: Settings, line: Named)
    requires Same(line.name, "include")
    ensures WellFormedTree(Entry(line, Empty))
    ensures Eval(env, trail, s, Entry(line, Empty))
         == match env.target(line.value)
            case None => s
            case Some(name) => ParseFile(env, trail, s, name)
  {
    DirectivesArePlain(line);
    hide Same, ParseFile;
  }

  lemma DirectivesArePlain(line: Named)
    ensures Same(line.name, "include") || Same(line.name, "includefolder") || Same(line.name, "!SetVar") ==> Kind(line).Plain?
    ensures Same(line.name, "include") ==> !Same(line.name, "includefolder") && !Same(line.name, "!SetVar")
    ensures Same(line.name, "includefolder") ==> !Same(line.name, "!SetVar")
  {
    FoldLength("if");
    FoldLength("else");
    FoldLength("elseif");
    FoldLength("endif");
    FoldLength("include");
    FoldLength("includefolder");
    FoldLength("!SetVar");
    FoldAt("include", 0);
    FoldAt("!SetVar", 0);
  }

  /** The lines of the files one after the other. */
  function AllLines(env: Environment, paths: seq<Path>): seq<Named>
    requires forall i | 0 <= i < |paths| :: paths[i] in env.files
  {
    if paths == [] then [] else ReadAll(env.files[paths[0]], [], "") + AllLines(env, paths[1..])
  }

  /** A directive for a folder of files of settings adds the lines of all of them, in their order. */
  lemma FolderOfSettings(env: Environment, trail: seq<Path>, s: Settings, line: Named, paths: seq<Path>)
    requires Same(line.name, "includefolder") && |env.folder(s, line.value)| == |paths|
    requires forall i | 0 <= i < |paths| :: paths[i] in env.files
    requires forall i | 0 <= i < |paths| :: LeadsTo(env, trail, env.folder(s, line.value)[i], paths[i])
    requires AreSettings(AllLines(env, paths))
    ensures WellFormedTree(Entry(line, Empty))
    ensures Eval(env, trail, s, Entry(line, Empty)) == s + AllLines(env, paths)
  {
    DirectivesArePlain(line);
    hide Same, ParseFile, ParseFiles, AllLines, AreSettings, LeadsTo;
    FilesOfSettings(env, trail, s, env.folder(s, line.value), paths);
  }

  lemma {:induction false} FilesOfSettings(env: Environment, trail: seq<Path>, s: Settings, names: seq<string>, paths: seq<Path>)
    requires |names| == |paths| && forall i | 0 <= i < |paths| :: paths[i] in env.files
    requires forall i | 0 <= i < |paths| :: LeadsTo(env, trail, names[i], paths[i])
    requires AreSettings(AllLines(env, paths))
    ensures ParseFiles(env, trail, s, names) == s + AllLines(env, paths)
    decreases |names|
  {
    hide Same, ReadAll;
    if names == [] {
      assert s + AllLines(env, paths) == s;
    } else {
      var lines, more := ReadAll(env.files[paths[0]], [], ""), AllLines(env, paths[1..]);
      assert AllLines(env, paths) == lines + more;
      SettingsApart(lines, more);
      EntriesEval(env, trail + [paths[0]], s, lines);
      assert LeadsTo(env, trail, names[0], paths[0]);
      assert Opened(env, trail, s, names[0]) == Some(paths[0]);
      FileMeansItsTree(env, trail, s, names[0], Entries(lines));
      hide ParseFile;
      FilesOfSettings(env, trail, s + lines, names[1..], paths[1..]);
      assert (s + lines) + more == s + (lines + more);
    }
  }

  lemma SettingsApart(lines: seq<Named>, more: seq<Named>)
    requires AreSettings(lines + more)
    ensures AreSettings(lines) && AreSettings(more)
  {
    forall i | 0 <= i < |lines|
      ensures IsSetting(lines[i])
    {
      assert (lines + more)[i] == lines[i];
    }
    forall i | 0 <= i < |more|
      ensures IsSetting(more[i])
    {
      assert (lines + more)[|lines| + i] == more[i];
    }
  }

  /** The values that a name has in the settings, in their order. */
  function Values(s: Settings, name: string): seq<string> {
    if s == [] then [] else (if Same(s[0].name, name) then [s[0].value] else []) + Values(s[1..], name)
  }

  /** A !SetVar gives the variable the one new value, and all other names keep theirs. */
  lemma SetVarReplaces(env: Environment, trail: seq<Path>, s: Settings, line: Named, other: string)
    requires Same(line.name, "!SetVar")
    ensures WellFormedTree(Entry(line, Empty))
    ensures var s', v := Eval(env, trail, s, Entry(line, Empty)), env.assign(s, line.value);
      Values(s', other) == if v.Some? && Same(v.value.name, other) then [v.value.value] else Values(s, other)
  {
    DirectivesArePlain(line);
    match env.assign(s, line.value)
    case None =>
    case Some(setting) =>
      hide Same;
      ValuesWithout(s, setting.name, other);
      ValuesAppended(Without(s, setting.name), setting, other);
  }

  lemma {:induction false} ValuesWithout(s: Settings, name: string, other: string)
    ensures Values(Without(s, name), other) == if Same(name, other) then [] else Values(s, other)
  {
    if s != [] {
      ValuesWithout(s[1..], name, other);
      var rest := Without(s[1..], name);
      assert ([s[0]] + rest)[1..] == rest;
      assert [] + rest == rest;
    }
  }

  lemma {:induction false} ValuesAppended(s: Settings, line: Named, name: string)
    ensures Values(s + [line], name) == Values(s, name) + if Same(line.name, name) then [line.value] else []
  {
    hide Same;
    if s != [] {
      assert (s + [line])[1..] == s[1..] + [line];
      ValuesAppended(s[1..], line, name);
    } else {
      assert [line][1..] == [];
    }
  }

  /** At the top of a file an else, elseif or endif that belongs to no if is taken for a setting. */
  lemma {:induction false} StrayLines(env: Environment, trail: seq<Path>, s: Settings, lines: seq<Named>)
    requires forall i | 0 <= i < |lines| ::
      IsSetting(lines[i]) || Same(lines[i].name, "elseif") || Same(lines[i].name, "else") || Same(lines[i].name, "endif")
    ensures Run(env, trail, s, lines, Top) == (s + lines, [])
    decreases |lines|
  {
    hide Run, Same, ProcessLine;
    if lines == [] {
      RunNothing(env, trail, s, Top);
      assert s + lines == s;
    } else {
      StrayIsAdded(env, trail, s, lines[0], lines[1..]);
      RunStep(env, trail, s, lines[0], lines[1..], Top);
      StrayLines(env, trail, s + [lines[0]], lines[1..]);
      assert [lines[0]] + lines[1..] == lines;
      assert s + [lines[0]] + lines[1..] == s + lines;
    }
  }

  lemma StrayIsAdded(env: Environment, trail: seq<Path>, s: Settings, line: Named, rest: seq<Named>)
    requires IsSetting(line) || Same(line.name, "elseif") || Same(line.name, "else") || Same(line.name, "endif")
    ensures ProcessLine(env, trail, s, line, rest) == (s + [line], rest)
  {
    KindIs(line);
    StrayIsPlain(line);
    hide Same, Kind, ProcessIf;
  }

  lemma StrayIsPlain(line: Named)
    ensures Same(line.name, "elseif") || Same(line.name, "else") || Same(line.name, "endif") ==>
      !Same(line.name, "if") && !Same(line.name, "include") && !Same(line.name, "includefolder") && !Same(line.name, "!SetVar")
  {
    FoldLength("if");
    FoldLength("else");
    FoldLength("elseif");
    FoldLength("endif");
    FoldLength("include");
    FoldLength("includefolder");
    FoldLength("!SetVar");
  }

  /** A block that is not closed ends with the file. */
  lemma UnclosedBlock(env: Environment, trail: seq<Path>, s: Settings, first: Named, yes: seq<Named>)
    requires Same(first.name, "if") && AreSettings(yes)
    ensures Run(env, trail, s, [first] + yes, Top)
         == (match env.evaluate(s, first.value)
             case None => s
             case Some(true) => s + yes
             case Some(false) => s, [])
  {
    KindIs(first);
    EntriesEval(env, trail, s, yes);
    hide Same, Kind, SkipIf, FindBranch, Run, Lines, Eval, AreSettings;
    assert yes + [] == yes;
    RunBlock(env, trail, s, first, yes, Top);
    RunNothing(env, trail, s, Top);
    RunNothing(env, trail, s + yes, Top);
    RunNothing(env, trail, s + yes, Branch);
    FindNothing(env, trail, s);
    SkipNothing();
    RunTree(env, trail, s, Entries(yes), [], Branch);
    FindBranchBehind(env, trail, s, Entries(yes), []);
    SkipTree(Entries(yes), []);
  }

  lemma RunNothing(env: Environment, trail: seq<Path>, s: Settings, mode: Mode)
    ensures Run(env, trail, s, [], mode) == (s, [])
  {
  }

  lemma FindNothing(env: Environment, trail: seq<Path>, s: Settings)
    ensures FindBranch(env, trail, s, []) == (s, [])
  {
  }

  lemma SkipNothing()
    ensures SkipIf([]) == []
  {
  }

  /** In a file with a block of two branches one of them adds its settings, or none if the condition is in error. */
  lemma FileWithBlock(env: Environment, trail: seq<Path>, s: Settings, name: string, path: Path, condition: string,
      yes: seq<Named>, no: seq<Named>)
    requires env.resolve(s, name) == Some(path) && path in env.files && forall i | 0 <= i < |trail| :: !Same(trail[i], path)
    requires AreSettings(yes) && AreSettings(no)
    requires ReadAll(env.files[path], [], "")
          == [Named("if", condition)] + (yes + ([Named("else", "")] + (no + [Named("endif", "")])))
    ensures ParseFile(env, trail, s, name)
         == match env.evaluate(s, condition)
            case None => s
            case Some(true) => s + yes
            case Some(false) => s + no
  {
    assert Opened(env, trail, s, name) == Some(path);
    hide *;
    var tree := TwoBranches(condition, Entries(yes), Entries(no));
    TwoBranchesEval(env, trail + [path], s, condition, yes, no);
    FileMeansItsTree(env, trail, s, name, tree);
  }

  function TwoBranches(condition: string, yes: Tree, no: Tree): Tree {
    Block(Named("if", condition), yes, Elsewise(Named("else", ""), no, NoMore), Named("endif", ""), Empty)
  }

  lemma TwoBranchesFit(condition: string, yes: Tree, no: Tree)
    requires WellFormedTree(yes) && WellFormedTree(no)
    ensures WellFormedTree(TwoBranches(condition, yes, no))
  {
    KindIs(Named("if", condition));
    KindIs(Named("else", ""));
    KindIs(Named("endif", ""));
    hide Kind, Fold;
    assert WellFormedAlternative(NoMore) && WellFormedTree(Empty);
    assert WellFormedAlternative(Elsewise(Named("else", ""), no, NoMore));
  }

  lemma TwoBranchesEval(env: Environment, trail: seq<Path>, s: Settings, condition: string, yes: seq<Named>, no: seq<Named>)
    requires AreSettings(yes) && AreSettings(no)
    ensures var tree := TwoBranches(condition, Entries(yes), Entries(no));
      && WellFormedTree(tree)
      && Lines(tree) == [Named("if", condition)] + (yes + ([Named("else", "")] + (no + [Named("endif", "")])))
      && Eval(env, trail, s, tree)
         == match env.evaluate(s, condition)
            case None => s
            case Some(true) => s + yes
            case Some(false) => s + no
  {
    EntriesEval(env, trail, s, yes);
    EntriesEval(env, trail, s, no);
    TwoBranchesFit(condition, Entries(yes), Entries(no));
    hide Lines, Eval, EvalAlternative, AreSettings, Entries, WellFormedTree;
    var tree := TwoBranches(condition, Entries(yes), Entries(no));
    BlockLines(tree.first, Entries(yes), tree.alternative.head, Entries(no), tree.last);
    EvalOfBlock(env, trail, s, tree);
    ElseEval(env, trail, s, Choose(env, trail, s, condition, tree.body, tree.alternative), tree.alternative.head, Entries(no));
  }

  lemma ElseEval(env: Environment, trail: seq<Path>, s: Settings, s': Settings, middle: Named, no: Tree)
    ensures Eval(env, trail, s', Empty) == s'
    ensures EvalAlternative(env, trail, s, Elsewise(middle, no, NoMore)) == Eval(env, trail, s, no)
  {
  }

  lemma BlockLines(first: Named, yes: Tree, middle: Named, no: Tree, last: Named)
    ensures Lines(Block(first, yes, Elsewise(middle, no, NoMore), last, Empty))
         == [first] + (Lines(yes) + ([middle] + (Lines(no) + [last])))
  {
    AlternativeOnce(middle, no);
    hide AlternativeLines;
    var a, b := Lines(yes), Lines(no);
    Regroup(middle, b, last);
  }

  lemma AlternativeOnce(middle: Named, no: Tree)
    ensures AlternativeLines(Elsewise(middle, no, NoMore)) == [middle] + Lines(no)
  {
    hide Lines;
    assert AlternativeLines(NoMore) == [];
    assert Lines(no) + [] == Lines(no);
  }

  lemma Regroup(middle: Named, lines: seq<Named>, last: Named)
    ensures [middle] + lines + ([last] + []) == [middle] + (lines + [last])
  {
  }

  // ---- The branch that is taken ----

  datatype Case = Case(head: Named, body: Tree)

  function Cases(cases: seq<Case>, final: Alternative): Alternative {
    if cases == [] then final else ElseWhen(cases[0].head, cases[0].body, Cases(cases[1..], final))
  }

  /**
    Among the branches of a block the first whose condition is not false decides, and all
    conditions are evaluated with the settings as they were at the if: its branch is taken if
    it is true, none if it has an error. Otherwise the else branch is taken.
   */
  lemma {:induction false} FirstDecides(env: Environment, trail: seq<Path>, s: Settings, cases: seq<Case>, final: Alternative, k: nat)
    requires k <= |cases| && !final.ElseWhen?
    requires forall i | 0 <= i < k :: env.evaluate(s, cases[i].head.value) == Some(false)
    requires k < |cases| ==> env.evaluate(s, cases[k].head.value) != Some(false)
    ensures EvalAlternative(env, trail, s, Cases(cases, final))
         == if k == |cases| then (if final.Elsewise? then Eval(env, trail, s, final.body) else s)
            else if env.evaluate(s, cases[k].head.value) == Some(true) then Eval(env, trail, s, cases[k].body)
            else s
  {
    hide Eval;
    if k > 0 {
      FirstDecides(env, trail, s, cases[1..], final, k - 1);
    }
  }

  // ---- The trail of files ----

  predicate NoFileTwice(trail: seq<Path>) {
    forall i, j | 0 <= i < j < |trail| :: !Same(trail[i], trail[j])
  }

  lemma PushedOnce(trail: seq<Path>, path: Path)
    requires NoFileTwice(trail) && !OnTrail(trail, path)
    ensures NoFileTwice(trail + [path])
  {
    hide Same;
  }

  /** So includes do not nest deeper than there are files. */
  lemma {:induction false} TrailIsBounded(files: set<Path>, trail: seq<Path>)
    requires NoFileTwice(trail) && forall i | 0 <= i < |trail| :: trail[i] in files
    ensures |trail| <= |Folded(files)|
  {
    FoldedTrail(Folded(files), trail);
  }

  lemma {:induction false} FoldedTrail(names: set<string>, trail: seq<Path>)
    requires NoFileTwice(trail) && forall i | 0 <= i < |trail| :: Fold(trail[i]) in names
    ensures |trail| <= |names|
  {
    hide Fold;
    if trail != [] {
      var n := |trail| - 1;
      forall i | 0 <= i < n
        ensures Fold(trail[..n][i]) in names - {Fold(trail[n])}
      {
        var last := n;
        assert !Same(trail[i], trail[last]);
      }
      FoldedTrail(names - {Fold(trail[n])}, trail[..n]);
    }
  }
}

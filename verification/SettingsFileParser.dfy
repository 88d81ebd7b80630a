/**
  The class of lsapi/SettingsFileParser.cpp: it reads a file line by line with one line of
  read-ahead, keeps the stack of prefixes, and calls itself for blocks and included files.
 */
module SettingsFileParser {
  import opened Options
  import opened Strings
  import opened Prefixes
  import opened Blocks

  /** The settings that all parsers add to. */
  class SettingsMap {
    var items: Settings

    constructor ()
      ensures items == []
    {
      items := [];
    }
  }

  /** The files that are being read, shared by the parsers of included files. */
  class Trail {
    var paths: seq<Path>

    constructor ()
      ensures paths == []
    {
      paths := [];
    }
  }

  class FileParser {
    const env: Environment
    const settings: SettingsMap
    const trail: Trail
    var file: seq<RawLine>            // what has not been read of the file
    var readAhead: Option<RawLine>
    var stack: seq<string>

    ghost predicate Valid()
      reads this
    {
      readAhead.None? ==> file == []
    }

    /** The lines that have not been processed. */
    ghost function Remaining(): seq<RawLine>
      reads this
    {
      match readAhead
      case None => []
      case Some(line) => [line] + file
    }

    /** The lines that are going to be read, with their full keys. */
    ghost function Pending(): seq<Named>
      reads this
    {
      ReadAll(Remaining(), stack, "")
    }

    constructor (env: Environment, settings: SettingsMap, trail: Trail)
      ensures Valid() && this.env == env && this.settings == settings && this.trail == trail
      ensures stack == [] && Remaining() == []
    {
      this.env, this.settings, this.trail := env, settings, trail;
      file, readAhead, stack := [], None, [];
    }

    method ReadNextLine()
      modifies this`file, this`readAhead
      ensures Valid() && Remaining() == old(file)
    {
      if file == [] {
        readAhead := None;
      } else {
        readAhead := Some(file[0]);
        file := file[1..];
      }
    }

    /** The value with its references to group names replaced, appended to what the buffer holds. */
    method ExpandValue(text: string, value: string) returns (kept: string, last: string)
      ensures kept == text + Kept(value, stack) && last == Last(value, stack)
    {
      hide Kept, Last, Split, Find, RunLength;
      kept, last := text, value;
      if |stack| > 0 {
        while '@' in last
          invariant kept + Kept(last, stack) == text + Kept(value, stack)
          invariant Last(last, stack) == Last(value, stack)
          decreases |last|
        {
          ghost var before, all := kept, last;
          var at := Find(last, '@');
          kept := kept + last[..at];
          var level, end := 0, at;
          while end + 1 < |last| && last[end + 1] == '@'
            invariant at <= end < |last| && level == end - at
            invariant forall i | at <= i <= end :: last[i] == '@'
          {
            level := level + 1;
            end := end + 1;
          }
          if level < |stack| {
            kept := kept + stack[level];
          }
          last := last[end + 1..];
          SplitAt(all, at, level + 1);
          KeptStep(before, kept, all, stack, last);
        }
      }
      NothingLeft(kept, last, stack);
    }

    /** The next line; none at the end of the file. */
    method ReadLineFromFile(text: string) returns (line: Option<Named>)
      requires Valid()
      modifies this
      ensures Valid()
      ensures match ReadLine(old(Remaining()), old(stack), text)
        case End => line.None? && Remaining() == []
        case Line(l, lines, stack') => line == Some(l) && Remaining() == lines && stack == stack'
      decreases |Remaining()|
    {
      hide Kept, Last, FullKey, ReadLine;
      ReadLineStep(Remaining(), stack, text);
      if readAhead.None? {
        return None;
      }
      var raw := readAhead.value;
      assert Remaining()[1..] == file;
      if raw.key[0] == '}' {
        if stack != [] {
          stack := stack[1..];
        }
        ReadNextLine();
        line := ReadLineFromFile(text);
        return;
      }
      var name := FullKey(raw.key, stack);
      var kept, last := ExpandValue(text, raw.value);
      ReadNextLine();
      if readAhead.Some? && readAhead.value.key[0] == '{' {
        stack := [name] + stack;
        assert old(Remaining())[2..] == file;
        ReadNextLine();
        line := ReadLineFromFile(kept);
      } else {
        assert kept + last == text + Expand(raw.value, stack);
        line := Some(Named(name, kept + last));
      }
    }

    /** The next line as the rest of the parser sees it. */
    method NextLine() returns (line: Option<Named>)
      requires Valid()
      modifies this
      ensures Valid()
      ensures old(Pending()) == (if line.None? then [] else [line.value] + Pending())
      ensures line.None? ==> Pending() == []
    {
      line := ReadLineFromFile("");
    }

    method SkipIf()
      requires Valid()
      modifies this
      ensures Valid() && Pending() == Blocks.SkipIf(old(Pending()))
      decreases |Pending()|
    {
      var line := NextLine();
      while line.Some?
        invariant Valid()
        invariant line.None? ==> Pending() == [] && Blocks.SkipIf(old(Pending())) == []
        invariant line.Some? ==> Blocks.SkipIf([line.value] + Pending()) == Blocks.SkipIf(old(Pending()))
        invariant line.Some? ==> |Pending()| < |old(Pending())|
        decreases line.Some?, |Pending()|
      {
        KindIs(line.value);
        SkipIfStep(line.value, Pending());
        if Same(line.value.name, "if") {
          SkipIf();
        } else if Same(line.value.name, "endif") {
          break;
        }
        line := NextLine();
      }
    }

    /** Reads lines and processes them until the end of the branch that was true. */
    method ProcessBranch()
      requires Valid() && NoFileTwice(trail.paths)
      modifies this, settings, trail
      ensures Valid() && trail.paths == old(trail.paths)
      ensures (settings.items, Pending()) == Run(env, trail.paths, old(settings.items), old(Pending()), Branch)
      decreases Unvisited(env, trail.paths), |Pending()|, 3, 0
    {
      hide Run, Blocks.ProcessLine, Blocks.SkipIf, Kind, ReadAll;
      ghost var paths, result := trail.paths, Run(env, trail.paths, settings.items, Pending(), Branch);
      RunNothing(env, paths, settings.items, Branch);
      var line := NextLine();
      while line.Some?
        invariant Valid() && trail.paths == paths
        invariant line.None? ==> (settings.items, Pending()) == result
        invariant line.Some? ==> Run(env, paths, settings.items, [line.value] + Pending(), Branch) == result
        invariant line.Some? ==> |Pending()| < |old(Pending())|
        decreases line.Some?, |Pending()|
      {
        KindIs(line.value);
        RunStep(env, paths, settings.items, line.value, Pending(), Branch);
        if Same(line.value.name, "else") || Same(line.value.name, "elseif") {
          SkipIf();
          break;
        } else if Same(line.value.name, "endif") {
          break;
        } else {
          ProcessLine(line.value);
        }
        RunNothing(env, paths, settings.items, Branch);
        line := NextLine();
      }
    }

    /** Reads lines and processes them until the end of the else branch. */
    method ProcessElse()
      requires Valid() && NoFileTwice(trail.paths)
      modifies this, settings, trail
      ensures Valid() && trail.paths == old(trail.paths)
      ensures (settings.items, Pending()) == Run(env, trail.paths, old(settings.items), old(Pending()), Otherwise)
      decreases Unvisited(env, trail.paths), |Pending()|, 3, 0
    {
      hide Run, Blocks.ProcessLine, Blocks.SkipIf, Kind, ReadAll;
      ghost var paths, result := trail.paths, Run(env, trail.paths, settings.items, Pending(), Otherwise);
      RunNothing(env, paths, settings.items, Otherwise);
      var line := NextLine();
      while line.Some?
        invariant Valid() && trail.paths == paths
        invariant line.None? ==> (settings.items, Pending()) == result
        invariant line.Some? ==> Run(env, paths, settings.items, [line.value] + Pending(), Otherwise) == result
        invariant line.Some? ==> |Pending()| < |old(Pending())|
        decreases line.Some?, |Pending()|
      {
        KindIs(line.value);
        RunStep(env, paths, settings.items, line.value, Pending(), Otherwise);
        if Same(line.value.name, "elseif") {
          SkipIf();
          break;
        } else if Same(line.value.name, "endif") {
          break;
        } else {
          ProcessLine(line.value);
        }
        RunNothing(env, paths, settings.items, Otherwise);
        line := NextLine();
      }
    }

    /** Skips lines until an elseif or else that belongs to the block, or its endif. */
    method FindBranch()
      requires Valid() && NoFileTwice(trail.paths)
      modifies this, settings, trail
      ensures Valid() && trail.paths == old(trail.paths)
      ensures (settings.items, Pending()) == Blocks.FindBranch(env, trail.paths, old(settings.items), old(Pending()))
      decreases Unvisited(env, trail.paths), |Pending()|, 3, 0
    {
      hide Run, Blocks.ProcessIf, Blocks.FindBranch, Blocks.SkipIf, Kind, ReadAll;
      ghost var paths, result := trail.paths, Blocks.FindBranch(env, trail.paths, settings.items, Pending());
      FindNothing(env, paths, settings.items);
      var line := NextLine();
      while line.Some?
        invariant Valid() && trail.paths == paths && settings.items == old(settings.items)
        invariant line.None? ==> (settings.items, Pending()) == result
        invariant line.Some? ==> Blocks.FindBranch(env, paths, settings.items, [line.value] + Pending()) == result
        invariant line.Some? ==> |Pending()| < |old(Pending())|
        decreases line.Some?, |Pending()|
      {
        KindIs(line.value);
        FindStep(env, paths, settings.items, line.value, Pending());
        if Same(line.value.name, "if") {
          SkipIf();
        } else if Same(line.value.name, "elseif") {
          ProcessIf(line.value.value);
          break;
        } else if Same(line.value.name, "else") {
          ProcessElse();
          break;
        } else if Same(line.value.name, "endif") {
          break;
        }
        line := NextLine();
      }
    }

    method ProcessIf(expression: string)
      requires Valid() && NoFileTwice(trail.paths)
      modifies this, settings, trail
      ensures Valid() && trail.paths == old(trail.paths)
      ensures (settings.items, Pending())
           == Blocks.ProcessIf(env, trail.paths, old(settings.items), expression, old(Pending()))
      decreases Unvisited(env, trail.paths), |Pending()|, 4, 0
    {
      hide Run, Blocks.FindBranch, Blocks.SkipIf, ReadAll;
      var result := env.evaluate(settings.items, expression);
      if result.None? {
        SkipIf();
        return;
      }
      if result.value {
        ProcessBranch();
      } else {
        FindBranch();
      }
    }

    method ProcessLine(line: Named)
      requires Valid() && NoFileTwice(trail.paths)
      modifies this, settings, trail
      ensures Valid() && trail.paths == old(trail.paths)
      ensures (settings.items, Pending())
           == Blocks.ProcessLine(env, trail.paths, old(settings.items), line, old(Pending()))
      decreases Unvisited(env, trail.paths), |Pending()|, 5, 0
    {
      hide Blocks.ProcessIf, Blocks.ProcessPlain, ReadAll;
      KindIs(line);
      if Same(line.name, "if") {
        ProcessIf(line.value);
      } else {
        ProcessPlain(line);
      }
    }

    method ProcessPlain(line: Named)
      requires Valid() && NoFileTwice(trail.paths)
      modifies settings, trail
      ensures trail.paths == old(trail.paths)
      ensures settings.items == Blocks.ProcessPlain(env, trail.paths, old(settings.items), line)
      decreases Unvisited(env, trail.paths), 0, 2, 0
    {
      hide Blocks.ParseFile, Blocks.ParseFiles, Assigned, Same;
      if Same(line.name, "include") {
        var target := env.target(line.value);
        if target.None? {
          return;
        }
        var parser := new FileParser(env, settings, trail);
        parser.ParseFile(target.value);
      } else if Same(line.name, "includefolder") {
        ParseFiles(env.folder(settings.items, line.value));
      } else if Same(line.name, "!SetVar") {
        SetVariable(line.value);
      } else {
        settings.items := settings.items + [line];
      }
    }

    method SetVariable(value: string)
      modifies settings
      ensures settings.items == Assigned(env, old(settings.items), value)
    {
      var setting := env.assign(settings.items, value);
      if setting.None? {
        return;
      }
      settings.items := Without(settings.items, setting.value.name);
      settings.items := settings.items + [setting.value];
    }

    method ParseFiles(names: seq<string>)
      requires NoFileTwice(trail.paths)
      modifies settings, trail
      ensures trail.paths == old(trail.paths)
      ensures settings.items == Blocks.ParseFiles(env, trail.paths, old(settings.items), names)
      decreases Unvisited(env, trail.paths), 0, 1, |names|
    {
      hide Blocks.ParseFile;
      var todo := names;
      while todo != []
        invariant trail.paths == old(trail.paths)
        invariant Blocks.ParseFiles(env, trail.paths, settings.items, todo)
               == Blocks.ParseFiles(env, trail.paths, old(settings.items), names)
        decreases |todo|
      {
        var parser := new FileParser(env, settings, trail);
        parser.ParseFile(todo[0]);
        todo := todo[1..];
      }
    }

    /** A parser is for one file. The trail is as before when it returns. */
    method ParseFile(name: string)
      requires Valid() && stack == [] && NoFileTwice(trail.paths)
      modifies this, settings, trail
      ensures Valid() && trail.paths == old(trail.paths)
      ensures settings.items == Blocks.ParseFile(env, trail.paths, old(settings.items), name)
      decreases Unvisited(env, trail.paths), 0, 0, 0
    {
      hide Run, ReadAll, Blocks.ProcessLine, Kind, NoFileTwice, OnTrail, Unvisited;
      var path := env.resolve(settings.items, name);
      if path.None? {
        return;
      }
      if OnTrail(trail.paths, path.value) {
        return;
      }
      if path.value !in env.files {
        return;
      }
      file := env.files[path.value];
      UnvisitedShrinks(env, trail.paths, path.value);
      PushedOnce(trail.paths, path.value);
      trail.paths := trail.paths + [path.value];
      ghost var paths := trail.paths;
      ReadNextLine();
      ghost var result := Run(env, paths, settings.items, Pending(), Top);
      RunNothing(env, paths, settings.items, Top);
      var line := NextLine();
      while line.Some?
        invariant Valid() && trail.paths == paths
        invariant line.None? ==> settings.items == result.0
        invariant line.Some? ==> Run(env, paths, settings.items, [line.value] + Pending(), Top) == result
        decreases line.Some?, |Pending()|
      {
        RunStep(env, paths, settings.items, line.value, Pending(), Top);
        ProcessLine(line.value);
        RunNothing(env, paths, settings.items, Top);
        line := NextLine();
      }
      trail.paths := trail.paths[..|trail.paths| - 1];
    }
  }

  lemma FindStep(env: Environment, trail: seq<Path>, s: Settings, line: Named, rest: seq<Named>)
    ensures Blocks.FindBranch(env, trail, s, [line] + rest)
         == if Kind(line).If? then Blocks.FindBranch(env, trail, s, Blocks.SkipIf(rest))
            else if Kind(line).ElseIf? then Blocks.ProcessIf(env, trail, s, line.value, rest)
            else if Kind(line).Else? then Run(env, trail, s, rest, Otherwise)
            else if Kind(line).EndIf? then (s, rest)
            else Blocks.FindBranch(env, trail, s, rest)
  {
    hide Kind, Blocks.ProcessIf, Run, Blocks.SkipIf;
    assert ([line] + rest)[1..] == rest;
  }

  lemma SplitAt(value: string, at: nat, k: nat)
    requires '@' in value && at == Find(value, '@') && k > 0 && at + k <= |value|
    requires forall i | at <= i < at + k :: value[i] == '@'
    requires at + k < |value| ==> value[at + k] != '@'
    ensures Split(value) == (value[..at], k, value[at + k..])
  {
    hide Find;
    RunLengthIs(value[at..], '@', k);
  }

  lemma KeptStep(before: string, kept: string, value: string, stack: seq<string>, rest: string)
    requires stack != [] && '@' in value && Split(value).2 == rest
    requires kept == before + Split(value).0 + GroupName(stack, Split(value).1)
      || (kept == before + Split(value).0 && Split(value).1 > |stack|)
    ensures before + Kept(value, stack) == kept + Kept(rest, stack)
    ensures Last(value, stack) == Last(rest, stack)
  {
    hide Split;
    var r := Split(value);
    assert Kept(value, stack) == r.0 + GroupName(stack, r.1) + Kept(rest, stack);
  }

  lemma NothingLeft(kept: string, last: string, stack: seq<string>)
    requires stack == [] || '@' !in last
    ensures kept + Kept(last, stack) == kept && Last(last, stack) == last
  {
  }

  lemma ReadLineStep(lines: seq<RawLine>, stack: seq<string>, text: string)
    ensures lines == [] ==> ReadLine(lines, stack, text) == End
    ensures lines != [] && Closes(lines[0]) ==> ReadLine(lines, stack, text) == ReadLine(lines[1..], Pop(stack), text)
    ensures |lines| > 1 && !Closes(lines[0]) && Opens(lines[1]) ==>
      ReadLine(lines, stack, text)
      == ReadLine(lines[2..], [FullKey(lines[0].key, stack)] + stack, text + Kept(lines[0].value, stack))
    ensures lines != [] && !Closes(lines[0]) && (|lines| == 1 || !Opens(lines[1])) ==>
      ReadLine(lines, stack, text)
      == Line(Named(FullKey(lines[0].key, stack), text + Expand(lines[0].value, stack)), lines[1..], stack)
  {
  }
}

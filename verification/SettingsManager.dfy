/** The settings of lsapi/settingsmanager.cpp and the loop that expands references to them. */
module SettingsManager {
  import opened Options
  import opened Strings
  import Tokens
  import Tokenizer
  import Expressions
  import MathParser
  import opened Variables

  class SettingsManager {
    const sys: System
    var settings: Settings

    constructor (sys: System)
      ensures this.sys == sys && settings == []
    {
      this.sys, settings := sys, [];
    }

    /** Where the first appearance of a setting is, the number of settings if there is none. */
    method FindLine(name: string) returns (i: nat)
      ensures i <= |settings| && (i < |settings| ==> Same(settings[i].name, name))
      ensures forall j | 0 <= j < i :: !Same(settings[j].name, name)
    {
      i := 0;
      while i < |settings| && !Same(settings[i].name, name)
        invariant i <= |settings| && forall j | 0 <= j < i :: !Same(settings[j].name, name)
      {
        i := i + 1;
      }
    }

    method SetVariable(name: string, value: string, terminal: bool)
      modifies this
      ensures settings == Assign(old(settings), name, value, terminal)
    {
      var i := FindLine(name);
      AssignAt(settings, name, value, terminal, i);
      if i < |settings| {
        settings := settings[i := settings[i].(value := value, terminal := terminal)];
      } else {
        settings := settings + [Entry(name, value, terminal)];
      }
    }

    /** Where the reference at the front of a text ends, the length of the text if it does not. */
    method FindEnd(text: string) returns (end: nat)
      ensures end == Find(text, '$')
    {
      end := 0;
      while end < |text| && text[end] != '$'
        invariant end <= |text| && '$' !in text[..end]
      {
        end := end + 1;
      }
      if end < |text| {
        FindIs(text, '$', end);
      } else {
        assert text[..end] == text;
      }
    }

    /** What stands for a reference, if it does not empty the whole expansion. */
    method ReferenceValue(name: string, visited: set<string>) returns (value: Option<string>)
      ensures value == if name == "" then Some("$") else Replacement(sys, settings, visited)(name)
      decreases Free(settings, visited), 1
    {
      if name == "" {
        return Some("$");
      }
      if Fold(name) in visited {
        return None;
      }
      var s := SubstituteVariable(name, visited);
      value := Some(s);
    }

    method VarExpansionEx(template: string, visited: set<string>) returns (expanded: string)
      ensures expanded == Expand(sys, settings, visited, template)
      decreases Free(settings, visited), 2
    {
      hide Replace, Replacement, Prepend, Find, Free;
      ghost var f := Replacement(sys, settings, visited);
      expanded := "";
      var rest := template;
      NothingBefore(Replace(f, template));
      while rest != ""
        invariant Replace(f, template) == Prepend(expanded, Replace(f, rest))
        decreases |rest|
      {
        if rest[0] != '$' {
          ReplacePlain(f, rest, expanded);
          expanded := expanded + rest[..1];
          rest := rest[1..];
        } else {
          var tail := rest[1..];
          var end := FindEnd(tail);
          if end == |tail| {
            ReplaceUnterminated(f, rest, expanded);
            expanded := expanded + tail;
            rest := "";
          } else {
            ReplaceName(f, rest, expanded, end);
            var value := ReferenceValue(tail[..end], visited);
            if value.None? {
              return "";
            }
            expanded := expanded + value.value;
            rest := tail[end + 1..];
          }
        }
      }
      ReplaceNothing(f);
      PrependNothing(expanded);
    }

    method SubstituteVariable(name: string, visited: set<string>) returns (value: string)
      requires Fold(name) !in visited
      ensures value == Substitute(sys, settings, visited, name)
      decreases Free(settings, visited), 0
    {
      hide Expand, Expressions.Evaluate;
      var i := FindLine(name);
      LookupAt(settings, name, i);
      if i < |settings| {
        FreeShrinks(settings, visited, name);
        if settings[i].terminal {
          return settings[i].value;
        }
        var token := Tokenizer.GetTokenW(settings[i].value, false);
        value := VarExpansionEx(token.text, visited + {Fold(name)});
      } else if sys.environment(name) != "" {
        value := sys.environment(name);
      } else {
        var parser := new MathParser.MathParser(WithVariables(sys, settings, visited), name);
        var result := parser.Evaluate();
        value := if result.Ok? then sys.compatible(result.value) else "";
      }
    }
  }

  lemma {:induction false} LookupAt(settings: Settings, name: string, i: nat)
    requires i <= |settings| && (i < |settings| ==> Same(settings[i].name, name))
    requires forall j | 0 <= j < i :: !Same(settings[j].name, name)
    ensures Lookup(settings, name) == if i < |settings| then Some(settings[i]) else None
  {
    if i > 0 {
      LookupAt(settings[1..], name, i - 1);
    }
  }

  lemma {:induction false} AssignAt(settings: Settings, name: string, value: string, terminal: bool, i: nat)
    requires i <= |settings| && (i < |settings| ==> Same(settings[i].name, name))
    requires forall j | 0 <= j < i :: !Same(settings[j].name, name)
    ensures Assign(settings, name, value, terminal)
         == if i < |settings| then settings[i := settings[i].(value := value, terminal := terminal)]
            else settings + [Entry(name, value, terminal)]
  {
    if i > 0 {
      AssignAt(settings[1..], name, value, terminal, i - 1);
    }
  }

  lemma NothingBefore(r: Option<string>)
    ensures Prepend("", r) == r
  {
    assert r.Some? ==> "" + r.value == r.value;
  }

  lemma PrependTwice(a: string, b: string, r: Option<string>)
    ensures Prepend(a, Prepend(b, r)) == Prepend(a + b, r)
  {
    assert r.Some? ==> a + (b + r.value) == a + b + r.value;
  }

  lemma PrependNothing(s: string)
    ensures Prepend(s, Some("")) == Some(s)
  {
    assert s + "" == s;
  }

  // One turn of the loop over a template.

  lemma ReplacePlain(f: string -> Option<string>, rest: string, before: string)
    requires rest != "" && rest[0] != '$'
    ensures Prepend(before, Replace(f, rest)) == Prepend(before + rest[..1], Replace(f, rest[1..]))
  {
    PrependTwice(before, rest[..1], Replace(f, rest[1..]));
    hide Prepend;
  }

  lemma ReplaceUnterminated(f: string -> Option<string>, rest: string, before: string)
    requires rest != "" && rest[0] == '$' && Find(rest[1..], '$') == |rest[1..]|
    ensures Prepend(before, Replace(f, rest)) == Prepend(before + rest[1..], Replace(f, ""))
  {
    ReplaceNothing(f);
    PrependNothing(before + rest[1..]);
    hide Find;
  }

  lemma ReplaceName(f: string -> Option<string>, rest: string, before: string, end: nat)
    requires rest != "" && rest[0] == '$' && end == Find(rest[1..], '$') < |rest[1..]|
    ensures var v := if rest[1..][..end] == "" then Some("$") else f(rest[1..][..end]);
      Prepend(before, Replace(f, rest))
      == if v.None? then None else Prepend(before + v.value, Replace(f, rest[1..][end + 1..]))
  {
    var v := if end == 0 then Some("$") else f(rest[1..][..end]);
    assert rest[1..][end..][1..] == rest[1..][end + 1..];
    if v.Some? {
      PrependTwice(before, v.value, Replace(f, rest[1..][end + 1..]));
    } else {
      PrependNone(before);
    }
    hide Find, Prepend;
  }

  lemma PrependNone(s: string)
    ensures Prepend(s, None) == None
  {
  }
}

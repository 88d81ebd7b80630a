/**
  Variable references in settings (VarExpansionEx in lsapi/settingsmanager.cpp): $name$ stands
  for the setting of that name, an environment variable or the value of an expression, which
  can refer to settings again. Texts are assumed to fit into the buffers.
 */
module Variables {
  import opened Options
  import opened Strings
  import Tokens
  import opened Expressions
  import Tokenizer

  /** A setting. The value of a terminal one is taken as it is. */
  datatype Entry = Entry(name: string, value: string, terminal: bool)

  type Settings = seq<Entry>

  /** What is outside of the settings: environment variables, values and their operations. */
  datatype System = System(
    environment: string -> string,            // "" if there is none
    meaning: Meaning,                         // of all but variables, which have to be defined
    compatible: Value -> string               // ToCompatibleString
  )

  /** The first appearance of a setting takes effect. */
  function Lookup(settings: Settings, name: string): (e: Option<Entry>)
    ensures e.Some? ==> e.value in settings && Same(e.value.name, name) && Fold(name) in Names(settings)
    ensures e.None? ==> Fold(name) !in Names(settings)
  {
    if settings == [] then None
    else if Same(settings[0].name, name) then
      assert settings[0] in settings && Fold(settings[0].name) == Fold(name);
      Some(settings[0])
    else
      Lookup(settings[1..], name)
  }

  /** It is the first. */
  lemma {:induction false} LookupIsFirst(settings: Settings, name: string, i: nat)
    requires i < |settings| && Same(settings[i].name, name) && forall j | 0 <= j < i :: !Same(settings[j].name, name)
    ensures Lookup(settings, name) == Some(settings[i])
  {
    hide Same;
    if i > 0 {
      LookupIsFirst(settings[1..], name, i - 1);
    }
  }

  /** The settings with a variable set: its first appearance is overwritten, or a new one added. */
  function Assign(settings: Settings, name: string, value: string, terminal: bool): Settings {
    if settings == [] then [Entry(name, value, terminal)]
    else if Same(settings[0].name, name) then [settings[0].(value := value, terminal := terminal)] + settings[1..]
    else [settings[0]] + Assign(settings[1..], name, value, terminal)
  }

  /** A variable has the value that was set last, and the others keep theirs. */
  lemma {:induction false} AssignedIsFound(settings: Settings, name: string, value: string, terminal: bool, other: string)
    ensures var e := Lookup(Assign(settings, name, value, terminal), other);
      if Same(name, other) then e.Some? && e.value.value == value && e.value.terminal == terminal
      else e == Lookup(settings, other)
  {
    if settings != [] && !Same(settings[0].name, name) {
      AssignedIsFound(settings[1..], name, value, terminal, other);
      assert Assign(settings, name, value, terminal)[1..] == Assign(settings[1..], name, value, terminal);
    } else if settings != [] {
      assert Assign(settings, name, value, terminal)[1..] == settings[1..];
    }
  }

  function Names(settings: Settings): set<string> {
    set e | e in settings :: Fold(e.name)
  }

  /** How many names can still be visited. */
  function Free(settings: Settings, visited: set<string>): nat {
    |Names(settings) - visited|
  }

  lemma FreeShrinks(settings: Settings, visited: set<string>, name: string)
    requires Lookup(settings, name).Some? && Fold(name) !in visited
    ensures Free(settings, visited + {Fold(name)}) < Free(settings, visited)
  {
    assert Names(settings) - (visited + {Fold(name)}) == (Names(settings) - visited) - {Fold(name)};
  }

  // ---- Templates ----

  /**
    The template with each reference replaced. None if a reference has no replacement: then
    the whole expansion is empty. $$ stands for $, and a $ without a partner is dropped.
   */
  function Replace(replacement: string -> Option<string>, template: string): Option<string>
    decreases |template|
  {
    if template == "" then Some("")
    else if template[0] != '$' then
      Prepend(template[..1], Replace(replacement, template[1..]))
    else
      var end := Find(template[1..], '$');
      var rest := template[1..][end..];
      if rest == "" then Some(template[1..])
      else if end == 0 then Prepend("$", Replace(replacement, rest[1..]))
      else
        match replacement(template[1..][..end])
        case None => None
        case Some(value) => Prepend(value, Replace(replacement, rest[1..]))
  }

  function Prepend(s: string, r: Option<string>): Option<string> {
    match r
    case None => None
    case Some(t) => Some(s + t)
  }

  function OrEmpty(r: Option<string>): string {
    match r
    case None => ""
    case Some(s) => s
  }

  // ---- Expansion ----

  /** Expands a template. A reference to a name that is being expanded empties the whole. */
  function Expand(sys: System, settings: Settings, visited: set<string>, template: string): string
    decreases Free(settings, visited), 3
  {
    OrEmpty(Replace(Replacement(sys, settings, visited), template))
  }

  /** The replacements of references while some names are being expanded. */
  function Replacement(sys: System, settings: Settings, visited: set<string>): string -> Option<string>
    decreases Free(settings, visited), 2
  {
    name => if Fold(name) in visited then None else Some(Substitute(sys, settings, visited, name))
  }

  /** What a reference to a name that is not being expanded stands for. */
  function Substitute(sys: System, settings: Settings, visited: set<string>, name: string): string
    requires Fold(name) !in visited
    decreases Free(settings, visited), 1
  {
    match Lookup(settings, name)
    case Some(e) =>
      FreeShrinks(settings, visited, name);
      if e.terminal then e.value
      else Expand(sys, settings, visited + {Fold(name)}, Tokenizer.GetToken(e.value, false).text)
    case None =>
      if sys.environment(name) != "" then sys.environment(name)
      else
        match Evaluate(WithVariables(sys, settings, visited), name)
        case Err(_) => ""
        case Ok(v) => sys.compatible(v)
  }

  /** What names mean in an expression, where they have to be defined. */
  function WithVariables(sys: System, settings: Settings, visited: set<string>): Meaning
    decreases Free(settings, visited), 1, 0
  {
    sys.meaning.(strict := true, variable := n => Variable(sys, settings, visited, n))
  }

  /** The value of a variable in an expression. */
  function Variable(sys: System, settings: Settings, visited: set<string>, name: string): Result<Value, Tokens.Error>
    decreases Free(settings, visited), 0
  {
    if Fold(name) in visited then Err(Tokens.Recursive(name))
    else
      match Lookup(settings, name)
      case None => Ok(Undefined)
      case Some(e) =>
        FreeShrinks(settings, visited, name);
        Ok(Convert(sys, Expand(sys, settings, visited + {Fold(name)}, e.value)))
  }

  /** The value that the text of a setting stands for. */
  function Convert(sys: System, text: string): Value {
    if Same(text, "false") || Same(text, "off") || Same(text, "no") then Boolean(false)
    else if Same(text, "true") || Same(text, "on") || Same(text, "yes") then Boolean(true)
    else if text == "" then Boolean(true)
    else if Tokens.IsDigit(text[0]) || text[0] == '+' || text[0] == '-' then sys.meaning.number(text)
    else if Tokens.IsQuote(text[0]) then String(Tokenizer.GetToken(text, false).text)
    else String(text)
  }

  // ---- Templates piece by piece ----

  datatype Piece = Text(text: string) | Dollar | Reference(name: string)

  predicate IsPiece(p: Piece) {
    match p
    case Text(text) => '$' !in text
    case Dollar => true
    case Reference(name) => name != "" && '$' !in name
  }

  function Spell(p: Piece): string {
    match p
    case Text(text) => text
    case Dollar => "$$"
    case Reference(name) => "$" + name + "$"
  }

  /** The template of the pieces, with an unterminated reference at the end if there is one. */
  function Template(pieces: seq<Piece>, tail: Option<string>): string {
    if pieces == [] then (match tail case None => "" case Some(t) => "$" + t)
    else Spell(pieces[0]) + Template(pieces[1..], tail)
  }

  /** What a piece stands for. */
  function PieceValue(replacement: string -> Option<string>, p: Piece): Option<string> {
    match p
    case Text(text) => Some(text)
    case Dollar => Some("$")
    case Reference(name) => replacement(name)
  }

  /** The substitution: the values of the pieces one after the other, and the tail without its $. */
  function Substituted(replacement: string -> Option<string>, pieces: seq<Piece>, tail: Option<string>): Option<string> {
    if pieces == [] then Some(match tail case None => "" case Some(t) => t)
    else
      match PieceValue(replacement, pieces[0])
      case None => None
      case Some(v) => Prepend(v, Substituted(replacement, pieces[1..], tail))
  }

  lemma {:induction false} ReplaceText(replacement: string -> Option<string>, text: string, rest: string)
    requires '$' !in text
    ensures Replace(replacement, text + rest) == Prepend(text, Replace(replacement, rest))
  {
    var r := Replace(replacement, rest);
    if text == "" {
      assert text + rest == rest;
      assert r.Some? ==> "" + r.value == r.value;
    } else {
      assert (text + rest)[1..] == text[1..] + rest;
      ReplaceText(replacement, text[1..], rest);
      assert (text + rest)[..1] == text[..1];
      assert r.Some? ==> text[..1] + (text[1..] + r.value) == text + r.value;
    }
  }

  lemma FindDollar(name: string, rest: string)
    requires '$' !in name
    ensures Find(name + ("$" + rest), '$') == |name|
  {
    var s := name + ("$" + rest);
    assert s[..|name|] == name && s[|name|] == '$';
    FindIs(s, '$', |name|);
  }

  lemma ReplaceReference(replacement: string -> Option<string>, name: string, rest: string)
    requires '$' !in name
    ensures var v := if name == "" then Some("$") else replacement(name);
      Replace(replacement, "$" + name + ("$" + rest))
      == if v.None? then None else Prepend(v.value, Replace(replacement, rest))
  {
    var t := "$" + name + ("$" + rest);
    assert t[1..] == name + ("$" + rest);
    FindDollar(name, rest);
    assert t[1..][|name|..] == "$" + rest;
    assert t[1..][..|name|] == name;
    assert ("$" + rest)[1..] == rest;
    hide Find;
  }

  lemma ReplaceTail(replacement: string -> Option<string>, tail: string)
    requires '$' !in tail
    ensures Replace(replacement, "$" + tail) == Some(tail)
  {
    var t := "$" + tail;
    assert t[1..] == tail;
  }

  /** The loop over the template is the substitution. */
  lemma {:induction false} ReplaceSubstitutes(replacement: string -> Option<string>, pieces: seq<Piece>, tail: Option<string>)
    requires (forall i | 0 <= i < |pieces| :: IsPiece(pieces[i])) && (tail.Some? ==> '$' !in tail.value)
    ensures Replace(replacement, Template(pieces, tail)) == Substituted(replacement, pieces, tail)
  {
    hide Replace;
    if pieces == [] {
      match tail
      case None => ReplaceNothing(replacement);
      case Some(t) => ReplaceTail(replacement, t);
    } else {
      var rest := Template(pieces[1..], tail);
      ReplaceSubstitutes(replacement, pieces[1..], tail);
      match pieces[0]
      case Text(text) => ReplaceText(replacement, text, rest);
      case Dollar =>
        assert "$$" + rest == "$" + "" + ("$" + rest);
        ReplaceReference(replacement, "", rest);
      case Reference(name) =>
        assert ("$" + name + "$") + rest == "$" + name + ("$" + rest);
        ReplaceReference(replacement, name, rest);
    }
  }

  lemma ReplaceNothing(replacement: string -> Option<string>)
    ensures Replace(replacement, "") == Some("")
  {
  }

  /** Every template is made of such pieces. */
  lemma {:induction false} TemplateHasPieces(template: string) returns (pieces: seq<Piece>, tail: Option<string>)
    ensures (forall i | 0 <= i < |pieces| :: IsPiece(pieces[i])) && (tail.Some? ==> '$' !in tail.value)
    ensures template == Template(pieces, tail)
    decreases |template|
  {
    hide Template, Spell;
    if template == "" {
      pieces, tail := [], None;
      TemplateEnd();
    } else if template[0] != '$' {
      var more;
      more, tail := TemplateHasPieces(template[1..]);
      pieces := [Text(template[..1])] + more;
      TemplateStep(Text(template[..1]), more, tail);
      assert template == template[..1] + template[1..];
    } else {
      var s := template[1..];
      var end := Find(s, '$');
      if end == |s| {
        pieces, tail := [], Some(s);
        TemplateTail(s);
        assert template == "$" + s;
      } else {
        var more;
        more, tail := TemplateHasPieces(s[end + 1..]);
        var piece := if end == 0 then Dollar else Reference(s[..end]);
        pieces := [piece] + more;
        TemplateStep(piece, more, tail);
        ReferenceText(s[..end]);
        assert template == ("$" + s[..end] + "$") + s[end + 1..];
      }
    }
  }

  lemma TemplateEnd()
    ensures Template([], None) == ""
  {
  }

  lemma TemplateTail(s: string)
    ensures Template([], Some(s)) == "$" + s
  {
  }

  lemma TemplateStep(piece: Piece, more: seq<Piece>, tail: Option<string>)
    ensures Template([piece] + more, tail) == Spell(piece) + Template(more, tail)
    ensures piece.Text? ==> Spell(piece) == piece.text
  {
    assert ([piece] + more)[1..] == more;
  }

  lemma ReferenceText(name: string)
    ensures Spell(if name == "" then Dollar else Reference(name)) == "$" + name + "$"
  {
    if name == "" {
      assert "$" + name + "$" == "$$";
    }
  }

  // ---- What references and names stand for ----

  lemma ExpandReference(sys: System, settings: Settings, visited: set<string>, name: string)
    requires name != "" && '$' !in name && Fold(name) !in visited
    ensures Expand(sys, settings, visited, "$" + name + "$") == Substitute(sys, settings, visited, name)
  {
    hide Substitute, Replace;
    var f := Replacement(sys, settings, visited);
    ReplaceReference(f, name, "");
    ReplaceNothing(f);
    assert "$" + name + ("$" + "") == "$" + name + "$";
    var v := Substitute(sys, settings, visited, name);
    assert v + "" == v;
  }

  lemma ExpandPlain(sys: System, settings: Settings, visited: set<string>, text: string)
    requires '$' !in text
    ensures Expand(sys, settings, visited, text) == text
  {
    hide Replace;
    var f := Replacement(sys, settings, visited);
    ReplaceText(f, text, "");
    ReplaceNothing(f);
    assert text + "" == text;
  }

  /**
    A reference stands for its setting, if there is none for the environment variable of that
    name, and otherwise for the value of the name as an expression, or nothing if that has an
    error. A terminal setting is taken as it is, of another one the first token.
   */
  lemma ReferenceStandsFor(sys: System, settings: Settings, name: string)
    requires name != "" && '$' !in name
    ensures var r, e := Expand(sys, settings, {}, "$" + name + "$"), Lookup(settings, name);
      && (e.Some? && e.value.terminal ==> r == e.value.value)
      && (e.Some? && !e.value.terminal && '$' !in Tokenizer.GetToken(e.value.value, false).text ==>
            r == Tokenizer.GetToken(e.value.value, false).text)
      && (e.None? && sys.environment(name) != "" ==> r == sys.environment(name))
      && (e.None? && sys.environment(name) == "" ==>
            match Evaluate(WithVariables(sys, settings, {}), name)
            case Err(_) => r == ""
            case Ok(v) => r == sys.compatible(v))
  {
    ExpandReference(sys, settings, {}, name);
    hide Expand, Tokenizer.GetToken, Evaluate, Lookup;
    var e := Lookup(settings, name);
    if e.Some? {
      var token := Tokenizer.GetToken(e.value.value, false).text;
      if '$' !in token {
        ExpandPlain(sys, settings, {} + {Fold(name)}, token);
      }
    }
  }

  /**
    The value that a setting without references has in an expression: the words for true and
    false in any case, with nothing at all as true, numbers, texts in quotes and other texts.
   */
  lemma NameStandsFor(sys: System, settings: Settings, name: string)
    requires Tokens.IsName(name) && Lookup(settings, name).Some? && '$' !in Lookup(settings, name).value.value
    ensures var r, text := Evaluate(WithVariables(sys, settings, {}), name), Lookup(settings, name).value.value;
      && (Same(text, "false") || Same(text, "off") || Same(text, "no") ==> r == Ok(Boolean(false)))
      && (Same(text, "true") || Same(text, "on") || Same(text, "yes") || text == "" ==> r == Ok(Boolean(true)))
      && (text != "" && ('0' <= text[0] <= '9' || text[0] == '+' || text[0] == '-') && sys.meaning.number(text) != Undefined ==>
            r == Ok(sys.meaning.number(text)))
      && (text != "" && !Truth(text) && !('0' <= text[0] <= '9') && text[0] !in "+-'\"" ==> r == Ok(String(text)))
      && (forall s, q | text == [q] + s + [q] && (q == '\'' || q == '\"') && q !in s :: r == Ok(String(s)))
  {
    hide *;
    var e := Lookup(settings, name).value;
    PlainVariable(sys, settings, name);
    VariableText(WithVariables(sys, settings, {}), name);
    VariablesAre(sys, settings);
    ConvertWords(sys, e.value);
    forall s, q | e.value == [q] + s + [q] && (q == '\'' || q == '\"') && q !in s
      ensures Convert(sys, e.value) == String(s)
    {
      ConvertQuoted(sys, e.value, s, q);
    }
  }

  /** The text is a word for a truth value. */
  predicate Truth(text: string) {
    Same(text, "false") || Same(text, "off") || Same(text, "no") || Same(text, "true") || Same(text, "on") || Same(text, "yes")
  }

  lemma VariablesAre(sys: System, settings: Settings)
    ensures var m := WithVariables(sys, settings, {});
      m.strict && forall n :: m.variable(n) == Variable(sys, settings, {}, n)
  {
    hide Variable;
  }

  lemma PlainVariable(sys: System, settings: Settings, name: string)
    requires Lookup(settings, name).Some? && '$' !in Lookup(settings, name).value.value
    ensures Variable(sys, settings, {}, name) == Ok(Convert(sys, Lookup(settings, name).value.value))
  {
    hide Expand, Convert;
    ExpandPlain(sys, settings, {} + {Fold(name)}, Lookup(settings, name).value.value);
  }

  lemma FirstLetters()
    ensures |Fold("false")| == 5 && |Fold("off")| == 3 && |Fold("no")| == 2 && |Fold("true")| == 4 && |Fold("on")| == 2 && |Fold("yes")| == 3
    ensures Fold("false")[0] == 'f' && Fold("off")[0] == 'o' && Fold("no")[0] == 'n'
    ensures Fold("true")[0] == 't' && Fold("on")[0] == 'o' && Fold("yes")[0] == 'y'
  {
    FoldAt("false", 0);
    FoldAt("off", 0);
    FoldAt("no", 0);
    FoldAt("true", 0);
    FoldAt("on", 0);
    FoldAt("yes", 0);
  }

  lemma FoldFirst(text: string)
    ensures text == "" ==> Fold(text) == ""
    ensures text != "" ==> |Fold(text)| > 0 && Fold(text)[0] == LowerCase(text[0])
  {
  }

  lemma ConvertWords(sys: System, text: string)
    ensures Same(text, "false") || Same(text, "off") || Same(text, "no") ==> Convert(sys, text) == Boolean(false)
    ensures Same(text, "true") || Same(text, "on") || Same(text, "yes") || text == "" ==> Convert(sys, text) == Boolean(true)
    ensures text != "" && ('0' <= text[0] <= '9' || text[0] == '+' || text[0] == '-') ==> Convert(sys, text) == sys.meaning.number(text)
    ensures text != "" && !Truth(text) && !('0' <= text[0] <= '9') && text[0] !in "+-'\"" ==> Convert(sys, text) == String(text)
  {
    FirstLetters();
    FoldFirst(text);
    hide Fold;
  }

  lemma ConvertQuoted(sys: System, text: string, s: string, q: char)
    requires text == [q] + s + [q] && (q == '\'' || q == '\"') && q !in s
    ensures Convert(sys, text) == String(s)
  {
    assert text == [q] + s + ([q] + "");
    Tokenizer.QuotesQuote(s, q, "", false);
    hide Tokenizer.GetToken;
    QuotedIsNoWord(text);
    hide Fold;
  }

  lemma QuotedIsNoWord(text: string)
    requires text != "" && (text[0] == '\'' || text[0] == '\"')
    ensures !Truth(text)
  {
    FirstLetters();
    FoldFirst(text);
    hide Fold;
  }

  // ---- Without cycles ----

  /** The names that a template refers to. */
  function References(template: string): set<string>
    decreases |template|
  {
    if template == "" then {}
    else if template[0] != '$' then References(template[1..])
    else
      var end := Find(template[1..], '$');
      var rest := template[1..][end..];
      if rest == "" then {}
      else (if end == 0 then {} else {template[1..][..end]}) + References(rest[1..])
  }

  lemma {:induction false} ReplaceAgrees(f: string -> Option<string>, g: string -> Option<string>, template: string)
    requires forall n | n in References(template) :: f(n) == g(n)
    ensures Replace(f, template) == Replace(g, template)
    decreases |template|
  {
    if template != "" {
      if template[0] != '$' {
        ReplaceAgrees(f, g, template[1..]);
      } else {
        var end := Find(template[1..], '$');
        var rest := template[1..][end..];
        if rest != "" {
          ReplaceAgrees(f, g, rest[1..]);
        }
      }
    }
  }

  /**
    No way of references that starts in the template comes back to a name that is on the way
    or in the set. What is not reached does not matter: a terminal setting and the name of an
    environment variable lead nowhere, a setting that is referred to leads on from its first
    token, and one that occurs in an expression from its whole value.
   */
  ghost predicate Acyclic(sys: System, settings: Settings, visited: set<string>, template: string)
    decreases Free(settings, visited), 2
  {
    forall n | n in References(template) :: ReferenceAcyclic(sys, settings, visited, n)
  }

  ghost predicate ReferenceAcyclic(sys: System, settings: Settings, visited: set<string>, name: string)
    decreases Free(settings, visited), 1
  {
    && Fold(name) !in visited
    && match Lookup(settings, name)
       case Some(e) =>
         FreeShrinks(settings, visited, name);
         e.terminal || Acyclic(sys, settings, visited + {Fold(name)}, Tokenizer.GetToken(e.value, false).text)
       case None =>
         || sys.environment(name) != ""
         || forall t | t in Tokens.Scan(name).tokens && t.Id? :: VariableAcyclic(sys, settings, visited, t.name)
  }

  ghost predicate VariableAcyclic(sys: System, settings: Settings, visited: set<string>, name: string)
    decreases Free(settings, visited), 0
  {
    && Fold(name) !in visited
    && match Lookup(settings, name)
       case Some(e) =>
         FreeShrinks(settings, visited, name);
         Acyclic(sys, settings, visited + {Fold(name)}, e.value)
       case None => true
  }

  /**
    The substitution, which keeps no account of the names that are being expanded but goes at
    most depth settings deep.
   */
  function Pure(sys: System, settings: Settings, depth: nat, template: string): string
    decreases depth, 3
  {
    OrEmpty(Replace(PureReplacement(sys, settings, depth), template))
  }

  function PureReplacement(sys: System, settings: Settings, depth: nat): string -> Option<string>
    decreases depth, 2
  {
    name => Some(PureSubstitute(sys, settings, depth, name))
  }

  function PureSubstitute(sys: System, settings: Settings, depth: nat, name: string): string
    decreases depth, 1
  {
    match Lookup(settings, name)
    case Some(e) =>
      if e.terminal then e.value
      else if depth == 0 then ""
      else Pure(sys, settings, depth - 1, Tokenizer.GetToken(e.value, false).text)
    case None =>
      if sys.environment(name) != "" then sys.environment(name)
      else
        match Evaluate(PureMeaning(sys, settings, depth), name)
        case Err(_) => ""
        case Ok(v) => sys.compatible(v)
  }

  function PureMeaning(sys: System, settings: Settings, depth: nat): Meaning
    decreases depth, 1, 0
  {
    sys.meaning.(strict := true, variable := n => PureVariable(sys, settings, depth, n))
  }

  function PureVariable(sys: System, settings: Settings, depth: nat, name: string): Result<Value, Tokens.Error>
    decreases depth, 0
  {
    match Lookup(settings, name)
    case None => Ok(Undefined)
    case Some(e) =>
      if depth == 0 then Ok(Undefined)
      else Ok(Convert(sys, Pure(sys, settings, depth - 1, e.value)))
  }

  /**
    Without cycles among what the template reaches, expansion is the substitution, of any
    depth that is not less than the number of settings which are not being expanded.
   */
  lemma {:induction false} ExpandIsPure(sys: System, settings: Settings, depth: nat, visited: set<string>, template: string)
    requires Acyclic(sys, settings, visited, template) && Free(settings, visited) <= depth
    ensures Expand(sys, settings, visited, template) == Pure(sys, settings, depth, template)
    decreases depth, 2
  {
    hide Replace, References, Substitute, PureSubstitute, ReferenceAcyclic;
    var f := Replacement(sys, settings, visited);
    var g := PureReplacement(sys, settings, depth);
    forall n | n in References(template)
      ensures f(n) == g(n)
    {
      SubstituteIsPure(sys, settings, depth, visited, n);
    }
    ReplaceAgrees(f, g, template);
  }

  lemma {:induction false} SubstituteIsPure(sys: System, settings: Settings, depth: nat, visited: set<string>, name: string)
    requires ReferenceAcyclic(sys, settings, visited, name) && Free(settings, visited) <= depth
    ensures Fold(name) !in visited
    ensures Substitute(sys, settings, visited, name) == PureSubstitute(sys, settings, depth, name)
    decreases depth, 1
  {
    hide *;
    ReferenceParts(sys, settings, visited, name);
    match Lookup(settings, name)
    case Some(e) =>
      FreeShrinks(settings, visited, name);
      SubstituteSetting(sys, settings, depth, visited, name, e);
      if !e.terminal {
        ExpandIsPure(sys, settings, depth - 1, visited + {Fold(name)}, Tokenizer.GetToken(e.value, false).text);
      }
    case None =>
      if sys.environment(name) != "" {
        SubstituteOther(sys, settings, depth, visited, name);
      } else {
        var m := WithVariables(sys, settings, visited);
        var m' := PureMeaning(sys, settings, depth);
        forall t | t in Tokens.Scan(name).tokens && t.Id?
          ensures m.variable(t.name) == m'.variable(t.name)
        {
          VariableIsPure(sys, settings, depth, visited, t.name);
          MeaningOfVariable(sys, settings, depth, visited, t.name);
        }
        SameMeaning(sys, settings, depth, visited, name);
        SubstituteOther(sys, settings, depth, visited, name);
      }
  }

  lemma SameMeaning(sys: System, settings: Settings, depth: nat, visited: set<string>, name: string)
    requires var m, m' := WithVariables(sys, settings, visited), PureMeaning(sys, settings, depth);
      forall t | t in Tokens.Scan(name).tokens && t.Id? :: m.variable(t.name) == m'.variable(t.name)
    ensures Evaluate(WithVariables(sys, settings, visited), name) == Evaluate(PureMeaning(sys, settings, depth), name)
  {
    hide Evaluate, Variable, PureVariable, Free;
    EvaluateAgrees(WithVariables(sys, settings, visited), PureMeaning(sys, settings, depth), name);
  }

  lemma MeaningOfVariable(sys: System, settings: Settings, depth: nat, visited: set<string>, name: string)
    ensures WithVariables(sys, settings, visited).variable(name) == Variable(sys, settings, visited, name)
    ensures PureMeaning(sys, settings, depth).variable(name) == PureVariable(sys, settings, depth, name)
  {
    hide Variable, PureVariable;
  }

  lemma ReferenceParts(sys: System, settings: Settings, visited: set<string>, name: string)
    requires ReferenceAcyclic(sys, settings, visited, name)
    ensures Fold(name) !in visited
    ensures var e := Lookup(settings, name);
      && (e.Some? && !e.value.terminal ==>
            Acyclic(sys, settings, visited + {Fold(name)}, Tokenizer.GetToken(e.value.value, false).text))
      && (e.None? && sys.environment(name) == "" ==>
            forall t | t in Tokens.Scan(name).tokens && t.Id? :: VariableAcyclic(sys, settings, visited, t.name))
  {
    hide Acyclic, VariableAcyclic, Free;
  }

  lemma SubstituteSetting(sys: System, settings: Settings, depth: nat, visited: set<string>, name: string, e: Entry)
    requires Fold(name) !in visited && Lookup(settings, name) == Some(e)
    ensures Substitute(sys, settings, visited, name)
         == if e.terminal then e.value
            else Expand(sys, settings, visited + {Fold(name)}, Tokenizer.GetToken(e.value, false).text)
    ensures PureSubstitute(sys, settings, depth, name)
         == if e.terminal then e.value else if depth == 0 then ""
            else Pure(sys, settings, depth - 1, Tokenizer.GetToken(e.value, false).text)
  {
    hide Expand, Pure, Free;
  }

  lemma SubstituteOther(sys: System, settings: Settings, depth: nat, visited: set<string>, name: string)
    requires Fold(name) !in visited && Lookup(settings, name) == None
    requires sys.environment(name) == "" ==>
      Evaluate(WithVariables(sys, settings, visited), name) == Evaluate(PureMeaning(sys, settings, depth), name)
    ensures Substitute(sys, settings, visited, name) == PureSubstitute(sys, settings, depth, name)
  {
    hide Evaluate, Free;
  }

  lemma {:induction false} VariableIsPure(sys: System, settings: Settings, depth: nat, visited: set<string>, name: string)
    requires VariableAcyclic(sys, settings, visited, name) && Free(settings, visited) <= depth
    ensures Variable(sys, settings, visited, name) == PureVariable(sys, settings, depth, name)
    decreases depth, 0
  {
    hide *;
    VariableParts(sys, settings, depth, visited, name);
    if Lookup(settings, name).Some? {
      FreeShrinks(settings, visited, name);
      ExpandIsPure(sys, settings, depth - 1, visited + {Fold(name)}, Lookup(settings, name).value.value);
    }
  }

  lemma VariableParts(sys: System, settings: Settings, depth: nat, visited: set<string>, name: string)
    requires VariableAcyclic(sys, settings, visited, name)
    ensures Fold(name) !in visited
    ensures var e := Lookup(settings, name);
      && (e.None? ==> Variable(sys, settings, visited, name) == PureVariable(sys, settings, depth, name))
      && (e.Some? ==>
            && Acyclic(sys, settings, visited + {Fold(name)}, e.value.value)
            && Variable(sys, settings, visited, name)
               == Ok(Convert(sys, Expand(sys, settings, visited + {Fold(name)}, e.value.value)))
            && (depth > 0 ==>
                  PureVariable(sys, settings, depth, name)
                  == Ok(Convert(sys, Pure(sys, settings, depth - 1, e.value.value)))))
  {
    hide Expand, Pure, Convert, Acyclic, Free;
  }

  /**
    Without cycles among what it reaches, the expansion of a template is the sequence of the
    values of its pieces, whatever is being expanded around it.
   */
  lemma ExpandSubstitutes(sys: System, settings: Settings, depth: nat, visited: set<string>, pieces: seq<Piece>, tail: Option<string>)
    requires (forall i | 0 <= i < |pieces| :: IsPiece(pieces[i])) && (tail.Some? ==> '$' !in tail.value)
    requires Acyclic(sys, settings, visited, Template(pieces, tail)) && Free(settings, visited) <= depth
    ensures Substituted(PureReplacement(sys, settings, depth), pieces, tail)
         == Some(Expand(sys, settings, visited, Template(pieces, tail)))
  {
    hide Acyclic, Expand, PureSubstitute, Template, Free;
    var g := PureReplacement(sys, settings, depth);
    ExpandIsPure(sys, settings, depth, visited, Template(pieces, tail));
    ReplaceSubstitutes(g, pieces, tail);
    NoneAt(g, Template(pieces, tail));
  }

  /** Such a reference stands for what its first token stands for, to the same depth. */
  lemma ReferenceUnfolds(sys: System, settings: Settings, depth: nat, visited: set<string>, name: string)
    requires ReferenceAcyclic(sys, settings, visited, name) && Free(settings, visited) <= depth
    requires Lookup(settings, name).Some? && !Lookup(settings, name).value.terminal
    ensures PureSubstitute(sys, settings, depth, name)
         == Pure(sys, settings, depth, Tokenizer.GetToken(Lookup(settings, name).value.value, false).text)
  {
    hide *;
    var e := Lookup(settings, name).value;
    var token := Tokenizer.GetToken(e.value, false).text;
    ReferenceParts(sys, settings, visited, name);
    SubstituteSetting(sys, settings, depth, visited, name, e);
    FreeShrinks(settings, visited, name);
    ExpandIsPure(sys, settings, depth - 1, visited + {Fold(name)}, token);
    ExpandIsPure(sys, settings, depth, visited + {Fold(name)}, token);
  }

  // ---- Fewer names around a template ----

  lemma {:induction false} AcyclicWithFewer(sys: System, settings: Settings, visited: set<string>, fewer: set<string>, template: string)
    requires Acyclic(sys, settings, visited, template) && fewer <= visited
    ensures Acyclic(sys, settings, fewer, template)
    decreases Free(settings, visited), 2
  {
    hide ReferenceAcyclic, References;
    forall n | n in References(template)
      ensures ReferenceAcyclic(sys, settings, fewer, n)
    {
      ReferenceWithFewer(sys, settings, visited, fewer, n);
    }
  }

  lemma {:induction false} ReferenceWithFewer(sys: System, settings: Settings, visited: set<string>, fewer: set<string>, name: string)
    requires ReferenceAcyclic(sys, settings, visited, name) && fewer <= visited
    ensures ReferenceAcyclic(sys, settings, fewer, name)
    decreases Free(settings, visited), 1
  {
    hide Acyclic, VariableAcyclic;
    match Lookup(settings, name)
    case Some(e) =>
      FreeShrinks(settings, visited, name);
      if !e.terminal {
        AcyclicWithFewer(sys, settings, visited + {Fold(name)}, fewer + {Fold(name)}, Tokenizer.GetToken(e.value, false).text);
      }
    case None =>
      if sys.environment(name) == "" {
        forall t | t in Tokens.Scan(name).tokens && t.Id?
          ensures VariableAcyclic(sys, settings, fewer, t.name)
        {
          VariableWithFewer(sys, settings, visited, fewer, t.name);
        }
      }
  }

  lemma {:induction false} VariableWithFewer(sys: System, settings: Settings, visited: set<string>, fewer: set<string>, name: string)
    requires VariableAcyclic(sys, settings, visited, name) && fewer <= visited
    ensures VariableAcyclic(sys, settings, fewer, name)
    decreases Free(settings, visited), 0
  {
    hide Acyclic;
    if Lookup(settings, name).Some? {
      FreeShrinks(settings, visited, name);
      AcyclicWithFewer(sys, settings, visited + {Fold(name)}, fewer + {Fold(name)}, Lookup(settings, name).value.value);
    }
  }

  /** The names that are being expanded around a template do not change what it stands for. */
  lemma ExpandIgnoresVisited(sys: System, settings: Settings, visited: set<string>, template: string)
    requires Acyclic(sys, settings, visited, template)
    ensures Acyclic(sys, settings, {}, template)
    ensures Expand(sys, settings, visited, template) == Expand(sys, settings, {}, template)
  {
    var depth := |Names(settings)|;
    AcyclicWithFewer(sys, settings, visited, {}, template);
    FreeBound(settings, visited);
    FreeBound(settings, {});
    hide Acyclic, Expand, Pure;
    ExpandIsPure(sys, settings, depth, visited, template);
    ExpandIsPure(sys, settings, depth, {}, template);
  }

  lemma FreeBound(settings: Settings, visited: set<string>)
    ensures Free(settings, visited) <= |Names(settings)|
  {
    var free := Names(settings) - visited;
    assert Names(settings) == free + (Names(settings) * visited);
    assert free !! (Names(settings) * visited);
  }

  // ---- A condition on the settings ----

  type Rank = string -> nat

  /** A setting that the name refers to has a rank below r. */
  predicate SettingBelow(settings: Settings, rank: Rank, r: nat, name: string) {
    Lookup(settings, name).Some? ==> rank(Fold(name)) < r
  }

  /** So have the settings that the name refers to as an expression. */
  ghost predicate NameBelow(settings: Settings, rank: Rank, r: nat, name: string) {
    && SettingBelow(settings, rank, r, name)
    && (Lookup(settings, name).None? ==>
          forall t | t in Tokens.Scan(name).tokens && t.Id? :: SettingBelow(settings, rank, r, t.name))
  }

  ghost predicate Below(settings: Settings, rank: Rank, r: nat, template: string) {
    forall n | n in References(template) :: NameBelow(settings, rank, r, n)
  }

  /** Among the settings of a rank below r, the rank grows from what is used to what uses it. */
  ghost predicate RanksGrow(settings: Settings, rank: Rank, r: nat) {
    forall name | Lookup(settings, name).Some? && rank(Fold(name)) < r ::
      var e := Lookup(settings, name).value;
      && Below(settings, rank, rank(Fold(name)), e.value)
      && Below(settings, rank, rank(Fold(name)), Tokenizer.GetToken(e.value, false).text)
  }

  /** Only settings are being expanded, and of no lower rank. */
  ghost predicate VisitedAbove(settings: Settings, rank: Rank, r: nat, visited: set<string>) {
    forall f | f in visited :: f in Names(settings) && rank(f) >= r
  }

  /** The settings that the template reaches can be ranked; those that it does not get a rank from r on. */
  ghost predicate Ranked(settings: Settings, rank: Rank, r: nat, visited: set<string>) {
    RanksGrow(settings, rank, r) && VisitedAbove(settings, rank, r, visited)
  }

  lemma RankedBelow(settings: Settings, rank: Rank, r: nat, visited: set<string>, name: string)
    requires Ranked(settings, rank, r, visited) && Lookup(settings, name).Some? && rank(Fold(name)) < r
    ensures Fold(name) !in visited && Ranked(settings, rank, rank(Fold(name)), visited + {Fold(name)})
    ensures var e := Lookup(settings, name).value;
      && Below(settings, rank, rank(Fold(name)), e.value)
      && Below(settings, rank, rank(Fold(name)), Tokenizer.GetToken(e.value, false).text)
  {
    hide Below, Lookup, Fold, Tokenizer.GetToken;
    RanksBelow(settings, rank, r, rank(Fold(name)));
  }

  /** The ranks grow among fewer settings, too. */
  lemma RanksBelow(settings: Settings, rank: Rank, r: nat, r': nat)
    requires RanksGrow(settings, rank, r) && r' <= r
    ensures RanksGrow(settings, rank, r')
  {
    hide Below, Lookup, Fold, Tokenizer.GetToken;
  }

  lemma RankedUnset(settings: Settings, rank: Rank, r: nat, visited: set<string>, name: string)
    requires Ranked(settings, rank, r, visited) && Lookup(settings, name).None?
    ensures Fold(name) !in visited
  {
  }

  /** Where ranks grow from use to user there are no cycles. */
  lemma {:induction false} RankedIsAcyclic(sys: System, settings: Settings, rank: Rank, r: nat, visited: set<string>, template: string)
    requires Ranked(settings, rank, r, visited) && Below(settings, rank, r, template)
    ensures Acyclic(sys, settings, visited, template)
    decreases r, 2
  {
    hide Ranked, NameBelow, References, ReferenceAcyclic;
    forall n | n in References(template)
      ensures ReferenceAcyclic(sys, settings, visited, n)
    {
      RankedReference(sys, settings, rank, r, visited, n);
    }
  }

  lemma {:induction false} RankedReference(sys: System, settings: Settings, rank: Rank, r: nat, visited: set<string>, name: string)
    requires Ranked(settings, rank, r, visited) && NameBelow(settings, rank, r, name)
    ensures ReferenceAcyclic(sys, settings, visited, name)
    decreases r, 1
  {
    hide Ranked, Below, Acyclic, VariableAcyclic;
    match Lookup(settings, name)
    case Some(e) =>
      RankedBelow(settings, rank, r, visited, name);
      RankedIsAcyclic(sys, settings, rank, rank(Fold(name)), visited + {Fold(name)}, Tokenizer.GetToken(e.value, false).text);
    case None =>
      RankedUnset(settings, rank, r, visited, name);
      forall t | t in Tokens.Scan(name).tokens && t.Id?
        ensures VariableAcyclic(sys, settings, visited, t.name)
      {
        RankedVariable(sys, settings, rank, r, visited, t.name);
      }
  }

  lemma {:induction false} RankedVariable(sys: System, settings: Settings, rank: Rank, r: nat, visited: set<string>, name: string)
    requires Ranked(settings, rank, r, visited) && SettingBelow(settings, rank, r, name)
    ensures VariableAcyclic(sys, settings, visited, name)
    decreases r, 0
  {
    hide Ranked, Below, Acyclic;
    if Lookup(settings, name).Some? {
      RankedBelow(settings, rank, r, visited, name);
      RankedIsAcyclic(sys, settings, rank, rank(Fold(name)), visited + {Fold(name)}, Lookup(settings, name).value.value);
    } else {
      RankedUnset(settings, rank, r, visited, name);
    }
  }

  function Quoted(s: string): string {
    ['\"'] + s + (['\"'] + "")
  }

  /** Two settings, of which the first refers to itself. */
  function SelfAndOther(): Settings {
    [Entry("a", Quoted("$a$"), false), Entry("b", Quoted("x"), false)]
  }

  lemma OneReference(name: string)
    requires |name| == 1 && name != "$"
    ensures References("$" + name + "$") == {name}
  {
    var t := "$" + name + "$";
    assert t[1..] == name + "$" && t[1..][0] == name[0] && t[1..][1..] == "$";
    FindIs(t[1..], '$', 1);
    assert t[1..][..1] == name && "$"[1..] == "";
  }

  /** A setting that refers to itself does not keep another one from being expanded. */
  lemma CyclesElsewhere(sys: System)
    ensures Acyclic(sys, SelfAndOther(), {}, "$b$") && !Acyclic(sys, SelfAndOther(), {}, "$a$")
  {
    hide *;
    SelfAndOtherFound();
    OneReference("a");
    OneReference("b");
    assert "$" + "a" + "$" == "$a$" && "$" + "b" + "$" == "$b$";
    QuotedToken("$a$");
    QuotedToken("x");
    NoReferences();
    SelfIsCyclic(sys, SelfAndOther(), Entry("a", Quoted("$a$"), false));
    OtherIsAcyclic(sys, SelfAndOther(), Entry("b", Quoted("x"), false));
  }

  lemma QuotedToken(s: string)
    requires '\"' !in s
    ensures Tokenizer.GetToken(Quoted(s), false).text == s
  {
    Tokenizer.QuotesQuote(s, '\"', "", false);
    hide Tokenizer.GetToken;
  }

  lemma OtherIsAcyclic(sys: System, settings: Settings, e: Entry)
    requires Lookup(settings, "b") == Some(e) && !e.terminal && Fold("b") == "b"
    requires Tokenizer.GetToken(e.value, false).text == "x" && References("$b$") == {"b"} && References("x") == {}
    ensures Acyclic(sys, settings, {}, "$b$")
  {
    hide Lookup, References, Tokenizer.GetToken, Fold, Free;
    assert {} + {"b"} == {"b"};
    assert ReferenceAcyclic(sys, settings, {}, "b");
  }

  lemma SelfIsCyclic(sys: System, settings: Settings, e: Entry)
    requires Lookup(settings, "a") == Some(e) && !e.terminal && Fold("a") == "a"
    requires Tokenizer.GetToken(e.value, false).text == "$a$" && References("$a$") == {"a"}
    ensures !Acyclic(sys, settings, {}, "$a$")
  {
    hide Lookup, References, Tokenizer.GetToken, Fold, Free;
    assert {} + {"a"} == {"a"};
    if ReferenceAcyclic(sys, settings, {}, "a") {
      ReferenceParts(sys, settings, {}, "a");
      hide Acyclic, ReferenceAcyclic;
      StaysCyclic(sys, settings);
      assert false;
    }
  }

  lemma StaysCyclic(sys: System, settings: Settings)
    requires References("$a$") == {"a"} && Fold("a") == "a"
    ensures !Acyclic(sys, settings, {"a"}, "$a$")
  {
    hide References, Fold, Free, Lookup;
    assert "a" in References("$a$");
  }

  lemma NoReferences()
    ensures References("x") == {}
  {
    assert "x"[1..] == "";
  }

  lemma SelfAndOtherFound()
    ensures Fold("a") == "a" && Fold("b") == "b"
    ensures Lookup(SelfAndOther(), "a") == Some(Entry("a", Quoted("$a$"), false))
    ensures Lookup(SelfAndOther(), "b") == Some(Entry("b", Quoted("x"), false))
  {
    FoldOne("a");
    FoldOne("b");
    assert SelfAndOther()[1..] == [Entry("b", Quoted("x"), false)];
    hide Quoted;
  }

  /** A reference to a name that is being expanded empties the whole, and nothing else does. */
  lemma EmptiedByVisited(sys: System, settings: Settings, visited: set<string>, template: string)
    ensures Replace(Replacement(sys, settings, visited), template).None?
       <==> exists n :: n in References(template) && Fold(n) in visited
  {
    var f := Replacement(sys, settings, visited);
    NoneAt(f, template);
    if Replace(f, template).None? {
      var n :| n in References(template) && f(n).None?;
      assert Fold(n) in visited;
    }
    if n :| n in References(template) && Fold(n) in visited {
      assert f(n).None?;
    }
  }

  lemma {:induction false} NoneAt(f: string -> Option<string>, template: string)
    ensures Replace(f, template).None? <==> exists n :: n in References(template) && f(n).None?
    decreases |template|
  {
    if template != "" {
      if template[0] != '$' {
        NoneAt(f, template[1..]);
      } else {
        var end := Find(template[1..], '$');
        var rest := template[1..][end..];
        if rest != "" {
          NoneAt(f, rest[1..]);
        }
      }
    }
  }
}

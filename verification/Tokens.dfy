/**
  The tokens of expressions (lsapi/MathScanner.cpp): how a text is scanned, and the proof that
  every list of tokens is read back from any way to write it. The character 0xFFFF, which marks
  the end of the input there, does not occur in texts.
 */
module Tokens {
  import opened Options
  import opened Strings

  datatype Token =
    | Id(name: string) | Number(digits: string) | Text(text: string)
    | False | True | Infinity | NaN | Defined
    | LParen | RParen | Comma
    | Plus | Minus | Star | Slash | Div | Mod | Ampersand
    | And | Or | Not
    | Equal | Greater | GreaterEq | Less | LessEq | NotEqual
    | End

  datatype Error =
    | IllegalCharacter | IllegalEscape | Unterminated
    | Syntax
    | NoFunction(name: string) | WrongArguments(name: string)
    | Recursive(name: string) | NotDefined(name: string)

  // ---- Characters ----

  predicate IsSpace(c: char) {
    c == ' ' || c == '\t'
  }

  predicate IsDigit(c: char) {
    '0' <= c <= '9'
  }

  predicate IsNameChar(c: char) {
    !IsSpace(c) && c !in "!$&*()-+=[];\"'<>,/"
  }

  predicate IsFirstNameChar(c: char) {
    !IsDigit(c) && IsNameChar(c)
  }

  predicate IsQuote(c: char) {
    c == '\"' || c == '\''
  }

  /** How many characters at the front are of a class. */
  function Span(s: string, class_: char -> bool): (n: nat)
    ensures n <= |s| && (n < |s| ==> !class_(s[n]))
    ensures forall i | 0 <= i < n :: class_(s[i])
  {
    if s != "" && class_(s[0]) then 1 + Span(s[1..], class_) else 0
  }

  lemma {:induction false} SpanIs(s: string, class_: char -> bool, n: nat)
    requires n <= |s| && (n < |s| ==> !class_(s[n])) && forall i | 0 <= i < n :: class_(s[i])
    ensures Span(s, class_) == n
  {
    if n > 0 {
      SpanIs(s[1..], class_, n - 1);
    }
  }

  // ---- Tokens ----

  /** The reserved words, in lower case. */
  function Reserved(word: string): Option<Token> {
    if word == "false" then Some(False)
    else if word == "true" then Some(True)
    else if word == "infinity" then Some(Infinity)
    else if word == "nan" then Some(NaN)
    else if word == "defined" then Some(Defined)
    else if word == "div" then Some(Div)
    else if word == "mod" then Some(Mod)
    else if word == "and" then Some(And)
    else if word == "or" then Some(Or)
    else if word == "not" then Some(Not)
    else None
  }

  function Word(name: string): Token {
    match Reserved(Fold(name))
    case Some(t) => t
    case None => Id(name)
  }

  /** Operators and punctuation in the order in which they are looked for. */
  function Symbol(i: nat): (r: (string, Token))
    requires i < SYMBOLS
    ensures 1 <= |r.0| <= 2
  {
    if i == 0 then ("(", LParen)
    else if i == 1 then (")", RParen)
    else if i == 2 then (",", Comma)
    else if i == 3 then ("+", Plus)
    else if i == 4 then ("-", Minus)
    else if i == 5 then ("*", Star)
    else if i == 6 then ("/", Slash)
    else if i == 7 then ("&", Ampersand)
    else if i == 8 then ("=", Equal)
    else if i == 9 then (">=", GreaterEq)
    else if i == 10 then (">", Greater)
    else if i == 11 then ("<>", NotEqual)
    else if i == 12 then ("<=", LessEq)
    else if i == 13 then ("<", Less)
    else ("!=", NotEqual)
  }

  const SYMBOLS: nat := 15

  function FindSymbol(s: string, i: nat): (r: Result<(Token, string), Error>)
    requires i <= SYMBOLS
    ensures r.Ok? ==> |r.value.1| < |s| && r.value.0 != End
    decreases SYMBOLS - i
  {
    if i == SYMBOLS then Err(IllegalCharacter)
    else if StartOf(Symbol(i).0, s) then Ok((Symbol(i).1, s[|Symbol(i).0|..]))
    else FindSymbol(s, i + 1)
  }

  /** Length of the numeric literal at the front. */
  function NumberLength(s: string): (n: nat)
    ensures n <= |s|
  {
    var n := Span(s, IsDigit);
    if n < |s| && s[n] == '.' then n + 1 + Span(s[n + 1..], IsDigit) else n
  }

  predicate IsEscape(c: char) {
    c == '\\' || IsQuote(c)
  }

  /** The text of a string literal, from behind the opening quote, and what follows it. */
  function ScanText(s: string, quote: char): (r: Result<(string, string), Error>)
    ensures r.Ok? ==> |r.value.1| < |s|
  {
    if s == "" then Err(Unterminated)
    else if s[0] == quote then Ok(("", s[1..]))
    else if s[0] == '\\' then
      if |s| == 1 || !IsEscape(s[1]) then Err(IllegalEscape)
      else
        var r :- ScanText(s[2..], quote);
        Ok(([s[1]] + r.0, r.1))
    else
      var r :- ScanText(s[1..], quote);
      Ok(([s[0]] + r.0, r.1))
  }

  /** The token at the front, which is not a space, and what follows it. */
  function ScanToken(s: string): (r: Result<(Token, string), Error>)
    ensures r.Ok? ==> |r.value.1| <= |s| && (r.value.0 != End ==> |r.value.1| < |s|)
  {
    if s == "" then Ok((End, ""))
    else if IsFirstNameChar(s[0]) then
      var n := Span(s, IsNameChar);
      Ok((Word(s[..n]), s[n..]))
    else if IsDigit(s[0]) then
      var n := NumberLength(s);
      Ok((Number(s[..n]), s[n..]))
    else if IsQuote(s[0]) then
      var r :- ScanText(s[1..], s[0]);
      Ok((Text(r.0), r.1))
    else FindSymbol(s, 0)
  }

  function SkipSpace(s: string): string {
    s[Span(s, IsSpace)..]
  }

  function NextToken(s: string): (r: Result<(Token, string), Error>)
    ensures r.Ok? ==> |r.value.1| <= |s| && (r.value.0 != End ==> |r.value.1| < |s|)
  {
    ScanToken(SkipSpace(s))
  }

  /** The tokens up to the end or to the first error. */
  datatype Stream = Stream(tokens: seq<Token>, error: Option<Error>)

  function Scan(s: string): Stream
    decreases |s|
  {
    match NextToken(s)
    case Err(e) => Stream([], Some(e))
    case Ok(r) =>
      if r.0 == End then Stream([], None)
      else var rest := Scan(r.1); Stream([r.0] + rest.tokens, rest.error)
  }

  // ---- Writing tokens ----

  /** What stands between the quotes of a text: each character as it is, or behind a backslash if it may be. */
  predicate SpellsText(w: string, quote: char, text: string)
    decreases |w|
  {
    if w == "" then text == ""
    else if w[0] == '\\' then
      && |w| > 1 && (w[1] == '\\' || w[1] == '\"' || w[1] == '\'')
      && text != "" && text[0] == w[1] && SpellsText(w[2..], quote, text[1..])
    else w[0] != quote && text != "" && text[0] == w[0] && SpellsText(w[1..], quote, text[1..])
  }

  /** A way to write the token. */
  predicate Spells(w: string, t: Token) {
    match t
    case Id(name) => w == name
    case Number(digits) => w == digits
    case Text(text) =>
      |w| > 1 && (w[0] == '\"' || w[0] == '\'') && w[|w| - 1] == w[0] && SpellsText(w[1..|w| - 1], w[0], text)
    case False => Same(w, "false")
    case True => Same(w, "true")
    case Infinity => Same(w, "infinity")
    case NaN => Same(w, "nan")
    case Defined => Same(w, "defined")
    case Div => Same(w, "div")
    case Mod => Same(w, "mod")
    case And => Same(w, "and")
    case Or => Same(w, "or")
    case Not => Same(w, "not")
    case LParen => w == "("
    case RParen => w == ")"
    case Comma => w == ","
    case Plus => w == "+"
    case Minus => w == "-"
    case Star => w == "*"
    case Slash => w == "/"
    case Ampersand => w == "&"
    case Equal => w == "="
    case Greater => w == ">"
    case GreaterEq => w == ">="
    case Less => w == "<"
    case LessEq => w == "<="
    case NotEqual => w == "<>" || w == "!="
    case End => false
  }

  predicate IsNumber(s: string) {
    s != "" && IsDigit(s[0]) && NumberLength(s) == |s|
  }

  predicate IsName(s: string) {
    s != "" && IsFirstNameChar(s[0]) && (forall i | 0 <= i < |s| :: IsNameChar(s[i])) && Reserved(Fold(s)).None?
  }

  /** The token can occur in a text. */
  predicate Spellable(t: Token) {
    match t
    case Id(name) => IsName(name)
    case Number(digits) => IsNumber(digits)
    case End => false
    case _ => true
  }

  predicate IsWord(t: Token) {
    t.Id? || t.False? || t.True? || t.Infinity? || t.NaN? || t.Defined? || t.Div? || t.Mod? || t.And? || t.Or? || t.Not?
  }

  /** A token read from the text would take in this character. */
  predicate Sticks(t: Token, c: char) {
    || (IsWord(t) && IsNameChar(c))
    || (t.Number? && (IsDigit(c) || (c == '.' && '.' !in t.digits)))
    || (t.Less? && (c == '=' || c == '>'))
    || (t.Greater? && c == '=')
  }

  /** The words with spaces before, between and after them. */
  function Write(ws: seq<string>, gaps: seq<string>): string
    requires |gaps| == |ws| + 1
  {
    if ws == [] then gaps[0] else gaps[0] + (ws[0] + Write(ws[1..], gaps[1..]))
  }

  predicate Blank(s: string) {
    forall i | 0 <= i < |s| :: s[i] == ' ' || s[i] == '\t'
  }

  /** The words spell the tokens. */
  predicate Spelled(ts: seq<Token>, ws: seq<string>) {
    |ws| == |ts| && forall i | 0 <= i < |ts| :: Spellable(ts[i]) && Spells(ws[i], ts[i])
  }

  predicate Separate(ts: seq<Token>, ws: seq<string>, gaps: seq<string>, i: nat)
    requires |gaps| == |ts| + 1 == |ws| + 1 && i < |ts| - 1
  {
    gaps[i + 1] == "" ==> ws[i + 1] != "" && !Sticks(ts[i], ws[i + 1][0])
  }

  /** There is space wherever two tokens would stick together. */
  predicate WellSpaced(ts: seq<Token>, ws: seq<string>, gaps: seq<string>) {
    && |gaps| == |ts| + 1 == |ws| + 1
    && (forall i | 0 <= i < |gaps| :: Blank(gaps[i]))
    && (forall i | 0 <= i < |ts| - 1 :: Separate(ts, ws, gaps, i))
  }

  // ---- Each token is read back ----

  /** The rest of the text begins with nothing that sticks to the token. */
  predicate Apart(t: Token, rest: string) {
    rest == "" || !Sticks(t, rest[0])
  }

  lemma ScanWord(name: string, rest: string)
    requires name != "" && IsFirstNameChar(name[0]) && (forall i | 0 <= i < |name| :: IsNameChar(name[i]))
    requires rest == "" || !IsNameChar(rest[0])
    ensures ScanToken(name + rest) == Ok((Word(name), rest))
  {
    var s := name + rest;
    SpanIs(s, IsNameChar, |name|);
    assert s[..|name|] == name && s[|name|..] == rest;
  }

  lemma ScanId(name: string, rest: string)
    requires IsName(name) && Apart(Id(name), rest)
    ensures ScanToken(name + rest) == Ok((Id(name), rest))
  {
    ScanWord(name, rest);
  }

  /** A reserved word, in lower case. */
  lemma ReservedWord(w: string, t: Token) returns (word: string)
    requires IsWord(t) && !t.Id? && Spells(w, t)
    ensures word != "" && Same(w, word) && Reserved(word) == Some(t)
    ensures forall i | 0 <= i < |word| :: 'a' <= word[i] <= 'z'
  {
    hide Fold;
    match t
    case False => word := "false";
    case True => word := "true";
    case Infinity => word := "infinity";
    case NaN => word := "nan";
    case Defined => word := "defined";
    case Div => word := "div";
    case Mod => word := "mod";
    case And => word := "and";
    case Or => word := "or";
    case Not => word := "not";
  }

  lemma LetterIsNameChar(c: char)
    requires 'a' <= LowerCase(c) <= 'z'
    ensures IsFirstNameChar(c)
  {
  }

  lemma ScanReserved(w: string, t: Token, rest: string)
    requires IsWord(t) && !t.Id? && Spells(w, t) && Apart(t, rest)
    ensures w != "" && IsFirstNameChar(w[0]) && ScanToken(w + rest) == Ok((t, rest))
  {
    var word := ReservedWord(w, t);
    FoldLower(word);
    FoldLength(w);
    hide Reserved, Fold, IsDigit, Spells;
    forall i | 0 <= i < |w|
      ensures IsFirstNameChar(w[i])
    {
      FoldAt(w, i);
      LetterIsNameChar(w[i]);
    }
    ScanWord(w, rest);
  }

  lemma ScanNumber(digits: string, rest: string)
    requires IsNumber(digits) && Apart(Number(digits), rest)
    ensures ScanToken(digits + rest) == Ok((Number(digits), rest))
  {
    var s := digits + rest;
    var n := Span(digits, IsDigit);
    if n < |digits| {
      assert digits[n] == '.';
      SpanIs(s, IsDigit, n);
      assert s[n + 1..] == digits[n + 1..] + rest;
      var m := Span(digits[n + 1..], IsDigit);
      SpanIs(s[n + 1..], IsDigit, m);
    } else {
      assert '.' !in digits;
      SpanIs(s, IsDigit, n);
    }
    assert NumberLength(s) == |digits|;
    assert s[..|digits|] == digits && s[|digits|..] == rest;
  }

  lemma {:induction false} ScanSpelledText(w: string, quote: char, text: string, rest: string)
    requires IsQuote(quote) && SpellsText(w, quote, text)
    ensures ScanText(w + [quote] + rest, quote) == Ok((text, rest))
    decreases |w|
  {
    var s := w + [quote] + rest;
    if w == "" {
      assert s[1..] == rest;
    } else {
      var n := if w[0] == '\\' then 2 else 1;
      assert s[n..] == w[n..] + [quote] + rest;
      ScanSpelledText(w[n..], quote, text[1..], rest);
      assert text == [text[0]] + text[1..];
    }
  }

  lemma ScanString(w: string, text: string, rest: string)
    requires Spells(w, Text(text))
    ensures ScanToken(w + rest) == Ok((Text(text), rest))
    ensures w != "" && IsQuote(w[0])
  {
    ScanSpelledText(w[1..|w| - 1], w[0], text, rest);
    assert (w + rest)[1..] == w[1..|w| - 1] + [w[0]] + rest;
  }

  lemma {:induction false} FirstMatch(s: string, i: nat, j: nat)
    requires i <= j < SYMBOLS && StartOf(Symbol(j).0, s)
    requires forall k | i <= k < j :: !StartOf(Symbol(k).0, s)
    ensures FindSymbol(s, i) == Ok((Symbol(j).1, s[|Symbol(j).0|..]))
    decreases j - i
  {
    if i < j {
      FirstMatch(s, i + 1, j);
    }
  }

  /** The position of the symbol in the table. */
  function PositionOf(w: string): nat {
    if w == "(" then 0
    else if w == ")" then 1
    else if w == "," then 2
    else if w == "+" then 3
    else if w == "-" then 4
    else if w == "*" then 5
    else if w == "/" then 6
    else if w == "&" then 7
    else if w == "=" then 8
    else if w == ">=" then 9
    else if w == ">" then 10
    else if w == "<>" then 11
    else if w == "<=" then 12
    else if w == "<" then 13
    else 14
  }

  predicate IsSymbol(t: Token) {
    !IsWord(t) && !t.Number? && !t.Text? && !t.End?
  }

  lemma PositionIs(w: string, t: Token)
    requires IsSymbol(t) && Spells(w, t)
    ensures PositionOf(w) < SYMBOLS && Symbol(PositionOf(w)) == (w, t) && w != "" && w[0] in "(),+-*/&=><!"
  {
  }

  lemma SameStart(a: string, s: string)
    ensures StartOf(a, s) ==> |a| <= |s| && (|a| > 0 ==> a[0] == s[0]) && (|a| > 1 ==> a[1] == s[1])
  {
  }

  lemma NotBefore(w: string, t: Token, rest: string, k: nat)
    requires IsSymbol(t) && Spells(w, t) && Apart(t, rest) && k < PositionOf(w)
    ensures k < SYMBOLS && !StartOf(Symbol(k).0, w + rest)
  {
    var s := w + rest;
    PositionIs(w, t);
    var symbol := Symbol(k).0;
    SameStart(symbol, s);
    assert s[0] == w[0];
    assert |w| > 1 ==> s[1] == w[1];
    assert |w| == 1 && rest != "" ==> s[1] == rest[0];
  }

  lemma ScanSymbol(w: string, t: Token, rest: string)
    requires IsSymbol(t) && Spells(w, t) && Apart(t, rest)
    ensures ScanToken(w + rest) == Ok((t, rest))
    ensures w != "" && w[0] in "(),+-*/&=><!"
  {
    hide Spells, Symbol, PositionOf, Sticks, ScanToken, FindSymbol, IsNameChar, IsDigit, IsQuote, IsSymbol;
    PositionIs(w, t);
    var s := w + rest;
    forall k | 0 <= k < PositionOf(w)
      ensures !StartOf(Symbol(k).0, s)
    {
      NotBefore(w, t, rest, k);
    }
    assert s[|w|..] == rest;
    FirstMatch(s, 0, PositionOf(w));
    SymbolStarts(s[0]);
    ScanAsSymbol(s);
  }

  lemma SymbolStarts(c: char)
    requires c in "(),+-*/&=><!"
    ensures !IsNameChar(c) && !IsDigit(c) && !IsQuote(c)
  {
  }

  /** Names are made of letters, digits and what is neither space, sign nor quote. */
  lemma NameCharacters(c: char)
    ensures 'a' <= c <= 'z' || 'A' <= c <= 'Z' || '0' <= c <= '9' || c in "_.:@#%?|{}^~`\\" ==> IsNameChar(c)
    ensures c in " \t(),+-*/&=><!\"'" ==> !IsNameChar(c)
  {
  }

  /** Some characters are in no token outside of texts, not even as a part of a name. */
  lemma IllegalCharacters(c: char, rest: string)
    requires c in "$[];"
    ensures ScanToken([c] + rest) == Err(IllegalCharacter)
    ensures !IsNameChar(c)
  {
    var s := [c] + rest;
    hide Symbol;
    forall k | 0 <= k < SYMBOLS
      ensures !StartOf(Symbol(k).0, s)
    {
      IllegalStart(s, k);
    }
    NoMatch(s, 0);
    hide FindSymbol;
  }

  lemma IllegalStart(s: string, k: nat)
    requires s != "" && s[0] in "$[];" && k < SYMBOLS
    ensures !StartOf(Symbol(k).0, s)
  {
    SameStart(Symbol(k).0, s);
  }

  lemma {:induction false} NoMatch(s: string, i: nat)
    requires i <= SYMBOLS && forall k | i <= k < SYMBOLS :: !StartOf(Symbol(k).0, s)
    ensures FindSymbol(s, i) == Err(IllegalCharacter)
    decreases SYMBOLS - i
  {
    if i < SYMBOLS {
      NoMatch(s, i + 1);
    }
  }

  lemma ScanAsSymbol(s: string)
    requires s != "" && !IsNameChar(s[0]) && !IsDigit(s[0]) && !IsQuote(s[0])
    ensures ScanToken(s) == FindSymbol(s, 0)
  {
    hide FindSymbol, IsDigit, IsQuote;
  }

  lemma NotSpaces(c: char)
    ensures IsFirstNameChar(c) || IsDigit(c) || IsQuote(c) || c in "(),+-*/&=><!" ==> !IsSpace(c)
  {
  }

  /** A token is read from every way to write it, if nothing that follows sticks to it. */
  lemma ScanSpelled(w: string, t: Token, rest: string)
    requires Spellable(t) && Spells(w, t) && Apart(t, rest)
    ensures ScanToken(w + rest) == Ok((t, rest))
    ensures w != "" && !IsSpace(w[0])
  {
    hide ScanToken, Sticks, IsDigit, IsFirstNameChar, IsNameChar, IsSpace, IsQuote, NumberLength;
    if t.Id? || t.Number? {
      hide Reserved, Fold;
      if t.Id? {
        ScanId(w, rest);
      } else {
        ScanNumber(w, rest);
      }
    } else {
      NotEndSpelled(w, t, rest);
    }
    NotSpaces(w[0]);
  }

  lemma NotEndSpelled(w: string, t: Token, rest: string)
    requires !t.Id? && !t.Number? && !t.End? && Spells(w, t) && Apart(t, rest)
    ensures ScanToken(w + rest) == Ok((t, rest))
    ensures w != "" && (IsFirstNameChar(w[0]) || IsQuote(w[0]) || w[0] in "(),+-*/&=><!")
  {
    hide ScanToken, Sticks, IsDigit, IsFirstNameChar, IsNameChar, IsQuote, SpellsText, Fold;
    if t.Text? {
      ScanString(w, t.text, rest);
    } else if IsWord(t) {
      ScanReserved(w, t, rest);
    } else {
      hide Spells;
      ScanSymbol(w, t, rest);
    }
  }

  lemma SkipGap(gap: string, s: string)
    requires Blank(gap) && (s == "" || !IsSpace(s[0]))
    ensures SkipSpace(gap + s) == s
  {
    SpanIs(gap + s, IsSpace, |gap|);
    assert (gap + s)[|gap|..] == s;
  }

  /** The tokens of a text are those it was written from, however they are spelled and spaced. */
  lemma {:induction false} ScanInvertsWrite(ts: seq<Token>, ws: seq<string>, gaps: seq<string>)
    requires Spelled(ts, ws) && WellSpaced(ts, ws, gaps)
    ensures Scan(Write(ws, gaps)) == Stream(ts, None)
    decreases |ts|
  {
    hide Spells, Spellable, Sticks, ScanToken, SkipSpace;
    if ts == [] {
      assert gaps[0] + "" == gaps[0];
      SkipGap(gaps[0], "");
      EndOfText();
    } else {
      WrittenRest(ts, ws, gaps);
      ScanInvertsWrite(ts[1..], ws[1..], gaps[1..]);
      var rest := Write(ws[1..], gaps[1..]);
      ScanSpelled(ws[0], ts[0], rest);
      SkipGap(gaps[0], ws[0] + rest);
      assert ts[0] != End by { EndIsNotSpelled(); }
      assert [ts[0]] + ts[1..] == ts;
    }
  }

  lemma EndIsNotSpelled()
    ensures !Spellable(End)
  {
  }

  lemma EndOfText()
    ensures ScanToken("") == Ok((End, ""))
  {
  }

  lemma WrittenRest(ts: seq<Token>, ws: seq<string>, gaps: seq<string>)
    requires Spelled(ts, ws) && WellSpaced(ts, ws, gaps) && ts != []
    ensures Spelled(ts[1..], ws[1..]) && WellSpaced(ts[1..], ws[1..], gaps[1..])
    ensures Apart(ts[0], Write(ws[1..], gaps[1..]))
  {
    hide Spells, Spellable;
    forall i | 0 <= i < |ts[1..]| - 1
      ensures Separate(ts[1..], ws[1..], gaps[1..], i)
    {
      assert Separate(ts, ws, gaps, i + 1);
    }
    var gap, written := gaps[1], Write(ws[1..], gaps[1..]);
    assert gaps[1..][0] == gap;
    assert forall i | 0 <= i < |gaps[1..]| :: gaps[1..][i] == gaps[i + 1];
    if gap != "" {
      assert IsSpace(gap[0]);
      assert written[0] == gap[0];
    } else if |ts| > 1 {
      assert Separate(ts, ws, gaps, 0);
      assert written[0] == ws[1][0];
    }
  }
}

/**
  Tokens of settings (GetTokenW and _Tokenize in lsapi/lsapi.cpp): words, texts in quotes and,
  if asked for, in brackets, which nest.
 */
module Tokenizer {
  import opened Options

  /** The characters that are skipped around tokens. */
  predicate IsBlank(c: char) {
    c == ' ' || c == '\t' || c == '\n' || c == '\r'
  }

  /** iswspace, in the C locale: the characters that end a token. */
  predicate IsSpace(c: char) {
    IsBlank(c) || c == '\U{000B}' || c == '\U{000C}'
  }

  predicate IsQuote(c: char) {
    c == '\'' || c == '\"'
  }

  predicate InQuotes(quote: Option<char>) {
    quote.Some? && IsQuote(quote.value)
  }

  predicate IsBracket(c: char) {
    c == '[' || c == ']'
  }

  /** The text behind the blanks at its front. */
  function SkipBlanks(s: string): (r: string)
    ensures |r| <= |s| && (r != "" ==> !IsBlank(r[0]))
  {
    if s != "" && IsBlank(s[0]) then SkipBlanks(s[1..]) else s
  }

  /** Where the loop over the characters stands. */
  datatype State = State(level: int, quote: Option<char>, start: Option<nat>)

  /** Goes on with the next character, or stops, with a token to be appended if so told. */
  datatype Turn = Go(state: State) | Stop(append: bool)

  /** A character that belongs to the token. */
  function Take(st: State, i: nat): State {
    if st.start.Some? then st else st.(start := Some(i))
  }

  /** A character that is no bracket or within brackets. */
  function TurnPlain(st: State, c: char, i: nat): Turn {
    if IsQuote(c) && st.quote != Some('[') then
      if st.quote.None? then
        if st.start.Some? then Stop(true) else Go(st.(quote := Some(c)))
      else if st.quote == Some(c) then Stop(false)
      else Go(Take(st, i))
    else Go(Take(st, i))
  }

  function TurnAt(st: State, c: char, i: nat, brackets: bool): Turn {
    if IsSpace(c) && st.quote.None? then Stop(false)
    else if brackets && IsBracket(c) && !InQuotes(st.quote) then
      if c == '[' then
        if st.start.Some? && st.quote.None? then Stop(false)
        else
          var st' := st.(level := st.level + 1, quote := Some('['));
          if st'.level == 1 then Go(st') else TurnPlain(st', c, i)
      else
        var st' := st.(level := st.level - 1);
        if st'.level <= 0 then Stop(false) else TurnPlain(st', c, i)
    else TurnPlain(st, c, i)
  }

  /** Where the loop stops, where the token starts, and whether one is to be appended. */
  datatype Scanned = Scanned(end: nat, start: Option<nat>, append: bool)

  function Scan(s: string, i: nat, st: State, brackets: bool): (r: Scanned)
    requires i <= |s| && (st.start.Some? ==> st.start.value < i)
    ensures i <= r.end <= |s| && (r.start.Some? ==> r.start.value < r.end)
    ensures r.append ==> r.end < |s| && r.start.Some?
    decreases |s| - i
  {
    if i == |s| then Scanned(i, st.start, false)
    else
      match TurnAt(st, s[i], i, brackets)
      case Go(st') => Scan(s, i + 1, st', brackets)
      case Stop(append) => Scanned(i, st.start, append)
  }

  const BEGIN: State := State(0, None, None)

  /** What GetToken finds: its result, the token and the text from the next token on, if any. */
  datatype Token = Token(found: bool, text: string, next: Option<string>)

  /** The text between the start and the end of the token. */
  function TokenText(s: string, r: Scanned): string
    requires r.end <= |s| && (r.start.Some? ==> r.start.value < r.end)
  {
    if r.start.Some? then s[r.start.value..r.end] else ""
  }

  function GetToken(text: string, brackets: bool): (token: Token)
    ensures token.next.Some? ==> token.next.value != "" && |token.next.value| < |text|
    decreases |text|
  {
    var s := SkipBlanks(text);
    var r := Scan(s, 0, BEGIN, brackets);
    if r.append then
      var rest := SkipBlanks(s[r.end..]);
      if rest == "" then Token(true, TokenText(s, r), None)
      else
        var more := GetToken(rest, brackets);
        Token(true, TokenText(s, r) + more.text, more.next)
    else
      var rest := SkipBlanks(if r.end < |s| then s[r.end + 1..] else "");
      Token(r.start.Some?, TokenText(s, r), if rest == "" then None else Some(rest))
  }

  /** The loop of GetTokenW over the characters, and its call for a text in quotes that follows. */
  method GetTokenW(text: string, brackets: bool) returns (token: Token)
    ensures token == GetToken(text, brackets)
    decreases |text|
  {
    hide Scan, IsSpace;
    var s := SkipBlanks(text);
    var i := 0;
    var level, append := 0, false;
    var quote: Option<char> := None;
    var start: Option<nat> := None;
    ghost var scanned := Scan(s, 0, BEGIN, brackets);
    while i < |s|
      invariant 0 <= i <= |s| && (start.Some? ==> start.value < i) && !append
      invariant Scan(s, i, State(level, quote, start), brackets) == scanned
      decreases |s| - i
    {
      var c := s[i];
      ScanTurn(s, i, State(level, quote, start), brackets);
      if IsSpace(c) && quote.None? {
        break;
      }
      if brackets && IsBracket(c) && !InQuotes(quote) {
        if c == '[' {
          if start.Some? && quote.None? {
            break;
          }
          level := level + 1;
          quote := Some('[');
          if level == 1 {
            i := i + 1;
            continue;
          }
        } else {
          level := level - 1;
          if level <= 0 {
            break;
          }
        }
      }
      if IsQuote(c) && quote != Some('[') {
        if quote.None? {
          if start.Some? {
            append := true;
            break;
          }
          quote := Some(c);
          i := i + 1;
          continue;
        } else if quote == Some(c) {
          break;
        }
      }
      if start.None? {
        start := Some(i);
      }
      i := i + 1;
    }
    if i == |s| {
      ScanEnd(s, State(level, quote, start), brackets);
    }
    assert scanned == Scanned(i, start, append);
    hide SkipBlanks, TurnAt;
    var found := if start.Some? then s[start.value..i] else "";
    var rest := s[i..];
    if !append && rest != "" {
      rest := rest[1..];
    }
    rest := SkipBlanks(rest);
    if append && rest != "" {
      var more := GetTokenW(rest, brackets);
      return Token(true, found + more.text, more.next);
    }
    token := Token(start.Some?, found, if rest == "" then None else Some(rest));
  }

  lemma ScanTurn(s: string, i: nat, st: State, brackets: bool)
    requires i < |s| && (st.start.Some? ==> st.start.value < i)
    ensures var turn := TurnAt(st, s[i], i, brackets);
      Scan(s, i, st, brackets) == if turn.Go? then Scan(s, i + 1, turn.state, brackets) else Scanned(i, st.start, turn.append)
  {
  }

  lemma ScanEnd(s: string, st: State, brackets: bool)
    requires st.start.Some? ==> st.start.value < |s|
    ensures Scan(s, |s|, st, brackets) == Scanned(|s|, st.start, false)
  {
  }

  // ---- Brackets ----

  function Delta(c: char): int {
    if c == '[' then 1 else if c == ']' then -1 else 0
  }

  /** How much deeper in brackets the first n characters lead. */
  function Depth(s: string, n: nat): int
    requires n <= |s|
  {
    if n == 0 then 0
    else Delta(s[0]) + Depth(s[1..], n - 1)
  }

  /** From a level on, the brackets never close the last one. */
  predicate StaysIn(s: string, level: int) {
    forall n | 0 <= n <= |s| :: level + Depth(s, n) >= 1
  }

  predicate Balanced(s: string) {
    Depth(s, |s|) == 0 && forall n | 0 <= n <= |s| :: Depth(s, n) >= 0
  }

  /** Position of the bracket that closes so many levels; the length if there is none. */
  function Close(s: string, level: nat): (n: nat)
    requires level > 0
    ensures n <= |s|
  {
    if s == "" then 0
    else if s[0] == ']' then if level == 1 then 0 else 1 + Close(s[1..], level - 1)
    else 1 + Close(s[1..], if s[0] == '[' then level + 1 else level)
  }

  /** Within brackets the loop runs to the bracket that closes them, whatever is there. */
  lemma {:induction false} ScanInBrackets(s: string, i: nat, level: nat, start: Option<nat>)
    requires i <= |s| && level > 0 && (start.Some? ==> start.value < i)
    ensures Scan(s, i, State(level, Some('['), start), true)
         == var n := Close(s[i..], level);
            Scanned(i + n, if start.Some? || n == 0 then start else Some(i), false)
    decreases |s| - i
  {
    if i < |s| {
      assert s[i..][1..] == s[i + 1..];
      var started := if start.Some? then start else Some(i);
      if s[i] == '[' {
        ScanInBrackets(s, i + 1, level + 1, started);
      } else if s[i] == ']' {
        if level > 1 {
          ScanInBrackets(s, i + 1, level - 1, started);
        }
      } else {
        ScanInBrackets(s, i + 1, level, started);
      }
    }
  }

  /** Behind a text the brackets close exactly there if the text is balanced. */
  lemma {:induction false} CloseBehind(s: string, rest: string, level: nat)
    requires level > 0
    ensures Close(s + ("]" + rest), level) == |s| <==> level + Depth(s, |s|) == 1 && StaysIn(s, level)
    decreases |s|
  {
    hide StaysIn;
    var all := s + ("]" + rest);
    if s == "" {
      assert all[0] == ']' && all[1..] == rest;
      StayInFrom(s, level);
    } else {
      assert all[1..] == s[1..] + ("]" + rest);
      var level' := level + Delta(s[0]);
      StayInFrom(s, level);
      if level' > 0 {
        CloseBehind(s[1..], rest, level');
      } else {
        StayInFrom(s[1..], level');
      }
    }
  }

  lemma StayInFrom(s: string, level: int)
    ensures s == "" ==> (StaysIn(s, level) <==> level >= 1)
    ensures s != "" && level >= 1 ==> (StaysIn(s, level) <==> StaysIn(s[1..], level + Delta(s[0])))
    ensures StaysIn(s, level) ==> level >= 1
  {
    assert Depth(s, 0) == 0;
    if s != "" {
      assert forall n | 1 <= n <= |s| :: Depth(s, n) == Delta(s[0]) + Depth(s[1..], n - 1);
      if StaysIn(s, level) {
        forall n | 0 <= n <= |s[1..]|
          ensures level + Delta(s[0]) + Depth(s[1..], n) >= 1
        {
          var next := n + 1;
          assert level + Depth(s, next) >= 1;
        }
      }
    }
  }

  /**
    A text in brackets is read back as it is, whatever spaces and quotes it has and whatever
    follows, exactly if its brackets are balanced.
   */
  lemma BracketsQuote(s: string, rest: string)
    requires s != ""
    ensures var next := SkipBlanks(rest);
      GetToken("[" + s + ("]" + rest), true) == Token(true, s, if next == "" then None else Some(next))
      <==> Balanced(s)
  {
    hide Scan, Close, Depth, StaysIn, Balanced, GetToken;
    var text := "[" + s + ("]" + rest);
    var inner := s + ("]" + rest);
    assert text[0] == '[' && text[1..] == inner;
    OpenBracket(text);
    ScanInBrackets(text, 1, 1, None);
    CloseBehind(s, rest, 1);
    BalancedIs(s);
    var r := Scan(text, 0, BEGIN, true);
    var n := Close(inner, 1);
    TokenAt(text, s, rest, r, n);
  }

  lemma BalancedIs(s: string)
    ensures Balanced(s) <==> 1 + Depth(s, |s|) == 1 && StaysIn(s, 1)
  {
    if StaysIn(s, 1) {
      forall n | 0 <= n <= |s|
        ensures Depth(s, n) >= 0
      {
        assert 1 + Depth(s, n) >= 1;
      }
    }
  }

  lemma OpenBracket(text: string)
    requires text != "" && text[0] == '['
    ensures SkipBlanks(text) == text
    ensures Scan(text, 0, BEGIN, true) == Scan(text, 1, State(1, Some('['), None), true)
  {
  }

  lemma TokenAt(text: string, s: string, rest: string, r: Scanned, n: nat)
    requires text == "[" + s + ("]" + rest) && s != "" && SkipBlanks(text) == text && r == Scan(text, 0, BEGIN, true)
    requires n <= |text| - 1 && r == Scanned(1 + n, if n == 0 then None else Some(1), false)
    ensures var next := SkipBlanks(rest);
      GetToken(text, true) == Token(true, s, if next == "" then None else Some(next)) <==> n == |s|
  {
    OneToken(text, r, true);
    hide Scan, SkipBlanks, GetToken;
    assert n > 0 ==> |text[1..1 + n]| == n;
    if n == |s| {
      assert text[1..1 + n] == s;
      assert text[1 + n + 1..] == rest;
    }
  }

  /** A token to which none is appended. */
  lemma OneToken(text: string, r: Scanned, brackets: bool)
    requires SkipBlanks(text) == text && r == Scan(text, 0, BEGIN, brackets) && !r.append
    ensures var next := SkipBlanks(if r.end < |text| then text[r.end + 1..] else "");
      GetToken(text, brackets)
      == Token(r.start.Some?, if r.start.Some? then text[r.start.value..r.end] else "", if next == "" then None else Some(next))
  {
    hide Scan, SkipBlanks;
  }

  // ---- _Tokenize ----

  /** _Tokenize with buffers: the tokens found and the text left, as far as there are buffers. */
  function Tokenize(text: Option<string>, buffers: nat, brackets: bool): (seq<string>, Option<string>)
    decreases buffers
  {
    if text.None? || buffers == 0 then ([], text)
    else
      var token := GetToken(text.value, brackets);
      var more := Tokenize(token.next, buffers - 1, brackets);
      ([token.text] + more.0, more.1)
  }

  /** _Tokenize without buffers: how many tokens there are up to the first that is none. */
  function CountTokens(text: Option<string>, brackets: bool): nat
    decreases if text.Some? then 1 + |text.value| else 0
  {
    if text.None? then 0
    else
      var token := GetToken(text.value, brackets);
      if token.found then 1 + CountTokens(token.next, brackets) else 0
  }

  method TokenizeText(text: string, buffers: nat, brackets: bool) returns (tokens: seq<string>, extra: Option<string>)
    ensures (tokens, extra) == Tokenize(Some(text), buffers, brackets)
  {
    hide GetToken, Tokenize;
    tokens, extra := [], Some(text);
    ghost var all := Tokenize(Some(text), buffers, brackets);
    AfterNothing(all);
    while extra.Some? && |tokens| < buffers
      invariant |tokens| <= buffers
      invariant After(tokens, Tokenize(extra, buffers - |tokens|, brackets)) == all
      decreases buffers - |tokens|
    {
      TokenizeOne(tokens, extra.value, buffers - |tokens|, brackets);
      var token := GetTokenW(extra.value, brackets);
      tokens, extra := tokens + [token.text], token.next;
    }
    TokenizeNone(tokens, extra, buffers - |tokens|, brackets);
  }

  /** The tokens so far and those still to come. */
  function After(tokens: seq<string>, more: (seq<string>, Option<string>)): (seq<string>, Option<string>) {
    (tokens + more.0, more.1)
  }

  lemma AfterNothing(all: (seq<string>, Option<string>))
    ensures After([], all) == all
  {
    assert [] + all.0 == all.0;
  }

  lemma TokenizeOne(tokens: seq<string>, text: string, buffers: nat, brackets: bool)
    requires buffers > 0
    ensures var token := GetToken(text, brackets);
      After(tokens, Tokenize(Some(text), buffers, brackets))
      == After(tokens + [token.text], Tokenize(token.next, buffers - 1, brackets))
  {
    hide GetToken;
    var token := GetToken(text, brackets);
    var more := Tokenize(token.next, buffers - 1, brackets).0;
    assert tokens + ([token.text] + more) == tokens + [token.text] + more;
  }

  lemma TokenizeNone(tokens: seq<string>, extra: Option<string>, buffers: nat, brackets: bool)
    requires extra.None? || buffers == 0
    ensures After(tokens, Tokenize(extra, buffers, brackets)) == (tokens, extra)
  {
    assert tokens + [] == tokens;
  }

  method Count(text: string, brackets: bool) returns (tokens: nat)
    ensures tokens == CountTokens(Some(text), brackets)
  {
    tokens := 0;
    var token := GetTokenW(text, brackets);
    ghost var rest := Some(text);
    while token.found
      invariant rest.Some? ==> token == GetToken(rest.value, brackets)
      invariant rest.None? ==> !token.found
      invariant tokens + CountTokens(rest, brackets) == CountTokens(Some(text), brackets)
      decreases if rest.Some? then 1 + |rest.value| else 0
    {
      tokens := tokens + 1;
      rest := token.next;
      if token.next.Some? {
        token := GetTokenW(token.next.value, brackets);
      } else {
        token := Token(false, "", None);
      }
    }
  }

  // ---- Quotes ----

  lemma {:induction false} ScanInQuotes(s: string, i: nat, q: char, end: nat, start: Option<nat>, brackets: bool)
    requires IsQuote(q) && i <= end < |s| && s[end] == q && (forall j | i <= j < end :: s[j] != q)
    requires start.Some? ==> start.value < i
    ensures Scan(s, i, State(0, Some(q), start), brackets)
         == Scanned(end, if start.Some? || i == end then start else Some(i), false)
    decreases end - i
  {
    if i < end {
      ScanInQuotes(s, i + 1, q, end, if start.Some? then start else Some(i), brackets);
    }
  }

  /** A text in quotes is read back as it is if it has no such quote, brackets or not. */
  lemma QuotesQuote(s: string, q: char, rest: string, brackets: bool)
    requires IsQuote(q) && q !in s
    ensures var next := SkipBlanks(rest);
      GetToken([q] + s + ([q] + rest), brackets) == Token(s != "", s, if next == "" then None else Some(next))
  {
    var text := [q] + s + ([q] + rest);
    var end := 1 + |s|;
    assert SkipBlanks(text) == text;
    assert forall j | 1 <= j < end :: text[j] == s[j - 1];
    ScanInQuotes(text, 1, q, end, None, brackets);
    assert Scan(text, 0, BEGIN, brackets) == Scan(text, 1, State(0, Some(q), None), brackets);
    assert text[end + 1..] == rest;
    assert s != "" ==> text[1..end] == s;
    hide Scan, SkipBlanks;
  }

  // ---- Words ----

  /** The text has no space, no quote and, where brackets count, no bracket. */
  predicate IsWord(w: string, brackets: bool) {
    && w != "" && (forall i | 0 <= i < |w| :: w[i] !in " \t\n\r\U{000B}\U{000C}'\"")
    && (brackets ==> forall i | 0 <= i < |w| :: w[i] !in "[]")
  }

  lemma {:induction false} ScanWord(s: string, n: nat, i: nat, brackets: bool)
    requires i <= n <= |s| && (n > 0 ==> IsWord(s[..n], brackets)) && (n < |s| ==> IsSpace(s[n]) || (n > 0 && IsQuote(s[n])))
    ensures Scan(s, i, State(0, None, if i > 0 then Some(0) else None), brackets)
         == Scanned(n, if n > 0 then Some(0) else None, n < |s| && !IsSpace(s[n]))
    decreases n - i
  {
    if i < n {
      var c := s[i];
      assert c == s[..n][i];
      assert TurnAt(State(0, None, if i > 0 then Some(0) else None), c, i, brackets) == Go(State(0, None, Some(0)));
      ScanWord(s, n, i + 1, brackets);
    }
  }

  /** A word ends at the first space, and the next token is looked for behind the blanks there. */
  lemma WordStands(w: string, rest: string, brackets: bool)
    requires IsWord(w, brackets) && (rest == "" || rest[0] in " \t\n\r\U{000B}\U{000C}")
    ensures var next := SkipBlanks(if rest == "" then "" else rest[1..]);
      GetToken(w + rest, brackets) == Token(true, w, if next == "" then None else Some(next))
  {
    var text := w + rest;
    assert text[..|w|] == w && text[|w|..] == rest;
    WordFirst(w, rest, brackets);
    ScanWord(text, |w|, 0, brackets);
    OneToken(text, Scanned(|w|, Some(0), false), brackets);
    hide GetToken, Scan, SkipBlanks;
    if rest != "" {
      assert text[|w| + 1..] == rest[1..];
    }
  }

  lemma WordFirst(w: string, rest: string, brackets: bool)
    requires IsWord(w, brackets)
    ensures SkipBlanks(w + rest) == w + rest
  {
    assert (w + rest)[0] == w[0];
  }

  /** A text in quotes that follows a word is appended to it. */
  lemma WordWithQuotes(w: string, s: string, q: char, rest: string, brackets: bool)
    requires IsWord(w, brackets) && IsQuote(q) && q !in s
    ensures var next := SkipBlanks(rest);
      GetToken(w + ([q] + s + ([q] + rest)), brackets) == Token(true, w + s, if next == "" then None else Some(next))
  {
    var quoted := [q] + s + ([q] + rest);
    var text := w + quoted;
    assert text[..|w|] == w && text[|w|..] == quoted;
    WordFirst(w, quoted, brackets);
    ScanWord(text, |w|, 0, brackets);
    QuotesQuote(s, q, rest, brackets);
    assert SkipBlanks(quoted) == quoted;
    AppendedToken(text, Scanned(|w|, Some(0), true), brackets);
    hide GetToken, Scan, SkipBlanks;
  }

  /** A token to which another one is appended. */
  lemma AppendedToken(text: string, r: Scanned, brackets: bool)
    requires SkipBlanks(text) == text && r == Scan(text, 0, BEGIN, brackets) && r.append
    requires r.start == Some(0) && SkipBlanks(text[r.end..]) == text[r.end..]
    ensures var more := GetToken(text[r.end..], brackets);
      GetToken(text, brackets) == Token(true, text[..r.end] + more.text, more.next)
  {
    hide Scan, SkipBlanks;
    assert text[0..r.end] == text[..r.end];
  }

  /** Blanks in front of a token do not matter. */
  lemma BlanksFirst(c: char, text: string, brackets: bool)
    requires c in " \t\n\r"
    ensures GetToken([c] + text, brackets) == GetToken(text, brackets)
  {
    var s := [c] + text;
    assert s[1..] == text;
    assert SkipBlanks(s) == SkipBlanks(text);
    hide Scan, SkipBlanks;
  }

  // ---- Lists of tokens ----

  /** How a token is written. */
  datatype Spelling = Plain | Quotes(q: char) | Brackets

  datatype Written = Written(text: string, how: Spelling)

  predicate Writable(t: Written, brackets: bool) {
    && t.text != ""
    && match t.how
       case Plain => IsWord(t.text, brackets)
       case Quotes(q) => (q == '\'' || q == '\"') && q !in t.text
       case Brackets => brackets && Balanced(t.text)
  }

  function Write(t: Written): string {
    match t.how
    case Plain => t.text
    case Quotes(q) => [q] + t.text + [q]
    case Brackets => "[" + t.text + "]"
  }

  /** The tokens as they are written, with blanks between them. */
  function WriteAll(ts: seq<Written>): string {
    if ts == [] then ""
    else Write(ts[0]) + (if |ts| > 1 then " " + WriteAll(ts[1..]) else "")
  }

  predicate AllWritable(ts: seq<Written>, brackets: bool) {
    forall i | 0 <= i < |ts| :: Writable(ts[i], brackets)
  }

  lemma WrittenStands(t: Written, rest: string, brackets: bool)
    requires Writable(t, brackets) && (rest == "" || rest[0] == ' ')
    ensures var next := SkipBlanks(rest);
      GetToken(Write(t) + rest, brackets) == Token(true, t.text, if next == "" then None else Some(next))
  {
    hide GetToken, Balanced;
    match t.how
    case Plain =>
      WordStands(t.text, rest, brackets);
    case Quotes(q) =>
      QuotesQuote(t.text, q, rest, brackets);
      assert Write(t) + rest == [q] + t.text + ([q] + rest);
    case Brackets =>
      BracketsQuote(t.text, rest);
      assert Write(t) + rest == "[" + t.text + ("]" + rest);
  }

  lemma WrittenFirst(ts: seq<Written>, brackets: bool)
    requires ts != [] && AllWritable(ts, brackets)
    ensures WriteAll(ts) != "" && SkipBlanks(WriteAll(ts)) == WriteAll(ts) && SkipBlanks(" " + WriteAll(ts)) == WriteAll(ts)
  {
    assert Writable(ts[0], brackets);
    var s := WriteAll(ts);
    assert s[0] == Write(ts[0])[0];
    assert (" " + s)[1..] == s;
    hide WriteAll, Balanced;
  }

  lemma FirstWritten(ts: seq<Written>, brackets: bool)
    requires ts != [] && AllWritable(ts, brackets)
    ensures GetToken(WriteAll(ts), brackets) == Token(true, ts[0].text, if |ts| > 1 then Some(WriteAll(ts[1..])) else None)
  {
    assert AllWritable(ts[1..], brackets) by { hide Writable; }
    var rest := if |ts| > 1 then " " + WriteAll(ts[1..]) else "";
    WrittenStands(ts[0], rest, brackets);
    if |ts| > 1 {
      WrittenFirst(ts[1..], brackets);
    }
    hide GetToken, SkipBlanks, Writable;
    assert WriteAll(ts) == Write(ts[0]) + rest;
  }

  /** A list of words and of texts in quotes and in brackets is taken apart again. */
  lemma {:induction false} TokenizeInvertsWrite(ts: seq<Written>, buffers: nat, brackets: bool)
    requires ts != [] && AllWritable(ts, brackets)
    ensures var n := if buffers < |ts| then buffers else |ts|;
      Tokenize(Some(WriteAll(ts)), buffers, brackets)
      == (seq(n, i requires 0 <= i < n => ts[i].text), if n < |ts| then Some(WriteAll(ts[n..])) else None)
    ensures CountTokens(Some(WriteAll(ts)), brackets) == |ts|
    decreases |ts|
  {
    hide GetToken, WriteAll, Writable;
    FirstWritten(ts, brackets);
    var rest := ts[1..];
    if |ts| > 1 {
      TokenizeInvertsWrite(rest, if buffers > 0 then buffers - 1 else 0, brackets);
    }
    if buffers > 0 {
      var n := if buffers < |ts| then buffers else |ts|;
      assert seq(n, i requires 0 <= i < n => ts[i].text) == [ts[0].text] + seq(n - 1, i requires 0 <= i < n - 1 => rest[i].text);
      assert ts[n..] == rest[n - 1..];
    } else {
      assert ts[0..] == ts;
    }
  }
}

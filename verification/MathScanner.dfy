/** The class of lsapi/MathScanner.cpp, which reads a text through a buffer of two characters. */
module MathScanner {
  import opened Options
  import opened Strings
  import opened Tokens

  const LOOKAHEAD: nat := 2

  class MathScanner {
    var stream: string
    const lookahead: array<Option<char>>      // none behind the end of the input

    ghost predicate Valid()
      reads this, lookahead
    {
      && lookahead.Length == LOOKAHEAD
      && (lookahead[0].None? ==> lookahead[1].None?)
      && (lookahead[1].None? ==> stream == "")
    }

    /** What has not been scanned. */
    ghost function Input(): string
      reads this, lookahead
      requires Valid()
    {
      if lookahead[0].None? then ""
      else if lookahead[1].None? then [lookahead[0].value]
      else [lookahead[0].value, lookahead[1].value] + stream
    }

    /** The buffer shows the beginning of the input. */
    lemma Shown()
      requires Valid()
      ensures lookahead[0] == (if |Input()| > 0 then Some(Input()[0]) else None)
      ensures lookahead[1] == (if |Input()| > 1 then Some(Input()[1]) else None)
    {
    }

    constructor (expression: string)
      ensures Valid() && Input() == expression && fresh(lookahead)
    {
      stream := expression;
      lookahead := new Option<char>[LOOKAHEAD](_ => None);
      new;
      Shift();
      Shift();
    }

    method Shift()
      requires lookahead.Length == LOOKAHEAD
      modifies this, lookahead
      ensures lookahead[0] == old(lookahead[1])
      ensures if old(stream) == "" then lookahead[1].None? && stream == ""
              else lookahead[1] == Some(old(stream)[0]) && stream == old(stream)[1..]
    {
      for j := 0 to LOOKAHEAD - 1
        invariant stream == old(stream)
        invariant lookahead[LOOKAHEAD - 1] == old(lookahead[1])
        invariant j > 0 ==> lookahead[0] == old(lookahead[1])
      {
        lookahead[j] := lookahead[j + 1];
      }
      if stream == "" {
        lookahead[LOOKAHEAD - 1] := None;
      } else {
        lookahead[LOOKAHEAD - 1] := Some(stream[0]);
        stream := stream[1..];
      }
    }

    method NextOne()
      requires Valid()
      modifies this, lookahead
      ensures Valid() && Input() == Behind(old(Input()), 1)
    {
      Shift();
    }

    /** Takes so many characters, as far as there are. */
    method Next(count: nat)
      requires Valid()
      modifies this, lookahead
      ensures Valid() && Input() == Behind(old(Input()), count)
    {
      hide Valid, Input;
      ghost var input := Input();
      for i := 0 to count
        invariant Valid() && Input() == Behind(input, i)
      {
        NextOne();
        BehindNext(input, i);
      }
    }

    method SkipSpace()
      requires Valid()
      modifies this, lookahead
      ensures Valid() && Input() == Tokens.SkipSpace(old(Input()))
    {
      while lookahead[0].Some? && IsSpace(lookahead[0].value)
        invariant Valid() && Tokens.SkipSpace(Input()) == Tokens.SkipSpace(old(Input()))
        decreases |Input()|
      {
        SkipOne(Input());
        Next(1);
      }
      SkipNone(Input());
    }

    /** Takes the characters of a class and appends them to the value. */
    method Collect(class_: char -> bool, start: string) returns (value: string)
      requires Valid()
      modifies this, lookahead
      ensures Valid()
      ensures var n := Span(old(Input()), class_);
        value == start + old(Input())[..n] && Input() == old(Input())[n..]
    {
      value := start;
      ghost var n: nat := 0;
      ghost var input := Input();
      while lookahead[0].Some? && class_(lookahead[0].value)
        invariant Valid() && n <= |input| && Input() == input[n..] && value == start + input[..n]
        invariant forall i | 0 <= i < n :: class_(input[i])
        decreases |Input()|
      {
        value := value + [lookahead[0].value];
        Next(1);
        n := n + 1;
      }
      SpanIs(input, class_, n);
    }

    method ScanIdentifier() returns (token: Token)
      requires Valid()
      modifies this, lookahead
      ensures Valid()
      ensures var n := Span(old(Input()), IsNameChar);
        token == Word(old(Input())[..n]) && Input() == old(Input())[n..]
    {
      hide Valid, Input, Span, Word;
      ghost var input := Input();
      var value := Collect(IsNameChar, "");
      assert value == input[..Span(input, IsNameChar)];
      token := Word(value);
    }

    method ScanNumber() returns (token: Token)
      requires Valid()
      modifies this, lookahead
      ensures Valid()
      ensures var n := NumberLength(old(Input()));
        token == Number(old(Input())[..n]) && Input() == old(Input())[n..]
    {
      hide Valid, Input, Span, NumberLength;
      ghost var input := Input();
      ghost var n := Span(input, IsDigit);
      var value := Collect(IsDigit, "");
      NothingBefore(value, input[..n]);
      Shown();
      if lookahead[0] == Some('.') {
        value := ScanFraction(value);
        FractionAdds(input, n);
      } else {
        NumberParts(input, n);
      }
      token := Number(value);
    }

    /** The point and the digits behind it, appended to the value. */
    method ScanFraction(start: string) returns (value: string)
      requires Valid() && |Input()| > 0 && Input()[0] == '.'
      modifies this, lookahead
      ensures Valid()
      ensures var n := 1 + Span(old(Input())[1..], IsDigit);
        value == start + old(Input())[..n] && Input() == old(Input())[n..]
    {
      hide Valid, Input, Span;
      ghost var input := Input();
      value := start + ['.'];
      Next(1);
      assert Input() == input[1..];
      value := Collect(IsDigit, value);
      assert input[..1 + Span(input[1..], IsDigit)] == ['.'] + input[1..][..Span(input[1..], IsDigit)];
    }

    method ScanString() returns (token: Result<Token, Error>)
      requires Valid() && |Input()| > 0
      modifies this, lookahead
      ensures Valid()
      ensures match ScanText(old(Input())[1..], old(Input())[0])
        case Err(e) => token == Err(e)
        case Ok(r) => token == Ok(Text(r.0)) && Input() == r.1
    {
      var value := "";
      var quote := lookahead[0];
      Next(1);
      ghost var all := Input();
      BeginText(all, quote.value);
      while lookahead[0].Some? && lookahead[0] != quote
        invariant Valid() && Continues(all, Input(), value, quote.value)
        decreases |Input()|
      {
        ghost var before, input := value, Input();
        if lookahead[0] == Some('\\') {
          Next(1);
          if lookahead[0].Some? && IsEscape(lookahead[0].value) {
            value := value + [lookahead[0].value];
          } else {
            return Err(IllegalEscape);
          }
        } else {
          value := value + [lookahead[0].value];
        }
        Next(1);
        ContinueText(all, input, before, quote.value);
      }
      EndText(all, Input(), value, quote.value);
      if lookahead[0].None? {
        return Err(Unterminated);
      }
      Next(1);
      token := Ok(Text(value));
    }

    method NextToken() returns (token: Result<Token, Error>)
      requires Valid()
      modifies this, lookahead
      ensures Valid()
      ensures match Tokens.NextToken(old(Input()))
        case Err(e) => token == Err(e)
        case Ok(r) => token == Ok(r.0) && Input() == r.1
    {
      hide Span, NumberLength, ScanText, FindSymbol, Word, IsNameChar;
      SkipSpace();
      Shown();
      ghost var input := Input();
      if lookahead[0].None? {
        return Ok(End);
      } else if IsFirstNameChar(lookahead[0].value) {
        var word := ScanIdentifier();
        return Ok(word);
      } else if IsDigit(lookahead[0].value) {
        var number := ScanNumber();
        return Ok(number);
      } else if IsQuote(lookahead[0].value) {
        token := ScanString();
        return;
      }
      token := ScanSymbol();
    }

    method ScanSymbol() returns (token: Result<Token, Error>)
      requires Valid()
      modifies this, lookahead
      ensures Valid()
      ensures match FindSymbol(old(Input()), 0)
        case Err(e) => token == Err(e)
        case Ok(r) => token == Ok(r.0) && Input() == r.1
    {
      hide Valid, Input, Symbol;
      ghost var input := Input();
      var i := 0;
      while i < SYMBOLS
        invariant 0 <= i <= SYMBOLS && Valid() && Input() == input
        invariant FindSymbol(input, 0) == FindSymbol(input, i)
      {
        var match_ := MatchesSymbol(Symbol(i).0);
        if match_ {
          Next(|Symbol(i).0|);
          return Ok(Symbol(i).1);
        }
        i := i + 1;
      }
      token := Err(IllegalCharacter);
    }

    method MatchesSymbol(symbol: string) returns (match_: bool)
      requires Valid() && |symbol| <= LOOKAHEAD
      ensures match_ <==> StartOf(symbol, Input())
    {
      match_ := true;
      Shown();
      ghost var input := Input();
      var j := 0;
      while j < |symbol|
        invariant 0 <= j <= |symbol| && j <= |input| && symbol[..j] == input[..j]
      {
        if lookahead[j] != Some(symbol[j]) {
          SameStart(symbol, input);
          return false;
        }
        j := j + 1;
      }
      assert symbol == symbol[..j];
    }
  }

  function Behind(s: string, count: nat): string {
    if count <= |s| then s[count..] else ""
  }

  lemma NumberParts(s: string, n: nat)
    requires n == Span(s, IsDigit)
    ensures n == |s| || s[n] != '.' ==> NumberLength(s) == n
    ensures n < |s| && s[n] == '.' ==> NumberLength(s) == n + 1 + Span(s[n + 1..], IsDigit)
  {
    hide Span;
  }

  lemma NothingBefore(value: string, s: string)
    requires value == "" + s
    ensures value == s
  {
  }

  lemma FractionAdds(s: string, n: nat)
    requires n == Span(s, IsDigit) && n < |s| && s[n] == '.'
    ensures var k := 1 + Span(s[n..][1..], IsDigit);
      k <= |s[n..]| && s[..n] + s[n..][..k] == s[..NumberLength(s)] && s[n..][k..] == s[NumberLength(s)..]
  {
    hide Span;
    NumberParts(s, n);
    assert s[n..][1..] == s[n + 1..];
    SliceTwice(s, n, 1 + Span(s[n + 1..], IsDigit));
  }

  lemma SliceTwice(s: string, n: nat, m: nat)
    requires n + m <= |s|
    ensures s[..n] + s[n..][..m] == s[..n + m] && s[n..][m..] == s[n + m..]
  {
  }

  lemma BehindNext(s: string, i: nat)
    ensures Behind(Behind(s, i), 1) == Behind(s, i + 1)
  {
  }

  lemma SkipOne(s: string)
    requires s != "" && IsSpace(s[0])
    ensures Tokens.SkipSpace(s) == Tokens.SkipSpace(s[1..])
  {
    assert s[1..][Span(s[1..], IsSpace)..] == s[1 + Span(s[1..], IsSpace)..];
  }

  lemma SkipNone(s: string)
    requires s == "" || !IsSpace(s[0])
    ensures Tokens.SkipSpace(s) == s
  {
  }

  /** What is left of a string literal, with the value so far, makes the whole. */
  predicate Continues(all: string, rest: string, value: string, quote: char) {
    match ScanText(rest, quote)
    case Err(e) => ScanText(all, quote) == Err(e)
    case Ok(r) => ScanText(all, quote) == Ok((value + r.0, r.1))
  }

  lemma BeginText(all: string, quote: char)
    ensures Continues(all, all, "", quote)
  {
    assert forall s: string :: "" + s == s;
  }

  lemma ContinueText(all: string, rest: string, value: string, quote: char)
    requires Continues(all, rest, value, quote) && rest != "" && rest[0] != quote
    ensures rest[0] == '\\' ==> if |rest| > 1 && IsEscape(rest[1]) then Continues(all, rest[2..], value + [rest[1]], quote)
                                 else ScanText(all, quote) == Err(IllegalEscape)
    ensures rest[0] != '\\' ==> Continues(all, rest[1..], value + [rest[0]], quote)
  {
    var c := if rest[0] == '\\' && |rest| > 1 then rest[1] else rest[0];
    assert forall tail: string :: value + [c] + tail == value + ([c] + tail);
  }

  lemma EndText(all: string, rest: string, value: string, quote: char)
    requires Continues(all, rest, value, quote) && (rest == "" || rest[0] == quote)
    ensures ScanText(all, quote) == if rest == "" then Err(Unterminated) else Ok((value, rest[1..]))
  {
    assert value + "" == value;
  }
}

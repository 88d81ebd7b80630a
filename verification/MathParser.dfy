/**
  The class of lsapi/MathParser.cpp, which takes tokens from the scanner through a buffer of
  two tokens and evaluates as it parses.
 */
module MathParser {
  import opened Options
  import opened Tokens
  import MathScanner
  import opened Expressions

  class MathParser {
    const meaning: Meaning
    const scanner: MathScanner.MathScanner
    const lookahead: array<Token>

    ghost predicate Valid()
      reads this, lookahead, scanner, scanner.lookahead
    {
      && lookahead.Length == 2 && scanner.Valid()
      && (lookahead[0] == End ==> lookahead[1] == End)
      && (lookahead[1] == End ==> scanner.Input() == "")
    }

    /** The tokens from the first one in the buffer on. */
    ghost function Rest(): Stream
      reads this, lookahead, scanner, scanner.lookahead
      requires Valid()
    {
      Buffered(lookahead[0], lookahead[1], scanner.Input())
    }

    constructor (meaning: Meaning, expression: string)
      ensures this.meaning == meaning && lookahead.Length == 2 && scanner.Valid()
      ensures scanner.Input() == expression
      ensures fresh(lookahead) && fresh(scanner) && fresh(scanner.lookahead)
    {
      this.meaning := meaning;
      lookahead := new Token[2](_ => End);
      scanner := new MathScanner.MathScanner(expression);
    }

    /** The buffer shows the first two tokens. */
    lemma Shown()
      requires Valid()
      ensures lookahead.Length == 2 && lookahead[0] == Head(Rest()) && lookahead[1] == Second(Rest())
    {
    }

    /** The result of a method, with what is left of the tokens, is the expected one. */
    ghost predicate Gives<T>(r: Result<T, Error>, expected: Result<(T, Stream), Error>)
      reads this, lookahead, scanner, scanner.lookahead
    {
      match expected
      case Err(e) => r == Err(e)
      case Ok(x) => r == Ok(x.0) && Valid() && Rest() == x.1
    }

    ghost predicate Leaves(r: Result<(), Error>, expected: Result<Stream, Error>)
      reads this, lookahead, scanner, scanner.lookahead
    {
      match expected
      case Err(e) => r == Err(e)
      case Ok(x) => r.Ok? && Valid() && Rest() == x
    }

    /** Scans a token into the buffer. */
    method Next() returns (r: Result<(), Error>)
      requires Valid()
      modifies lookahead, scanner, scanner.lookahead
      ensures Leaves(r, Expressions.Next(old(Rest())))
    {
      hide Tokens.NextToken, Buffered, Expressions.Next;
      NextBuffered(lookahead[0], lookahead[1], scanner.Input());
      lookahead[0] := lookahead[1];
      var token := scanner.NextToken();
      if token.Err? {
        return Err(token.error);
      }
      lookahead[1] := token.value;
      r := Ok(());
    }

    /** Fills the buffer, which the constructor leaves to do because it can fail. */
    method Fill() returns (r: Result<(), Error>)
      requires lookahead.Length == 2 && scanner.Valid()
      modifies lookahead, scanner, scanner.lookahead
      ensures var s := Scan(old(scanner.Input()));
        if Filled(s) then r.Ok? && Valid() && Rest() == s else r == Err(s.error.value)
    {
      hide Tokens.NextToken, Scan;
      FillBuffer(scanner.Input());
      var first := scanner.NextToken();
      if first.Err? {
        return Err(first.error);
      }
      lookahead[0] := first.value;
      var second := scanner.NextToken();
      if second.Err? {
        return Err(second.error);
      }
      lookahead[1] := second.value;
      r := Ok(());
    }

    method Match(t: Token) returns (r: Result<(), Error>)
      requires Valid()
      modifies lookahead, scanner, scanner.lookahead
      ensures Leaves(r, Expressions.Match(old(Rest()), t))
    {
      hide Valid, Rest, Expressions.Next, Head;
      Shown();
      if lookahead[0] != t {
        return Err(Syntax);
      }
      r := Next();
    }

    method ParsePrimaryExpression() returns (r: Result<Value, Error>)
      requires Valid()
      modifies lookahead, scanner, scanner.lookahead
      ensures Gives(r, ParsePrimary(meaning, old(Rest())))
      decreases |Rest().tokens|, 0, 1
    {
      hide Valid, Rest, Expressions.Next, Parse, Expressions.ParseCall, Expressions.ParseDefined, Head, Second;
      Shown();
      if lookahead[0].Id? && lookahead[1] == LParen {
        r := ParseCall();
        return;
      } else if lookahead[0].Id? {
        var value :- Variable(meaning, lookahead[0].name);
        var _ :- Next();
        return Ok(value);
      } else if IsConstant(lookahead[0]) {
        var value := ConstantValue(meaning, lookahead[0]);
        var _ :- Next();
        return Ok(value);
      } else if lookahead[0] == LParen {
        NextShrinks(Rest());
        var _ :- Next();
        var value :- ParseExpression();
        var _ :- Match(RParen);
        return Ok(value);
      } else if lookahead[0] == Defined && lookahead[1] == LParen {
        r := ParseDefined();
        return;
      }
      r := Err(Syntax);
    }

    /** A call of a function. */
    method ParseCall() returns (r: Result<Value, Error>)
      requires Valid() && Head(Rest()).Id?
      modifies lookahead, scanner, scanner.lookahead
      ensures Gives(r, Expressions.ParseCall(meaning, old(Rest())))
      decreases |Rest().tokens|, 0, 0
    {
      hide Valid, Rest, Expressions.Next, Head, ParseList, Expressions.Match, CallFunction;
      Shown();
      NextShrinks(Rest());
      var name := lookahead[0].name;
      var _ :- Next();
      MatchShrinks(Rest(), LParen);
      var _ :- Match(LParen);
      Shown();
      var args := [];
      if lookahead[0] != RParen {
        args :- ParseExpressionList();
      }
      var _ :- Match(RParen);
      r := CallFunction(meaning, name, args);
    }

    method ParseDefined() returns (r: Result<Value, Error>)
      requires Valid() && Head(Rest()) == Defined
      modifies lookahead, scanner, scanner.lookahead
      ensures Gives(r, Expressions.ParseDefined(meaning, old(Rest())))
    {
      hide Valid, Rest, Expressions.Next, Head, Expressions.Match;
      var _ :- Next();
      var _ :- Match(LParen);
      Shown();
      if !lookahead[0].Id? {
        return Err(Syntax);
      }
      var name := lookahead[0].name;
      var _ :- Next();
      var _ :- Match(RParen);
      var value :- meaning.variable(name);
      r := Ok(Boolean(!value.Undefined?));
    }

    method ParseUnaryExpression() returns (r: Result<Value, Error>)
      requires Valid()
      modifies lookahead, scanner, scanner.lookahead
      ensures Gives(r, Parse(meaning, UNARY, old(Rest())))
      decreases |Rest().tokens|, PRIMARY - UNARY, 2
    {
      hide Valid, Rest, Expressions.Next, Head, ParsePrimary;
      Shown();
      UnaryStep(meaning, Rest());
      if IsUnary(lookahead[0]) {
        NextShrinks(Rest());
        var op := lookahead[0];
        var _ :- Next();
        PrimaryStep(meaning, Rest());
        var value :- ParsePrimaryExpression();
        r := Ok(meaning.unary(op, value));
      } else {
        r := ParsePrimaryExpression();
      }
    }

    /** The functions for the six binary levels, which differ in their operators only. */
    method ParseBinaryExpression(level: nat) returns (r: Result<Value, Error>)
      requires Valid() && level < UNARY
      modifies lookahead, scanner, scanner.lookahead
      ensures Gives(r, Parse(meaning, level, old(Rest())))
      decreases |Rest().tokens|, PRIMARY - level, 2
    {
      hide Valid, Rest, Expressions.Next, Head, Parse, Chain;
      ghost var before := Rest();
      BinaryStep(meaning, level, before);
      var value;
      if level + 1 == UNARY {
        value :- ParseUnaryExpression();
      } else {
        value :- ParseBinaryExpression(level + 1);
      }
      Shown();
      ChainAt(meaning, level, value, Rest());
      while Binding(lookahead[0]) == level
        invariant Valid() && lookahead.Length == 2 && lookahead[0] == Head(Rest())
        invariant Chain(meaning, level, value, Rest()) == Parse(meaning, level, before)
        invariant |Rest().tokens| < |before.tokens|
        decreases |Rest().tokens|
      {
        var op := lookahead[0];
        ChainAt(meaning, level, value, Rest());
        NextShrinks(Rest());
        var _ :- Next();
        var right;
        if level + 1 == UNARY {
          right :- ParseUnaryExpression();
        } else {
          right :- ParseBinaryExpression(level + 1);
        }
        value := meaning.binary(op, value, right);
        Shown();
      }
      ChainAt(meaning, level, value, Rest());
      r := Ok(value);
    }

    method ParseExpression() returns (r: Result<Value, Error>)
      requires Valid()
      modifies lookahead, scanner, scanner.lookahead
      ensures Gives(r, Parse(meaning, 0, old(Rest())))
      decreases |Rest().tokens|, PRIMARY, 3
    {
      r := ParseBinaryExpression(0);
    }

    method ParseExpressionList() returns (r: Result<seq<Value>, Error>)
      requires Valid()
      modifies lookahead, scanner, scanner.lookahead
      ensures Gives(r, ParseList(meaning, old(Rest())))
      decreases |Rest().tokens|, PRIMARY + 1, 0
    {
      hide Valid, Rest, Expressions.Next, Head, Parse, ParseList;
      ghost var before := Rest();
      ListAt(meaning, before);
      var value :- ParseExpression();
      var values := [value];
      Shown();
      while lookahead[0] == Comma
        invariant Valid() && lookahead.Length == 2 && lookahead[0] == Head(Rest())
        invariant Listed(meaning, values, Rest(), ParseList(meaning, before))
        invariant |Rest().tokens| < |before.tokens|
        decreases |Rest().tokens|
      {
        NextShrinks(Rest());
        ghost var at := Rest();
        var _ :- Next();
        ListAt(meaning, Rest());
        value :- ParseExpression();
        ListedMore(meaning, values, at, ParseList(meaning, before), value, Rest());
        values := values + [value];
        Shown();
      }
      r := Ok(values);
    }

    method Evaluate() returns (r: Result<Value, Error>)
      requires lookahead.Length == 2 && scanner.Valid()
      modifies lookahead, scanner, scanner.lookahead
      ensures r == Expressions.Evaluate(meaning, old(scanner.Input()))
    {
      hide Valid, Rest, Scan, Expressions.Match, Parse;
      var _ :- Fill();
      var value :- ParseExpression();
      var _ :- Match(End);
      r := Ok(value);
    }
  }

  lemma NextShrinks(s: Stream)
    requires Head(s) != End
    ensures Expressions.Next(s).Ok? ==> |Expressions.Next(s).value.tokens| < |s.tokens|
  {
  }

  lemma MatchShrinks(s: Stream, t: Token)
    ensures Expressions.Match(s, t).Ok? ==> |Expressions.Match(s, t).value.tokens| <= |s.tokens|
  {
  }

  lemma UnaryStep(m: Meaning, s: Stream)
    ensures !IsUnary(Head(s)) ==> Parse(m, UNARY, s) == ParsePrimary(m, s)
    ensures IsUnary(Head(s)) && Expressions.Next(s).Err? ==> Parse(m, UNARY, s) == Err(Expressions.Next(s).error)
    ensures IsUnary(Head(s)) && Expressions.Next(s).Ok? ==>
      var r := ParsePrimary(m, Expressions.Next(s).value);
      Parse(m, UNARY, s) == if r.Err? then r else Ok((m.unary(Head(s), r.value.0), r.value.1))
  {
    hide ParsePrimary, Expressions.Next;
  }

  lemma PrimaryStep(m: Meaning, s: Stream)
    ensures Parse(m, PRIMARY, s) == ParsePrimary(m, s)
  {
  }

  lemma BinaryStep(m: Meaning, level: nat, s: Stream)
    requires level < UNARY
    ensures var r := Parse(m, level + 1, s);
      Parse(m, level, s) == if r.Err? then r else Chain(m, level, r.value.0, r.value.1)
  {
    hide Chain;
  }

  lemma ChainAt(m: Meaning, level: nat, v: Value, s: Stream)
    requires level < UNARY
    ensures Binding(Head(s)) != level ==> Chain(m, level, v, s) == Ok((v, s))
    ensures Binding(Head(s)) == level && Expressions.Next(s).Err? ==>
      Chain(m, level, v, s) == Err(Expressions.Next(s).error)
    ensures Binding(Head(s)) == level && Expressions.Next(s).Ok? ==>
      var r := Parse(m, level + 1, Expressions.Next(s).value);
      Chain(m, level, v, s) == if r.Err? then r else Chain(m, level, m.binary(Head(s), v, r.value.0), r.value.1)
  {
    hide Parse, Expressions.Next;
  }

  /** The values so far with those of the rest of the list make the whole list. */
  ghost predicate Listed(m: Meaning, values: seq<Value>, s: Stream, whole: Result<(seq<Value>, Stream), Error>) {
    if Head(s) != Comma then whole == Ok((values, s))
    else match Expressions.Next(s)
      case Err(e) => whole == Err(e)
      case Ok(s1) => match ParseList(m, s1)
        case Err(e) => whole == Err(e)
        case Ok(r) => whole == Ok((values + r.0, r.1))
  }

  lemma ListedMore(m: Meaning, values: seq<Value>, s: Stream, whole: Result<(seq<Value>, Stream), Error>, v: Value, rest: Stream)
    requires Listed(m, values, s, whole) && Head(s) == Comma && Expressions.Next(s).Ok?
    requires Listed(m, [v], rest, ParseList(m, Expressions.Next(s).value))
    ensures Listed(m, values + [v], rest, whole)
  {
    hide ParseList, Expressions.Next, Head;
    var next := Expressions.Next(rest);
    if Head(rest) == Comma && next.Ok? {
      var r := ParseList(m, next.value);
      if r.Ok? {
        assert values + ([v] + r.value.0) == values + [v] + r.value.0;
      }
    }
  }

  lemma ListAt(m: Meaning, s: Stream)
    ensures var r := Parse(m, 0, s);
      if r.Err? then ParseList(m, s) == Err(r.error)
      else Listed(m, [r.value.0], r.value.1, ParseList(m, s))
  {
    hide Parse, Expressions.Next;
  }

  /** The tokens in the buffer and those that have not been scanned. */
  function Buffered(first: Token, second: Token, input: string): Stream {
    if first == End then Stream([], None)
    else if second == End then Stream([first], None)
    else var s := Scan(input); Stream([first, second] + s.tokens, s.error)
  }

  lemma NextBuffered(first: Token, second: Token, input: string)
    requires first == End ==> second == End
    requires second == End ==> input == ""
    ensures var scanned, next := Tokens.NextToken(input), Expressions.Next(Buffered(first, second, input));
      && (next.Ok? ==> scanned.Ok? && Buffered(second, scanned.value.0, scanned.value.1) == next.value)
      && (next.Err? ==> scanned == Err(next.error))
      && (scanned.Ok? && second == End ==> scanned.value.0 == End)
      && (scanned.Ok? && scanned.value.0 == End ==> scanned.value.1 == "")
  {
    hide Scan, Tokens.NextToken;
    ScanStep(input);
  }

  /** How the buffer is filled: from the first error, or with the first two tokens. */
  lemma FillBuffer(input: string)
    ensures var first, s := Tokens.NextToken(input), Scan(input);
      if first.Err? then !Filled(s) && s.error == Some(first.error)
      else (first.value.0 == End ==> first.value.1 == "") && FilledWith(s, first.value.0, first.value.1)
  {
    hide Tokens.NextToken, Scan;
    ScanStep(input);
    var first := Tokens.NextToken(input);
    if first.Ok? {
      ScanStep(first.value.1);
    }
  }

  predicate FilledWith(s: Stream, first: Token, rest: string) {
    var second := Tokens.NextToken(rest);
    if second.Err? then !Filled(s) && s.error == Some(second.error)
    else
      && Filled(s) && (second.value.0 == End ==> second.value.1 == "")
      && (first == End ==> second.value.0 == End)
      && Buffered(first, second.value.0, second.value.1) == s
  }

  lemma ScanStep(s: string)
    ensures var r := Tokens.NextToken(s);
      Scan(s) == if r.Err? then Stream([], Some(r.error))
                 else if r.value.0 == End then Stream([], None)
                 else Stream([r.value.0] + Scan(r.value.1).tokens, Scan(r.value.1).error)
    ensures s == "" ==> Tokens.NextToken(s) == Ok((End, ""))
    ensures Tokens.NextToken(s).Ok? && Tokens.NextToken(s).value.0 == End ==> Tokens.NextToken(s).value.1 == ""
  {
  }
}

/**
  Expressions in configuration files: trees and their values, how trees are printed, and what
  the parser that evaluates as it parses (lsapi/MathParser.cpp) makes of a list of tokens.
 */
module Expressions {
  import opened Options
  import opened Strings
  import opened Tokens

  /** Floating-point numbers, of which nothing is assumed. */
  type Double(==)

  datatype Value = Undefined | Boolean(b: bool) | Floating(x: Double) | String(s: string)

  /** What operators, functions, literals and variables stand for. */
  datatype Meaning = Meaning(
    variable: string -> Result<Value, Error>,        // fails for a recursive definition
    strict: bool,                             // undefined variables are errors
    number: string -> Value,
    infinity: Value,
    nan: Value,
    unary: (Token, Value) -> Value,
    binary: (Token, Value, Value) -> Value,
    call: (string, seq<Value>) -> Value
  )

  /** The number of arguments of the predefined functions, whose names are in lower case here. */
  function Arity(name: string): Option<nat> {
    var unary := {"abs", "boolean", "ceil", "fileexists", "floor", "integer", "length", "lowercase",
                  "number", "pathdirpart", "pathdrivepart", "pathextpart", "pathfilepart",
                  "pathfilenamepart", "round", "string", "sqrt", "uppercase"};
    var binary := {"contains", "endswith", "max", "min", "pow", "startswith"};
    if name in unary then Some(1)
    else if name in binary then Some(2)
    else if name == "if" then Some(3)
    else None
  }

  function CallFunction(m: Meaning, name: string, args: seq<Value>): Result<Value, Error> {
    match Arity(Fold(name))
    case None => Err(NoFunction(name))
    case Some(n) => if |args| != n then Err(WrongArguments(name)) else Ok(m.call(name, args))
  }

  function Variable(m: Meaning, name: string): Result<Value, Error> {
    var v :- m.variable(name);
    if m.strict && v.Undefined? then Err(NotDefined(name)) else Ok(v)
  }

  // ---- Trees ----

  datatype Expr =
    | Constant(token: Token)                  // a literal or a constant
    | Var(name: string)
    | IsDefined(name: string)
    | Call(name: string, args: Args)
    | Parens(inner: Expr)
    | Unary(op: Token, operand: Expr)
    | Binary(op: Token, left: Expr, right: Expr)

  datatype Args = NoArgs | Arg(first: Expr, more: Args)

  predicate IsConstant(t: Token) {
    t.False? || t.True? || t.Infinity? || t.NaN? || t.Number? || t.Text?
  }

  predicate IsUnary(t: Token) {
    t.Plus? || t.Minus? || t.Not?
  }

  /** How tightly a binary operator binds; -1 for other tokens. */
  function Binding(t: Token): int {
    match t
    case Or => 0
    case And => 1
    case Equal => 2
    case Greater => 2
    case GreaterEq => 2
    case Less => 2
    case LessEq => 2
    case NotEqual => 2
    case Ampersand => 3
    case Plus => 4
    case Minus => 4
    case Star => 5
    case Slash => 5
    case Div => 5
    case Mod => 5
    case _ => -1
  }

  const UNARY: nat := 6
  const PRIMARY: nat := 7

  predicate WellFormed(e: Expr) {
    match e
    case Constant(token) => IsConstant(token)
    case Var(_) => true
    case IsDefined(_) => true
    case Call(_, args) => WellFormedArgs(args)
    case Parens(inner) => WellFormed(inner)
    case Unary(op, operand) => IsUnary(op) && WellFormed(operand)
    case Binary(op, left, right) => Binding(op) >= 0 && WellFormed(left) && WellFormed(right)
  }

  predicate WellFormedArgs(args: Args) {
    match args
    case NoArgs => true
    case Arg(first, more) => WellFormed(first) && WellFormedArgs(more)
  }

  function ConstantValue(m: Meaning, t: Token): Value {
    match t
    case False => Boolean(false)
    case True => Boolean(true)
    case Infinity => m.infinity
    case NaN => m.nan
    case Number(digits) => m.number(digits)
    case Text(text) => String(text)
    case _ => Undefined
  }

  /** The value of a tree or the first error, from left to right. All operands are evaluated. */
  function Eval(m: Meaning, e: Expr): Result<Value, Error> {
    match e
    case Constant(token) => Ok(ConstantValue(m, token))
    case Var(name) => Variable(m, name)
    case IsDefined(name) => var v :- m.variable(name); Ok(Boolean(!v.Undefined?))
    case Call(name, args) => var vs :- EvalArgs(m, args); CallFunction(m, name, vs)
    case Parens(inner) => Eval(m, inner)
    case Unary(op, operand) => var v :- Eval(m, operand); Ok(m.unary(op, v))
    case Binary(op, left, right) =>
      var l :- Eval(m, left);
      var r :- Eval(m, right);
      Ok(m.binary(op, l, r))
  }

  function EvalArgs(m: Meaning, args: Args): Result<seq<Value>, Error> {
    match args
    case NoArgs => Ok([])
    case Arg(first, more) =>
      var v :- Eval(m, first);
      var vs :- EvalArgs(m, more);
      Ok([v] + vs)
  }

  // ---- Printing ----

  function Level(e: Expr): nat
    requires WellFormed(e)
  {
    match e
    case Binary(op, _, _) => Binding(op)
    case Unary(_, _) => UNARY
    case _ => PRIMARY
  }

  /** The tokens of a tree, with parentheses where the level asks for them and only there. */
  function Print(e: Expr, level: nat): seq<Token>
    requires WellFormed(e)
    decreases e, 1
  {
    if level <= Level(e) then Bare(e) else [LParen] + (Bare(e) + [RParen])
  }

  function Bare(e: Expr): seq<Token>
    requires WellFormed(e)
    decreases e, 0
  {
    match e
    case Constant(token) => [token]
    case Var(name) => [Id(name)]
    case IsDefined(name) => [Defined, LParen, Id(name), RParen]
    case Call(name, args) => [Id(name), LParen] + (PrintArgs(args) + [RParen])
    case Parens(inner) => [LParen] + (Print(inner, 0) + [RParen])
    case Unary(op, operand) => [op] + Print(operand, PRIMARY)
    case Binary(op, left, right) => Print(left, Binding(op)) + ([op] + Print(right, Binding(op) + 1))
  }

  function PrintArgs(args: Args): seq<Token>
    requires WellFormedArgs(args)
    decreases args, 0
  {
    match args
    case NoArgs => []
    case Arg(first, more) =>
      if more.NoArgs? then Print(first, 0) else Print(first, 0) + ([Comma] + PrintArgs(more))
  }

  // ---- The parser ----

  function Head(s: Stream): Token {
    if |s.tokens| > 0 then s.tokens[0] else End
  }

  function Second(s: Stream): Token {
    if |s.tokens| > 1 then s.tokens[1] else End
  }

  /** Both tokens of the buffer have been scanned. */
  predicate Filled(s: Stream) {
    s.error.Some? ==> |s.tokens| >= 2
  }

  /** Takes a token, for which one more is scanned. */
  function Next(s: Stream): (r: Result<Stream, Error>)
    ensures r.Ok? ==> |r.value.tokens| <= |s.tokens| && (|s.tokens| > 0 ==> |r.value.tokens| < |s.tokens|)
    ensures r.Ok? ==> Filled(r.value)
  {
    var s' := Stream(if |s.tokens| > 0 then s.tokens[1..] else [], s.error);
    if Filled(s') then Ok(s') else Err(s.error.value)
  }

  function Match(s: Stream, t: Token): (r: Result<Stream, Error>)
    ensures r.Ok? ==> |r.value.tokens| <= |s.tokens| && (t != End ==> |r.value.tokens| < |s.tokens|)
  {
    if Head(s) == t then Next(s) else Err(Syntax)
  }

  /** Parses and evaluates an expression of a level: 0 is for any, 6 for unary, 7 for primary. */
  function Parse(m: Meaning, level: nat, s: Stream): (r: Result<(Value, Stream), Error>)
    requires level <= PRIMARY
    ensures r.Ok? ==> |r.value.1.tokens| < |s.tokens|
    decreases |s.tokens|, PRIMARY - level, 2
  {
    if level < UNARY then
      var r :- Parse(m, level + 1, s);
      Chain(m, level, r.0, r.1)
    else if level == UNARY && IsUnary(Head(s)) then
      var s1 :- Next(s);
      var r :- Parse(m, PRIMARY, s1);
      Ok((m.unary(Head(s), r.0), r.1))
    else ParsePrimary(m, s)
  }

  /** The operators of a level that follow a value, with their right operands. */
  function Chain(m: Meaning, level: nat, v: Value, s: Stream): (r: Result<(Value, Stream), Error>)
    requires level < UNARY
    ensures r.Ok? ==> |r.value.1.tokens| <= |s.tokens|
    decreases |s.tokens|, PRIMARY - level, 0
  {
    if Binding(Head(s)) == level then
      var s1 :- Next(s);
      var r :- Parse(m, level + 1, s1);
      Chain(m, level, m.binary(Head(s), v, r.0), r.1)
    else Ok((v, s))
  }

  function ParsePrimary(m: Meaning, s: Stream): (r: Result<(Value, Stream), Error>)
    ensures r.Ok? ==> |r.value.1.tokens| < |s.tokens|
    decreases |s.tokens|, 0, 1
  {
    var head := Head(s);
    if head.Id? && Second(s) == LParen then ParseCall(m, s)
    else if head.Id? then
      var v :- Variable(m, head.name);
      var s1 :- Next(s);
      Ok((v, s1))
    else if IsConstant(head) then
      var s1 :- Next(s);
      Ok((ConstantValue(m, head), s1))
    else if head == LParen then
      var s1 :- Next(s);
      var r :- Parse(m, 0, s1);
      var s2 :- Match(r.1, RParen);
      Ok((r.0, s2))
    else if head == Defined && Second(s) == LParen then ParseDefined(m, s)
    else Err(Syntax)
  }

  function ParseCall(m: Meaning, s: Stream): (r: Result<(Value, Stream), Error>)
    requires Head(s).Id?
    ensures r.Ok? ==> |r.value.1.tokens| < |s.tokens|
    decreases |s.tokens|, 0, 0
  {
    var s1 :- Next(s);
    var s2 :- Match(s1, LParen);
    var args :- if Head(s2) != RParen then ParseList(m, s2) else Ok(([], s2));
    EndCall(m, Head(s).name, args.0, args.1)
  }

  function EndCall(m: Meaning, name: string, args: seq<Value>, s: Stream): (r: Result<(Value, Stream), Error>)
    ensures r.Ok? ==> |r.value.1.tokens| < |s.tokens|
  {
    var s1 :- Match(s, RParen);
    var v :- CallFunction(m, name, args);
    Ok((v, s1))
  }

  function ParseDefined(m: Meaning, s: Stream): (r: Result<(Value, Stream), Error>)
    requires Head(s) == Defined
    ensures r.Ok? ==> |r.value.1.tokens| < |s.tokens|
  {
    var s1 :- Next(s);
    var s2 :- Match(s1, LParen);
    var name := Head(s2);
    if !name.Id? then Err(Syntax)
    else
      var s3 :- Next(s2);
      var s4 :- Match(s3, RParen);
      var v :- m.variable(name.name);
      Ok((Boolean(!v.Undefined?), s4))
  }

  function ParseList(m: Meaning, s: Stream): (r: Result<(seq<Value>, Stream), Error>)
    ensures r.Ok? ==> |r.value.1.tokens| < |s.tokens|
    decreases |s.tokens|, PRIMARY + 1, 0
  {
    var first :- Parse(m, 0, s);
    if Head(first.1) == Comma then
      var s1 :- Next(first.1);
      var more :- ParseList(m, s1);
      Ok(([first.0] + more.0, more.1))
    else Ok(([first.0], first.1))
  }

  /** The value of a text. */
  function Evaluate(m: Meaning, text: string): Result<Value, Error> {
    var s := Scan(text);
    if !Filled(s) then Err(s.error.value)
    else
      var r :- Parse(m, 0, s);
      var _ :- Match(r.1, End);
      Ok(r.0)
  }

  // ---- Parsing what has been printed ----

  function Good(ts: seq<Token>): Stream {
    Stream(ts, None)
  }

  lemma NextGood(t: Token, ts: seq<Token>)
    ensures Next(Good([t] + ts)) == Ok(Good(ts)) && Head(Good([t] + ts)) == t
    ensures Second(Good([t] + ts)) == Head(Good(ts))
  {
    assert ([t] + ts)[1..] == ts;
  }

  /** What can follow an expression of the level. */
  predicate Follow(level: nat, rest: seq<Token>) {
    Head(Good(rest)) != LParen && Binding(Head(Good(rest))) <= level
  }

  /** How the parser goes on after an expression in its place. */
  function After(m: Meaning, level: nat, v: Value, rest: seq<Token>): Result<(Value, Stream), Error> {
    if level < UNARY then Chain(m, level, v, Good(rest)) else Ok((v, Good(rest)))
  }

  lemma NothingAfter(m: Meaning, level: nat, v: Value, rest: seq<Token>)
    requires Binding(Head(Good(rest))) < level
    ensures After(m, level, v, rest) == Ok((v, Good(rest)))
  {
  }

  function Then(m: Meaning, level: nat, r: Result<Value, Error>, rest: seq<Token>): Result<(Value, Stream), Error> {
    match r
    case Err(e) => Err(e)
    case Ok(v) => After(m, level, v, rest)
  }

  function Above(e: Expr, level: nat): nat
    requires WellFormed(e)
  {
    if level > Level(e) then 1 else 0
  }

  lemma {:induction false} ParsePrinted(m: Meaning, e: Expr, level: nat, rest: seq<Token>)
    requires WellFormed(e) && level <= PRIMARY && Follow(level, rest)
    ensures Parse(m, level, Good(Print(e, level) + rest)) == Then(m, level, Eval(m, e), rest)
    decreases e, Above(e, level), PRIMARY + 1 - level
  {
    hide Parse, Chain, ParsePrimary, Print, Bare, Eval;
    if level < UNARY && level != Level(e) {
      SamePrint(e, level);
      ParsePrinted(m, e, level + 1, rest);
      ParseThrough(m, level, Eval(m, e), Print(e, level) + rest, rest);
    } else if level < UNARY {
      ParsePrintedBinary(m, e, rest);
    } else if e.Unary? && level == UNARY {
      ParsePrintedUnary(m, e, rest);
    } else {
      NotUnary(e, level, rest);
      ParseNotUnary(m, level, Good(Print(e, level) + rest));
      if Level(e) == PRIMARY {
        PrintBare(e, level);
        ParsePrintedPrimary(m, e, rest);
      } else {
        ParsePrintedParens(m, e, level, rest);
      }
    }
  }

  lemma SamePrint(e: Expr, level: nat)
    requires WellFormed(e) && level != Level(e)
    ensures Print(e, level) == Print(e, level + 1) && Above(e, level) == Above(e, level + 1)
  {
  }

  lemma PrintBare(e: Expr, level: nat)
    requires WellFormed(e) && level <= Level(e)
    ensures Print(e, level) == Bare(e)
  {
  }

  lemma ParseThrough(m: Meaning, level: nat, r: Result<Value, Error>, ts: seq<Token>, rest: seq<Token>)
    requires level < UNARY && Follow(level, rest)
    requires Parse(m, level + 1, Good(ts)) == Then(m, level + 1, r, rest)
    ensures Parse(m, level, Good(ts)) == Then(m, level, r, rest)
  {
    hide ParsePrimary, Chain;
    if r.Ok? {
      NothingAfter(m, level + 1, r.value, rest);
    }
  }

  lemma EvalBinary(m: Meaning, e: Expr)
    requires e.Binary?
    ensures var l, r := Eval(m, e.left), Eval(m, e.right);
      Eval(m, e) == if l.Err? then l else if r.Err? then r else Ok(m.binary(e.op, l.value, r.value))
  {
  }

  lemma PrintBinary(e: Expr, rest: seq<Token>)
    requires WellFormed(e) && e.Binary?
    ensures Print(e, Level(e)) + rest
         == Print(e.left, Level(e)) + ([e.op] + (Print(e.right, Level(e) + 1) + rest))
  {
  }

  lemma ChainStep(m: Meaning, level: nat, v: Value, op: Token, ts: seq<Token>)
    requires level < UNARY && Binding(op) == level
    ensures var r := Parse(m, level + 1, Good(ts));
      Chain(m, level, v, Good([op] + ts))
      == if r.Err? then r else Chain(m, level, m.binary(op, v, r.value.0), r.value.1)
  {
    hide Parse;
    NextGood(op, ts);
  }

  lemma {:induction false} ParsePrintedBinary(m: Meaning, e: Expr, rest: seq<Token>)
    requires WellFormed(e) && e.Binary? && Follow(Level(e), rest)
    ensures Parse(m, Level(e), Good(Print(e, Level(e)) + rest)) == Then(m, Level(e), Eval(m, e), rest)
    decreases e, 0, 0
  {
    hide Parse, Chain, ParsePrimary, Print, Bare, Eval;
    var level := Level(e);
    var right := Print(e.right, level + 1) + rest;
    PrintBinary(e, rest);
    EvalBinary(m, e);
    NextGood(e.op, right);
    ParsePrinted(m, e.left, level, [e.op] + right);
    if Eval(m, e.left).Ok? {
      ChainStep(m, level, Eval(m, e.left).value, e.op, right);
      ParsePrinted(m, e.right, level + 1, rest);
      if Eval(m, e.right).Ok? {
        NothingAfter(m, level + 1, Eval(m, e.right).value, rest);
      }
    }
  }

  lemma {:induction false} ParsePrintedUnary(m: Meaning, e: Expr, rest: seq<Token>)
    requires WellFormed(e) && e.Unary? && Follow(UNARY, rest)
    ensures Parse(m, UNARY, Good(Print(e, UNARY) + rest)) == Then(m, UNARY, Eval(m, e), rest)
    decreases e, 0, 0
  {
    hide ParsePrimary;
    var operand := Print(e.operand, PRIMARY) + rest;
    assert Print(e, UNARY) + rest == [e.op] + operand;
    NextGood(e.op, operand);
    ParsePrinted(m, e.operand, PRIMARY, rest);
  }

  lemma NotUnary(e: Expr, level: nat, rest: seq<Token>)
    requires WellFormed(e) && UNARY <= level <= PRIMARY && !(e.Unary? && level == UNARY)
    ensures !IsUnary(Head(Good(Print(e, level) + rest)))
  {
  }

  lemma ParseNotUnary(m: Meaning, level: nat, s: Stream)
    requires UNARY <= level <= PRIMARY && !IsUnary(Head(s))
    ensures Parse(m, level, s) == ParsePrimary(m, s)
  {
  }

  lemma {:induction false} ParsePrintedParens(m: Meaning, e: Expr, level: nat, rest: seq<Token>)
    requires WellFormed(e) && Level(e) < level <= PRIMARY
    ensures ParsePrimary(m, Good(Print(e, level) + rest)) == Then(m, PRIMARY, Eval(m, e), rest)
    decreases e, 1, 0
  {
    hide Parse, Eval, ParseList, Bare;
    var end := [RParen] + rest;
    assert Print(e, level) + rest == [LParen] + (Print(e, 0) + end);
    ParseInParens(m, e, rest);
  }

  lemma {:induction false} ParseInParens(m: Meaning, e: Expr, rest: seq<Token>)
    requires WellFormed(e)
    ensures ParsePrimary(m, Good([LParen] + (Print(e, 0) + ([RParen] + rest)))) == Then(m, PRIMARY, Eval(m, e), rest)
    decreases e, 0, PRIMARY + 2
  {
    hide Parse, Eval, ParseList, Bare, Print;
    var end := [RParen] + rest;
    NextGood(LParen, Print(e, 0) + end);
    NextGood(RParen, rest);
    ParsePrinted(m, e, 0, end);
    if Eval(m, e).Ok? {
      ChainEnds(m, Eval(m, e).value, end);
    }
  }

  lemma ChainEnds(m: Meaning, v: Value, rest: seq<Token>)
    requires Binding(Head(Good(rest))) == -1
    ensures After(m, 0, v, rest) == Ok((v, Good(rest)))
  {
  }

  lemma {:induction false} ParsePrintedPrimary(m: Meaning, e: Expr, rest: seq<Token>)
    requires WellFormed(e) && Level(e) == PRIMARY && Head(Good(rest)) != LParen
    ensures ParsePrimary(m, Good(Bare(e) + rest)) == Then(m, PRIMARY, Eval(m, e), rest)
    decreases e, 0, 0
  {
    match e
    case Constant(token) =>
      hide Parse, ParseList;
      NextGood(token, rest);
    case Var(name) =>
      hide Parse, ParseList;
      NextGood(Id(name), rest);
    case IsDefined(name) =>
      ParsePrintedDefined(m, name, rest);
    case Call(name, args) =>
      ParsePrintedCall(m, name, args, rest);
    case Parens(inner) =>
      hide Parse, ParsePrimary;
      assert Bare(e) + rest == [LParen] + (Print(inner, 0) + ([RParen] + rest));
      ParseInParens(m, inner, rest);
  }

  lemma PrimaryDefined(m: Meaning, ts: seq<Token>)
    ensures ParsePrimary(m, Good([Defined] + ([LParen] + ts))) == ParseDefined(m, Good([Defined] + ([LParen] + ts)))
  {
    NextGood(Defined, [LParen] + ts);
  }

  lemma PrimaryCall(m: Meaning, name: string, ts: seq<Token>)
    ensures ParsePrimary(m, Good([Id(name)] + ([LParen] + ts))) == ParseCall(m, Good([Id(name)] + ([LParen] + ts)))
  {
    NextGood(Id(name), [LParen] + ts);
  }

  lemma BareDefined(name: string, rest: seq<Token>)
    ensures Bare(IsDefined(name)) + rest == [Defined] + ([LParen] + ([Id(name)] + ([RParen] + rest)))
  {
  }

  lemma BareCall(name: string, args: Args, rest: seq<Token>)
    requires WellFormedArgs(args)
    ensures Bare(Call(name, args)) + rest == [Id(name)] + ([LParen] + (PrintArgs(args) + ([RParen] + rest)))
  {
    hide PrintArgs;
  }

  lemma ParsePrintedDefined(m: Meaning, name: string, rest: seq<Token>)
    ensures ParsePrimary(m, Good(Bare(IsDefined(name)) + rest)) == Then(m, PRIMARY, Eval(m, IsDefined(name)), rest)
  {
    BareDefined(name, rest);
    hide ParsePrimary, Next, Head, Second, Bare;
    var ts3 := [RParen] + rest;
    var ts2 := [Id(name)] + ts3;
    PrimaryDefined(m, ts2);
    NextGood(Defined, [LParen] + ts2);
    NextGood(LParen, ts2);
    NextGood(Id(name), ts3);
    NextGood(RParen, rest);
  }

  lemma ParseCallGood(m: Meaning, name: string, ts: seq<Token>)
    ensures var args := if Head(Good(ts)) != RParen then ParseList(m, Good(ts)) else Ok(([], Good(ts)));
      ParseCall(m, Good([Id(name)] + ([LParen] + ts)))
      == if args.Err? then Err(args.error) else EndCall(m, name, args.value.0, args.value.1)
  {
    NextGood(Id(name), [LParen] + ts);
    NextGood(LParen, ts);
    hide ParseList, EndCall, Next;
  }

  lemma EndCallGood(m: Meaning, name: string, vs: seq<Value>, rest: seq<Token>)
    ensures EndCall(m, name, vs, Good([RParen] + rest)) == Then(m, PRIMARY, CallFunction(m, name, vs), rest)
  {
    NextGood(RParen, rest);
    hide CallFunction;
  }

  lemma EvalCall(m: Meaning, name: string, args: Args)
    ensures var vs := EvalArgs(m, args);
      Eval(m, Call(name, args)) == if vs.Err? then Err(vs.error) else CallFunction(m, name, vs.value)
  {
    hide CallFunction, EvalArgs;
  }

  lemma {:induction false} ParsePrintedCall(m: Meaning, name: string, args: Args, rest: seq<Token>)
    requires WellFormedArgs(args)
    ensures ParsePrimary(m, Good(Bare(Call(name, args)) + rest)) == Then(m, PRIMARY, Eval(m, Call(name, args)), rest)
    decreases args, 1
  {
    var end := [RParen] + rest;
    var ts := PrintArgs(args) + end;
    BareCall(name, args, rest);
    PrimaryCall(m, name, ts);
    ParseCallGood(m, name, ts);
    EvalCall(m, name, args);
    NextGood(RParen, rest);
    if args.NoArgs? {
      NoArgsPrinted(m);
      assert ts == end;
    } else {
      ArgsBegin(args, end);
      ParsePrintedArgs(m, args, end);
    }
    if EvalArgs(m, args).Ok? {
      EndCallGood(m, name, EvalArgs(m, args).value, rest);
    }
    hide *;
  }

  lemma NoArgsPrinted(m: Meaning)
    ensures PrintArgs(NoArgs) == [] && EvalArgs(m, NoArgs) == Ok([])
  {
  }

  lemma ArgsBegin(args: Args, end: seq<Token>)
    requires WellFormedArgs(args) && args.Arg?
    ensures Head(Good(PrintArgs(args) + end)) != RParen
  {
    Begins(args.first);
    assert Print(args.first, 0)[0] != RParen;
  }

  lemma {:induction false} Begins(e: Expr)
    requires WellFormed(e)
    ensures Bare(e) != [] && Bare(e)[0] != RParen
  {
    if e.Binary? {
      Begins(e.left);
    }
  }

  lemma {:induction false} ParsePrintedArgs(m: Meaning, args: Args, end: seq<Token>)
    requires WellFormedArgs(args) && args.Arg? && Head(Good(end)) == RParen
    ensures var vs := EvalArgs(m, args);
      ParseList(m, Good(PrintArgs(args) + end)) == if vs.Err? then Err(vs.error) else Ok((vs.value, Good(end)))
    decreases args, 0
  {
    hide Parse, Eval, Print;
    var rest := if args.more.NoArgs? then end else [Comma] + (PrintArgs(args.more) + end);
    assert PrintArgs(args) + end == Print(args.first, 0) + rest;
    ParsePrinted(m, args.first, 0, rest);
    if Eval(m, args.first).Ok? {
      ChainEnds(m, Eval(m, args.first).value, rest);
      if args.more.Arg? {
        NextGood(Comma, PrintArgs(args.more) + end);
        ParsePrintedArgs(m, args.more, end);
      } else {
        var v := [Eval(m, args.first).value];
        assert v + [] == v;
      }
    }
  }

  lemma EvaluateGood(m: Meaning, text: string, ts: seq<Token>)
    requires Scan(text) == Good(ts)
    requires Parse(m, 0, Good(ts)).Ok? ==> Parse(m, 0, Good(ts)).value.1 == Good([])
    ensures var r := Parse(m, 0, Good(ts));
      Evaluate(m, text) == if r.Err? then Err(r.error) else Ok(r.value.0)
  {
    hide Scan, Parse;
  }

  /**
    For every tree and every meaning of the operators: the text of the tree with as few
    parentheses as can be, spelled and spaced in any way, has the value of the tree or its
    first error.
   */
  lemma TextHasValueOfTree(m: Meaning, e: Expr, ws: seq<string>, gaps: seq<string>)
    requires WellFormed(e) && Spelled(Print(e, 0), ws) && WellSpaced(Print(e, 0), ws, gaps)
    ensures Evaluate(m, Write(ws, gaps)) == Eval(m, e)
  {
    hide Parse, Print, Eval, Scan, Write, Evaluate;
    var ts := Print(e, 0);
    ScanInvertsWrite(ts, ws, gaps);
    assert ts + [] == ts;
    ParsePrinted(m, e, 0, []);
    if Eval(m, e).Ok? {
      ChainEnds(m, Eval(m, e).value, []);
    }
    EvaluateGood(m, Write(ws, gaps), ts);
  }

  // ---- What short texts mean ----

  /** The binary operators, from those that bind least. */
  const LEVELS: seq<seq<Token>> :=
    [[Or], [And], [Equal, Greater, GreaterEq, Less, LessEq, NotEqual], [Ampersand], [Plus, Minus], [Star, Slash, Div, Mod]]

  predicate Operator(op: Token) {
    exists i | 0 <= i < |LEVELS| :: op in LEVELS[i]
  }

  predicate Tighter(op: Token, than: Token) {
    exists i, j | 0 <= i < j < |LEVELS| :: than in LEVELS[i] && op in LEVELS[j]
  }

  lemma LevelOf(op: Token, i: nat)
    requires i < |LEVELS|
    ensures op in LEVELS[i] <==> Binding(op) == i
  {
    LevelsListed(i);
    hide LEVELS;
  }

  lemma LevelsListed(i: nat)
    ensures |LEVELS| == 6
    ensures i < 6 ==> LEVELS[i] == match i
      case 0 => [Or]
      case 1 => [And]
      case 2 => [Equal, Greater, GreaterEq, Less, LessEq, NotEqual]
      case 3 => [Ampersand]
      case 4 => [Plus, Minus]
      case _ => [Star, Slash, Div, Mod]
  {
  }

  lemma LevelsAre(op: Token, than: Token)
    ensures Operator(op) <==> Binding(op) >= 0
    ensures Operator(op) && Operator(than) ==> (Tighter(op, than) <==> Binding(op) > Binding(than))
  {
    hide *;
    OperatorIs(op);
    OperatorIs(than);
    if Operator(op) && Operator(than) {
      TighterIs(op, than);
    }
  }

  lemma OperatorIs(op: Token)
    ensures Operator(op) <==> Binding(op) >= 0
  {
    BindingBounds(op);
    hide Binding, LEVELS;
    forall i | 0 <= i < |LEVELS|
      ensures op in LEVELS[i] <==> Binding(op) == i
    {
      LevelOf(op, i);
    }
    if Binding(op) >= 0 {
      assert op in LEVELS[Binding(op)];
    }
  }

  lemma TighterIs(op: Token, than: Token)
    requires Operator(op) && Operator(than)
    ensures Tighter(op, than) <==> Binding(op) > Binding(than)
  {
    hide *;
    BindingBounds(op);
    BindingBounds(than);
    OperatorIs(op);
    OperatorIs(than);
    LevelOf(op, Binding(op));
    LevelOf(than, Binding(than));
    if Binding(op) > Binding(than) {
      TighterWitness(op, than, Binding(than), Binding(op));
    }
    if Tighter(op, than) {
      TighterBinds(op, than);
    }
  }

  lemma TighterBinds(op: Token, than: Token)
    requires Tighter(op, than)
    ensures Binding(op) > Binding(than)
  {
    hide LEVELS, Binding;
    var i, j :| 0 <= i < j < |LEVELS| && than in LEVELS[i] && op in LEVELS[j];
    LevelOf(op, j);
    LevelOf(than, i);
  }

  lemma TighterWitness(op: Token, than: Token, i: nat, j: nat)
    requires i < j < |LEVELS| && than in LEVELS[i] && op in LEVELS[j]
    ensures Tighter(op, than)
  {
    hide LEVELS;
  }

  lemma BindingBounds(op: Token)
    ensures -1 <= Binding(op) < |LEVELS| == UNARY
  {
  }

  /**
    In a op1 b op2 c the second operator takes its operands first if it binds tighter: from the
    loosest to the tightest these are or, and, comparisons, &, + and -, and * / div mod.
   */
  lemma MixedOperators(m: Meaning, a: string, op1: Token, b: string, op2: Token, c: string, ws: seq<string>, gaps: seq<string>)
    requires Operator(op1) && Operator(op2)
    requires var ts := [Number(a), op1, Number(b), op2, Number(c)]; Spelled(ts, ws) && WellSpaced(ts, ws, gaps)
    ensures var x, y, z := m.number(a), m.number(b), m.number(c);
      Evaluate(m, Write(ws, gaps))
      == Ok(if Tighter(op2, op1) then m.binary(op1, x, m.binary(op2, y, z)) else m.binary(op2, m.binary(op1, x, y), z))
  {
    LevelsAre(op1, op2);
    LevelsAre(op2, op1);
    BindingBounds(op1);
    BindingBounds(op2);
    hide Evaluate, Write, Spelled, WellSpaced, Binding, Operator, Tighter, Print, LEVELS;
    var bare := [Number(a), op1, Number(b), op2, Number(c)];
    var e := if Tighter(op2, op1) then Binary(op1, Literal(a), Binary(op2, Literal(b), Literal(c)))
      else Binary(op2, Binary(op1, Literal(a), Literal(b)), Literal(c));
    if Tighter(op2, op1) {
      PrintOperands(op2, b, c, Binding(op1) + 1);
      PrintLiteral(a, Binding(op1));
      PrintOperator(op1, Literal(a), Binary(op2, Literal(b), Literal(c)), 0);
      assert Print(e, 0) == [Number(a)] + ([op1] + [Number(b), op2, Number(c)]);
    } else {
      PrintOperands(op1, a, b, Binding(op2));
      PrintLiteral(c, Binding(op2) + 1);
      PrintOperator(op2, Binary(op1, Literal(a), Literal(b)), Literal(c), 0);
      assert Print(e, 0) == [Number(a), op1, Number(b)] + ([op2] + [Number(c)]);
    }
    assert Print(e, 0) == bare;
    TextHasValueOfTree(m, e, ws, gaps);
    EvalBinary(m, Binary(op1, Literal(a), Literal(b)));
    EvalBinary(m, Binary(op2, Literal(b), Literal(c)));
    EvalBinary(m, e);
  }

  lemma PrintLiteral(digits: string, level: nat)
    requires level <= PRIMARY
    ensures Print(Literal(digits), level) == [Number(digits)]
  {
  }

  lemma PrintOperator(op: Token, left: Expr, right: Expr, level: nat)
    requires Operator(op) && level <= Binding(op) && WellFormed(left) && WellFormed(right)
    ensures WellFormed(Binary(op, left, right))
    ensures Print(Binary(op, left, right), level) == Print(left, Binding(op)) + ([op] + Print(right, Binding(op) + 1))
  {
    LevelsAre(op, op);
  }

  lemma PrintOperands(op: Token, a: string, b: string, level: nat)
    requires Operator(op) && level <= Binding(op)
    ensures WellFormed(Binary(op, Literal(a), Literal(b)))
    ensures Print(Binary(op, Literal(a), Literal(b)), level) == [Number(a), op, Number(b)]
  {
    BindingBounds(op);
    hide Print, Operator;
    PrintLiteral(a, Binding(op));
    PrintLiteral(b, Binding(op) + 1);
    PrintOperator(op, Literal(a), Literal(b), level);
  }

  function Literal(digits: string): Expr {
    Constant(Number(digits))
  }

  /** Signs and not take the operand next to them only. */
  lemma UnaryFirst(m: Meaning, sign: Token, a: string, op: Token, b: string, ws: seq<string>, gaps: seq<string>)
    requires sign in [Plus, Minus, Not] && Operator(op)
    requires var ts := [sign, Number(a), op, Number(b)]; Spelled(ts, ws) && WellSpaced(ts, ws, gaps)
    ensures Evaluate(m, Write(ws, gaps)) == Ok(m.binary(op, m.unary(sign, m.number(a)), m.number(b)))
  {
    LevelsAre(op, op);
    BindingBounds(op);
    hide Evaluate, Write, Spelled, WellSpaced, Binding, Operator, Print, LEVELS;
    var e := Binary(op, Unary(sign, Literal(a)), Literal(b));
    PrintUnary(sign, a, Binding(op));
    PrintLiteral(b, Binding(op) + 1);
    PrintOperator(op, Unary(sign, Literal(a)), Literal(b), 0);
    assert Print(e, 0) == [sign, Number(a)] + ([op] + [Number(b)]);
    assert Print(e, 0) == [sign, Number(a), op, Number(b)];
    TextHasValueOfTree(m, e, ws, gaps);
    EvalBinary(m, e);
  }

  lemma PrintUnary(sign: Token, a: string, level: nat)
    requires IsUnary(sign) && level <= UNARY
    ensures Print(Unary(sign, Literal(a)), level) == [sign, Number(a)]
  {
    PrintLiteral(a, PRIMARY);
    BareUnary(sign, Literal(a));
  }

  lemma OneWord(w: string)
    ensures Write([w], ["", ""]) == w && Blank("")
  {
    assert Write([w][1..], ["", ""][1..]) == "";
  }

  lemma OneToken(m: Meaning, e: Expr, t: Token, w: string)
    requires WellFormed(e) && Print(e, 0) == [t] && Spellable(t) && Spells(w, t)
    ensures Evaluate(m, w) == Eval(m, e)
  {
    hide Evaluate, Eval, Print, Spellable, Spells;
    OneWord(w);
    TextHasValueOfTree(m, e, [w], ["", ""]);
  }

  /** Constants have their values, in any case; numbers and texts stand for themselves. */
  lemma ConstantTexts(m: Meaning, w: string, text: string)
    ensures Same(w, "true") ==> Evaluate(m, w) == Ok(Boolean(true))
    ensures Same(w, "false") ==> Evaluate(m, w) == Ok(Boolean(false))
    ensures Same(w, "infinity") ==> Evaluate(m, w) == Ok(m.infinity)
    ensures Same(w, "nan") ==> Evaluate(m, w) == Ok(m.nan)
    ensures IsNumber(w) ==> Evaluate(m, w) == Ok(m.number(w))
    ensures Spells(w, Text(text)) ==> Evaluate(m, w) == Ok(String(text))
  {
    hide Evaluate, Fold, IsNumber, SpellsText;
    assert forall t | IsConstant(t) :: Print(Constant(t), 0) == [t] by { PrintConstants(); }
    hide Print;
    if Same(w, "true") {
      OneToken(m, Constant(True), True, w);
    }
    if Same(w, "false") {
      OneToken(m, Constant(False), False, w);
    }
    if Same(w, "infinity") {
      OneToken(m, Constant(Infinity), Infinity, w);
    }
    if Same(w, "nan") {
      OneToken(m, Constant(NaN), NaN, w);
    }
    if IsNumber(w) {
      OneToken(m, Constant(Number(w)), Number(w), w);
    }
    if Spells(w, Text(text)) {
      OneToken(m, Constant(Text(text)), Text(text), w);
    }
  }

  lemma PrintConstants()
    ensures forall t | IsConstant(t) :: WellFormed(Constant(t)) && Print(Constant(t), 0) == [t]
  {
    forall t | IsConstant(t)
      ensures Print(Constant(t), 0) == [t]
    {
      PrintBare(Constant(t), 0);
    }
  }

  /** A name stands for its variable, which has to be defined where that is asked for. */
  lemma VariableText(m: Meaning, name: string)
    requires IsName(name)
    ensures Evaluate(m, name)
         == match m.variable(name)
            case Err(e) => Err(e)
            case Ok(Undefined) => if m.strict then Err(NotDefined(name)) else Ok(Undefined)
            case Ok(v) => Ok(v)
  {
    hide Evaluate, IsName;
    PrintBare(Var(name), 0);
    OneToken(m, Var(name), Id(name), name);
  }

  /** defined(name) tells whether the variable has a value, and needs none. */
  lemma DefinedText(m: Meaning, name: string, ws: seq<string>, gaps: seq<string>)
    requires var ts := [Defined, LParen, Id(name), RParen]; Spelled(ts, ws) && WellSpaced(ts, ws, gaps)
    ensures Evaluate(m, Write(ws, gaps))
         == match m.variable(name)
            case Err(e) => Err(e)
            case Ok(v) => Ok(Boolean(v != Undefined))
  {
    hide Evaluate, Write, Spelled, WellSpaced;
    PrintBare(IsDefined(name), 0);
    assert Print(IsDefined(name), 0) == [Defined, LParen, Id(name), RParen];
    TextHasValueOfTree(m, IsDefined(name), ws, gaps);
  }

  /**
    A text that cannot be scanned to its end: the parser looks two tokens ahead, so that it has
    the error of the scanner if it is among the first two, and its own one if it fails before.
   */
  lemma ErrorsAhead(m: Meaning, text: string)
    requires Scan(text).error.Some?
    ensures |Scan(text).tokens| < 2 ==> Evaluate(m, text) == Err(Scan(text).error.value)
    ensures |Scan(text).tokens| >= 2 && Scan(text).tokens[0] in [RParen, Comma, Star, Equal] ==> Evaluate(m, text) == Err(Syntax)
  {
    var s := Scan(text);
    if |s.tokens| >= 2 && s.tokens[0] in [RParen, Comma, Star, Equal] {
      NoExpression(m, s, 0);
    }
    hide Scan, Parse;
  }

  lemma {:induction false} NoExpression(m: Meaning, s: Stream, level: nat)
    requires level <= PRIMARY && Head(s) in [RParen, Comma, Star, Equal]
    ensures Parse(m, level, s) == Err(Syntax)
    decreases PRIMARY - level
  {
    if level < UNARY {
      NoExpression(m, s, level + 1);
    }
  }

  /** The predefined functions, whose names are taken in any case, by the number of their arguments. */
  lemma PredefinedFunctions(m: Meaning, name: string, args: seq<Value>)
    ensures
      var one := ["abs", "boolean", "ceil", "fileexists", "floor", "integer", "length", "lowercase", "number", "pathdirpart",
                  "pathdrivepart", "pathextpart", "pathfilepart", "pathfilenamepart", "round", "string", "sqrt", "uppercase"];
      var two := ["contains", "endswith", "max", "min", "pow", "startswith"];
      var f := Fold(name);
      CallFunction(m, name, args)
      == (if f !in one && f !in two && f != "if" then Err(NoFunction(name))
          else if |args| != (if f in one then 1 else if f in two then 2 else 3) then Err(WrongArguments(name))
          else Ok(m.call(name, args)))
  {
    hide Fold;
  }

  // ---- Whatever is accepted has been printed ----

  lemma NextTakes(s: Stream)
    requires Next(s).Ok? && Head(s) != End
    ensures s.tokens == [Head(s)] + Next(s).value.tokens && Next(s).value.error == s.error
  {
  }

  /** The tree was read from the front of the tokens and has the value. */
  ghost predicate ReadAs(m: Meaning, e: Expr, level: nat, s: Stream, v: Value, rest: Stream) {
    && WellFormed(e) && Level(e) >= level
    && s.tokens == Bare(e) + rest.tokens && s.error == rest.error
    && Eval(m, e) == Ok(v)
  }

  lemma {:induction false} ParseReadsTree(m: Meaning, level: nat, s: Stream) returns (e: Expr)
    requires level <= PRIMARY && Parse(m, level, s).Ok?
    ensures ReadAs(m, e, level, s, Parse(m, level, s).value.0, Parse(m, level, s).value.1)
    decreases |s.tokens|, PRIMARY - level, 2
  {
    if level < UNARY {
      var first := Parse(m, level + 1, s).value;
      var e0 := ParseReadsTree(m, level + 1, s);
      hide Parse;
      e := ChainReadsTree(m, level, e0, s, first.0, first.1);
    } else if level == UNARY && IsUnary(Head(s)) {
      var s1 := Next(s).value;
      NextTakes(s);
      var operand := ParseReadsTree(m, PRIMARY, s1);
      e := Unary(Head(s), operand);
      ReadUnary(m, Head(s), operand, s, s1, Parse(m, PRIMARY, s1).value.0, Parse(m, PRIMARY, s1).value.1);
    } else {
      hide ParsePrimary;
      e := PrimaryReadsTree(m, s);
    }
  }

  lemma ReadUnary(m: Meaning, op: Token, operand: Expr, s: Stream, s1: Stream, v: Value, rest: Stream)
    requires IsUnary(op) && ReadAs(m, operand, PRIMARY, s1, v, rest)
    requires s.tokens == [op] + s1.tokens && s.error == s1.error
    ensures ReadAs(m, Unary(op, operand), UNARY, s, m.unary(op, v), rest)
  {
    hide Bare;
    PrintBare(operand, PRIMARY);
    BareUnary(op, operand);
  }

  lemma BareUnary(op: Token, operand: Expr)
    requires WellFormed(Unary(op, operand))
    ensures Bare(Unary(op, operand)) == [op] + Print(operand, PRIMARY)
  {
  }

  lemma ReadBinary(m: Meaning, op: Token, left: Expr, right: Expr, s: Stream, v: Value, s0: Stream, s1: Stream, w: Value, rest: Stream)
    requires Binding(op) >= 0 && ReadAs(m, left, Binding(op), s, v, s0)
    requires s0.tokens == [op] + s1.tokens && s0.error == s1.error
    requires ReadAs(m, right, Binding(op) + 1, s1, w, rest)
    ensures ReadAs(m, Binary(op, left, right), Binding(op), s, m.binary(op, v, w), rest)
  {
    hide Bare;
    PrintBare(left, Binding(op));
    PrintBare(right, Binding(op) + 1);
    BareBinary(op, left, right);
  }

  lemma BareBinary(op: Token, left: Expr, right: Expr)
    requires WellFormed(Binary(op, left, right))
    ensures Bare(Binary(op, left, right)) == Print(left, Binding(op)) + ([op] + Print(right, Binding(op) + 1))
  {
  }

  lemma {:induction false} ChainReadsTree(m: Meaning, level: nat, e0: Expr, s: Stream, v: Value, s0: Stream) returns (e: Expr)
    requires level < UNARY && ReadAs(m, e0, level, s, v, s0) && Chain(m, level, v, s0).Ok?
    ensures ReadAs(m, e, level, s, Chain(m, level, v, s0).value.0, Chain(m, level, v, s0).value.1)
    decreases |s0.tokens|, PRIMARY - level, 0
  {
    hide ReadAs, Parse;
    if Binding(Head(s0)) == level {
      var op, s1 := Head(s0), Next(s0).value;
      NextTakes(s0);
      var right := ParseReadsTree(m, level + 1, s1);
      var r := Parse(m, level + 1, s1).value;
      ReadBinary(m, op, e0, right, s, v, s0, s1, r.0, r.1);
      e := ChainReadsTree(m, level, Binary(op, e0, right), s, m.binary(op, v, r.0), r.1);
    } else {
      e := e0;
    }
  }

  lemma {:induction false} PrimaryReadsTree(m: Meaning, s: Stream) returns (e: Expr)
    requires ParsePrimary(m, s).Ok?
    ensures ReadAs(m, e, PRIMARY, s, ParsePrimary(m, s).value.0, ParsePrimary(m, s).value.1)
    decreases |s.tokens|, 0, 1
  {
    hide ParseCall, ParseDefined, Parse, ReadAs;
    var head := Head(s);
    if head.Id? && Second(s) == LParen {
      e := CallReadsTree(m, s);
    } else if head.Id? {
      e := Var(head.name);
      ReadOne(m, s, e, Variable(m, head.name).value);
    } else if IsConstant(head) {
      e := Constant(head);
      ReadOne(m, s, e, ConstantValue(m, head));
    } else if head == LParen {
      NextTakes(s);
      var s1 := Next(s).value;
      var inner := ParseReadsTree(m, 0, s1);
      var r := Parse(m, 0, s1).value;
      ReadParens(m, inner, s, s1, r.0, r.1);
      e := Parens(inner);
    } else {
      e := DefinedReadsTree(m, s);
    }
  }

  lemma ReadOne(m: Meaning, s: Stream, e: Expr, v: Value)
    requires (e.Var? || e.Constant?) && WellFormed(e) && Bare(e) == [Head(s)] && Eval(m, e) == Ok(v)
    requires Head(s) != End && Next(s).Ok?
    ensures ReadAs(m, e, PRIMARY, s, v, Next(s).value)
  {
    NextTakes(s);
  }

  lemma ReadParens(m: Meaning, inner: Expr, s: Stream, s1: Stream, v: Value, s2: Stream)
    requires ReadAs(m, inner, 0, s1, v, s2) && s.tokens == [LParen] + s1.tokens && s.error == s1.error
    requires Match(s2, RParen).Ok?
    ensures ReadAs(m, Parens(inner), PRIMARY, s, v, Match(s2, RParen).value)
  {
    hide Bare, Print, Eval, Next;
    PrintBare(inner, 0);
    NextTakes(s2);
    BareParens(inner);
    EvalParens(m, inner);
  }

  lemma EvalParens(m: Meaning, inner: Expr)
    ensures Eval(m, Parens(inner)) == Eval(m, inner)
  {
  }

  lemma BareParens(inner: Expr)
    requires WellFormed(inner)
    ensures Bare(Parens(inner)) == [LParen] + (Print(inner, 0) + [RParen])
  {
  }

  lemma DefinedReadsTree(m: Meaning, s: Stream) returns (e: Expr)
    requires Head(s) == Defined && ParseDefined(m, s).Ok?
    ensures ReadAs(m, e, PRIMARY, s, ParseDefined(m, s).value.0, ParseDefined(m, s).value.1)
  {
    var name, rest := DefinedTakes(m, s);
    e := IsDefined(name);
    BareDefined(name, rest.tokens);
    hide Bare, ParseDefined;
  }

  lemma DefinedTakes(m: Meaning, s: Stream) returns (name: string, rest: Stream)
    requires Head(s) == Defined && ParseDefined(m, s).Ok?
    ensures s.tokens == [Defined] + ([LParen] + ([Id(name)] + ([RParen] + rest.tokens))) && s.error == rest.error
    ensures m.variable(name).Ok? && ParseDefined(m, s).value == (Boolean(!m.variable(name).value.Undefined?), rest)
  {
    var s1 := Next(s).value;
    var s2 := Next(s1).value;
    var s3 := Next(s2).value;
    NextTakes(s);
    NextTakes(s1);
    NextTakes(s2);
    NextTakes(s3);
    hide Next;
    name, rest := Head(s2).name, Next(s3).value;
  }

  lemma {:induction false} CallReadsTree(m: Meaning, s: Stream) returns (e: Expr)
    requires Head(s).Id? && ParseCall(m, s).Ok?
    ensures ReadAs(m, e, PRIMARY, s, ParseCall(m, s).value.0, ParseCall(m, s).value.1)
    decreases |s.tokens|, 0, 0
  {
    hide ParseCall, EndCall, ParseList, ReadAs, EvalArgs, PrintArgs, Next, Parse, Eval;
    var name, s2 := CallTakes(m, s);
    var args, s3, vs := NoArgs, s2, [];
    if Head(s2) != RParen {
      args := ListReadsTrees(m, s2);
      s3, vs := ParseList(m, s2).value.1, ParseList(m, s2).value.0;
    } else {
      NoArgsPrinted(m);
      assert [] + s2.tokens == s2.tokens;
    }
    ReadCall(m, name, args, vs, s, s2, s3);
    e := Call(name, args);
  }

  lemma CallTakes(m: Meaning, s: Stream) returns (name: string, s2: Stream)
    requires Head(s).Id? && ParseCall(m, s).Ok?
    ensures s.tokens == [Id(name)] + ([LParen] + s2.tokens) && s.error == s2.error
    ensures if Head(s2) == RParen then ParseCall(m, s) == EndCall(m, name, [], s2)
            else ParseList(m, s2).Ok? && ParseCall(m, s) == EndCall(m, name, ParseList(m, s2).value.0, ParseList(m, s2).value.1)
  {
    hide ParseList, EndCall;
    var s1 := Next(s).value;
    NextTakes(s);
    NextTakes(s1);
    name, s2 := Head(s).name, Next(s1).value;
  }

  lemma ReadCall(m: Meaning, name: string, args: Args, vs: seq<Value>, s: Stream, s2: Stream, s3: Stream)
    requires WellFormedArgs(args) && EvalArgs(m, args) == Ok(vs)
    requires s.tokens == [Id(name)] + ([LParen] + s2.tokens) && s.error == s2.error
    requires s2.tokens == PrintArgs(args) + s3.tokens && s2.error == s3.error && EndCall(m, name, vs, s3).Ok?
    ensures ReadAs(m, Call(name, args), PRIMARY, s, EndCall(m, name, vs, s3).value.0, EndCall(m, name, vs, s3).value.1)
  {
    NextTakes(s3);
    EvalCall(m, name, args);
    BareCall(name, args, Next(s3).value.tokens);
    hide Bare, PrintArgs, EvalArgs, Eval, CallFunction, Next;
  }

  lemma {:induction false} ListReadsTrees(m: Meaning, s: Stream) returns (args: Args)
    requires ParseList(m, s).Ok?
    ensures var r := ParseList(m, s).value;
      && args.Arg? && WellFormedArgs(args)
      && s.tokens == PrintArgs(args) + r.1.tokens && s.error == r.1.error
      && EvalArgs(m, args) == Ok(r.0)
    decreases |s.tokens|, PRIMARY + 1, 0
  {
    hide Parse;
    var first := ParseReadsTree(m, 0, s);
    PrintBare(first, 0);
    var r := Parse(m, 0, s).value;
    hide Bare, Print, Eval, PrintArgs, EvalArgs, Next;
    if Head(r.1) == Comma {
      var s1 := Next(r.1).value;
      NextTakes(r.1);
      var more := ListReadsTrees(m, s1);
      args := Arg(first, more);
      MoreArgs(m, first, more, r.0, ParseList(m, s1).value.0);
      Append(Print(first, 0), Comma, PrintArgs(more), ParseList(m, s1).value.1.tokens);
    } else {
      args := Arg(first, NoArgs);
      OneArg(m, first, r.0);
    }
  }

  lemma MoreArgs(m: Meaning, first: Expr, more: Args, v: Value, vs: seq<Value>)
    requires WellFormed(first) && WellFormedArgs(more) && more.Arg? && Eval(m, first) == Ok(v) && EvalArgs(m, more) == Ok(vs)
    ensures WellFormedArgs(Arg(first, more)) && EvalArgs(m, Arg(first, more)) == Ok([v] + vs)
    ensures PrintArgs(Arg(first, more)) == Print(first, 0) + ([Comma] + PrintArgs(more))
  {
    hide Eval, Print;
  }

  lemma OneArg(m: Meaning, first: Expr, v: Value)
    requires WellFormed(first) && Eval(m, first) == Ok(v)
    ensures WellFormedArgs(Arg(first, NoArgs)) && EvalArgs(m, Arg(first, NoArgs)) == Ok([v])
    ensures PrintArgs(Arg(first, NoArgs)) == Print(first, 0)
  {
    hide Eval, Print;
    assert WellFormedArgs(NoArgs) && EvalArgs(m, NoArgs) == Ok([]);
    assert [v] + [] == [v];
  }

  lemma Append(a: seq<Token>, t: Token, b: seq<Token>, c: seq<Token>)
    ensures a + ([t] + (b + c)) == a + ([t] + b) + c
  {
  }

  lemma {:induction false} ScanHasNoEnd(text: string)
    ensures End !in Scan(text).tokens
    decreases |text|
  {
    hide Tokens.NextToken;
    var r := Tokens.NextToken(text);
    if r.Ok? && r.value.0 != End {
      ScanHasNoEnd(r.value.1);
    }
  }

  lemma NoEndBehind(ts: seq<Token>, rest: seq<Token>)
    requires End !in ts + rest
    ensures rest == [] || rest[0] != End
  {
    assert rest != [] ==> (ts + rest)[|ts|] == rest[0];
  }

  /** A text that has a value is that of a tree, which has the same value. */
  lemma TextWithValueHasTree(m: Meaning, text: string) returns (e: Expr)
    requires Evaluate(m, text).Ok?
    ensures WellFormed(e) && Scan(text) == Stream(Print(e, 0), None) && Eval(m, e) == Evaluate(m, text)
  {
    hide Parse, Scan;
    var s := Scan(text);
    var rest := Parse(m, 0, s).value.1;
    e := ParseReadsTree(m, 0, s);
    PrintBare(e, 0);
    ScanHasNoEnd(text);
    hide Bare, Print, Eval;
    NoEndBehind(Print(e, 0), rest.tokens);
    assert Print(e, 0) + [] == Print(e, 0);
  }

  // ---- What the value depends on ----

  /** The meanings differ at most in variables that are not among the tokens. */
  ghost predicate Agree(m: Meaning, m': Meaning, s: Stream) {
    && m' == m.(variable := m'.variable)
    && forall t | t in s.tokens && t.Id? :: m.variable(t.name) == m'.variable(t.name)
  }

  ghost predicate Behind(rest: Stream, s: Stream) {
    forall t | t in rest.tokens :: t in s.tokens
  }

  lemma AgreeBehind(m: Meaning, m': Meaning, s: Stream, rest: Stream)
    requires Agree(m, m', s) && Behind(rest, s)
    ensures Agree(m, m', rest)
  {
  }

  lemma NextBehind(s: Stream)
    ensures Next(s).Ok? ==> Behind(Next(s).value, s)
  {
  }

  lemma {:induction false} ParseAgrees(m: Meaning, m': Meaning, level: nat, s: Stream)
    requires level <= PRIMARY && Agree(m, m', s)
    ensures Parse(m, level, s) == Parse(m', level, s)
    ensures Parse(m, level, s).Ok? ==> Behind(Parse(m, level, s).value.1, s)
    decreases |s.tokens|, PRIMARY - level, 2
  {
    hide Next, Agree, Behind, ParsePrimary, Chain;
    if level < UNARY {
      ParseAgrees(m, m', level + 1, s);
      var r := Parse(m, level + 1, s);
      if r.Ok? {
        AgreeBehind(m, m', s, r.value.1);
        ChainAgrees(m, m', level, r.value.0, r.value.1);
        BehindBehind(m, m', s, r.value.1, Chain(m, level, r.value.0, r.value.1));
      }
    } else if level == UNARY && IsUnary(Head(s)) {
      NextBehind(s);
      if Next(s).Ok? {
        var s1 := Next(s).value;
        AgreeBehind(m, m', s, s1);
        HeadTakes(s);
        ParseAgrees(m, m', PRIMARY, s1);
        SameUnary(m, m', s);
        BehindBehind(m, m', s, s1, Parse(m, PRIMARY, s1));
      }
    } else {
      PrimaryAgrees(m, m', s);
    }
  }

  lemma HeadTakes(s: Stream)
    ensures Head(s) != End && Next(s).Ok? ==> |Next(s).value.tokens| < |s.tokens|
  {
  }

  lemma SameUnary(m: Meaning, m': Meaning, s: Stream)
    requires Agree(m, m', s)
    ensures m.unary == m'.unary && m.binary == m'.binary && m.call == m'.call && m.strict == m'.strict
    ensures m.number == m'.number && m.infinity == m'.infinity && m.nan == m'.nan
    ensures Head(s).Id? ==> m.variable(Head(s).name) == m'.variable(Head(s).name)
  {
  }

  lemma BehindBehind<T>(m: Meaning, m': Meaning, s: Stream, s1: Stream, r: Result<(T, Stream), Error>)
    requires Behind(s1, s) && (r.Ok? ==> Behind(r.value.1, s1))
    ensures r.Ok? ==> Behind(r.value.1, s)
  {
  }

  lemma {:induction false} ChainAgrees(m: Meaning, m': Meaning, level: nat, v: Value, s: Stream)
    requires level < UNARY && Agree(m, m', s)
    ensures Chain(m, level, v, s) == Chain(m', level, v, s)
    ensures Chain(m, level, v, s).Ok? ==> Behind(Chain(m, level, v, s).value.1, s)
    decreases |s.tokens|, PRIMARY - level, 0
  {
    hide Next, Agree, Parse;
    if Binding(Head(s)) == level && Next(s).Ok? {
      var s1 := Next(s).value;
      NextBehind(s);
      HeadTakes(s);
      AgreeBehind(m, m', s, s1);
      ParseAgrees(m, m', level + 1, s1);
      var r := Parse(m, level + 1, s1);
      if r.Ok? {
        SameUnary(m, m', s);
        AgreeBehind(m, m', s1, r.value.1);
        ChainAgrees(m, m', level, m.binary(Head(s), v, r.value.0), r.value.1);
      }
    }
  }

  lemma {:induction false} PrimaryAgrees(m: Meaning, m': Meaning, s: Stream)
    requires Agree(m, m', s)
    ensures ParsePrimary(m, s) == ParsePrimary(m', s)
    ensures ParsePrimary(m, s).Ok? ==> Behind(ParsePrimary(m, s).value.1, s)
    decreases |s.tokens|, 0, 1
  {
    hide Next, Agree, Parse, ParseCall, ParseDefined, Behind;
    var head := Head(s);
    SameUnary(m, m', s);
    NextBehind(s);
    if head.Id? && Second(s) == LParen {
      CallAgrees(m, m', s);
    } else if head == LParen {
      if Next(s).Ok? {
        var s1 := Next(s).value;
        HeadTakes(s);
        AgreeBehind(m, m', s, s1);
        ParseAgrees(m, m', 0, s1);
        var r := Parse(m, 0, s1);
        if r.Ok? {
          NextBehind(r.value.1);
          BehindBehind(m, m', s, s1, r);
          BehindAgain(s, r.value.1);
        }
      }
    } else if head == Defined && Second(s) == LParen {
      DefinedAgrees(m, m', s);
    }
  }

  lemma BehindAgain(s: Stream, s1: Stream)
    requires Behind(s1, s)
    ensures Next(s1).Ok? ==> Behind(Next(s1).value, s)
  {
  }

  lemma {:induction false} CallAgrees(m: Meaning, m': Meaning, s: Stream)
    requires Agree(m, m', s) && Head(s).Id?
    ensures ParseCall(m, s) == ParseCall(m', s)
    ensures ParseCall(m, s).Ok? ==> Behind(ParseCall(m, s).value.1, s)
    decreases |s.tokens|, 0, 0
  {
    hide Next, Agree, ParseList, Behind, Arity;
    SameUnary(m, m', s);
    NextBehind(s);
    HeadTakes(s);
    if Next(s).Ok? && Head(Next(s).value) == LParen {
      var s1 := Next(s).value;
      BehindAgain(s, s1);
      HeadTakes(s1);
      if Next(s1).Ok? {
        var s2 := Next(s1).value;
        BehindAgain(s, s2);
        if Head(s2) != RParen {
          AgreeBehind(m, m', s, s2);
          ListAgrees(m, m', s2);
          var args := ParseList(m, s2);
          BehindBehind(m, m', s, s2, args);
          if args.Ok? {
            BehindAgain(s, args.value.1);
          }
        }
      }
    }
  }

  lemma DefinedAgrees(m: Meaning, m': Meaning, s: Stream)
    requires Agree(m, m', s) && Head(s) == Defined
    ensures ParseDefined(m, s) == ParseDefined(m', s)
    ensures ParseDefined(m, s).Ok? ==> Behind(ParseDefined(m, s).value.1, s)
  {
    hide Next, Agree, Behind;
    NextBehind(s);
    if Next(s).Ok? {
      var s1 := Next(s).value;
      BehindAgain(s, s1);
      if Next(s1).Ok? {
        var s2 := Next(s1).value;
        AgreeBehind(m, m', s, s2);
        SameUnary(m, m', s2);
        BehindAgain(s, s2);
        if Next(s2).Ok? {
          BehindAgain(s, Next(s2).value);
        }
      }
    }
  }

  lemma {:induction false} ListAgrees(m: Meaning, m': Meaning, s: Stream)
    requires Agree(m, m', s)
    ensures ParseList(m, s) == ParseList(m', s)
    ensures ParseList(m, s).Ok? ==> Behind(ParseList(m, s).value.1, s)
    decreases |s.tokens|, PRIMARY + 1, 0
  {
    hide Next, Agree, Parse, Behind;
    ParseAgrees(m, m', 0, s);
    var first := Parse(m, 0, s);
    if first.Ok? && Head(first.value.1) == Comma {
      NextBehind(first.value.1);
      BehindAgain(s, first.value.1);
      if Next(first.value.1).Ok? {
        var s1 := Next(first.value.1).value;
        AgreeBehind(m, m', s, s1);
        ListAgrees(m, m', s1);
        BehindBehind(m, m', s, s1, ParseList(m, s1));
      }
    }
  }

  /** The value of a text depends on no variables but those whose names occur in it. */
  lemma EvaluateAgrees(m: Meaning, m': Meaning, text: string)
    requires Agree(m, m', Scan(text))
    ensures Evaluate(m, text) == Evaluate(m', text)
  {
    hide Parse, Scan, Agree;
    ParseAgrees(m, m', 0, Scan(text));
  }
}

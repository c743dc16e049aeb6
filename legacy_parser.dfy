/** The older single-function parser. It consumes a token vector in place: every step takes
    the first token off the front (`shift`), and each wrong or missing token ends the parse
    with an error of its own.

    The grammar it accepts is `int <name> ( ) { return <expression> ; }`, where an expression
    is any number of unary operator tokens followed by an integer literal. The parse of a whole
    program works on a copy of the caller's tokens and ignores what follows the closing brace.

    The methods work on a `TokenQueue`, the mutable vector; each is proved to leave the queue
    and return the outcome that a pure function of the tokens it started with gives. */
module LegacyParser {
  import opened Int64
  import opened Tokens
  import Wrappers
  import Ast

  datatype UnaryOperation = UnaryOperation(operator: Ast.UnaryOperator, expression: Expression)
  datatype Expression = Constant(value: i64) | UnaryOperation(operation: UnaryOperation)
  datatype Statement = Return(expression: Expression)
  datatype Function = Function(name: string, statement: Statement)
  datatype Program = Program(func: Function)

  datatype Error =
    | FunctionInvalid
    | FunctionMissingReturnType
    | FunctionMissingName
    | FunctionMissingOpeningParen
    | FunctionMissingClosingParen
    | FunctionMissingOpeningBrace
    | FunctionMissingClosingBrace
    | StatementInvalid
    | StatementMissingSemicolon
    | ExpressionInvalid

  datatype Outcome<+T> = Ok(value: T) | Err(error: Error)

  /** What a parse step returns, with the tokens it leaves in the vector. */
  datatype Parsed<+T> = Parsed(outcome: Outcome<T>, rest: seq<Token>)

  // ---------------------------------------------------------------- the token vector

  /** The caller's token vector, consumed from the front. */
  class TokenQueue {
    var tokens: seq<Token>

    constructor(tokens: seq<Token>)
      ensures this.tokens == tokens
    {
      this.tokens := tokens;
    }

    /** `shift`: the first token, now removed; nothing, and no change, when there is none. */
    method Shift() returns (token: Wrappers.Option<Token>)
      modifies this
      ensures old(tokens) == [] ==> token == Wrappers.None && tokens == old(tokens)
      ensures old(tokens) != [] ==> token == Wrappers.Some(old(tokens)[0]) && tokens == old(tokens)[1..]
    {
      if |tokens| > 0 {
        token := Wrappers.Some(tokens[0]);
        tokens := tokens[1..];
      } else {
        token := Wrappers.None;
      }
    }
  }

  // ---------------------------------------------------------------- unary operators

  predicate IsUnaryToken(t: Token) {
    t.Negation? || t.BitwiseComplement? || t.LogicalNegation?
  }

  /** `operator_for_token`: the operator of the three unary tokens, and nothing for any other. */
  function OperatorForToken(t: Token): (r: Wrappers.Option<Ast.UnaryOperator>)
    ensures r.Some? <==> IsUnaryToken(t)
  {
    match t
    case Negation => Wrappers.Some(Ast.UnaryOperator.Negation)
    case BitwiseComplement => Wrappers.Some(Ast.UnaryOperator.BitwiseComplement)
    case LogicalNegation => Wrappers.Some(Ast.UnaryOperator.LogicalNegation)
    case _ => Wrappers.None
  }

  /** The token that stands for an operator. */
  function TokenFor(op: Ast.UnaryOperator): Token {
    match op
    case Negation => Token.Negation
    case BitwiseComplement => Token.BitwiseComplement
    case LogicalNegation => Token.LogicalNegation
  }

  /** Each operator has exactly one token: the mapping and `TokenFor` are inverse. */
  lemma OperatorTokenInverse(t: Token, op: Ast.UnaryOperator)
    ensures OperatorForToken(TokenFor(op)) == Wrappers.Some(op)
    ensures OperatorForToken(t) == Wrappers.Some(op) ==> t == TokenFor(op)
  {
  }

  // ---------------------------------------------------------------- the parse as functions

  /** `parse_expression`: a unary token wraps the expression after it; an integer literal is
      a constant; any other token, or none, is `ExpressionInvalid`. A token is consumed in
      every case but the empty one. */
  function ExpressionParse(tokens: seq<Token>): (r: Parsed<Expression>)
    ensures |r.rest| <= |tokens| && r.rest == tokens[|tokens| - |r.rest|..]
    decreases |tokens|
  {
    if |tokens| == 0 then Parsed(Err(ExpressionInvalid), tokens)
    else
      var t := tokens[0];
      match OperatorForToken(t)
      case Some(op) =>
        var nested := ExpressionParse(tokens[1..]);
        (match nested.outcome
         case Err(error) => Parsed(Err(error), nested.rest)
         case Ok(e) => Parsed(Ok(Expression.UnaryOperation(UnaryOperation.UnaryOperation(op, e))), nested.rest))
      case None =>
        if t.IntegerLiteral? then Parsed(Ok(Constant(t.value)), tokens[1..])
        else Parsed(Err(ExpressionInvalid), tokens[1..])
  }

  /** `parse_statement`: `return`, an expression, `;`. */
  function StatementParse(tokens: seq<Token>): (r: Parsed<Statement>)
    ensures |r.rest| <= |tokens| && r.rest == tokens[|tokens| - |r.rest|..]
  {
    if |tokens| == 0 then Parsed(Err(StatementInvalid), tokens)
    else if !tokens[0].KeywordReturn? then Parsed(Err(StatementInvalid), tokens[1..])
    else
      var e := ExpressionParse(tokens[1..]);
      match e.outcome
      case Err(error) => Parsed(Err(error), e.rest)
      case Ok(expression) =>
        if |e.rest| == 0 then Parsed(Err(StatementInvalid), e.rest)
        else if !e.rest[0].Semicolon? then Parsed(Err(StatementMissingSemicolon), e.rest[1..])
        else Parsed(Ok(Return(expression)), e.rest[1..])
  }

  /** The token kind the function header has at position `i`: `int`, a name, `(`, `)`, `{`. */
  predicate HeaderToken(i: nat, t: Token) {
    match i
    case 0 => t.KeywordInt?
    case 1 => t.Identifier?
    case 2 => t.OpenParen?
    case 3 => t.CloseParen?
    case _ => t.OpenBrace?
  }

  /** The error for a wrong token at header position `i`. */
  function HeaderError(i: nat): Error {
    match i
    case 0 => FunctionMissingReturnType
    case 1 => FunctionMissingName
    case 2 => FunctionMissingOpeningParen
    case 3 => FunctionMissingClosingParen
    case _ => FunctionMissingOpeningBrace
  }

  /** `parse_function`: the header one token at a time from position `i`, then the statement
      and `}`. Running out of tokens in the header or at the brace is `FunctionInvalid`. */
  function HeaderParse(tokens: seq<Token>, i: nat, name: string): (r: Parsed<Function>)
    requires i <= 5
    ensures |r.rest| <= |tokens| && r.rest == tokens[|tokens| - |r.rest|..]
    decreases 5 - i
  {
    if i == 5 then
      var s := StatementParse(tokens);
      match s.outcome
      case Err(error) => Parsed(Err(error), s.rest)
      case Ok(statement) =>
        if |s.rest| == 0 then Parsed(Err(FunctionInvalid), s.rest)
        else if !s.rest[0].CloseBrace? then Parsed(Err(FunctionMissingClosingBrace), s.rest[1..])
        else Parsed(Ok(Function(name, statement)), s.rest[1..])
    else if |tokens| == 0 then Parsed(Err(FunctionInvalid), tokens)
    else if !HeaderToken(i, tokens[0]) then Parsed(Err(HeaderError(i)), tokens[1..])
    else HeaderParse(tokens[1..], i + 1, if i == 1 then tokens[0].name else name)
  }

  function FunctionParse(tokens: seq<Token>): Parsed<Function> {
    HeaderParse(tokens, 0, "")
  }

  /** `parse_program`: the function, and nothing about what follows it. */
  function ProgramParse(tokens: seq<Token>): Outcome<Program> {
    match FunctionParse(tokens).outcome
    case Ok(f) => Ok(Program(f))
    case Err(error) => Err(error)
  }

  // ---------------------------------------------------------------- printing and round trips

  /** The tokens of an expression: its operators, outermost first, then the literal. */
  function ExpressionTokens(e: Expression): seq<Token> {
    match e
    case Constant(v) => [IntegerLiteral(v)]
    case UnaryOperation(op) => [TokenFor(op.operator)] + ExpressionTokens(op.expression)
  }

  function StatementTokens(s: Statement): seq<Token> {
    [KeywordReturn] + ExpressionTokens(s.expression) + [Semicolon]
  }

  /** The five header tokens: `int <name> ( ) {`. */
  function HeaderTokens(name: string): seq<Token> {
    [KeywordInt, Identifier(name), OpenParen, CloseParen, OpenBrace]
  }

  /** The tokens after the header: the statement and `}`. */
  function BodyTokens(s: Statement): seq<Token> {
    StatementTokens(s) + [CloseBrace]
  }

  function FunctionTokens(f: Function): seq<Token> {
    HeaderTokens(f.name) + BodyTokens(f.statement)
  }

  /** An expression's tokens parse back to it, whatever follows them, and only they are taken. */
  lemma {:induction false} ExpressionRoundTrip(e: Expression, rest: seq<Token>)
    ensures ExpressionParse(ExpressionTokens(e) + rest) == Parsed(Ok(e), rest)
  {
    var tokens := ExpressionTokens(e) + rest;
    match e
    case Constant(v) =>
      assert tokens[1..] == rest;
    case UnaryOperation(op) =>
      assert tokens[1..] == ExpressionTokens(op.expression) + rest;
      OperatorTokenInverse(tokens[0], op.operator);
      ExpressionRoundTrip(op.expression, rest);
  }

  /** A successful expression parse took exactly the tokens of what it returned. */
  lemma {:induction false} ExpressionParseSound(tokens: seq<Token>)
    ensures var r := ExpressionParse(tokens);
      r.outcome.Ok? ==> tokens == ExpressionTokens(r.outcome.value) + r.rest
    decreases |tokens|
  {
    if |tokens| > 0 {
      var t := tokens[0];
      match OperatorForToken(t)
      case Some(op) =>
        OperatorTokenInverse(t, op);
        ExpressionParseSound(tokens[1..]);
        assert tokens == [t] + tokens[1..];
      case None =>
    }
  }

  /** The only error an expression parse reports is `ExpressionInvalid`. */
  lemma {:induction false} ExpressionErrorIsInvalid(tokens: seq<Token>)
    ensures ExpressionParse(tokens).outcome.Err? ==> ExpressionParse(tokens).outcome.error == ExpressionInvalid
    decreases |tokens|
  {
    if |tokens| > 0 && IsUnaryToken(tokens[0]) {
      ExpressionErrorIsInvalid(tokens[1..]);
    }
  }

  lemma StatementRoundTrip(s: Statement, rest: seq<Token>)
    ensures StatementParse(StatementTokens(s) + rest) == Parsed(Ok(s), rest)
  {
    var tokens := StatementTokens(s) + rest;
    var e := ExpressionTokens(s.expression);
    assert tokens[1..] == e + ([Semicolon] + rest);
    ExpressionRoundTrip(s.expression, [Semicolon] + rest);
    assert ([Semicolon] + rest)[1..] == rest;
  }

  /** A token, some tokens and a token in front of the rest. */
  lemma Enclosed(tokens: seq<Token>, first: Token, middle: seq<Token>, last: Token, rest: seq<Token>)
    requires 0 < |tokens| && tokens[0] == first && tokens[1..] == middle + ([last] + rest)
    ensures tokens == [first] + middle + [last] + rest
  {
    assert tokens == [tokens[0]] + tokens[1..];
  }

  lemma StatementParseSound(tokens: seq<Token>)
    ensures var r := StatementParse(tokens);
      r.outcome.Ok? ==> tokens == StatementTokens(r.outcome.value) + r.rest
  {
    var r := StatementParse(tokens);
    if r.outcome.Ok? {
      var e := ExpressionParse(tokens[1..]);
      assert e.outcome.Ok? && 0 < |e.rest| && e.rest[0].Semicolon?;
      var x := e.outcome.value;
      assert r == Parsed(Ok(Return(x)), e.rest[1..]);
      ExpressionParseSound(tokens[1..]);
      assert e.rest == [Semicolon] + r.rest;
      Enclosed(tokens, KeywordReturn, ExpressionTokens(x), Semicolon, r.rest);
    }
  }

  /** The tokens from the header position `k` on of a function's tokens. */
  function HeaderTail(f: Function, k: nat): seq<Token>
    requires k <= 5
  {
    HeaderTokens(f.name)[k..] + BodyTokens(f.statement)
  }

  /** The tail at `k` is the header token at `k` before the tail at `k + 1`. */
  lemma HeaderTailStep(f: Function, k: nat)
    requires k < 5
    ensures HeaderTail(f, k) == [HeaderTokens(f.name)[k]] + HeaderTail(f, k + 1)
  {
    assert HeaderTokens(f.name)[k..] == [HeaderTokens(f.name)[k]] + HeaderTokens(f.name)[k + 1..];
  }

  lemma {:induction false} HeaderRoundTrip(f: Function, k: nat, name: string, rest: seq<Token>)
    requires k <= 5 && (k >= 2 ==> name == f.name)
    ensures HeaderParse(HeaderTail(f, k) + rest, k, name) == Parsed(Ok(f), rest)
    decreases 5 - k
  {
    if k == 5 {
      BodyRoundTrip(f, name, rest);
    } else {
      var tokens := HeaderTail(f, k) + rest;
      HeaderTailStep(f, k);
      var t := HeaderTokens(f.name)[k];
      assert tokens == [t] + (HeaderTail(f, k + 1) + rest);
      assert tokens[0] == t && tokens[1..] == HeaderTail(f, k + 1) + rest;
      HeaderRoundTrip(f, k + 1, if k == 1 then t.name else name, rest);
    }
  }

  lemma BodyRoundTrip(f: Function, name: string, rest: seq<Token>)
    requires name == f.name
    ensures HeaderParse(HeaderTail(f, 5) + rest, 5, name) == Parsed(Ok(f), rest)
  {
    var tokens := HeaderTail(f, 5) + rest;
    assert tokens == StatementTokens(f.statement) + ([CloseBrace] + rest);
    StatementRoundTrip(f.statement, [CloseBrace] + rest);
    assert ([CloseBrace] + rest)[1..] == rest;
  }

  /** A function's tokens parse back to it, whatever follows the closing brace. */
  lemma FunctionRoundTrip(f: Function, rest: seq<Token>)
    ensures FunctionParse(FunctionTokens(f) + rest) == Parsed(Ok(f), rest)
  {
    assert HeaderTail(f, 0) == FunctionTokens(f);
    HeaderRoundTrip(f, 0, "", rest);
  }

  lemma {:induction false} HeaderParseSound(tokens: seq<Token>, k: nat, name: string)
    requires k <= 5
    ensures var r := HeaderParse(tokens, k, name);
      r.outcome.Ok? ==> (k >= 2 ==> r.outcome.value.name == name) && tokens == HeaderTail(r.outcome.value, k) + r.rest
    decreases 5 - k
  {
    var r := HeaderParse(tokens, k, name);
    if r.outcome.Ok? {
      if k == 5 {
        BodyParseSound(tokens, name);
      } else {
        assert 0 < |tokens| && HeaderToken(k, tokens[0]);
        var next := if k == 1 then tokens[0].name else name;
        assert r == HeaderParse(tokens[1..], k + 1, next);
        HeaderParseSound(tokens[1..], k + 1, next);
        HeaderStepSound(tokens, k, r.outcome.value, r.rest);
      }
    }
  }

  /** The statement and `}` after the header. */
  lemma BodyParseSound(tokens: seq<Token>, name: string)
    ensures var r := HeaderParse(tokens, 5, name);
      r.outcome.Ok? ==> r.outcome.value.name == name && tokens == HeaderTail(r.outcome.value, 5) + r.rest
  {
    var r := HeaderParse(tokens, 5, name);
    if r.outcome.Ok? {
      var s := StatementParse(tokens);
      assert s.outcome.Ok? && 0 < |s.rest| && s.rest[0].CloseBrace?;
      var x := s.outcome.value;
      assert r == Parsed(Ok(Function(name, x)), s.rest[1..]);
      StatementParseSound(tokens);
      assert s.rest == [CloseBrace] + r.rest;
      BodyAppend(tokens, StatementTokens(x), r.rest);
    }
  }

  lemma BodyAppend(tokens: seq<Token>, statement: seq<Token>, rest: seq<Token>)
    requires tokens == statement + ([CloseBrace] + rest)
    ensures tokens == statement + [CloseBrace] + rest
  {
  }

  /** One header token in front of the rest of the header. */
  lemma HeaderStepSound(tokens: seq<Token>, k: nat, f: Function, rest: seq<Token>)
    requires k < 5 && 0 < |tokens| && HeaderToken(k, tokens[0]) && (k == 1 ==> f.name == tokens[0].name)
    requires tokens[1..] == HeaderTail(f, k + 1) + rest
    ensures tokens == HeaderTail(f, k) + rest
  {
    HeaderTailStep(f, k);
    assert tokens[0] == HeaderTokens(f.name)[k];
    assert tokens == [tokens[0]] + tokens[1..];
  }

  /** A program parses to `f` exactly when its tokens start with the tokens of `f`: what
      follows the closing brace is never looked at. */
  lemma ProgramParseExact(tokens: seq<Token>, f: Function)
    ensures ProgramParse(tokens) == Ok(Program(f)) <==> FunctionTokens(f) <= tokens
  {
    if ProgramParse(tokens) == Ok(Program(f)) {
      HeaderParseSound(tokens, 0, "");
      assert HeaderTail(f, 0) == FunctionTokens(f);
    }
    if FunctionTokens(f) <= tokens {
      var rest := tokens[|FunctionTokens(f)|..];
      assert tokens == FunctionTokens(f) + rest;
      FunctionRoundTrip(f, rest);
    }
  }

  // ---------------------------------------------------------------- header errors

  /** The first `n` tokens are those the header expects at positions `0 .. n-1`. */
  predicate HeaderMatches(tokens: seq<Token>, n: nat)
    requires n <= |tokens|
  {
    forall j :: 0 <= j < n ==> HeaderToken(j, tokens[j])
  }

  lemma {:induction false} HeaderErrorFrom(tokens: seq<Token>, k: nat, i: nat, name: string)
    requires k <= i < 5 && i < |tokens| && HeaderMatches(tokens, i) && !HeaderToken(i, tokens[i])
    ensures HeaderParse(tokens[k..], k, name) == Parsed(Err(HeaderError(i)), tokens[i + 1..])
    decreases i - k
  {
    assert tokens[k..][0] == tokens[k];
    if k < i {
      assert HeaderToken(k, tokens[k]);
      assert tokens[k..][1..] == tokens[k + 1..];
      HeaderErrorFrom(tokens, k + 1, i, if k == 1 then tokens[k].name else name);
    } else {
      assert tokens[k..][1..] == tokens[i + 1..];
    }
  }

  /** The first wrong header token decides the error, and it is consumed. */
  lemma HeaderErrorAt(tokens: seq<Token>, i: nat)
    requires i < 5 && i < |tokens| && HeaderMatches(tokens, i) && !HeaderToken(i, tokens[i])
    ensures FunctionParse(tokens) == Parsed(Err(HeaderError(i)), tokens[i + 1..])
  {
    assert tokens[0..] == tokens;
    HeaderErrorFrom(tokens, 0, i, "");
  }

  lemma {:induction false} HeaderRunsOutFrom(tokens: seq<Token>, k: nat, name: string)
    requires k <= |tokens| < 5 && HeaderMatches(tokens, |tokens|)
    ensures HeaderParse(tokens[k..], k, name) == Parsed(Err(FunctionInvalid), [])
    decreases |tokens| - k
  {
    if k < |tokens| {
      assert HeaderToken(k, tokens[k]);
      assert tokens[k..][0] == tokens[k];
      assert tokens[k..][1..] == tokens[k + 1..];
      HeaderRunsOutFrom(tokens, k + 1, if k == 1 then tokens[k].name else name);
    }
  }

  /** Tokens that end inside a well-formed header are `FunctionInvalid`. */
  lemma HeaderRunsOut(tokens: seq<Token>)
    requires |tokens| < 5 && HeaderMatches(tokens, |tokens|)
    ensures FunctionParse(tokens) == Parsed(Err(FunctionInvalid), [])
  {
    assert tokens[0..] == tokens;
    HeaderRunsOutFrom(tokens, 0, "");
  }

  // ---------------------------------------------------------------- the parse as methods

  method ParseExpression(queue: TokenQueue) returns (r: Outcome<Expression>)
    modifies queue
    ensures Parsed(r, queue.tokens) == ExpressionParse(old(queue.tokens))
    decreases |queue.tokens|
  {
    var token := queue.Shift();
    match token {
      case None =>
        return Err(ExpressionInvalid);
      case Some(t) =>
        if IsUnaryToken(t) {
          var operator := OperatorForToken(t);
          var nested := ParseExpression(queue);
          match nested {
            case Err(error) =>
              return Err(error);
            case Ok(expression) =>
              return Ok(Expression.UnaryOperation(UnaryOperation.UnaryOperation(operator.value, expression)));
          }
        } else if t.IntegerLiteral? {
          return Ok(Constant(t.value));
        } else {
          return Err(ExpressionInvalid);
        }
    }
  }

  method ParseStatement(queue: TokenQueue) returns (r: Outcome<Statement>)
    modifies queue
    ensures Parsed(r, queue.tokens) == StatementParse(old(queue.tokens))
  {
    var token := queue.Shift();
    match token {
      case None =>
        return Err(StatementInvalid);
      case Some(t) =>
        if !t.KeywordReturn? {
          return Err(StatementInvalid);
        }
    }
    var expression := ParseExpression(queue);
    if expression.Err? {
      return Err(expression.error);
    }
    token := queue.Shift();
    match token {
      case None =>
        return Err(StatementInvalid);
      case Some(t) =>
        if !t.Semicolon? {
          return Err(StatementMissingSemicolon);
        }
    }
    return Ok(Return(expression.value));
  }

  method ParseFunction(queue: TokenQueue) returns (r: Outcome<Function>)
    modifies queue
    ensures Parsed(r, queue.tokens) == FunctionParse(old(queue.tokens))
  {
    var name := "";
    var token := queue.Shift();
    match token {
      case None =>
        return Err(FunctionInvalid);
      case Some(t) =>
        if !t.KeywordInt? {
          return Err(FunctionMissingReturnType);
        }
    }
    assert HeaderParse(queue.tokens, 1, name) == FunctionParse(old(queue.tokens));
    token := queue.Shift();
    match token {
      case None =>
        return Err(FunctionInvalid);
      case Some(t) =>
        if !t.Identifier? {
          return Err(FunctionMissingName);
        }
        name := t.name;
    }
    assert HeaderParse(queue.tokens, 2, name) == FunctionParse(old(queue.tokens));
    token := queue.Shift();
    match token {
      case None =>
        return Err(FunctionInvalid);
      case Some(t) =>
        if !t.OpenParen? {
          return Err(FunctionMissingOpeningParen);
        }
    }
    assert HeaderParse(queue.tokens, 3, name) == FunctionParse(old(queue.tokens));
    token := queue.Shift();
    match token {
      case None =>
        return Err(FunctionInvalid);
      case Some(t) =>
        if !t.CloseParen? {
          return Err(FunctionMissingClosingParen);
        }
    }
    assert HeaderParse(queue.tokens, 4, name) == FunctionParse(old(queue.tokens));
    token := queue.Shift();
    match token {
      case None =>
        return Err(FunctionInvalid);
      case Some(t) =>
        if !t.OpenBrace? {
          return Err(FunctionMissingOpeningBrace);
        }
    }
    assert HeaderParse(queue.tokens, 5, name) == FunctionParse(old(queue.tokens));
    var statement := ParseStatement(queue);
    if statement.Err? {
      return Err(statement.error);
    }
    token := queue.Shift();
    match token {
      case None =>
        return Err(FunctionInvalid);
      case Some(t) =>
        if !t.CloseBrace? {
          return Err(FunctionMissingClosingBrace);
        }
    }
    return Ok(Function(name, statement.value));
  }

  /** `parse_program`: parses a copy, so the caller's tokens are left as they were. */
  method ParseProgram(tokens: TokenQueue) returns (r: Outcome<Program>)
    ensures r == ProgramParse(tokens.tokens)
  {
    var copy := new TokenQueue(tokens.tokens);
    var f := ParseFunction(copy);
    match f {
      case Ok(func) => return Ok(Program(func));
      case Err(error) => return Err(error);
    }
  }
}

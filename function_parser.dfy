/** The function parser: the header `int name ( ) {`, then statements up to a `}` or up to
    and including the first return statement, all parsed against one stack frame that
    starts empty and that each declaration extends. */
module FunctionParser {
  import opened Wrappers
  import opened Tokens
  import opened Ast
  import opened Parser
  import opened StackFrames
  import opened Unparse
  import opened RoundTrip
  import opened StatementParser

  datatype Function = Function(name: string, statements: seq<Statement>, stackFrame: Frame)

  predicate CloseBraceAt(tokens: seq<Token>, pos: nat) {
    pos < |tokens| && tokens[pos].CloseBrace?
  }

  /** The statement loop from `pos` on, with the frame it ends with. A `}` stops it without
      being consumed; a return statement stops it after being kept; the first failing
      statement aborts it with that statement's error. */
  function ParseBody(tokens: seq<Token>, pos: nat, frame: Frame): (r: Result<(seq<Statement>, Frame)>)
    requires pos <= |tokens|
    ensures r.Ok? ==> forall i :: 0 <= i < |r.value.0| - 1 ==> !r.value.0[i].Return?
    ensures CloseBraceAt(tokens, pos) ==> r == Ok(([], frame))
    ensures r.Err? ==> r.error == "Invalid statement" || exists name :: r.error == DuplicateError(name)
    decreases |tokens| - pos
  {
    if CloseBraceAt(tokens, pos) then Ok(([], frame))
    else
      var outcome := StatementOutcome(tokens, pos, frame.vars);
      if outcome.Err? then Err(outcome.error)
      else
        var (statement, next) := outcome.value;
        var frame' := Bind(frame, statement);
        if statement.Return? then Ok(([statement], frame'))
        else
          var rest := ParseBody(tokens, next, frame');
          if rest.Err? then rest
          else Ok(([statement] + rest.value.0, rest.value.1))
  }

  /** What `parse` returns: each header token is checked in turn, with its own error. */
  function FunctionOutcome(tokens: seq<Token>): (r: Result<Function>)
    ensures |tokens| == 0 || !tokens[0].KeywordInt? ==> r == Err("Expecting function return type")
    ensures |tokens| > 0 && tokens[0].KeywordInt? && (|tokens| == 1 || !tokens[1].Identifier?)
      ==> r == Err("Expecting identifier")
    ensures |tokens| > 1 && tokens[0].KeywordInt? && tokens[1].Identifier? && (|tokens| == 2 || !tokens[2].OpenParen?)
      ==> r == Err("Expecting '('")
    ensures (&& |tokens| > 2 && tokens[0].KeywordInt? && tokens[1].Identifier? && tokens[2].OpenParen?
             && (|tokens| == 3 || !tokens[3].CloseParen?))
      ==> r == Err("Expecting ')'")
    ensures (&& |tokens| > 3 && tokens[0].KeywordInt? && tokens[1].Identifier? && tokens[2].OpenParen?
             && tokens[3].CloseParen? && (|tokens| == 4 || !tokens[4].OpenBrace?))
      ==> r == Err("Expecting '{'")
    ensures r.Ok? ==> |tokens| >= 5 && tokens[..5] == Header(r.value.name)
  {
    if |tokens| == 0 || !tokens[0].KeywordInt? then Err("Expecting function return type")
    else if |tokens| == 1 || !tokens[1].Identifier? then Err("Expecting identifier")
    else if |tokens| == 2 || !tokens[2].OpenParen? then Err("Expecting '('")
    else if |tokens| == 3 || !tokens[3].CloseParen? then Err("Expecting ')'")
    else if |tokens| == 4 || !tokens[4].OpenBrace? then Err("Expecting '{'")
    else
      var body := ParseBody(tokens, 5, Frame(0, map[]));
      if body.Err? then Err(body.error)
      else Ok(Function(tokens[1].name, body.value.0, body.value.1))
  }

  function Header(name: string): seq<Token> {
    [KeywordInt, Token.Identifier(name), OpenParen, CloseParen, OpenBrace]
  }

  function PrependBody(pre: seq<Statement>, r: Result<(seq<Statement>, Frame)>): Result<(seq<Statement>, Frame)> {
    if r.Err? then r else Ok((pre + r.value.0, r.value.1))
  }

  lemma PrependBodyTwice(a: seq<Statement>, b: seq<Statement>, r: Result<(seq<Statement>, Frame)>)
    ensures PrependBody(a, PrependBody(b, r)) == PrependBody(a + b, r)
  {
    if r.Ok? {
      assert a + (b + r.value.0) == (a + b) + r.value.0;
    }
  }

  /** One turn of the statement loop. */
  lemma BodyStep(tokens: seq<Token>, pos: nat, frame: Frame)
    requires pos <= |tokens| && !CloseBraceAt(tokens, pos) && StatementOutcome(tokens, pos, frame.vars).Ok?
    ensures var (s, next) := StatementOutcome(tokens, pos, frame.vars).value;
      ParseBody(tokens, pos, frame)
        == if s.Return? then Ok(([s], Bind(frame, s))) else PrependBody([s], ParseBody(tokens, next, Bind(frame, s)))
  {
  }

  /** `parse`: the header checks, then the statement loop over one stack frame. */
  method ParseFunction(tokens: seq<Token>) returns (r: Result<Function>)
    ensures r == FunctionOutcome(tokens)
  {
    if |tokens| == 0 || !tokens[0].KeywordInt? {
      return Err("Expecting function return type");
    }
    if |tokens| == 1 || !tokens[1].Identifier? {
      return Err("Expecting identifier");
    }
    if |tokens| == 2 || !tokens[2].OpenParen? {
      return Err("Expecting '('");
    }
    if |tokens| == 3 || !tokens[3].CloseParen? {
      return Err("Expecting ')'");
    }
    if |tokens| == 4 || !tokens[4].OpenBrace? {
      return Err("Expecting '{'");
    }
    var name := tokens[1].name;
    var statements: seq<Statement> := [];
    var leftover: nat := 5;
    var frame := new StackFrame();
    assert PrependBody(statements, ParseBody(tokens, leftover, frame.State())) == ParseBody(tokens, leftover, frame.State()) by {
      var body := ParseBody(tokens, leftover, frame.State());
      if body.Ok? {
        assert [] + body.value.0 == body.value.0;
      }
    }
    while true
      invariant leftover <= |tokens|
      invariant ParseBody(tokens, 5, Frame(0, map[])) == PrependBody(statements, ParseBody(tokens, leftover, frame.State()))
      decreases |tokens| - leftover
    {
      if leftover < |tokens| && tokens[leftover].CloseBrace? {
        break;
      }
      var before := frame.State();
      var result := ParseStatement(tokens, leftover, frame);
      if result.Err? {
        return Err(result.error);
      }
      var (statement, next) := result.value;
      BodyStep(tokens, leftover, before);
      PrependBodyTwice(statements, [statement], ParseBody(tokens, next, frame.State()));
      statements := statements + [statement];
      leftover := next;
      if statement.Return? {
        assert ParseBody(tokens, 5, Frame(0, map[])) == Ok((statements, frame.State()));
        return Ok(Function(name, statements, frame.State()));
      }
    }
    assert statements + [] == statements;
    return Ok(Function(name, statements, frame.State()));
  }

  // ---------------------------------------------------------------- the frame of a function

  /** The frame after a list of statements. */
  function FrameAfter(frame: Frame, statements: seq<Statement>): Frame
    decreases |statements|
  {
    if |statements| == 0 then frame else FrameAfter(Bind(frame, statements[0]), statements[1..])
  }

  /** The names the statements declare. */
  function Declared(statements: seq<Statement>): set<string>
    decreases |statements|
  {
    if |statements| == 0 then {}
    else if statements[0].Declaration? then {statements[0].declaration.name} + Declared(statements[1..])
    else Declared(statements[1..])
  }

  /** A list of statements the parser can build from `frame`: each statement is well formed
      against the frame left by those before it, and only the last may be a return. */
  predicate BodyWellFormed(statements: seq<Statement>, frame: Frame)
    decreases |statements|
  {
    |statements| > 0 ==>
      && StatementWellFormed(statements[0], frame.vars)
      && (statements[0].Return? ==> |statements| == 1)
      && BodyWellFormed(statements[1..], Bind(frame, statements[0]))
  }

  /** The frame after a list of statements binds the names bound before and the names
      declared, and no other. */
  lemma {:induction false} FrameAfterBinds(frame: Frame, statements: seq<Statement>)
    ensures FrameAfter(frame, statements).vars.Keys == frame.vars.Keys + Declared(statements)
    decreases |statements|
  {
    if |statements| > 0 {
      var s := statements[0];
      var rest := statements[1..];
      FrameAfterBinds(Bind(frame, s), rest);
      assert FrameAfter(frame, statements) == FrameAfter(Bind(frame, s), rest);
      if s.Declaration? {
        assert Declared(statements) == {s.declaration.name} + Declared(rest);
        assert Bind(frame, s).vars.Keys == frame.vars.Keys + {s.declaration.name};
      } else {
        assert Declared(statements) == Declared(rest);
        assert Bind(frame, s) == frame;
      }
    }
  }

  /** Declaring only fresh names keeps the frame invariant: one distinct 8-byte slot per
      bound name, filling the frame down to its offset. */
  lemma {:induction false} FrameAfterKeepsInvariant(frame: Frame, statements: seq<Statement>)
    requires FrameInvariant(frame.currentOffset, frame.vars)
    requires BodyWellFormed(statements, frame)
    ensures FrameInvariant(FrameAfter(frame, statements).currentOffset, FrameAfter(frame, statements).vars)
    decreases |statements|
  {
    if |statements| > 0 {
      var s := statements[0];
      var rest := statements[1..];
      assert StatementWellFormed(s, frame.vars) && BodyWellFormed(rest, Bind(frame, s));
      BindKeepsInvariant(frame, s);
      FrameAfterKeepsInvariant(Bind(frame, s), rest);
      assert FrameAfter(frame, statements) == FrameAfter(Bind(frame, s), rest);
    }
  }

  // ---------------------------------------------------------------- printing functions

  function StatementsTokens(statements: seq<Statement>): seq<Token>
    decreases |statements|
  {
    if |statements| == 0 then [] else StatementTokens(statements[0]) + StatementsTokens(statements[1..])
  }

  /** A function prints as its header, its statements and `}`. */
  function FunctionTokens(name: string, statements: seq<Statement>): seq<Token> {
    Header(name) + StatementsTokens(statements) + [CloseBrace]
  }

  predicate EndsWithReturn(statements: seq<Statement>) {
    |statements| > 0 && statements[|statements| - 1].Return?
  }

  /** No statement starts with `}`. */
  lemma StatementStart(s: Statement, vars: Vars)
    requires StatementWellFormed(s, vars)
    ensures |StatementTokens(s)| > 0 && !StatementTokens(s)[0].CloseBrace?
  {
    match s
    case Return(e) =>
    case ExpressionStatement(e) =>
      ExpressionStart(e, vars.Keys);
    case Declaration(d) =>
  }

  lemma FirstStatementParses(s: Statement, printed: seq<Token>, tokens: seq<Token>, pos: nat, frame: Frame)
    requires StatementWellFormed(s, frame.vars)
    requires printed == StatementTokens(s) && At(tokens, pos, printed)
    ensures !CloseBraceAt(tokens, pos) && StatementOutcome(tokens, pos, frame.vars) == Ok((s, pos + |printed|))
  {
    StatementStart(s, frame.vars);
    AtIndex(tokens, pos, printed, 0);
    StatementRoundTrip(s, printed, tokens, pos, frame.vars);
  }

  /** Past a first statement that is no return, the rest of the body ends like the body. */
  lemma RestEndsLikeBody(statements: seq<Statement>, tokens: seq<Token>, end: nat)
    requires |statements| > 0 && !statements[0].Return?
    requires !EndsWithReturn(statements) ==> CloseBraceAt(tokens, end)
    ensures !EndsWithReturn(statements[1..]) ==> CloseBraceAt(tokens, end)
  {
    var rest := statements[1..];
    if |rest| > 0 {
      assert rest[|rest| - 1] == statements[|statements| - 1];
    }
  }

  /** The statement loop over a first statement and the rest. */
  lemma BodyCons(statements: seq<Statement>, tokens: seq<Token>, pos: nat, next: nat, frame: Frame)
    requires |statements| > 0 && pos <= |tokens| && !CloseBraceAt(tokens, pos)
    requires StatementOutcome(tokens, pos, frame.vars) == Ok((statements[0], next))
    requires statements[0].Return? ==> |statements| == 1
    requires !statements[0].Return? ==>
      var frame' := Bind(frame, statements[0]);
      ParseBody(tokens, next, frame') == Ok((statements[1..], FrameAfter(frame', statements[1..])))
    ensures ParseBody(tokens, pos, frame) == Ok((statements, FrameAfter(frame, statements)))
  {
    var s := statements[0];
    BodyStep(tokens, pos, frame);
    assert FrameAfter(frame, statements) == FrameAfter(Bind(frame, s), statements[1..]);
    if s.Return? {
      assert statements == [s] && statements[1..] == [];
      assert FrameAfter(Bind(frame, s), statements[1..]) == Bind(frame, s);
    } else {
      assert [s] + statements[1..] == statements;
    }
  }

  /** Parsing the tokens of a well-formed body gives back its statements and the frame after
      them; what follows a body without a return must be `}`. */
  lemma {:induction false} BodyRoundTrip(statements: seq<Statement>, printed: seq<Token>, tokens: seq<Token>, pos: nat, frame: Frame)
    requires BodyWellFormed(statements, frame)
    requires printed == StatementsTokens(statements) && At(tokens, pos, printed)
    requires !EndsWithReturn(statements) ==> CloseBraceAt(tokens, pos + |printed|)
    ensures ParseBody(tokens, pos, frame) == Ok((statements, FrameAfter(frame, statements)))
    decreases |statements|, 1
  {
    if |statements| > 0 {
      var more := FirstOfBody(statements, printed, tokens, pos, frame);
      BodyRestRoundTrip(statements, more, tokens, pos, pos + |printed|, frame);
    }
  }

  /** Past a first statement that parses, the rest of the body parses too. */
  lemma {:induction false} BodyRestRoundTrip(statements: seq<Statement>, more: seq<Token>, tokens: seq<Token>, pos: nat, end: nat, frame: Frame)
    requires |statements| > 0 && pos < |tokens|
    requires var next := pos + |StatementTokens(statements[0])|;
      && !CloseBraceAt(tokens, pos)
      && StatementOutcome(tokens, pos, frame.vars) == Ok((statements[0], next))
      && more == StatementsTokens(statements[1..]) && At(tokens, next, more) && next + |more| == end
      && (statements[0].Return? ==> |statements| == 1)
      && BodyWellFormed(statements[1..], Bind(frame, statements[0]))
    requires !EndsWithReturn(statements) ==> CloseBraceAt(tokens, end)
    ensures ParseBody(tokens, pos, frame) == Ok((statements, FrameAfter(frame, statements)))
    decreases |statements|, 0
  {
    var s := statements[0];
    var next := pos + |StatementTokens(s)|;
    if !s.Return? {
      RestEndsLikeBody(statements, tokens, end);
      BodyRoundTrip(statements[1..], more, tokens, next, Bind(frame, s));
    }
    BodyCons(statements, tokens, pos, next, frame);
  }

  /** The first statement of a printed body parses, and the tokens `more` of the others
      follow it. */
  lemma FirstOfBody(statements: seq<Statement>, printed: seq<Token>, tokens: seq<Token>, pos: nat, frame: Frame)
      returns (more: seq<Token>)
    requires |statements| > 0 && BodyWellFormed(statements, frame)
    requires printed == StatementsTokens(statements) && At(tokens, pos, printed)
    ensures var next := pos + |StatementTokens(statements[0])|;
      && pos < |tokens| && !CloseBraceAt(tokens, pos)
      && StatementOutcome(tokens, pos, frame.vars) == Ok((statements[0], next))
      && more == StatementsTokens(statements[1..]) && At(tokens, next, more) && next + |more| == pos + |printed|
      && (statements[0].Return? ==> |statements| == 1)
      && BodyWellFormed(statements[1..], Bind(frame, statements[0]))
  {
    var s := statements[0];
    var first := StatementTokens(s);
    more := StatementsTokens(statements[1..]);
    assert printed == first + more;
    AtSplit(tokens, pos, first, more);
    FirstStatementParses(s, first, tokens, pos, frame);
  }

  /** Parsing the tokens `printed` of a well-formed function, followed by anything, gives
      back its name, its statements and the frame they declare. */
  lemma FunctionRoundTrip(name: string, statements: seq<Statement>, printed: seq<Token>, rest: seq<Token>)
    requires BodyWellFormed(statements, Frame(0, map[])) && printed == FunctionTokens(name, statements)
    ensures FunctionOutcome(printed + rest) == Ok(Function(name, statements, FrameAfter(Frame(0, map[]), statements)))
  {
    var body := StatementsTokens(statements);
    var tokens := printed + rest;
    FunctionTokensLayout(name, statements, body, rest);
    BodyRoundTrip(statements, body, tokens, 5, Frame(0, map[]));
  }

  /** The printed function is its header, then its body, then `}`. */
  lemma FunctionTokensLayout(name: string, statements: seq<Statement>, body: seq<Token>, rest: seq<Token>)
    requires body == StatementsTokens(statements)
    ensures var tokens := FunctionTokens(name, statements) + rest;
      && 5 < |tokens| && tokens[0].KeywordInt? && tokens[1] == Token.Identifier(name)
      && tokens[2].OpenParen? && tokens[3].CloseParen? && tokens[4].OpenBrace?
      && At(tokens, 5, body) && CloseBraceAt(tokens, 5 + |body|)
  {
    var tokens := FunctionTokens(name, statements) + rest;
    assert tokens == Header(name) + body + [CloseBrace] + rest;
    forall i | 0 <= i < |body|
      ensures tokens[5 + i] == body[i]
    {
    }
    assert tokens[5 + |body|] == CloseBrace;
  }

  /** `statements` are well formed from `frame`, print back to the tokens at `pos`, are
      followed by `}` unless they end with a return, and leave the frame `after`. */
  predicate BodyFits(tokens: seq<Token>, pos: nat, frame: Frame, statements: seq<Statement>, after: Frame) {
    && BodyWellFormed(statements, frame)
    && after == FrameAfter(frame, statements)
    && At(tokens, pos, StatementsTokens(statements))
    && (!EndsWithReturn(statements) ==> CloseBraceAt(tokens, pos + |StatementsTokens(statements)|))
  }

  /** Whatever body the parser returns is well formed, prints back to the tokens it
      consumed, is followed by `}` unless it ends with a return, and leaves the frame its
      declarations build. */
  lemma {:induction false} BodySound(tokens: seq<Token>, pos: nat, frame: Frame, r: Result<(seq<Statement>, Frame)>)
    requires pos <= |tokens| && r == ParseBody(tokens, pos, frame) && r.Ok?
    ensures BodyFits(tokens, pos, frame, r.value.0, r.value.1)
    decreases |tokens| - pos
  {
    if !CloseBraceAt(tokens, pos) {
      var (s, next) := StatementOutcome(tokens, pos, frame.vars).value;
      StatementSound(tokens, pos, frame.vars);
      BodyStep(tokens, pos, frame);
      if s.Return? {
        BodyFitsReturn(tokens, pos, frame, s);
      } else {
        var tail := ParseBody(tokens, next, Bind(frame, s));
        BodySound(tokens, next, Bind(frame, s), tail);
        BodyJoin(tokens, pos, frame, s, tail.value.0, tail.value.1);
      }
    }
  }

  /** A body that is one return statement. */
  lemma BodyFitsReturn(tokens: seq<Token>, pos: nat, frame: Frame, s: Statement)
    requires StatementWellFormed(s, frame.vars) && s.Return? && At(tokens, pos, StatementTokens(s))
    ensures BodyFits(tokens, pos, frame, [s], Bind(frame, s))
  {
    assert [s][1..] == [];
    assert StatementsTokens([s]) == StatementTokens(s) + StatementsTokens([]);
    assert StatementTokens(s) + [] == StatementTokens(s);
  }

  /** A first statement that is not a return, and the statements after it. */
  lemma BodyJoin(tokens: seq<Token>, pos: nat, frame: Frame, s: Statement, more: seq<Statement>, after: Frame)
    requires StatementWellFormed(s, frame.vars) && !s.Return? && At(tokens, pos, StatementTokens(s))
    requires BodyFits(tokens, pos + |StatementTokens(s)|, Bind(frame, s), more, after)
    ensures BodyFits(tokens, pos, frame, [s] + more, after)
  {
    var statements := [s] + more;
    assert statements[0] == s && statements[1..] == more;
    assert StatementsTokens(statements) == StatementTokens(s) + StatementsTokens(more);
    AtJoin(tokens, pos, StatementTokens(s), StatementsTokens(more));
    if |more| > 0 {
      assert more[|more| - 1] == statements[|statements| - 1];
    }
  }

  /** Whatever function the parser returns has well-formed statements with a return, if any,
      only last, and carries a frame that binds exactly the names its statements declare, to
      distinct slots -8, -16, ... */
  lemma FunctionSound(tokens: seq<Token>)
    requires FunctionOutcome(tokens).Ok?
    ensures var f := FunctionOutcome(tokens).value;
      && BodyWellFormed(f.statements, Frame(0, map[]))
      && f.stackFrame == FrameAfter(Frame(0, map[]), f.statements)
      && At(tokens, 5, StatementsTokens(f.statements))
      && (!EndsWithReturn(f.statements) ==> CloseBraceAt(tokens, 5 + |StatementsTokens(f.statements)|))
      && FrameInvariant(f.stackFrame.currentOffset, f.stackFrame.vars)
      && f.stackFrame.vars.Keys == Declared(f.statements)
      && f.stackFrame.currentOffset == -8 * |Declared(f.statements)|
  {
    var f := FunctionOutcome(tokens).value;
    BodySound(tokens, 5, Frame(0, map[]), ParseBody(tokens, 5, Frame(0, map[])));
    FrameAfterKeepsInvariant(Frame(0, map[]), f.statements);
    FrameAfterBinds(Frame(0, map[]), f.statements);
  }
}

/** The statement parser: `return e;`, `e;` and `int x;` / `int x = e;`, tried in that
    order. Positions work as in module Parser: a parse of the statement at `tokens[pos..]`
    that returns `p` leaves `tokens[p..]`. Only a declaration changes the stack frame. */
module StatementParser {
  import opened Wrappers
  import opened Tokens
  import opened Ast
  import opened Parser
  import opened StackFrames
  import opened Unparse
  import opened RoundTrip

  /** `;` at `pos`. */
  predicate SemicolonAt(tokens: seq<Token>, pos: nat) {
    pos < |tokens| && tokens[pos].Semicolon?
  }

  /** `parse_return`: `return`, an expression, then `;`. */
  function ParseReturn(tokens: seq<Token>, pos: nat, vars: Vars): (r: Result<(Expression, nat)>)
    requires pos <= |tokens|
    ensures r.Ok? ==> pos + 2 < r.value.1 <= |tokens| && tokens[pos].KeywordReturn?
    ensures r.Ok? ==> tokens[r.value.1 - 1].Semicolon?
    ensures pos == |tokens| || !tokens[pos].KeywordReturn? ==> r == Err("Expecting 'return'")
  {
    if pos == |tokens| || !tokens[pos].KeywordReturn? then Err("Expecting 'return'")
    else
      var expression := ParseExpression(tokens, pos + 1, vars);
      if expression.Err? then Err(expression.error)
      else if SemicolonAt(tokens, expression.value.1) then Ok((expression.value.0, expression.value.1 + 1))
      else Err("Expecting ';'")
  }

  /** `parse_expression` of the statement parser: an expression, then `;`. */
  function ParseExpressionStatement(tokens: seq<Token>, pos: nat, vars: Vars): (r: Result<(Expression, nat)>)
    requires pos <= |tokens|
    ensures r.Ok? ==> pos + 1 < r.value.1 <= |tokens| && tokens[r.value.1 - 1].Semicolon?
    ensures ParseExpression(tokens, pos, vars).Err? ==> r == Err(ParseExpression(tokens, pos, vars).error)
  {
    var expression := ParseExpression(tokens, pos, vars);
    if expression.Err? then Err(expression.error)
    else if SemicolonAt(tokens, expression.value.1) then Ok((expression.value.0, expression.value.1 + 1))
    else Err("Expecting ';'")
  }

  /** `parse_variable_declaration`: `int`, an identifier, an optional `= expression`, then `;`.
      The initializer is parsed against the frame as it is before the name is bound. */
  function ParseVariableDeclaration(tokens: seq<Token>, pos: nat, vars: Vars): (r: Result<(VariableDeclaration, nat)>)
    requires pos <= |tokens|
    ensures r.Ok? ==> pos + 2 < r.value.1 <= |tokens| && tokens[r.value.1 - 1].Semicolon?
    ensures r.Ok? ==> tokens[pos].KeywordInt? && tokens[pos + 1] == Token.Identifier(r.value.0.name)
    ensures r.Ok? ==> (r.value.0.expression.Some? <==> tokens[pos + 2].Assignment?)
    ensures r.Ok? && r.value.0.expression.None? ==> r.value.1 == pos + 3
    ensures pos == |tokens| || !tokens[pos].KeywordInt? ==> r == Err("Expecting 'int'")
    ensures pos < |tokens| && tokens[pos].KeywordInt? && (pos + 1 == |tokens| || !tokens[pos + 1].Identifier?)
      ==> r == Err("Expecting identifier")
  {
    if pos == |tokens| || !tokens[pos].KeywordInt? then Err("Expecting 'int'")
    else if pos + 1 == |tokens| || !tokens[pos + 1].Identifier? then Err("Expecting identifier")
    else
      var name := tokens[pos + 1].name;
      if pos + 2 < |tokens| && tokens[pos + 2].Assignment? then
        var expression := ParseExpression(tokens, pos + 3, vars);
        if expression.Err? then Err(expression.error)
        else if SemicolonAt(tokens, expression.value.1) then
          Ok((VariableDeclaration(name, Some(expression.value.0)), expression.value.1 + 1))
        else Err("Expecting ';'")
      else if SemicolonAt(tokens, pos + 2) then Ok((VariableDeclaration(name, None), pos + 3))
      else Err("Expecting ';'")
  }

  function DuplicateError(name: string): string {
    "Variable '" + name + "' has already been declared"
  }

  /** What `parse` returns: the first alternative that parses wins; a declaration of a name
      the frame already binds is an error, and nothing parsing is "Invalid statement". */
  function StatementOutcome(tokens: seq<Token>, pos: nat, vars: Vars): (r: Result<(Statement, nat)>)
    requires pos <= |tokens|
    ensures r.Ok? ==> pos < r.value.1 <= |tokens| && tokens[r.value.1 - 1].Semicolon?
    ensures r.Ok? && r.value.0.Return? ==> tokens[pos].KeywordReturn?
    ensures r.Ok? && r.value.0.Declaration? ==> r.value.0.declaration.name !in vars
    ensures r.Err? ==> r.error == "Invalid statement" || exists name :: name in vars && r.error == DuplicateError(name)
  {
    var ret := ParseReturn(tokens, pos, vars);
    if ret.Ok? then Ok((Return(ret.value.0), ret.value.1))
    else
      var expression := ParseExpressionStatement(tokens, pos, vars);
      if expression.Ok? then Ok((ExpressionStatement(expression.value.0), expression.value.1))
      else
        var declaration := ParseVariableDeclaration(tokens, pos, vars);
        if declaration.Ok? then
          var name := declaration.value.0.name;
          if name in vars then Err(DuplicateError(name))
          else Ok((Declaration(declaration.value.0), declaration.value.1))
        else Err("Invalid statement")
  }

  /** The frame after a statement: a declaration binds its name, nothing else does. */
  function Bind(frame: Frame, s: Statement): (r: Frame)
    ensures s.Declaration? ==> r.currentOffset == frame.currentOffset - 8
    ensures s.Declaration? ==> r.vars == frame.vars[s.declaration.name := frame.currentOffset - 8]
    ensures !s.Declaration? ==> r == frame
  {
    if s.Declaration? then
      var (offset, vars) := AddBinding(frame.currentOffset, frame.vars, s.declaration.name);
      Frame(offset, vars)
    else frame
  }

  /** A declaration of a fresh name keeps the frame invariant. */
  lemma BindKeepsInvariant(frame: Frame, s: Statement)
    requires FrameInvariant(frame.currentOffset, frame.vars)
    requires s.Declaration? ==> s.declaration.name !in frame.vars
    ensures FrameInvariant(Bind(frame, s).currentOffset, Bind(frame, s).vars)
  {
    if s.Declaration? {
      AddFreshKeepsInvariant(frame.currentOffset, frame.vars, s.declaration.name);
    }
  }

  /** `parse`: the alternatives are tried on the frame as it is; only a declaration of a
      fresh name changes the frame, through `add_var`. */
  method ParseStatement(tokens: seq<Token>, pos: nat, frame: StackFrame) returns (r: Result<(Statement, nat)>)
    requires pos <= |tokens|
    modifies frame
    ensures r == StatementOutcome(tokens, pos, old(frame.vars))
    ensures frame.State() == if r.Ok? then Bind(old(frame.State()), r.value.0) else old(frame.State())
  {
    var ret := ParseReturn(tokens, pos, frame.vars);
    if ret.Ok? {
      return Ok((Return(ret.value.0), ret.value.1));
    }
    var expression := ParseExpressionStatement(tokens, pos, frame.vars);
    if expression.Ok? {
      return Ok((ExpressionStatement(expression.value.0), expression.value.1));
    }
    var declaration := ParseVariableDeclaration(tokens, pos, frame.vars);
    if declaration.Ok? {
      var name := declaration.value.0.name;
      if name in frame.vars {
        return Err(DuplicateError(name));
      }
      frame.AddVar(name);
      return Ok((Declaration(declaration.value.0), declaration.value.1));
    }
    return Err("Invalid statement");
  }

  // ---------------------------------------------------------------- printing statements

  function StatementTokens(s: Statement): seq<Token> {
    match s
    case Return(e) => [KeywordReturn] + ExpressionTokens(e) + [Semicolon]
    case ExpressionStatement(e) => ExpressionTokens(e) + [Semicolon]
    case Declaration(VariableDeclaration(name, None)) => [KeywordInt, Token.Identifier(name), Semicolon]
    case Declaration(VariableDeclaration(name, Some(e))) =>
      [KeywordInt, Token.Identifier(name), Token.Assignment] + ExpressionTokens(e) + [Semicolon]
  }

  /** A statement the parser can build against `vars`: its expressions read no identifier
      and assign only bound names, and a declaration introduces a fresh name. */
  predicate StatementWellFormed(s: Statement, vars: Vars) {
    match s
    case Return(e) => ExpressionIn(e, {}, vars.Keys)
    case ExpressionStatement(e) => ExpressionIn(e, {}, vars.Keys)
    case Declaration(d) =>
      d.name !in vars && (d.expression.Some? ==> ExpressionIn(d.expression.value, {}, vars.Keys))
  }

  /** No expression starts with `int`, `return`, `;`, `{` or `}`. */
  lemma ExpressionNotAt(tokens: seq<Token>, pos: nat, vars: Vars)
    requires pos < |tokens| && !tokens[pos].Identifier? && !StartsFactor(tokens[pos])
    ensures ParseExpression(tokens, pos, vars).Err?
  {
    var r := ParseExpression(tokens, pos, vars);
    if r.Ok? {
      ExpressionSound(r.value.0, tokens, pos, r.value.1, vars);
      ExpressionStart(r.value.0, vars.Keys);
    }
  }

  lemma ReturnCons(tokens: seq<Token>, pos: nat, vars: Vars, e: Expression, q: nat)
    requires pos < |tokens| && tokens[pos].KeywordReturn?
    requires ParseExpression(tokens, pos + 1, vars) == Ok((e, q)) && SemicolonAt(tokens, q)
    ensures StatementOutcome(tokens, pos, vars) == Ok((Return(e), q + 1))
  {
  }

  lemma InitializedDeclarationCons(tokens: seq<Token>, pos: nat, vars: Vars, name: string, e: Expression, q: nat)
    requires pos + 2 < |tokens| && tokens[pos].KeywordInt? && tokens[pos + 1] == Token.Identifier(name)
    requires tokens[pos + 2].Assignment?
    requires ParseExpression(tokens, pos + 3, vars) == Ok((e, q)) && SemicolonAt(tokens, q)
    ensures ParseVariableDeclaration(tokens, pos, vars) == Ok((VariableDeclaration(name, Some(e)), q + 1))
  {
  }

  lemma ReturnRoundTrip(e: Expression, printed: seq<Token>, tokens: seq<Token>, pos: nat, vars: Vars)
    requires ExpressionIn(e, {}, vars.Keys)
    requires printed == StatementTokens(Return(e)) && At(tokens, pos, printed)
    ensures StatementOutcome(tokens, pos, vars) == Ok((Return(e), pos + |printed|))
  {
    var a := ExpressionTokens(e);
    assert printed == [KeywordReturn] + a + [Semicolon];
    AtSplit(tokens, pos, [KeywordReturn] + a, [Semicolon]);
    AtSplit(tokens, pos, [KeywordReturn], a);
    AtIndex(tokens, pos, [KeywordReturn], 0);
    AtIndex(tokens, pos + 1 + |a|, [Semicolon], 0);
    ExpressionRoundTrip(e, a, tokens, pos + 1, vars);
    ReturnCons(tokens, pos, vars, e, pos + 1 + |a|);
  }

  lemma ExpressionStatementParses(e: Expression, a: seq<Token>, tokens: seq<Token>, pos: nat, vars: Vars)
    requires ExpressionIn(e, {}, vars.Keys)
    requires a == ExpressionTokens(e) && At(tokens, pos, a + [Semicolon])
    ensures ParseExpressionStatement(tokens, pos, vars) == Ok((e, pos + |a| + 1))
  {
    AtSplit(tokens, pos, a, [Semicolon]);
    AtIndex(tokens, pos + |a|, [Semicolon], 0);
    ExpressionRoundTrip(e, a, tokens, pos, vars);
  }

  lemma ExpressionStatementRoundTrip(e: Expression, printed: seq<Token>, tokens: seq<Token>, pos: nat, vars: Vars)
    requires ExpressionIn(e, {}, vars.Keys)
    requires printed == StatementTokens(ExpressionStatement(e)) && At(tokens, pos, printed)
    ensures StatementOutcome(tokens, pos, vars) == Ok((ExpressionStatement(e), pos + |printed|))
  {
    var a := ExpressionTokens(e);
    assert printed == a + [Semicolon];
    ExpressionStart(e, vars.Keys);
    AtIndex(tokens, pos, printed, 0);
    assert tokens[pos] == a[0];
    ExpressionStatementParses(e, a, tokens, pos, vars);
  }

  /** At `int` only the declaration alternative can succeed. */
  lemma OutcomeAtInt(tokens: seq<Token>, pos: nat, vars: Vars)
    requires pos < |tokens| && tokens[pos].KeywordInt?
    requires ParseVariableDeclaration(tokens, pos, vars).Ok?
    ensures var (d, p) := ParseVariableDeclaration(tokens, pos, vars).value;
      StatementOutcome(tokens, pos, vars) == if d.name in vars then Err(DuplicateError(d.name)) else Ok((Declaration(d), p))
  {
    ExpressionNotAt(tokens, pos, vars);
  }

  lemma InitializedDeclarationParses(name: string, e: Expression, a: seq<Token>, tokens: seq<Token>, pos: nat, vars: Vars)
    requires ExpressionIn(e, {}, vars.Keys)
    requires a == ExpressionTokens(e) && At(tokens, pos, [KeywordInt, Token.Identifier(name), Token.Assignment] + a + [Semicolon])
    ensures ParseVariableDeclaration(tokens, pos, vars) == Ok((VariableDeclaration(name, Some(e)), pos + 3 + |a| + 1))
  {
    var head := [KeywordInt, Token.Identifier(name), Token.Assignment];
    AtSplit(tokens, pos, head + a, [Semicolon]);
    AtSplit(tokens, pos, head, a);
    AtIndex(tokens, pos, head, 0);
    AtIndex(tokens, pos, head, 1);
    AtIndex(tokens, pos, head, 2);
    AtIndex(tokens, pos + 3 + |a|, [Semicolon], 0);
    ExpressionRoundTrip(e, a, tokens, pos + 3, vars);
    InitializedDeclarationCons(tokens, pos, vars, name, e, pos + 3 + |a|);
  }

  lemma DeclarationParses(d: VariableDeclaration, printed: seq<Token>, tokens: seq<Token>, pos: nat, vars: Vars)
    requires d.expression.Some? ==> ExpressionIn(d.expression.value, {}, vars.Keys)
    requires printed == StatementTokens(Declaration(d)) && At(tokens, pos, printed)
    ensures ParseVariableDeclaration(tokens, pos, vars) == Ok((d, pos + |printed|))
  {
    if d.expression.Some? {
      var a := ExpressionTokens(d.expression.value);
      assert printed == [KeywordInt, Token.Identifier(d.name), Token.Assignment] + a + [Semicolon];
      InitializedDeclarationParses(d.name, d.expression.value, a, tokens, pos, vars);
    } else {
      AtIndex(tokens, pos, printed, 0);
      AtIndex(tokens, pos, printed, 1);
      AtIndex(tokens, pos, printed, 2);
    }
  }

  lemma DeclarationRoundTrip(d: VariableDeclaration, printed: seq<Token>, tokens: seq<Token>, pos: nat, vars: Vars)
    requires StatementWellFormed(Declaration(d), vars)
    requires printed == StatementTokens(Declaration(d)) && At(tokens, pos, printed)
    ensures StatementOutcome(tokens, pos, vars) == Ok((Declaration(d), pos + |printed|))
  {
    DeclarationParses(d, printed, tokens, pos, vars);
    OutcomeAtInt(tokens, pos, vars);
  }

  /** Parsing the tokens `printed` of a well-formed statement gives back that statement and
      stops right after its `;`. */
  lemma StatementRoundTrip(s: Statement, printed: seq<Token>, tokens: seq<Token>, pos: nat, vars: Vars)
    requires StatementWellFormed(s, vars)
    requires printed == StatementTokens(s) && At(tokens, pos, printed)
    ensures StatementOutcome(tokens, pos, vars) == Ok((s, pos + |printed|))
  {
    match s
    case Return(e) => ReturnRoundTrip(e, printed, tokens, pos, vars);
    case ExpressionStatement(e) => ExpressionStatementRoundTrip(e, printed, tokens, pos, vars);
    case Declaration(d) => DeclarationRoundTrip(d, printed, tokens, pos, vars);
  }

  lemma ReturnSound(tokens: seq<Token>, pos: nat, vars: Vars)
    requires pos <= |tokens| && ParseReturn(tokens, pos, vars).Ok?
    ensures var (e, p) := ParseReturn(tokens, pos, vars).value;
      At(tokens, pos, StatementTokens(Return(e))) && p == pos + |StatementTokens(Return(e))|
      && ExpressionIn(e, {}, vars.Keys)
  {
    var e := ParseReturn(tokens, pos, vars).value.0;
    var q := ParseExpression(tokens, pos + 1, vars).value.1;
    ExpressionSound(e, tokens, pos + 1, q, vars);
    AtJoin(tokens, pos, [KeywordReturn], ExpressionTokens(e));
    AtJoin(tokens, pos, [KeywordReturn] + ExpressionTokens(e), [Semicolon]);
  }

  lemma ExpressionStatementSound(tokens: seq<Token>, pos: nat, vars: Vars)
    requires pos <= |tokens| && ParseExpressionStatement(tokens, pos, vars).Ok?
    ensures var (e, p) := ParseExpressionStatement(tokens, pos, vars).value;
      At(tokens, pos, StatementTokens(ExpressionStatement(e))) && p == pos + |StatementTokens(ExpressionStatement(e))|
      && ExpressionIn(e, {}, vars.Keys)
  {
    var e := ParseExpressionStatement(tokens, pos, vars).value.0;
    var q := ParseExpression(tokens, pos, vars).value.1;
    ExpressionSound(e, tokens, pos, q, vars);
    AtJoin(tokens, pos, ExpressionTokens(e), [Semicolon]);
  }

  lemma DeclarationSound(tokens: seq<Token>, pos: nat, vars: Vars)
    requires pos <= |tokens| && ParseVariableDeclaration(tokens, pos, vars).Ok?
    ensures var (d, p) := ParseVariableDeclaration(tokens, pos, vars).value;
      At(tokens, pos, StatementTokens(Declaration(d))) && p == pos + |StatementTokens(Declaration(d))|
      && (d.expression.Some? ==> ExpressionIn(d.expression.value, {}, vars.Keys))
  {
    var (d, p) := ParseVariableDeclaration(tokens, pos, vars).value;
    var head := [KeywordInt, Token.Identifier(d.name)];
    if d.expression.Some? {
      var e := d.expression.value;
      var q := ParseExpression(tokens, pos + 3, vars).value.1;
      ExpressionSound(e, tokens, pos + 3, q, vars);
      AtJoin(tokens, pos, head + [Token.Assignment], ExpressionTokens(e));
      AtJoin(tokens, pos, head + [Token.Assignment] + ExpressionTokens(e), [Semicolon]);
      assert StatementTokens(Declaration(d)) == head + [Token.Assignment] + ExpressionTokens(e) + [Semicolon];
    } else {
      assert StatementTokens(Declaration(d)) == head + [Semicolon];
    }
  }

  /** Whatever statement the parser returns is well formed and prints back to exactly the
      tokens it consumed. */
  lemma StatementSound(tokens: seq<Token>, pos: nat, vars: Vars)
    requires pos <= |tokens| && StatementOutcome(tokens, pos, vars).Ok?
    ensures var (s, p) := StatementOutcome(tokens, pos, vars).value;
      At(tokens, pos, StatementTokens(s)) && p == pos + |StatementTokens(s)| && StatementWellFormed(s, vars)
  {
    if ParseReturn(tokens, pos, vars).Ok? {
      ReturnSound(tokens, pos, vars);
    } else if ParseExpressionStatement(tokens, pos, vars).Ok? {
      ExpressionStatementSound(tokens, pos, vars);
    } else {
      DeclarationSound(tokens, pos, vars);
    }
  }
}

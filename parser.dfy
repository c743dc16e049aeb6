/** The recursive-descent expression parser: one function per precedence level, each
    returning the node it built and the tokens left over. A list of leftover tokens is
    always a suffix of the input, and is represented by its start position: a parse of
    `tokens[pos..]` that returns position `p` leaves `tokens[p..]`. The functions here are pure; the
    `while let` loops of the chain levels are written out as methods, proved equal to these
    functions, in module ParserLoops.

    Indexing `tokens[0]` of an empty list panics in several places of the source; here an
    empty list makes an alternative fail with the message of a wrong token, and makes a
    chain loop stop. The frame is passed down to the factor level even where the factor
    parser's own signature takes none. */
module Parser {
  import opened Wrappers
  import opened Int64
  import opened Tokens
  import opened Ast

  type Vars = map<string, int>

  /** The binary-operator level of a token: 1 for `*` `/` up to 6 for `||`; 0 for a token
      that is no binary operator. */
  function OperatorLevel(t: Token): nat {
    match t
    case MultiplicationSign => 1
    case DivisionSign => 1
    case PlusSign => 2
    case MinusSign => 2
    case LessThan => 3
    case LessThanOrEqual => 3
    case GreaterThan => 3
    case GreaterThanOrEqual => 3
    case Equal => 4
    case NotEqual => 4
    case And => 5
    case Or => 6
    case _ => 0
  }

  /** A parse at `level` that ends at `pos` leaves tokens that do not start with an
      operator it would take. */
  predicate StopsAt(tokens: seq<Token>, pos: nat, level: nat) {
    pos >= |tokens| || OperatorLevel(tokens[pos]) == 0 || OperatorLevel(tokens[pos]) > level
  }

  function UnaryOperatorForToken(t: Token): (r: Option<UnaryOperator>)
    ensures r == Some(UnaryOperator.Negation) <==> t.MinusSign?
    ensures r == Some(UnaryOperator.BitwiseComplement) <==> t.BitwiseComplement?
    ensures r == Some(UnaryOperator.LogicalNegation) <==> t.LogicalNegation?
    ensures r.None? <==> !(t.MinusSign? || t.BitwiseComplement? || t.LogicalNegation?)
  {
    match t
    case MinusSign => Some(UnaryOperator.Negation)
    case BitwiseComplement => Some(UnaryOperator.BitwiseComplement)
    case LogicalNegation => Some(UnaryOperator.LogicalNegation)
    case _ => None
  }

  /** The multiplicative mapper the term parser calls; the factor file does not define it. */
  function BinaryFactorOperatorForToken(t: Token): (r: Option<BinaryFactorOperator>)
    ensures r == Some(Multiplication) <==> t.MultiplicationSign?
    ensures r == Some(Division) <==> t.DivisionSign?
    ensures r.Some? <==> OperatorLevel(t) == 1
  {
    match t
    case MultiplicationSign => Some(Multiplication)
    case DivisionSign => Some(Division)
    case _ => None
  }

  function ExpressionOperatorForToken(t: Token): (r: Option<LogicalOrOperator>)
    ensures r == Some(LogicalOrOperator.Or) <==> t.Or?
    ensures r.Some? <==> OperatorLevel(t) == 6
  {
    match t
    case Or => Some(LogicalOrOperator.Or)
    case _ => None
  }

  function LogicalAndOperatorForToken(t: Token): (r: Option<LogicalAndOperator>)
    ensures r == Some(LogicalAndOperator.And) <==> t.And?
    ensures r.Some? <==> OperatorLevel(t) == 5
  {
    match t
    case And => Some(LogicalAndOperator.And)
    case _ => None
  }

  function EqualityOperatorForToken(t: Token): (r: Option<EqualityOperator>)
    ensures r == Some(EqualityOperator.Equal) <==> t.Equal?
    ensures r == Some(EqualityOperator.NotEqual) <==> t.NotEqual?
    ensures r.Some? <==> OperatorLevel(t) == 4
  {
    match t
    case Equal => Some(EqualityOperator.Equal)
    case NotEqual => Some(EqualityOperator.NotEqual)
    case _ => None
  }

  function RelationalOperatorForToken(t: Token): (r: Option<RelationalOperator>)
    ensures r == Some(RelationalOperator.LessThan) <==> t.LessThan?
    ensures r == Some(RelationalOperator.LessThanOrEqual) <==> t.LessThanOrEqual?
    ensures r == Some(RelationalOperator.GreaterThan) <==> t.GreaterThan?
    ensures r == Some(RelationalOperator.GreaterThanOrEqual) <==> t.GreaterThanOrEqual?
    ensures r.Some? <==> OperatorLevel(t) == 3
  {
    match t
    case LessThan => Some(RelationalOperator.LessThan)
    case LessThanOrEqual => Some(RelationalOperator.LessThanOrEqual)
    case GreaterThan => Some(RelationalOperator.GreaterThan)
    case GreaterThanOrEqual => Some(RelationalOperator.GreaterThanOrEqual)
    case _ => None
  }

  function AdditiveOperatorForToken(t: Token): (r: Option<AdditiveOperator>)
    ensures r == Some(Subtraction) <==> t.MinusSign?
    ensures r == Some(Addition) <==> t.PlusSign?
    ensures r.Some? <==> OperatorLevel(t) == 2
  {
    match t
    case MinusSign => Some(Subtraction)
    case PlusSign => Some(Addition)
    case _ => None
  }

  // ---------------------------------------------------------------- factor level

  /** Alternatives in order: parenthesised expression, unary operation, integer literal. The
      first that succeeds wins; the errors of the failed ones are discarded. */
  function ParseFactor(tokens: seq<Token>, pos: nat, vars: Vars): (r: Result<(Factor, nat)>)
    requires pos <= |tokens|
    ensures r.Ok? ==> pos < r.value.1 <= |tokens|
    ensures r.Err? ==> r.error == "Invalid factor"
    decreases |tokens| - pos, 1
  {
    var parens := ParseWithParens(tokens, pos, vars);
    if parens.Ok? then Ok((Parenthesized(parens.value.0), parens.value.1))
    else
      var unary := ParseUnaryOperation(tokens, pos, vars);
      if unary.Ok? then Ok((Factor.UnaryOperation(unary.value.0), unary.value.1))
      else
        var literal := ParseIntegerLiteral(tokens, pos);
        if literal.Ok? then Ok((Constant(literal.value.0), literal.value.1))
        else Err("Invalid factor")
  }

  /** `(` expression `)`, consuming both parentheses. */
  function ParseWithParens(tokens: seq<Token>, pos: nat, vars: Vars): (r: Result<(Expression, nat)>)
    requires pos <= |tokens|
    ensures r.Ok? ==> pos + 2 < r.value.1 <= |tokens| && tokens[pos].OpenParen? && tokens[r.value.1 - 1].CloseParen?
    ensures (pos == |tokens| || !tokens[pos].OpenParen?) ==> r == Err("Expecting '('")
    decreases |tokens| - pos, 0
  {
    if pos == |tokens| || !tokens[pos].OpenParen? then Err("Expecting '('")
    else
      var inner := ParseExpression(tokens, pos + 1, vars);
      if inner.Err? then Err(inner.error)
      else if inner.value.1 == |tokens| || !tokens[inner.value.1].CloseParen? then Err("Expecting ')'")
      else Ok((inner.value.0, inner.value.1 + 1))
  }

  /** One unary operator applied to exactly one following factor. */
  function ParseUnaryOperation(tokens: seq<Token>, pos: nat, vars: Vars): (r: Result<(UnaryOperation, nat)>)
    requires pos <= |tokens|
    ensures r.Ok? ==> pos + 1 < r.value.1 <= |tokens|
    ensures r.Ok? ==> UnaryOperatorForToken(tokens[pos]) == Some(r.value.0.operator)
    ensures (pos == |tokens| || UnaryOperatorForToken(tokens[pos]).None?) ==> r == Err("Expecting ~ or ! or -")
    decreases |tokens| - pos, 0
  {
    if pos == |tokens| || UnaryOperatorForToken(tokens[pos]).None? then Err("Expecting ~ or ! or -")
    else
      var operator := UnaryOperatorForToken(tokens[pos]).value;
      var factor := ParseFactor(tokens, pos + 1, vars);
      if factor.Err? then Err(factor.error)
      else Ok((UnaryOperation.UnaryOperation(operator, factor.value.0), factor.value.1))
  }

  /** Exactly one integer-literal token, value unchanged. */
  function ParseIntegerLiteral(tokens: seq<Token>, pos: nat): (r: Result<(i64, nat)>)
    requires pos <= |tokens|
    ensures r.Ok? <==> pos < |tokens| && tokens[pos].IntegerLiteral?
    ensures r.Ok? ==> r.value == (tokens[pos].value, pos + 1)
    ensures r.Err? ==> r.error == "Expecting integer literal"
  {
    if pos < |tokens| && tokens[pos].IntegerLiteral? then Ok((tokens[pos].value, pos + 1))
    else Err("Expecting integer literal")
  }

  // ---------------------------------------------------------------- chain levels

  function ParseTerm(tokens: seq<Token>, pos: nat, vars: Vars): (r: Result<(Term, nat)>)
    requires pos <= |tokens|
    ensures r.Ok? ==> pos < r.value.1 <= |tokens| && StopsAt(tokens, r.value.1, 1)
    decreases |tokens| - pos, 2
  {
    var first := ParseFactor(tokens, pos, vars);
    if first.Err? then Err(first.error)
    else
      var tail := TermTail(tokens, first.value.1, vars);
      if tail.Err? then Err(tail.error)
      else Ok((Term(first.value.0, tail.value.0), tail.value.1))
  }

  /** The (operator, node) pairs of this level in source order, up to the first token that
      is not one of its operators. */
  function TermTail(tokens: seq<Token>, pos: nat, vars: Vars): (r: Result<(seq<BinaryFactor>, nat)>)
    requires pos <= |tokens|
    ensures r.Ok? ==> pos <= r.value.1 <= |tokens| && (r.value.1 == |tokens| || BinaryFactorOperatorForToken(tokens[r.value.1]).None?)
    ensures r.Ok? && |r.value.0| == 0 ==> r.value.1 == pos
    ensures pos == |tokens| || BinaryFactorOperatorForToken(tokens[pos]).None? ==> r == Ok(([], pos))
    decreases |tokens| - pos, 0
  {
    if pos == |tokens| || BinaryFactorOperatorForToken(tokens[pos]).None? then Ok(([], pos))
    else
      var operator := BinaryFactorOperatorForToken(tokens[pos]).value;
      var right := ParseFactor(tokens, pos + 1, vars);
      if right.Err? then Err(right.error)
      else
        var tail := TermTail(tokens, right.value.1, vars);
        if tail.Err? then Err(tail.error)
        else Ok(([BinaryFactor(operator, right.value.0)] + tail.value.0, tail.value.1))
  }

  function ParseAdditive(tokens: seq<Token>, pos: nat, vars: Vars): (r: Result<(AdditiveExpression, nat)>)
    requires pos <= |tokens|
    ensures r.Ok? ==> pos < r.value.1 <= |tokens| && StopsAt(tokens, r.value.1, 2)
    decreases |tokens| - pos, 3
  {
    var first := ParseTerm(tokens, pos, vars);
    if first.Err? then Err(first.error)
    else
      var tail := AdditiveTail(tokens, first.value.1, vars);
      if tail.Err? then Err(tail.error)
      else Ok((AdditiveExpression(first.value.0, tail.value.0), tail.value.1))
  }

  function AdditiveTail(tokens: seq<Token>, pos: nat, vars: Vars): (r: Result<(seq<BinaryTerms>, nat)>)
    requires pos <= |tokens|
    ensures r.Ok? ==> pos <= r.value.1 <= |tokens| && (r.value.1 == |tokens| || AdditiveOperatorForToken(tokens[r.value.1]).None?)
    ensures r.Ok? && StopsAt(tokens, pos, 1) ==> StopsAt(tokens, r.value.1, 2)
    ensures r.Ok? && |r.value.0| == 0 ==> r.value.1 == pos
    ensures pos == |tokens| || AdditiveOperatorForToken(tokens[pos]).None? ==> r == Ok(([], pos))
    decreases |tokens| - pos, 0
  {
    if pos == |tokens| || AdditiveOperatorForToken(tokens[pos]).None? then Ok(([], pos))
    else
      var operator := AdditiveOperatorForToken(tokens[pos]).value;
      var right := ParseTerm(tokens, pos + 1, vars);
      if right.Err? then Err(right.error)
      else
        var tail := AdditiveTail(tokens, right.value.1, vars);
        if tail.Err? then Err(tail.error)
        else Ok(([BinaryTerms(operator, right.value.0)] + tail.value.0, tail.value.1))
  }

  function ParseRelational(tokens: seq<Token>, pos: nat, vars: Vars): (r: Result<(RelationalExpression, nat)>)
    requires pos <= |tokens|
    ensures r.Ok? ==> pos < r.value.1 <= |tokens| && StopsAt(tokens, r.value.1, 3)
    decreases |tokens| - pos, 4
  {
    var first := ParseAdditive(tokens, pos, vars);
    if first.Err? then Err(first.error)
    else
      var tail := RelationalTail(tokens, first.value.1, vars);
      if tail.Err? then Err(tail.error)
      else Ok((RelationalExpression(first.value.0, tail.value.0), tail.value.1))
  }

  function RelationalTail(tokens: seq<Token>, pos: nat, vars: Vars): (r: Result<(seq<BinaryAdditiveExpression>, nat)>)
    requires pos <= |tokens|
    ensures r.Ok? ==> pos <= r.value.1 <= |tokens| && (r.value.1 == |tokens| || RelationalOperatorForToken(tokens[r.value.1]).None?)
    ensures r.Ok? && StopsAt(tokens, pos, 2) ==> StopsAt(tokens, r.value.1, 3)
    ensures r.Ok? && |r.value.0| == 0 ==> r.value.1 == pos
    ensures pos == |tokens| || RelationalOperatorForToken(tokens[pos]).None? ==> r == Ok(([], pos))
    decreases |tokens| - pos, 0
  {
    if pos == |tokens| || RelationalOperatorForToken(tokens[pos]).None? then Ok(([], pos))
    else
      var operator := RelationalOperatorForToken(tokens[pos]).value;
      var right := ParseAdditive(tokens, pos + 1, vars);
      if right.Err? then Err(right.error)
      else
        var tail := RelationalTail(tokens, right.value.1, vars);
        if tail.Err? then Err(tail.error)
        else Ok(([BinaryAdditiveExpression(operator, right.value.0)] + tail.value.0, tail.value.1))
  }

  function ParseEquality(tokens: seq<Token>, pos: nat, vars: Vars): (r: Result<(EqualityExpression, nat)>)
    requires pos <= |tokens|
    ensures r.Ok? ==> pos < r.value.1 <= |tokens| && StopsAt(tokens, r.value.1, 4)
    decreases |tokens| - pos, 5
  {
    var first := ParseRelational(tokens, pos, vars);
    if first.Err? then Err(first.error)
    else
      var tail := EqualityTail(tokens, first.value.1, vars);
      if tail.Err? then Err(tail.error)
      else Ok((EqualityExpression(first.value.0, tail.value.0), tail.value.1))
  }

  function EqualityTail(tokens: seq<Token>, pos: nat, vars: Vars): (r: Result<(seq<BinaryRelationalExpression>, nat)>)
    requires pos <= |tokens|
    ensures r.Ok? ==> pos <= r.value.1 <= |tokens| && (r.value.1 == |tokens| || EqualityOperatorForToken(tokens[r.value.1]).None?)
    ensures r.Ok? && StopsAt(tokens, pos, 3) ==> StopsAt(tokens, r.value.1, 4)
    ensures r.Ok? && |r.value.0| == 0 ==> r.value.1 == pos
    ensures pos == |tokens| || EqualityOperatorForToken(tokens[pos]).None? ==> r == Ok(([], pos))
    decreases |tokens| - pos, 0
  {
    if pos == |tokens| || EqualityOperatorForToken(tokens[pos]).None? then Ok(([], pos))
    else
      var operator := EqualityOperatorForToken(tokens[pos]).value;
      var right := ParseRelational(tokens, pos + 1, vars);
      if right.Err? then Err(right.error)
      else
        var tail := EqualityTail(tokens, right.value.1, vars);
        if tail.Err? then Err(tail.error)
        else Ok(([BinaryRelationalExpression(operator, right.value.0)] + tail.value.0, tail.value.1))
  }

  function ParseLogicalAnd(tokens: seq<Token>, pos: nat, vars: Vars): (r: Result<(LogicalAndExpression, nat)>)
    requires pos <= |tokens|
    ensures r.Ok? ==> pos < r.value.1 <= |tokens| && StopsAt(tokens, r.value.1, 5)
    decreases |tokens| - pos, 6
  {
    var first := ParseEquality(tokens, pos, vars);
    if first.Err? then Err(first.error)
    else
      var tail := LogicalAndTail(tokens, first.value.1, vars);
      if tail.Err? then Err(tail.error)
      else Ok((LogicalAndExpression(first.value.0, tail.value.0), tail.value.1))
  }

  function LogicalAndTail(tokens: seq<Token>, pos: nat, vars: Vars): (r: Result<(seq<BinaryEqualityExpression>, nat)>)
    requires pos <= |tokens|
    ensures r.Ok? ==> pos <= r.value.1 <= |tokens| && (r.value.1 == |tokens| || LogicalAndOperatorForToken(tokens[r.value.1]).None?)
    ensures r.Ok? && StopsAt(tokens, pos, 4) ==> StopsAt(tokens, r.value.1, 5)
    ensures r.Ok? && |r.value.0| == 0 ==> r.value.1 == pos
    ensures pos == |tokens| || LogicalAndOperatorForToken(tokens[pos]).None? ==> r == Ok(([], pos))
    decreases |tokens| - pos, 0
  {
    if pos == |tokens| || LogicalAndOperatorForToken(tokens[pos]).None? then Ok(([], pos))
    else
      var operator := LogicalAndOperatorForToken(tokens[pos]).value;
      var right := ParseEquality(tokens, pos + 1, vars);
      if right.Err? then Err(right.error)
      else
        var tail := LogicalAndTail(tokens, right.value.1, vars);
        if tail.Err? then Err(tail.error)
        else Ok(([BinaryEqualityExpression(operator, right.value.0)] + tail.value.0, tail.value.1))
  }

  function ParseLogicalOr(tokens: seq<Token>, pos: nat, vars: Vars): (r: Result<(LogicalOrExpression, nat)>)
    requires pos <= |tokens|
    ensures r.Ok? ==> pos < r.value.1 <= |tokens| && StopsAt(tokens, r.value.1, 6)
    decreases |tokens| - pos, 7
  {
    var first := ParseLogicalAnd(tokens, pos, vars);
    if first.Err? then Err(first.error)
    else
      var tail := LogicalOrTail(tokens, first.value.1, vars);
      if tail.Err? then Err(tail.error)
      else Ok((LogicalOrExpression(first.value.0, tail.value.0), tail.value.1))
  }

  function LogicalOrTail(tokens: seq<Token>, pos: nat, vars: Vars): (r: Result<(seq<BinaryLogicalAndExpression>, nat)>)
    requires pos <= |tokens|
    ensures r.Ok? ==> pos <= r.value.1 <= |tokens| && (r.value.1 == |tokens| || ExpressionOperatorForToken(tokens[r.value.1]).None?)
    ensures r.Ok? && StopsAt(tokens, pos, 5) ==> StopsAt(tokens, r.value.1, 6)
    ensures r.Ok? && |r.value.0| == 0 ==> r.value.1 == pos
    ensures pos == |tokens| || ExpressionOperatorForToken(tokens[pos]).None? ==> r == Ok(([], pos))
    decreases |tokens| - pos, 0
  {
    if pos == |tokens| || ExpressionOperatorForToken(tokens[pos]).None? then Ok(([], pos))
    else
      var operator := ExpressionOperatorForToken(tokens[pos]).value;
      var right := ParseLogicalAnd(tokens, pos + 1, vars);
      if right.Err? then Err(right.error)
      else
        var tail := LogicalOrTail(tokens, right.value.1, vars);
        if tail.Err? then Err(tail.error)
        else Ok(([BinaryLogicalAndExpression(operator, right.value.0)] + tail.value.0, tail.value.1))
  }

  // ---------------------------------------------------------------- expressions

  /** `Identifier '=' expression`; the right-hand side is a full expression, so chains of
      assignments nest to the right. The target is not checked here. */
  function ParseAssignment(tokens: seq<Token>, pos: nat, vars: Vars): (r: Result<(Expression, nat)>)
    requires pos <= |tokens|
    ensures r.Ok? ==> pos + 2 < r.value.1 <= |tokens| && StopsAt(tokens, r.value.1, 6)
    ensures r.Ok? ==> tokens[pos].Identifier? && tokens[pos + 1].Assignment?
    ensures r.Ok? ==> r.value.0.Assignment? && r.value.0.name == tokens[pos].name
    ensures (pos == |tokens| || !tokens[pos].Identifier?) ==> r == Err("Invalid assignment: Expecting identifier")
    decreases |tokens| - pos, 8
  {
    if pos == |tokens| || !tokens[pos].Identifier? then Err("Invalid assignment: Expecting identifier")
    else if pos + 1 == |tokens| || !tokens[pos + 1].Assignment? then Err("Invalid assignment: Expecting '='")
    else
      var rhs := ParseExpression(tokens, pos + 2, vars);
      if rhs.Err? then Err(rhs.error)
      else Ok((Expression.Assignment(tokens[pos].name, rhs.value.0), rhs.value.1))
  }

  /** An assignment if the tokens have that shape (an error, with no fallback, if its target
      is undeclared), else a logical-or expression over the same tokens. */
  function ParseExpression(tokens: seq<Token>, pos: nat, vars: Vars): (r: Result<(Expression, nat)>)
    requires pos <= |tokens|
    ensures r.Ok? ==> pos < r.value.1 <= |tokens| && StopsAt(tokens, r.value.1, 6)
    decreases |tokens| - pos, 9
  {
    var assignment := ParseAssignment(tokens, pos, vars);
    if assignment.Ok? then
      if assignment.value.0.name !in vars then Err("Var '" + assignment.value.0.name + "' hasn't been declared")
      else assignment
    else
      var or := ParseLogicalOr(tokens, pos, vars);
      if or.Err? then Err(or.error)
      else Ok((LogicalOr(or.value.0), or.value.1))
  }
  // ---------------------------------------------------------------- unfolding

  /* One step of each chain level, stated in the form the proofs about the parser use. */

  lemma ParseLogicalOrCons(tokens: seq<Token>, pos: nat, vars: Vars, e: LogicalOrExpression, q: nat, end: nat)
    requires pos <= |tokens| && ParseLogicalAnd(tokens, pos, vars) == Ok((e.expression, q))
    requires LogicalOrTail(tokens, q, vars) == Ok((e.binaryExpressions, end))
    ensures ParseLogicalOr(tokens, pos, vars) == Ok((e, end))
  {
  }

  lemma LogicalOrTailCons(tokens: seq<Token>, pos: nat, vars: Vars, pairs: seq<BinaryLogicalAndExpression>, q: nat, end: nat)
    requires pos < |tokens| && |pairs| > 0 && ExpressionOperatorForToken(tokens[pos]) == Some(pairs[0].operator)
    requires ParseLogicalAnd(tokens, pos + 1, vars) == Ok((pairs[0].rightExpression, q))
    requires LogicalOrTail(tokens, q, vars) == Ok((pairs[1..], end))
    ensures LogicalOrTail(tokens, pos, vars) == Ok((pairs, end))
  {
    assert [pairs[0]] + pairs[1..] == pairs;
  }

  /** The converse of `LogicalOrTailCons`: a non-empty tail starts with an operator and one operand. */
  lemma LogicalOrTailUncons(tokens: seq<Token>, pos: nat, vars: Vars, pairs: seq<BinaryLogicalAndExpression>, end: nat)
    requires pos <= |tokens| && |pairs| > 0 && LogicalOrTail(tokens, pos, vars) == Ok((pairs, end))
    ensures pos < |tokens| && ExpressionOperatorForToken(tokens[pos]) == Some(pairs[0].operator)
    ensures var right := ParseLogicalAnd(tokens, pos + 1, vars);
      && right.Ok? && right.value.0 == pairs[0].rightExpression
      && LogicalOrTail(tokens, right.value.1, vars) == Ok((pairs[1..], end))
  {
    var right := ParseLogicalAnd(tokens, pos + 1, vars);
    var rest := LogicalOrTail(tokens, right.value.1, vars);
    assert pairs == [pairs[0]] + rest.value.0;
    assert pairs[1..] == rest.value.0;
  }

  lemma ParseLogicalAndCons(tokens: seq<Token>, pos: nat, vars: Vars, e: LogicalAndExpression, q: nat, end: nat)
    requires pos <= |tokens| && ParseEquality(tokens, pos, vars) == Ok((e.expression, q))
    requires LogicalAndTail(tokens, q, vars) == Ok((e.binaryExpressions, end))
    ensures ParseLogicalAnd(tokens, pos, vars) == Ok((e, end))
  {
  }

  lemma LogicalAndTailCons(tokens: seq<Token>, pos: nat, vars: Vars, pairs: seq<BinaryEqualityExpression>, q: nat, end: nat)
    requires pos < |tokens| && |pairs| > 0 && LogicalAndOperatorForToken(tokens[pos]) == Some(pairs[0].operator)
    requires ParseEquality(tokens, pos + 1, vars) == Ok((pairs[0].rightExpression, q))
    requires LogicalAndTail(tokens, q, vars) == Ok((pairs[1..], end))
    ensures LogicalAndTail(tokens, pos, vars) == Ok((pairs, end))
  {
    assert [pairs[0]] + pairs[1..] == pairs;
  }

  /** The converse of `LogicalAndTailCons`: a non-empty tail starts with an operator and one operand. */
  lemma LogicalAndTailUncons(tokens: seq<Token>, pos: nat, vars: Vars, pairs: seq<BinaryEqualityExpression>, end: nat)
    requires pos <= |tokens| && |pairs| > 0 && LogicalAndTail(tokens, pos, vars) == Ok((pairs, end))
    ensures pos < |tokens| && LogicalAndOperatorForToken(tokens[pos]) == Some(pairs[0].operator)
    ensures var right := ParseEquality(tokens, pos + 1, vars);
      && right.Ok? && right.value.0 == pairs[0].rightExpression
      && LogicalAndTail(tokens, right.value.1, vars) == Ok((pairs[1..], end))
  {
    var right := ParseEquality(tokens, pos + 1, vars);
    var rest := LogicalAndTail(tokens, right.value.1, vars);
    assert pairs == [pairs[0]] + rest.value.0;
    assert pairs[1..] == rest.value.0;
  }

  lemma ParseEqualityCons(tokens: seq<Token>, pos: nat, vars: Vars, e: EqualityExpression, q: nat, end: nat)
    requires pos <= |tokens| && ParseRelational(tokens, pos, vars) == Ok((e.expression, q))
    requires EqualityTail(tokens, q, vars) == Ok((e.binaryExpressions, end))
    ensures ParseEquality(tokens, pos, vars) == Ok((e, end))
  {
  }

  lemma EqualityTailCons(tokens: seq<Token>, pos: nat, vars: Vars, pairs: seq<BinaryRelationalExpression>, q: nat, end: nat)
    requires pos < |tokens| && |pairs| > 0 && EqualityOperatorForToken(tokens[pos]) == Some(pairs[0].operator)
    requires ParseRelational(tokens, pos + 1, vars) == Ok((pairs[0].rightExpression, q))
    requires EqualityTail(tokens, q, vars) == Ok((pairs[1..], end))
    ensures EqualityTail(tokens, pos, vars) == Ok((pairs, end))
  {
    assert [pairs[0]] + pairs[1..] == pairs;
  }

  /** The converse of `EqualityTailCons`: a non-empty tail starts with an operator and one operand. */
  lemma EqualityTailUncons(tokens: seq<Token>, pos: nat, vars: Vars, pairs: seq<BinaryRelationalExpression>, end: nat)
    requires pos <= |tokens| && |pairs| > 0 && EqualityTail(tokens, pos, vars) == Ok((pairs, end))
    ensures pos < |tokens| && EqualityOperatorForToken(tokens[pos]) == Some(pairs[0].operator)
    ensures var right := ParseRelational(tokens, pos + 1, vars);
      && right.Ok? && right.value.0 == pairs[0].rightExpression
      && EqualityTail(tokens, right.value.1, vars) == Ok((pairs[1..], end))
  {
    var right := ParseRelational(tokens, pos + 1, vars);
    var rest := EqualityTail(tokens, right.value.1, vars);
    assert pairs == [pairs[0]] + rest.value.0;
    assert pairs[1..] == rest.value.0;
  }

  lemma ParseRelationalCons(tokens: seq<Token>, pos: nat, vars: Vars, e: RelationalExpression, q: nat, end: nat)
    requires pos <= |tokens| && ParseAdditive(tokens, pos, vars) == Ok((e.expression, q))
    requires RelationalTail(tokens, q, vars) == Ok((e.binaryExpressions, end))
    ensures ParseRelational(tokens, pos, vars) == Ok((e, end))
  {
  }

  lemma RelationalTailCons(tokens: seq<Token>, pos: nat, vars: Vars, pairs: seq<BinaryAdditiveExpression>, q: nat, end: nat)
    requires pos < |tokens| && |pairs| > 0 && RelationalOperatorForToken(tokens[pos]) == Some(pairs[0].operator)
    requires ParseAdditive(tokens, pos + 1, vars) == Ok((pairs[0].rightExpression, q))
    requires RelationalTail(tokens, q, vars) == Ok((pairs[1..], end))
    ensures RelationalTail(tokens, pos, vars) == Ok((pairs, end))
  {
    assert [pairs[0]] + pairs[1..] == pairs;
  }

  /** The converse of `RelationalTailCons`: a non-empty tail starts with an operator and one operand. */
  lemma RelationalTailUncons(tokens: seq<Token>, pos: nat, vars: Vars, pairs: seq<BinaryAdditiveExpression>, end: nat)
    requires pos <= |tokens| && |pairs| > 0 && RelationalTail(tokens, pos, vars) == Ok((pairs, end))
    ensures pos < |tokens| && RelationalOperatorForToken(tokens[pos]) == Some(pairs[0].operator)
    ensures var right := ParseAdditive(tokens, pos + 1, vars);
      && right.Ok? && right.value.0 == pairs[0].rightExpression
      && RelationalTail(tokens, right.value.1, vars) == Ok((pairs[1..], end))
  {
    var right := ParseAdditive(tokens, pos + 1, vars);
    var rest := RelationalTail(tokens, right.value.1, vars);
    assert pairs == [pairs[0]] + rest.value.0;
    assert pairs[1..] == rest.value.0;
  }

  lemma ParseAdditiveCons(tokens: seq<Token>, pos: nat, vars: Vars, e: AdditiveExpression, q: nat, end: nat)
    requires pos <= |tokens| && ParseTerm(tokens, pos, vars) == Ok((e.term, q))
    requires AdditiveTail(tokens, q, vars) == Ok((e.binaryTerms, end))
    ensures ParseAdditive(tokens, pos, vars) == Ok((e, end))
  {
  }

  lemma AdditiveTailCons(tokens: seq<Token>, pos: nat, vars: Vars, pairs: seq<BinaryTerms>, q: nat, end: nat)
    requires pos < |tokens| && |pairs| > 0 && AdditiveOperatorForToken(tokens[pos]) == Some(pairs[0].operator)
    requires ParseTerm(tokens, pos + 1, vars) == Ok((pairs[0].rightTerm, q))
    requires AdditiveTail(tokens, q, vars) == Ok((pairs[1..], end))
    ensures AdditiveTail(tokens, pos, vars) == Ok((pairs, end))
  {
    assert [pairs[0]] + pairs[1..] == pairs;
  }

  /** The converse of `AdditiveTailCons`: a non-empty tail starts with an operator and one operand. */
  lemma AdditiveTailUncons(tokens: seq<Token>, pos: nat, vars: Vars, pairs: seq<BinaryTerms>, end: nat)
    requires pos <= |tokens| && |pairs| > 0 && AdditiveTail(tokens, pos, vars) == Ok((pairs, end))
    ensures pos < |tokens| && AdditiveOperatorForToken(tokens[pos]) == Some(pairs[0].operator)
    ensures var right := ParseTerm(tokens, pos + 1, vars);
      && right.Ok? && right.value.0 == pairs[0].rightTerm
      && AdditiveTail(tokens, right.value.1, vars) == Ok((pairs[1..], end))
  {
    var right := ParseTerm(tokens, pos + 1, vars);
    var rest := AdditiveTail(tokens, right.value.1, vars);
    assert pairs == [pairs[0]] + rest.value.0;
    assert pairs[1..] == rest.value.0;
  }

  lemma ParseUnaryCons(tokens: seq<Token>, pos: nat, vars: Vars, operation: UnaryOperation, end: nat)
    requires pos < |tokens| && UnaryOperatorForToken(tokens[pos]) == Some(operation.operator)
    requires ParseFactor(tokens, pos + 1, vars) == Ok((operation.factor, end))
    ensures ParseFactor(tokens, pos, vars) == Ok((Factor.UnaryOperation(operation), end))
  {
  }

  lemma ParseParensCons(tokens: seq<Token>, pos: nat, vars: Vars, e: Expression, q: nat)
    requires pos < |tokens| && tokens[pos].OpenParen?
    requires ParseExpression(tokens, pos + 1, vars) == Ok((e, q)) && q < |tokens| && tokens[q].CloseParen?
    ensures ParseFactor(tokens, pos, vars) == Ok((Parenthesized(e), q + 1))
  {
  }

  lemma ParseTermCons(tokens: seq<Token>, pos: nat, vars: Vars, e: Term, q: nat, end: nat)
    requires pos <= |tokens| && ParseFactor(tokens, pos, vars) == Ok((e.factor, q))
    requires TermTail(tokens, q, vars) == Ok((e.binaryFactors, end))
    ensures ParseTerm(tokens, pos, vars) == Ok((e, end))
  {
  }

  lemma TermTailCons(tokens: seq<Token>, pos: nat, vars: Vars, pairs: seq<BinaryFactor>, q: nat, end: nat)
    requires pos < |tokens| && |pairs| > 0 && BinaryFactorOperatorForToken(tokens[pos]) == Some(pairs[0].operator)
    requires ParseFactor(tokens, pos + 1, vars) == Ok((pairs[0].rightFactor, q))
    requires TermTail(tokens, q, vars) == Ok((pairs[1..], end))
    ensures TermTail(tokens, pos, vars) == Ok((pairs, end))
  {
    assert [pairs[0]] + pairs[1..] == pairs;
  }

  /** The converse of `TermTailCons`: a non-empty tail starts with an operator and one operand. */
  lemma TermTailUncons(tokens: seq<Token>, pos: nat, vars: Vars, pairs: seq<BinaryFactor>, end: nat)
    requires pos <= |tokens| && |pairs| > 0 && TermTail(tokens, pos, vars) == Ok((pairs, end))
    ensures pos < |tokens| && BinaryFactorOperatorForToken(tokens[pos]) == Some(pairs[0].operator)
    ensures var right := ParseFactor(tokens, pos + 1, vars);
      && right.Ok? && right.value.0 == pairs[0].rightFactor
      && TermTail(tokens, right.value.1, vars) == Ok((pairs[1..], end))
  {
    var right := ParseFactor(tokens, pos + 1, vars);
    var rest := TermTail(tokens, right.value.1, vars);
    assert pairs == [pairs[0]] + rest.value.0;
    assert pairs[1..] == rest.value.0;
  }
}

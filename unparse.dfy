/** The inverse of the expression parser: the token list a syntax tree is read from. It
    puts no parentheses of its own: a tree prints exactly as the parser grouped it, and a
    `Parenthesized` factor prints its own pair. The source has no such printer; it is the
    reference against which the parser is proved (module RoundTrip). */
module Unparse {
  import opened Wrappers
  import opened Tokens
  import opened Ast
  import opened Parser

  function UnaryOperatorToken(op: UnaryOperator): (t: Token)
    ensures UnaryOperatorForToken(t) == Some(op)
    ensures forall u :: UnaryOperatorForToken(u) == Some(op) ==> u == t
  {
    match op
    case Negation => MinusSign
    case BitwiseComplement => Token.BitwiseComplement
    case LogicalNegation => Token.LogicalNegation
  }

  function FactorOperatorToken(op: BinaryFactorOperator): (t: Token)
    ensures BinaryFactorOperatorForToken(t) == Some(op)
    ensures forall u :: BinaryFactorOperatorForToken(u) == Some(op) ==> u == t
  {
    match op
    case Multiplication => MultiplicationSign
    case Division => DivisionSign
  }

  function AdditiveOperatorToken(op: AdditiveOperator): (t: Token)
    ensures AdditiveOperatorForToken(t) == Some(op)
    ensures forall u :: AdditiveOperatorForToken(u) == Some(op) ==> u == t
  {
    match op
    case Subtraction => MinusSign
    case Addition => PlusSign
  }

  function RelationalOperatorToken(op: RelationalOperator): (t: Token)
    ensures RelationalOperatorForToken(t) == Some(op)
    ensures forall u :: RelationalOperatorForToken(u) == Some(op) ==> u == t
  {
    match op
    case LessThan => Token.LessThan
    case LessThanOrEqual => Token.LessThanOrEqual
    case GreaterThan => Token.GreaterThan
    case GreaterThanOrEqual => Token.GreaterThanOrEqual
  }

  function EqualityOperatorToken(op: EqualityOperator): (t: Token)
    ensures EqualityOperatorForToken(t) == Some(op)
    ensures forall u :: EqualityOperatorForToken(u) == Some(op) ==> u == t
  {
    match op
    case Equal => Token.Equal
    case NotEqual => Token.NotEqual
  }

  function AndOperatorToken(op: LogicalAndOperator): (t: Token)
    ensures LogicalAndOperatorForToken(t) == Some(op)
    ensures forall u :: LogicalAndOperatorForToken(u) == Some(op) ==> u == t
  {
    match op
    case And => Token.And
  }

  function OrOperatorToken(op: LogicalOrOperator): (t: Token)
    ensures ExpressionOperatorForToken(t) == Some(op)
    ensures forall u :: ExpressionOperatorForToken(u) == Some(op) ==> u == t
  {
    match op
    case Or => Token.Or
  }

  function ExpressionTokens(e: Expression): seq<Token>
    decreases e, 0
  {
    match e
    case Assignment(name, rhs) => [Token.Identifier(name), Token.Assignment] + ExpressionTokens(rhs)
    case LogicalOr(or) => OrTokens(or)
  }

  function OrTokens(e: LogicalOrExpression): seq<Token>
    decreases e, |e.binaryExpressions| + 1
  {
    AndTokens(e.expression) + OrPairTokens(e, 0)
  }

  /** The operators and right operands of `e` from pair `k` on. */
  function OrPairTokens(e: LogicalOrExpression, k: nat): seq<Token>
    requires k <= |e.binaryExpressions|
    decreases e, |e.binaryExpressions| - k
  {
    if k == |e.binaryExpressions| then []
    else [OrOperatorToken(e.binaryExpressions[k].operator)] + AndTokens(e.binaryExpressions[k].rightExpression) + OrPairTokens(e, k + 1)
  }

  function AndTokens(e: LogicalAndExpression): seq<Token>
    decreases e, |e.binaryExpressions| + 1
  {
    EqualityTokens(e.expression) + AndPairTokens(e, 0)
  }

  /** The operators and right operands of `e` from pair `k` on. */
  function AndPairTokens(e: LogicalAndExpression, k: nat): seq<Token>
    requires k <= |e.binaryExpressions|
    decreases e, |e.binaryExpressions| - k
  {
    if k == |e.binaryExpressions| then []
    else [AndOperatorToken(e.binaryExpressions[k].operator)] + EqualityTokens(e.binaryExpressions[k].rightExpression) + AndPairTokens(e, k + 1)
  }

  function EqualityTokens(e: EqualityExpression): seq<Token>
    decreases e, |e.binaryExpressions| + 1
  {
    RelationalTokens(e.expression) + EqualityPairTokens(e, 0)
  }

  /** The operators and right operands of `e` from pair `k` on. */
  function EqualityPairTokens(e: EqualityExpression, k: nat): seq<Token>
    requires k <= |e.binaryExpressions|
    decreases e, |e.binaryExpressions| - k
  {
    if k == |e.binaryExpressions| then []
    else [EqualityOperatorToken(e.binaryExpressions[k].operator)] + RelationalTokens(e.binaryExpressions[k].rightExpression) + EqualityPairTokens(e, k + 1)
  }

  function RelationalTokens(e: RelationalExpression): seq<Token>
    decreases e, |e.binaryExpressions| + 1
  {
    AdditiveTokens(e.expression) + RelationalPairTokens(e, 0)
  }

  /** The operators and right operands of `e` from pair `k` on. */
  function RelationalPairTokens(e: RelationalExpression, k: nat): seq<Token>
    requires k <= |e.binaryExpressions|
    decreases e, |e.binaryExpressions| - k
  {
    if k == |e.binaryExpressions| then []
    else [RelationalOperatorToken(e.binaryExpressions[k].operator)] + AdditiveTokens(e.binaryExpressions[k].rightExpression) + RelationalPairTokens(e, k + 1)
  }

  function AdditiveTokens(e: AdditiveExpression): seq<Token>
    decreases e, |e.binaryTerms| + 1
  {
    TermTokens(e.term) + AdditivePairTokens(e, 0)
  }

  /** The operators and right operands of `e` from pair `k` on. */
  function AdditivePairTokens(e: AdditiveExpression, k: nat): seq<Token>
    requires k <= |e.binaryTerms|
    decreases e, |e.binaryTerms| - k
  {
    if k == |e.binaryTerms| then []
    else [AdditiveOperatorToken(e.binaryTerms[k].operator)] + TermTokens(e.binaryTerms[k].rightTerm) + AdditivePairTokens(e, k + 1)
  }

  function TermTokens(e: Term): seq<Token>
    decreases e, |e.binaryFactors| + 1
  {
    FactorTokens(e.factor) + TermPairTokens(e, 0)
  }

  /** The operators and right operands of `e` from pair `k` on. */
  function TermPairTokens(e: Term, k: nat): seq<Token>
    requires k <= |e.binaryFactors|
    decreases e, |e.binaryFactors| - k
  {
    if k == |e.binaryFactors| then []
    else [FactorOperatorToken(e.binaryFactors[k].operator)] + FactorTokens(e.binaryFactors[k].rightFactor) + TermPairTokens(e, k + 1)
  }

  function FactorTokens(f: Factor): seq<Token>
    decreases f, 0
  {
    match f
    case Constant(value) => [IntegerLiteral(value)]
    case UnaryOperation(operation) => [UnaryOperatorToken(operation.operator)] + FactorTokens(operation.factor)
    case Parenthesized(e) => [OpenParen] + ExpressionTokens(e) + [CloseParen]
    case Identifier(name) => [Token.Identifier(name)]
  }

  /** `t` occurs in `tokens` starting at `pos`. */
  predicate At(tokens: seq<Token>, pos: nat, t: seq<Token>) {
    pos + |t| <= |tokens| && forall i :: 0 <= i < |t| ==> tokens[pos + i] == t[i]
  }

  // ---------------------------------------------------------------- layout

  /* Where the parts of a printed node lie, and which token follows each part. */

  lemma OrLayout(e: LogicalOrExpression, printed: seq<Token>, tokens: seq<Token>, pos: nat)
    requires printed == OrTokens(e) && At(tokens, pos, printed)
    ensures var a := AndTokens(e.expression);
      && At(tokens, pos, a)
      && At(tokens, pos + |a|, OrPairTokens(e, 0))
      && |printed| == |a| + |OrPairTokens(e, 0)|
      && (StopsAt(tokens, pos + |printed|, 6) ==> StopsAt(tokens, pos + |a|, 5))
  {
    var a := AndTokens(e.expression);
    var b := OrPairTokens(e, 0);
    AtSplit(tokens, pos, a, b);
    if |b| > 0 {
      AtIndex(tokens, pos + |a|, b, 0);
      assert b[0] == OrOperatorToken(e.binaryExpressions[0].operator);
    }
  }

  lemma OrPairLayout(e: LogicalOrExpression, k: nat, printed: seq<Token>, tokens: seq<Token>, pos: nat)
    requires k < |e.binaryExpressions| && printed == OrPairTokens(e, k) && At(tokens, pos, printed)
    ensures var a := AndTokens(e.binaryExpressions[k].rightExpression);
      && tokens[pos] == OrOperatorToken(e.binaryExpressions[k].operator)
      && At(tokens, pos + 1, a)
      && At(tokens, pos + 1 + |a|, OrPairTokens(e, k + 1))
      && |printed| == 1 + |a| + |OrPairTokens(e, k + 1)|
      && (StopsAt(tokens, pos + |printed|, 6) ==> StopsAt(tokens, pos + 1 + |a|, 5))
  {
    var op := [OrOperatorToken(e.binaryExpressions[k].operator)];
    var a := AndTokens(e.binaryExpressions[k].rightExpression);
    var rest := OrPairTokens(e, k + 1);
    assert printed == (op + a) + rest;
    AtSplit(tokens, pos, op + a, rest);
    AtSplit(tokens, pos, op, a);
    AtIndex(tokens, pos, op, 0);
    if k + 1 < |e.binaryExpressions| {
      AtIndex(tokens, pos + 1 + |a|, rest, 0);
      assert rest[0] == OrOperatorToken(e.binaryExpressions[k + 1].operator);
    }
  }

  lemma AndLayout(e: LogicalAndExpression, printed: seq<Token>, tokens: seq<Token>, pos: nat)
    requires printed == AndTokens(e) && At(tokens, pos, printed)
    ensures var a := EqualityTokens(e.expression);
      && At(tokens, pos, a)
      && At(tokens, pos + |a|, AndPairTokens(e, 0))
      && |printed| == |a| + |AndPairTokens(e, 0)|
      && (StopsAt(tokens, pos + |printed|, 5) ==> StopsAt(tokens, pos + |a|, 4))
  {
    var a := EqualityTokens(e.expression);
    var b := AndPairTokens(e, 0);
    AtSplit(tokens, pos, a, b);
    if |b| > 0 {
      AtIndex(tokens, pos + |a|, b, 0);
      assert b[0] == AndOperatorToken(e.binaryExpressions[0].operator);
    }
  }

  lemma AndPairLayout(e: LogicalAndExpression, k: nat, printed: seq<Token>, tokens: seq<Token>, pos: nat)
    requires k < |e.binaryExpressions| && printed == AndPairTokens(e, k) && At(tokens, pos, printed)
    ensures var a := EqualityTokens(e.binaryExpressions[k].rightExpression);
      && tokens[pos] == AndOperatorToken(e.binaryExpressions[k].operator)
      && At(tokens, pos + 1, a)
      && At(tokens, pos + 1 + |a|, AndPairTokens(e, k + 1))
      && |printed| == 1 + |a| + |AndPairTokens(e, k + 1)|
      && (StopsAt(tokens, pos + |printed|, 5) ==> StopsAt(tokens, pos + 1 + |a|, 4))
  {
    var op := [AndOperatorToken(e.binaryExpressions[k].operator)];
    var a := EqualityTokens(e.binaryExpressions[k].rightExpression);
    var rest := AndPairTokens(e, k + 1);
    assert printed == (op + a) + rest;
    AtSplit(tokens, pos, op + a, rest);
    AtSplit(tokens, pos, op, a);
    AtIndex(tokens, pos, op, 0);
    if k + 1 < |e.binaryExpressions| {
      AtIndex(tokens, pos + 1 + |a|, rest, 0);
      assert rest[0] == AndOperatorToken(e.binaryExpressions[k + 1].operator);
    }
  }

  lemma EqualityLayout(e: EqualityExpression, printed: seq<Token>, tokens: seq<Token>, pos: nat)
    requires printed == EqualityTokens(e) && At(tokens, pos, printed)
    ensures var a := RelationalTokens(e.expression);
      && At(tokens, pos, a)
      && At(tokens, pos + |a|, EqualityPairTokens(e, 0))
      && |printed| == |a| + |EqualityPairTokens(e, 0)|
      && (StopsAt(tokens, pos + |printed|, 4) ==> StopsAt(tokens, pos + |a|, 3))
  {
    var a := RelationalTokens(e.expression);
    var b := EqualityPairTokens(e, 0);
    AtSplit(tokens, pos, a, b);
    if |b| > 0 {
      AtIndex(tokens, pos + |a|, b, 0);
      assert b[0] == EqualityOperatorToken(e.binaryExpressions[0].operator);
    }
  }

  lemma EqualityPairLayout(e: EqualityExpression, k: nat, printed: seq<Token>, tokens: seq<Token>, pos: nat)
    requires k < |e.binaryExpressions| && printed == EqualityPairTokens(e, k) && At(tokens, pos, printed)
    ensures var a := RelationalTokens(e.binaryExpressions[k].rightExpression);
      && tokens[pos] == EqualityOperatorToken(e.binaryExpressions[k].operator)
      && At(tokens, pos + 1, a)
      && At(tokens, pos + 1 + |a|, EqualityPairTokens(e, k + 1))
      && |printed| == 1 + |a| + |EqualityPairTokens(e, k + 1)|
      && (StopsAt(tokens, pos + |printed|, 4) ==> StopsAt(tokens, pos + 1 + |a|, 3))
  {
    var op := [EqualityOperatorToken(e.binaryExpressions[k].operator)];
    var a := RelationalTokens(e.binaryExpressions[k].rightExpression);
    var rest := EqualityPairTokens(e, k + 1);
    assert printed == (op + a) + rest;
    AtSplit(tokens, pos, op + a, rest);
    AtSplit(tokens, pos, op, a);
    AtIndex(tokens, pos, op, 0);
    if k + 1 < |e.binaryExpressions| {
      AtIndex(tokens, pos + 1 + |a|, rest, 0);
      assert rest[0] == EqualityOperatorToken(e.binaryExpressions[k + 1].operator);
    }
  }

  lemma RelationalLayout(e: RelationalExpression, printed: seq<Token>, tokens: seq<Token>, pos: nat)
    requires printed == RelationalTokens(e) && At(tokens, pos, printed)
    ensures var a := AdditiveTokens(e.expression);
      && At(tokens, pos, a)
      && At(tokens, pos + |a|, RelationalPairTokens(e, 0))
      && |printed| == |a| + |RelationalPairTokens(e, 0)|
      && (StopsAt(tokens, pos + |printed|, 3) ==> StopsAt(tokens, pos + |a|, 2))
  {
    var a := AdditiveTokens(e.expression);
    var b := RelationalPairTokens(e, 0);
    AtSplit(tokens, pos, a, b);
    if |b| > 0 {
      AtIndex(tokens, pos + |a|, b, 0);
      assert b[0] == RelationalOperatorToken(e.binaryExpressions[0].operator);
    }
  }

  lemma RelationalPairLayout(e: RelationalExpression, k: nat, printed: seq<Token>, tokens: seq<Token>, pos: nat)
    requires k < |e.binaryExpressions| && printed == RelationalPairTokens(e, k) && At(tokens, pos, printed)
    ensures var a := AdditiveTokens(e.binaryExpressions[k].rightExpression);
      && tokens[pos] == RelationalOperatorToken(e.binaryExpressions[k].operator)
      && At(tokens, pos + 1, a)
      && At(tokens, pos + 1 + |a|, RelationalPairTokens(e, k + 1))
      && |printed| == 1 + |a| + |RelationalPairTokens(e, k + 1)|
      && (StopsAt(tokens, pos + |printed|, 3) ==> StopsAt(tokens, pos + 1 + |a|, 2))
  {
    var op := [RelationalOperatorToken(e.binaryExpressions[k].operator)];
    var a := AdditiveTokens(e.binaryExpressions[k].rightExpression);
    var rest := RelationalPairTokens(e, k + 1);
    assert printed == (op + a) + rest;
    AtSplit(tokens, pos, op + a, rest);
    AtSplit(tokens, pos, op, a);
    AtIndex(tokens, pos, op, 0);
    if k + 1 < |e.binaryExpressions| {
      AtIndex(tokens, pos + 1 + |a|, rest, 0);
      assert rest[0] == RelationalOperatorToken(e.binaryExpressions[k + 1].operator);
      assert OperatorLevel(rest[0]) == 3;
    } else {
      assert rest == [];
    }
  }

  lemma AdditiveLayout(e: AdditiveExpression, printed: seq<Token>, tokens: seq<Token>, pos: nat)
    requires printed == AdditiveTokens(e) && At(tokens, pos, printed)
    ensures var a := TermTokens(e.term);
      && At(tokens, pos, a)
      && At(tokens, pos + |a|, AdditivePairTokens(e, 0))
      && |printed| == |a| + |AdditivePairTokens(e, 0)|
      && (StopsAt(tokens, pos + |printed|, 2) ==> StopsAt(tokens, pos + |a|, 1))
  {
    var a := TermTokens(e.term);
    var b := AdditivePairTokens(e, 0);
    AtSplit(tokens, pos, a, b);
    if |b| > 0 {
      AtIndex(tokens, pos + |a|, b, 0);
      assert b[0] == AdditiveOperatorToken(e.binaryTerms[0].operator);
    }
  }

  lemma AdditivePairLayout(e: AdditiveExpression, k: nat, printed: seq<Token>, tokens: seq<Token>, pos: nat)
    requires k < |e.binaryTerms| && printed == AdditivePairTokens(e, k) && At(tokens, pos, printed)
    ensures var a := TermTokens(e.binaryTerms[k].rightTerm);
      && tokens[pos] == AdditiveOperatorToken(e.binaryTerms[k].operator)
      && At(tokens, pos + 1, a)
      && At(tokens, pos + 1 + |a|, AdditivePairTokens(e, k + 1))
      && |printed| == 1 + |a| + |AdditivePairTokens(e, k + 1)|
      && (StopsAt(tokens, pos + |printed|, 2) ==> StopsAt(tokens, pos + 1 + |a|, 1))
  {
    var op := [AdditiveOperatorToken(e.binaryTerms[k].operator)];
    var a := TermTokens(e.binaryTerms[k].rightTerm);
    var rest := AdditivePairTokens(e, k + 1);
    assert printed == (op + a) + rest;
    AtSplit(tokens, pos, op + a, rest);
    AtSplit(tokens, pos, op, a);
    AtIndex(tokens, pos, op, 0);
    if k + 1 < |e.binaryTerms| {
      AtIndex(tokens, pos + 1 + |a|, rest, 0);
      assert rest[0] == AdditiveOperatorToken(e.binaryTerms[k + 1].operator);
    }
  }

  lemma TermLayout(e: Term, printed: seq<Token>, tokens: seq<Token>, pos: nat)
    requires printed == TermTokens(e) && At(tokens, pos, printed)
    ensures var a := FactorTokens(e.factor);
      && At(tokens, pos, a)
      && At(tokens, pos + |a|, TermPairTokens(e, 0))
      && |printed| == |a| + |TermPairTokens(e, 0)|
  {
    var a := FactorTokens(e.factor);
    var b := TermPairTokens(e, 0);
    AtSplit(tokens, pos, a, b);
  }

  lemma TermPairLayout(e: Term, k: nat, printed: seq<Token>, tokens: seq<Token>, pos: nat)
    requires k < |e.binaryFactors| && printed == TermPairTokens(e, k) && At(tokens, pos, printed)
    ensures var a := FactorTokens(e.binaryFactors[k].rightFactor);
      && tokens[pos] == FactorOperatorToken(e.binaryFactors[k].operator)
      && At(tokens, pos + 1, a)
      && At(tokens, pos + 1 + |a|, TermPairTokens(e, k + 1))
      && |printed| == 1 + |a| + |TermPairTokens(e, k + 1)|
  {
    var op := [FactorOperatorToken(e.binaryFactors[k].operator)];
    var a := FactorTokens(e.binaryFactors[k].rightFactor);
    var rest := TermPairTokens(e, k + 1);
    assert printed == (op + a) + rest;
    AtSplit(tokens, pos, op + a, rest);
    AtSplit(tokens, pos, op, a);
    AtIndex(tokens, pos, op, 0);
  }

  lemma AtIndex(tokens: seq<Token>, pos: nat, t: seq<Token>, i: nat)
    requires At(tokens, pos, t) && i < |t|
    ensures tokens[pos + i] == t[i]
  {
  }

  lemma AtPrefix(a: seq<Token>, b: seq<Token>)
    ensures At(a + b, 0, a)
  {
    forall i | 0 <= i < |a|
      ensures (a + b)[0 + i] == a[i]
    {
    }
  }

  lemma AtSplit(tokens: seq<Token>, pos: nat, a: seq<Token>, b: seq<Token>)
    requires At(tokens, pos, a + b)
    ensures At(tokens, pos, a) && At(tokens, pos + |a|, b)
  {
    forall i | 0 <= i < |a|
      ensures tokens[pos + i] == a[i]
    {
      assert (a + b)[i] == a[i];
    }
    forall i | 0 <= i < |b|
      ensures tokens[pos + |a| + i] == b[i]
    {
      assert (a + b)[|a| + i] == b[i];
    }
  }

  lemma AtJoin(tokens: seq<Token>, pos: nat, a: seq<Token>, b: seq<Token>)
    requires At(tokens, pos, a) && At(tokens, pos + |a|, b)
    ensures At(tokens, pos, a + b)
  {
    forall i | 0 <= i < |a + b|
      ensures tokens[pos + i] == (a + b)[i]
    {
      if i >= |a| {
        assert tokens[pos + |a| + (i - |a|)] == b[i - |a|];
      }
    }
  }

  /** One token, then `a`, then `b`. */
  lemma AtCons(tokens: seq<Token>, pos: nat, t: Token, a: seq<Token>, b: seq<Token>)
    requires pos < |tokens| && tokens[pos] == t
    requires At(tokens, pos + 1, a) && At(tokens, pos + 1 + |a|, b)
    ensures At(tokens, pos, [t] + a + b)
  {
    assert At(tokens, pos, [t]);
    AtJoin(tokens, pos, [t], a);
    AtJoin(tokens, pos, [t] + a, b);
  }
}

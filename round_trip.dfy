/** The expression parser and the printer of module Unparse are inverse to each other:
    parsing the tokens of a tree the parser can build gives back that tree and stops right
    after its tokens (`...RoundTrip`), and whatever the parser returns prints back to
    exactly the tokens it consumed and is a tree the parser can build (`...Sound`). Such a
    tree reads no identifier and assigns only declared variables
    (`ExpressionIn(e, {}, vars.Keys)`); the tokens after it must not continue it
    (`StopsAt`). */
module RoundTrip {
  import opened Wrappers
  import opened Tokens
  import opened Ast
  import opened Parser
  import opened Unparse

  // ---------------------------------------------------------------- first tokens

  /** The tokens a factor the parser can build may start with. */
  predicate StartsFactor(t: Token) {
    t.OpenParen? || t.IntegerLiteral? || t.MinusSign? || t.BitwiseComplement? || t.LogicalNegation?
  }

  /** A tree the parser can build starts with `(`, a unary operator or a literal, never with
      an identifier, so the parser does not take it for an assignment. */
  lemma FactorStart(f: Factor, writable: set<string>)
    requires FactorIn(f, {}, writable)
    ensures |FactorTokens(f)| > 0 && StartsFactor(FactorTokens(f)[0])
  {
    match f
    case Constant(_) =>
    case UnaryOperation(operation) =>
    case Parenthesized(e) =>
  }

  lemma TermStart(e: Term, writable: set<string>)
    requires TermIn(e, {}, writable)
    ensures |TermTokens(e)| > 0 && StartsFactor(TermTokens(e)[0])
  {
    FactorStart(e.factor, writable);
    assert TermTokens(e)[0] == FactorTokens(e.factor)[0];
  }

  lemma AdditiveStart(e: AdditiveExpression, writable: set<string>)
    requires AdditiveIn(e, {}, writable)
    ensures |AdditiveTokens(e)| > 0 && StartsFactor(AdditiveTokens(e)[0])
  {
    TermStart(e.term, writable);
    assert AdditiveTokens(e)[0] == TermTokens(e.term)[0];
  }

  lemma RelationalStart(e: RelationalExpression, writable: set<string>)
    requires RelationalIn(e, {}, writable)
    ensures |RelationalTokens(e)| > 0 && StartsFactor(RelationalTokens(e)[0])
  {
    AdditiveStart(e.expression, writable);
    assert RelationalTokens(e)[0] == AdditiveTokens(e.expression)[0];
  }

  lemma EqualityStart(e: EqualityExpression, writable: set<string>)
    requires EqualityIn(e, {}, writable)
    ensures |EqualityTokens(e)| > 0 && StartsFactor(EqualityTokens(e)[0])
  {
    RelationalStart(e.expression, writable);
    assert EqualityTokens(e)[0] == RelationalTokens(e.expression)[0];
  }

  lemma AndStart(e: LogicalAndExpression, writable: set<string>)
    requires AndIn(e, {}, writable)
    ensures |AndTokens(e)| > 0 && StartsFactor(AndTokens(e)[0])
  {
    EqualityStart(e.expression, writable);
    assert AndTokens(e)[0] == EqualityTokens(e.expression)[0];
  }

  lemma OrStart(e: LogicalOrExpression, writable: set<string>)
    requires OrIn(e, {}, writable)
    ensures |OrTokens(e)| > 0 && StartsFactor(OrTokens(e)[0])
  {
    AndStart(e.expression, writable);
    assert OrTokens(e)[0] == AndTokens(e.expression)[0];
  }

  /** An expression starts with an identifier (an assignment) or like a factor. */
  lemma ExpressionStart(e: Expression, writable: set<string>)
    requires ExpressionIn(e, {}, writable)
    ensures |ExpressionTokens(e)| > 0
    ensures ExpressionTokens(e)[0].Identifier? || StartsFactor(ExpressionTokens(e)[0])
  {
    match e
    case Assignment(name, rhs) =>
    case LogicalOr(or) =>
      OrStart(or, writable);
  }

  // ---------------------------------------------------------------- print, then parse

  lemma OrRoundTrip(e: LogicalOrExpression, printed: seq<Token>, tokens: seq<Token>, pos: nat, vars: Vars)
    requires OrIn(e, {}, vars.Keys)
    requires printed == OrTokens(e) && At(tokens, pos, printed)
    requires StopsAt(tokens, pos + |printed|, 6)
    ensures ParseLogicalOr(tokens, pos, vars) == Ok((e, pos + |printed|))
    decreases e, |e.binaryExpressions| + 1
  {
    var first := AndTokens(e.expression);
    var pairs := OrPairTokens(e, 0);
    OrLayout(e, printed, tokens, pos);
    AndRoundTrip(e.expression, first, tokens, pos, vars);
    OrPairsRoundTrip(e, 0, pairs, tokens, pos + |first|, vars);
    assert e.binaryExpressions[0..] == e.binaryExpressions;
    ParseLogicalOrCons(tokens, pos, vars, e, pos + |first|, pos + |printed|);
  }

  lemma OrPairsRoundTrip(e: LogicalOrExpression, k: nat, printed: seq<Token>, tokens: seq<Token>, pos: nat, vars: Vars)
    requires k <= |e.binaryExpressions|
    requires OrIn(e, {}, vars.Keys)
    requires printed == OrPairTokens(e, k) && At(tokens, pos, printed)
    requires StopsAt(tokens, pos + |printed|, 6)
    ensures LogicalOrTail(tokens, pos, vars) == Ok((e.binaryExpressions[k..], pos + |printed|))
    decreases e, |e.binaryExpressions| - k, 1
  {
    if k < |e.binaryExpressions| {
      OrPairRoundTrip(e, k, printed, tokens, pos, vars);
    } else {
      assert printed == [] && e.binaryExpressions[k..] == [];
      assert pos == |tokens| || ExpressionOperatorForToken(tokens[pos]).None?;
    }
  }

  /** The step of `OrPairsRoundTrip`: the `||` pair at `k`, then the rest. */
  lemma OrPairRoundTrip(e: LogicalOrExpression, k: nat, printed: seq<Token>, tokens: seq<Token>, pos: nat, vars: Vars)
    requires k < |e.binaryExpressions|
    requires OrIn(e, {}, vars.Keys)
    requires printed == OrPairTokens(e, k) && At(tokens, pos, printed)
    requires StopsAt(tokens, pos + |printed|, 6)
    ensures LogicalOrTail(tokens, pos, vars) == Ok((e.binaryExpressions[k..], pos + |printed|))
    decreases e, |e.binaryExpressions| - k, 0
  {
    var pair := e.binaryExpressions[k];
    var pairs := e.binaryExpressions[k..];
    var right := AndTokens(pair.rightExpression);
    var more := OrPairTokens(e, k + 1);
    var q := pos + 1 + |right|;
    var end := pos + |printed|;
    OrPairLayout(e, k, printed, tokens, pos);
    assert AndIn(pair.rightExpression, {}, vars.Keys);
    AndRoundTrip(pair.rightExpression, right, tokens, pos + 1, vars);
    OrPairsRoundTrip(e, k + 1, more, tokens, q, vars);
    assert pairs[0] == pair && pairs[1..] == e.binaryExpressions[k + 1..];
    assert ExpressionOperatorForToken(tokens[pos]) == Some(pair.operator) && q + |more| == end;
    LogicalOrTailCons(tokens, pos, vars, pairs, q, end);
  }

  lemma AndRoundTrip(e: LogicalAndExpression, printed: seq<Token>, tokens: seq<Token>, pos: nat, vars: Vars)
    requires AndIn(e, {}, vars.Keys)
    requires printed == AndTokens(e) && At(tokens, pos, printed)
    requires StopsAt(tokens, pos + |printed|, 5)
    ensures ParseLogicalAnd(tokens, pos, vars) == Ok((e, pos + |printed|))
    decreases e, |e.binaryExpressions| + 1
  {
    var first := EqualityTokens(e.expression);
    var pairs := AndPairTokens(e, 0);
    AndLayout(e, printed, tokens, pos);
    EqualityRoundTrip(e.expression, first, tokens, pos, vars);
    AndPairsRoundTrip(e, 0, pairs, tokens, pos + |first|, vars);
    assert e.binaryExpressions[0..] == e.binaryExpressions;
    ParseLogicalAndCons(tokens, pos, vars, e, pos + |first|, pos + |printed|);
  }

  lemma AndPairsRoundTrip(e: LogicalAndExpression, k: nat, printed: seq<Token>, tokens: seq<Token>, pos: nat, vars: Vars)
    requires k <= |e.binaryExpressions|
    requires AndIn(e, {}, vars.Keys)
    requires printed == AndPairTokens(e, k) && At(tokens, pos, printed)
    requires StopsAt(tokens, pos + |printed|, 5)
    ensures LogicalAndTail(tokens, pos, vars) == Ok((e.binaryExpressions[k..], pos + |printed|))
    decreases e, |e.binaryExpressions| - k, 1
  {
    if k < |e.binaryExpressions| {
      AndPairRoundTrip(e, k, printed, tokens, pos, vars);
    } else {
      assert printed == [] && e.binaryExpressions[k..] == [];
      assert pos == |tokens| || LogicalAndOperatorForToken(tokens[pos]).None?;
    }
  }

  /** The step of `AndPairsRoundTrip`: the `&&` pair at `k`, then the rest. */
  lemma AndPairRoundTrip(e: LogicalAndExpression, k: nat, printed: seq<Token>, tokens: seq<Token>, pos: nat, vars: Vars)
    requires k < |e.binaryExpressions|
    requires AndIn(e, {}, vars.Keys)
    requires printed == AndPairTokens(e, k) && At(tokens, pos, printed)
    requires StopsAt(tokens, pos + |printed|, 5)
    ensures LogicalAndTail(tokens, pos, vars) == Ok((e.binaryExpressions[k..], pos + |printed|))
    decreases e, |e.binaryExpressions| - k, 0
  {
    var pair := e.binaryExpressions[k];
    var pairs := e.binaryExpressions[k..];
    var right := EqualityTokens(pair.rightExpression);
    var more := AndPairTokens(e, k + 1);
    var q := pos + 1 + |right|;
    var end := pos + |printed|;
    AndPairLayout(e, k, printed, tokens, pos);
    assert EqualityIn(pair.rightExpression, {}, vars.Keys);
    EqualityRoundTrip(pair.rightExpression, right, tokens, pos + 1, vars);
    AndPairsRoundTrip(e, k + 1, more, tokens, q, vars);
    assert pairs[0] == pair && pairs[1..] == e.binaryExpressions[k + 1..];
    assert LogicalAndOperatorForToken(tokens[pos]) == Some(pair.operator) && q + |more| == end;
    LogicalAndTailCons(tokens, pos, vars, pairs, q, end);
  }

  lemma EqualityRoundTrip(e: EqualityExpression, printed: seq<Token>, tokens: seq<Token>, pos: nat, vars: Vars)
    requires EqualityIn(e, {}, vars.Keys)
    requires printed == EqualityTokens(e) && At(tokens, pos, printed)
    requires StopsAt(tokens, pos + |printed|, 4)
    ensures ParseEquality(tokens, pos, vars) == Ok((e, pos + |printed|))
    decreases e, |e.binaryExpressions| + 1
  {
    var first := RelationalTokens(e.expression);
    var pairs := EqualityPairTokens(e, 0);
    EqualityLayout(e, printed, tokens, pos);
    RelationalRoundTrip(e.expression, first, tokens, pos, vars);
    EqualityPairsRoundTrip(e, 0, pairs, tokens, pos + |first|, vars);
    assert e.binaryExpressions[0..] == e.binaryExpressions;
    ParseEqualityCons(tokens, pos, vars, e, pos + |first|, pos + |printed|);
  }

  lemma EqualityPairsRoundTrip(e: EqualityExpression, k: nat, printed: seq<Token>, tokens: seq<Token>, pos: nat, vars: Vars)
    requires k <= |e.binaryExpressions|
    requires EqualityIn(e, {}, vars.Keys)
    requires printed == EqualityPairTokens(e, k) && At(tokens, pos, printed)
    requires StopsAt(tokens, pos + |printed|, 4)
    ensures EqualityTail(tokens, pos, vars) == Ok((e.binaryExpressions[k..], pos + |printed|))
    decreases e, |e.binaryExpressions| - k, 1
  {
    if k < |e.binaryExpressions| {
      EqualityPairRoundTrip(e, k, printed, tokens, pos, vars);
    } else {
      assert printed == [] && e.binaryExpressions[k..] == [];
      assert pos == |tokens| || EqualityOperatorForToken(tokens[pos]).None?;
    }
  }

  /** The step of `EqualityPairsRoundTrip`: the equality pair at `k`, then the rest. */
  lemma EqualityPairRoundTrip(e: EqualityExpression, k: nat, printed: seq<Token>, tokens: seq<Token>, pos: nat, vars: Vars)
    requires k < |e.binaryExpressions|
    requires EqualityIn(e, {}, vars.Keys)
    requires printed == EqualityPairTokens(e, k) && At(tokens, pos, printed)
    requires StopsAt(tokens, pos + |printed|, 4)
    ensures EqualityTail(tokens, pos, vars) == Ok((e.binaryExpressions[k..], pos + |printed|))
    decreases e, |e.binaryExpressions| - k, 0
  {
    var pair := e.binaryExpressions[k];
    var pairs := e.binaryExpressions[k..];
    var right := RelationalTokens(pair.rightExpression);
    var more := EqualityPairTokens(e, k + 1);
    var q := pos + 1 + |right|;
    var end := pos + |printed|;
    EqualityPairLayout(e, k, printed, tokens, pos);
    assert RelationalIn(pair.rightExpression, {}, vars.Keys);
    RelationalRoundTrip(pair.rightExpression, right, tokens, pos + 1, vars);
    EqualityPairsRoundTrip(e, k + 1, more, tokens, q, vars);
    assert pairs[0] == pair && pairs[1..] == e.binaryExpressions[k + 1..];
    assert EqualityOperatorForToken(tokens[pos]) == Some(pair.operator) && q + |more| == end;
    EqualityTailCons(tokens, pos, vars, pairs, q, end);
  }

  lemma RelationalRoundTrip(e: RelationalExpression, printed: seq<Token>, tokens: seq<Token>, pos: nat, vars: Vars)
    requires RelationalIn(e, {}, vars.Keys)
    requires printed == RelationalTokens(e) && At(tokens, pos, printed)
    requires StopsAt(tokens, pos + |printed|, 3)
    ensures ParseRelational(tokens, pos, vars) == Ok((e, pos + |printed|))
    decreases e, |e.binaryExpressions| + 1
  {
    var first := AdditiveTokens(e.expression);
    var pairs := RelationalPairTokens(e, 0);
    RelationalLayout(e, printed, tokens, pos);
    AdditiveRoundTrip(e.expression, first, tokens, pos, vars);
    RelationalPairsRoundTrip(e, 0, pairs, tokens, pos + |first|, vars);
    assert e.binaryExpressions[0..] == e.binaryExpressions;
    ParseRelationalCons(tokens, pos, vars, e, pos + |first|, pos + |printed|);
  }

  lemma RelationalPairsRoundTrip(e: RelationalExpression, k: nat, printed: seq<Token>, tokens: seq<Token>, pos: nat, vars: Vars)
    requires k <= |e.binaryExpressions|
    requires RelationalIn(e, {}, vars.Keys)
    requires printed == RelationalPairTokens(e, k) && At(tokens, pos, printed)
    requires StopsAt(tokens, pos + |printed|, 3)
    ensures RelationalTail(tokens, pos, vars) == Ok((e.binaryExpressions[k..], pos + |printed|))
    decreases e, |e.binaryExpressions| - k, 1
  {
    if k < |e.binaryExpressions| {
      RelationalPairRoundTrip(e, k, printed, tokens, pos, vars);
    } else {
      assert printed == [] && e.binaryExpressions[k..] == [];
      assert pos == |tokens| || RelationalOperatorForToken(tokens[pos]).None?;
    }
  }

  /** The step of `RelationalPairsRoundTrip`: the relational pair at `k`, then the rest. */
  lemma RelationalPairRoundTrip(e: RelationalExpression, k: nat, printed: seq<Token>, tokens: seq<Token>, pos: nat, vars: Vars)
    requires k < |e.binaryExpressions|
    requires RelationalIn(e, {}, vars.Keys)
    requires printed == RelationalPairTokens(e, k) && At(tokens, pos, printed)
    requires StopsAt(tokens, pos + |printed|, 3)
    ensures RelationalTail(tokens, pos, vars) == Ok((e.binaryExpressions[k..], pos + |printed|))
    decreases e, |e.binaryExpressions| - k, 0
  {
    var pair := e.binaryExpressions[k];
    var pairs := e.binaryExpressions[k..];
    var right := AdditiveTokens(pair.rightExpression);
    var more := RelationalPairTokens(e, k + 1);
    var q := pos + 1 + |right|;
    var end := pos + |printed|;
    RelationalPairLayout(e, k, printed, tokens, pos);
    assert AdditiveIn(pair.rightExpression, {}, vars.Keys);
    AdditiveRoundTrip(pair.rightExpression, right, tokens, pos + 1, vars);
    RelationalPairsRoundTrip(e, k + 1, more, tokens, q, vars);
    assert pairs[0] == pair && pairs[1..] == e.binaryExpressions[k + 1..];
    assert RelationalOperatorForToken(tokens[pos]) == Some(pair.operator) && q + |more| == end;
    RelationalTailCons(tokens, pos, vars, pairs, q, end);
  }

  lemma AdditiveRoundTrip(e: AdditiveExpression, printed: seq<Token>, tokens: seq<Token>, pos: nat, vars: Vars)
    requires AdditiveIn(e, {}, vars.Keys)
    requires printed == AdditiveTokens(e) && At(tokens, pos, printed)
    requires StopsAt(tokens, pos + |printed|, 2)
    ensures ParseAdditive(tokens, pos, vars) == Ok((e, pos + |printed|))
    decreases e, |e.binaryTerms| + 1
  {
    var first := TermTokens(e.term);
    var pairs := AdditivePairTokens(e, 0);
    AdditiveLayout(e, printed, tokens, pos);
    TermRoundTrip(e.term, first, tokens, pos, vars);
    AdditivePairsRoundTrip(e, 0, pairs, tokens, pos + |first|, vars);
    assert e.binaryTerms[0..] == e.binaryTerms;
    ParseAdditiveCons(tokens, pos, vars, e, pos + |first|, pos + |printed|);
  }

  lemma AdditivePairsRoundTrip(e: AdditiveExpression, k: nat, printed: seq<Token>, tokens: seq<Token>, pos: nat, vars: Vars)
    requires k <= |e.binaryTerms|
    requires AdditiveIn(e, {}, vars.Keys)
    requires printed == AdditivePairTokens(e, k) && At(tokens, pos, printed)
    requires StopsAt(tokens, pos + |printed|, 2)
    ensures AdditiveTail(tokens, pos, vars) == Ok((e.binaryTerms[k..], pos + |printed|))
    decreases e, |e.binaryTerms| - k, 1
  {
    if k < |e.binaryTerms| {
      AdditivePairRoundTrip(e, k, printed, tokens, pos, vars);
    } else {
      assert printed == [] && e.binaryTerms[k..] == [];
      assert pos == |tokens| || AdditiveOperatorForToken(tokens[pos]).None?;
    }
  }

  /** The step of `AdditivePairsRoundTrip`: the additive pair at `k`, then the rest. */
  lemma AdditivePairRoundTrip(e: AdditiveExpression, k: nat, printed: seq<Token>, tokens: seq<Token>, pos: nat, vars: Vars)
    requires k < |e.binaryTerms|
    requires AdditiveIn(e, {}, vars.Keys)
    requires printed == AdditivePairTokens(e, k) && At(tokens, pos, printed)
    requires StopsAt(tokens, pos + |printed|, 2)
    ensures AdditiveTail(tokens, pos, vars) == Ok((e.binaryTerms[k..], pos + |printed|))
    decreases e, |e.binaryTerms| - k, 0
  {
    var pair := e.binaryTerms[k];
    var pairs := e.binaryTerms[k..];
    var right := TermTokens(pair.rightTerm);
    var more := AdditivePairTokens(e, k + 1);
    var q := pos + 1 + |right|;
    var end := pos + |printed|;
    AdditivePairLayout(e, k, printed, tokens, pos);
    assert TermIn(pair.rightTerm, {}, vars.Keys);
    TermRoundTrip(pair.rightTerm, right, tokens, pos + 1, vars);
    AdditivePairsRoundTrip(e, k + 1, more, tokens, q, vars);
    assert pairs[0] == pair && pairs[1..] == e.binaryTerms[k + 1..];
    assert AdditiveOperatorForToken(tokens[pos]) == Some(pair.operator) && q + |more| == end;
    AdditiveTailCons(tokens, pos, vars, pairs, q, end);
  }

  lemma TermRoundTrip(e: Term, printed: seq<Token>, tokens: seq<Token>, pos: nat, vars: Vars)
    requires TermIn(e, {}, vars.Keys)
    requires printed == TermTokens(e) && At(tokens, pos, printed)
    requires StopsAt(tokens, pos + |printed|, 1)
    ensures ParseTerm(tokens, pos, vars) == Ok((e, pos + |printed|))
    decreases e, |e.binaryFactors| + 1
  {
    var first := FactorTokens(e.factor);
    var pairs := TermPairTokens(e, 0);
    TermLayout(e, printed, tokens, pos);
    FactorRoundTrip(e.factor, first, tokens, pos, vars);
    TermPairsRoundTrip(e, 0, pairs, tokens, pos + |first|, vars);
    assert e.binaryFactors[0..] == e.binaryFactors;
    ParseTermCons(tokens, pos, vars, e, pos + |first|, pos + |printed|);
  }

  lemma TermPairsRoundTrip(e: Term, k: nat, printed: seq<Token>, tokens: seq<Token>, pos: nat, vars: Vars)
    requires k <= |e.binaryFactors|
    requires TermIn(e, {}, vars.Keys)
    requires printed == TermPairTokens(e, k) && At(tokens, pos, printed)
    requires StopsAt(tokens, pos + |printed|, 1)
    ensures TermTail(tokens, pos, vars) == Ok((e.binaryFactors[k..], pos + |printed|))
    decreases e, |e.binaryFactors| - k, 1
  {
    if k < |e.binaryFactors| {
      TermPairRoundTrip(e, k, printed, tokens, pos, vars);
    } else {
      assert printed == [] && e.binaryFactors[k..] == [];
      assert pos == |tokens| || BinaryFactorOperatorForToken(tokens[pos]).None?;
    }
  }

  /** The step of `TermPairsRoundTrip`: the multiplicative pair at `k`, then the rest. */
  lemma TermPairRoundTrip(e: Term, k: nat, printed: seq<Token>, tokens: seq<Token>, pos: nat, vars: Vars)
    requires k < |e.binaryFactors|
    requires TermIn(e, {}, vars.Keys)
    requires printed == TermPairTokens(e, k) && At(tokens, pos, printed)
    requires StopsAt(tokens, pos + |printed|, 1)
    ensures TermTail(tokens, pos, vars) == Ok((e.binaryFactors[k..], pos + |printed|))
    decreases e, |e.binaryFactors| - k, 0
  {
    var pair := e.binaryFactors[k];
    var pairs := e.binaryFactors[k..];
    var right := FactorTokens(pair.rightFactor);
    var more := TermPairTokens(e, k + 1);
    var q := pos + 1 + |right|;
    var end := pos + |printed|;
    TermPairLayout(e, k, printed, tokens, pos);
    assert FactorIn(pair.rightFactor, {}, vars.Keys);
    FactorRoundTrip(pair.rightFactor, right, tokens, pos + 1, vars);
    TermPairsRoundTrip(e, k + 1, more, tokens, q, vars);
    assert pairs[0] == pair && pairs[1..] == e.binaryFactors[k + 1..];
    assert BinaryFactorOperatorForToken(tokens[pos]) == Some(pair.operator) && q + |more| == end;
    TermTailCons(tokens, pos, vars, pairs, q, end);
  }

  lemma FactorRoundTrip(f: Factor, printed: seq<Token>, tokens: seq<Token>, pos: nat, vars: Vars)
    requires FactorIn(f, {}, vars.Keys)
    requires printed == FactorTokens(f) && At(tokens, pos, printed)
    ensures ParseFactor(tokens, pos, vars) == Ok((f, pos + |printed|))
    decreases f, 0
  {
    match f
    case Constant(value) =>
      AtIndex(tokens, pos, printed, 0);
    case UnaryOperation(operation) =>
      var op := [UnaryOperatorToken(operation.operator)];
      var a := FactorTokens(operation.factor);
      assert printed == op + a;
      AtSplit(tokens, pos, op, a);
      AtIndex(tokens, pos, op, 0);
      FactorRoundTrip(operation.factor, a, tokens, pos + 1, vars);
      ParseUnaryCons(tokens, pos, vars, operation, pos + |printed|);
    case Parenthesized(e) =>
      var a := ExpressionTokens(e);
      assert printed == [OpenParen] + a + [CloseParen];
      AtSplit(tokens, pos, [OpenParen] + a, [CloseParen]);
      AtSplit(tokens, pos, [OpenParen], a);
      AtIndex(tokens, pos, [OpenParen], 0);
      AtIndex(tokens, pos + 1 + |a|, [CloseParen], 0);
      ExpressionRoundTrip(e, a, tokens, pos + 1, vars);
      ParseParensCons(tokens, pos, vars, e, pos + 1 + |a|);
  }

  lemma ExpressionRoundTrip(e: Expression, printed: seq<Token>, tokens: seq<Token>, pos: nat, vars: Vars)
    requires ExpressionIn(e, {}, vars.Keys)
    requires printed == ExpressionTokens(e) && At(tokens, pos, printed)
    requires StopsAt(tokens, pos + |printed|, 6)
    ensures ParseExpression(tokens, pos, vars) == Ok((e, pos + |printed|))
    decreases e, 0
  {
    match e
    case Assignment(name, rhs) =>
      var head := [Token.Identifier(name), Token.Assignment];
      var a := ExpressionTokens(rhs);
      assert printed == head + a;
      AtSplit(tokens, pos, head, a);
      AtIndex(tokens, pos, head, 0);
      AtIndex(tokens, pos, head, 1);
      ExpressionRoundTrip(rhs, a, tokens, pos + 2, vars);
    case LogicalOr(or) =>
      OrStart(or, vars.Keys);
      AtIndex(tokens, pos, printed, 0);
      OrRoundTrip(or, printed, tokens, pos, vars);
  }

  /** Parsing the tokens `printed` of an expression, followed by anything that does not
      continue it, gives back the expression and leaves exactly what followed. */
  lemma ParseAfterPrint(e: Expression, printed: seq<Token>, rest: seq<Token>, vars: Vars)
    requires ExpressionIn(e, {}, vars.Keys) && printed == ExpressionTokens(e)
    requires |rest| == 0 || OperatorLevel(rest[0]) == 0
    ensures ParseExpression(printed + rest, 0, vars) == Ok((e, |printed|))
  {
    var tokens := printed + rest;
    PrintedFirst(printed, rest);
    ExpressionRoundTrip(e, printed, tokens, 0, vars);
  }

  /** A printed sequence lies at the start of itself followed by `rest`, and `rest` stops an
      expression when its first token is no operator. */
  lemma PrintedFirst(printed: seq<Token>, rest: seq<Token>)
    requires |rest| == 0 || OperatorLevel(rest[0]) == 0
    ensures At(printed + rest, 0, printed) && StopsAt(printed + rest, 0 + |printed|, 6)
  {
    AtPrefix(printed, rest);
    if |rest| > 0 {
      assert (printed + rest)[|printed|] == rest[0];
    }
  }

  // ---------------------------------------------------------------- parse, then print

  lemma OrSound(e: LogicalOrExpression, tokens: seq<Token>, pos: nat, p: nat, vars: Vars)
    requires pos <= |tokens| && ParseLogicalOr(tokens, pos, vars) == Ok((e, p))
    ensures At(tokens, pos, OrTokens(e)) && p == pos + |OrTokens(e)|
    ensures OrIn(e, {}, vars.Keys)
    decreases e, |e.binaryExpressions| + 1
  {
    var q := ParseLogicalAnd(tokens, pos, vars).value.1;
    assert e.binaryExpressions[0..] == e.binaryExpressions;
    AndSound(e.expression, tokens, pos, q, vars);
    OrPairsSound(e, 0, tokens, q, p, vars);
    AtJoin(tokens, pos, AndTokens(e.expression), OrPairTokens(e, 0));
  }

  lemma OrPairsSound(e: LogicalOrExpression, k: nat, tokens: seq<Token>, pos: nat, p: nat, vars: Vars)
    requires k <= |e.binaryExpressions| && pos <= |tokens|
    requires LogicalOrTail(tokens, pos, vars) == Ok((e.binaryExpressions[k..], p))
    ensures At(tokens, pos, OrPairTokens(e, k)) && p == pos + |OrPairTokens(e, k)|
    ensures forall i :: k <= i < |e.binaryExpressions| ==> AndIn(e.binaryExpressions[i].rightExpression, {}, vars.Keys)
    decreases e, |e.binaryExpressions| - k, 1
  {
    if k < |e.binaryExpressions| {
      OrPairSound(e, k, tokens, pos, p, vars);
    } else {
      assert OrPairTokens(e, k) == [];
    }
  }

  /** The step of `OrPairsSound`: the `||` pair at `k`, then the rest. */
  lemma OrPairSound(e: LogicalOrExpression, k: nat, tokens: seq<Token>, pos: nat, p: nat, vars: Vars)
    requires k < |e.binaryExpressions| && pos <= |tokens|
    requires LogicalOrTail(tokens, pos, vars) == Ok((e.binaryExpressions[k..], p))
    ensures At(tokens, pos, OrPairTokens(e, k)) && p == pos + |OrPairTokens(e, k)|
    ensures forall i :: k <= i < |e.binaryExpressions| ==> AndIn(e.binaryExpressions[i].rightExpression, {}, vars.Keys)
    decreases e, |e.binaryExpressions| - k, 0
  {
    var pair := e.binaryExpressions[k];
    var pairs := e.binaryExpressions[k..];
    LogicalOrTailUncons(tokens, pos, vars, pairs, p);
    var q := ParseLogicalAnd(tokens, pos + 1, vars).value.1;
    assert pairs[0] == pair && pairs[1..] == e.binaryExpressions[k + 1..];
    assert tokens[pos] == OrOperatorToken(pair.operator);
    AndSound(pair.rightExpression, tokens, pos + 1, q, vars);
    OrPairsSound(e, k + 1, tokens, q, p, vars);
    AtCons(tokens, pos, OrOperatorToken(pair.operator), AndTokens(pair.rightExpression), OrPairTokens(e, k + 1));
  }

  lemma AndSound(e: LogicalAndExpression, tokens: seq<Token>, pos: nat, p: nat, vars: Vars)
    requires pos <= |tokens| && ParseLogicalAnd(tokens, pos, vars) == Ok((e, p))
    ensures At(tokens, pos, AndTokens(e)) && p == pos + |AndTokens(e)|
    ensures AndIn(e, {}, vars.Keys)
    decreases e, |e.binaryExpressions| + 1
  {
    var q := ParseEquality(tokens, pos, vars).value.1;
    assert e.binaryExpressions[0..] == e.binaryExpressions;
    EqualitySound(e.expression, tokens, pos, q, vars);
    AndPairsSound(e, 0, tokens, q, p, vars);
    AtJoin(tokens, pos, EqualityTokens(e.expression), AndPairTokens(e, 0));
  }

  lemma AndPairsSound(e: LogicalAndExpression, k: nat, tokens: seq<Token>, pos: nat, p: nat, vars: Vars)
    requires k <= |e.binaryExpressions| && pos <= |tokens|
    requires LogicalAndTail(tokens, pos, vars) == Ok((e.binaryExpressions[k..], p))
    ensures At(tokens, pos, AndPairTokens(e, k)) && p == pos + |AndPairTokens(e, k)|
    ensures forall i :: k <= i < |e.binaryExpressions| ==> EqualityIn(e.binaryExpressions[i].rightExpression, {}, vars.Keys)
    decreases e, |e.binaryExpressions| - k, 1
  {
    if k < |e.binaryExpressions| {
      AndPairSound(e, k, tokens, pos, p, vars);
    } else {
      assert AndPairTokens(e, k) == [];
    }
  }

  /** The step of `AndPairsSound`: the `&&` pair at `k`, then the rest. */
  lemma AndPairSound(e: LogicalAndExpression, k: nat, tokens: seq<Token>, pos: nat, p: nat, vars: Vars)
    requires k < |e.binaryExpressions| && pos <= |tokens|
    requires LogicalAndTail(tokens, pos, vars) == Ok((e.binaryExpressions[k..], p))
    ensures At(tokens, pos, AndPairTokens(e, k)) && p == pos + |AndPairTokens(e, k)|
    ensures forall i :: k <= i < |e.binaryExpressions| ==> EqualityIn(e.binaryExpressions[i].rightExpression, {}, vars.Keys)
    decreases e, |e.binaryExpressions| - k, 0
  {
    var pair := e.binaryExpressions[k];
    var pairs := e.binaryExpressions[k..];
    LogicalAndTailUncons(tokens, pos, vars, pairs, p);
    var q := ParseEquality(tokens, pos + 1, vars).value.1;
    assert pairs[0] == pair && pairs[1..] == e.binaryExpressions[k + 1..];
    assert tokens[pos] == AndOperatorToken(pair.operator);
    EqualitySound(pair.rightExpression, tokens, pos + 1, q, vars);
    AndPairsSound(e, k + 1, tokens, q, p, vars);
    AtCons(tokens, pos, AndOperatorToken(pair.operator), EqualityTokens(pair.rightExpression), AndPairTokens(e, k + 1));
  }

  lemma EqualitySound(e: EqualityExpression, tokens: seq<Token>, pos: nat, p: nat, vars: Vars)
    requires pos <= |tokens| && ParseEquality(tokens, pos, vars) == Ok((e, p))
    ensures At(tokens, pos, EqualityTokens(e)) && p == pos + |EqualityTokens(e)|
    ensures EqualityIn(e, {}, vars.Keys)
    decreases e, |e.binaryExpressions| + 1
  {
    var q := ParseRelational(tokens, pos, vars).value.1;
    assert e.binaryExpressions[0..] == e.binaryExpressions;
    RelationalSound(e.expression, tokens, pos, q, vars);
    EqualityPairsSound(e, 0, tokens, q, p, vars);
    AtJoin(tokens, pos, RelationalTokens(e.expression), EqualityPairTokens(e, 0));
  }

  lemma EqualityPairsSound(e: EqualityExpression, k: nat, tokens: seq<Token>, pos: nat, p: nat, vars: Vars)
    requires k <= |e.binaryExpressions| && pos <= |tokens|
    requires EqualityTail(tokens, pos, vars) == Ok((e.binaryExpressions[k..], p))
    ensures At(tokens, pos, EqualityPairTokens(e, k)) && p == pos + |EqualityPairTokens(e, k)|
    ensures forall i :: k <= i < |e.binaryExpressions| ==> RelationalIn(e.binaryExpressions[i].rightExpression, {}, vars.Keys)
    decreases e, |e.binaryExpressions| - k, 1
  {
    if k < |e.binaryExpressions| {
      EqualityPairSound(e, k, tokens, pos, p, vars);
    } else {
      assert EqualityPairTokens(e, k) == [];
    }
  }

  /** The step of `EqualityPairsSound`: the equality pair at `k`, then the rest. */
  lemma EqualityPairSound(e: EqualityExpression, k: nat, tokens: seq<Token>, pos: nat, p: nat, vars: Vars)
    requires k < |e.binaryExpressions| && pos <= |tokens|
    requires EqualityTail(tokens, pos, vars) == Ok((e.binaryExpressions[k..], p))
    ensures At(tokens, pos, EqualityPairTokens(e, k)) && p == pos + |EqualityPairTokens(e, k)|
    ensures forall i :: k <= i < |e.binaryExpressions| ==> RelationalIn(e.binaryExpressions[i].rightExpression, {}, vars.Keys)
    decreases e, |e.binaryExpressions| - k, 0
  {
    var pair := e.binaryExpressions[k];
    var pairs := e.binaryExpressions[k..];
    EqualityTailUncons(tokens, pos, vars, pairs, p);
    var q := ParseRelational(tokens, pos + 1, vars).value.1;
    assert pairs[0] == pair && pairs[1..] == e.binaryExpressions[k + 1..];
    assert tokens[pos] == EqualityOperatorToken(pair.operator);
    RelationalSound(pair.rightExpression, tokens, pos + 1, q, vars);
    EqualityPairsSound(e, k + 1, tokens, q, p, vars);
    AtCons(tokens, pos, EqualityOperatorToken(pair.operator), RelationalTokens(pair.rightExpression), EqualityPairTokens(e, k + 1));
  }

  lemma RelationalSound(e: RelationalExpression, tokens: seq<Token>, pos: nat, p: nat, vars: Vars)
    requires pos <= |tokens| && ParseRelational(tokens, pos, vars) == Ok((e, p))
    ensures At(tokens, pos, RelationalTokens(e)) && p == pos + |RelationalTokens(e)|
    ensures RelationalIn(e, {}, vars.Keys)
    decreases e, |e.binaryExpressions| + 1
  {
    var q := ParseAdditive(tokens, pos, vars).value.1;
    assert e.binaryExpressions[0..] == e.binaryExpressions;
    AdditiveSound(e.expression, tokens, pos, q, vars);
    RelationalPairsSound(e, 0, tokens, q, p, vars);
    AtJoin(tokens, pos, AdditiveTokens(e.expression), RelationalPairTokens(e, 0));
  }

  lemma RelationalPairsSound(e: RelationalExpression, k: nat, tokens: seq<Token>, pos: nat, p: nat, vars: Vars)
    requires k <= |e.binaryExpressions| && pos <= |tokens|
    requires RelationalTail(tokens, pos, vars) == Ok((e.binaryExpressions[k..], p))
    ensures At(tokens, pos, RelationalPairTokens(e, k)) && p == pos + |RelationalPairTokens(e, k)|
    ensures forall i :: k <= i < |e.binaryExpressions| ==> AdditiveIn(e.binaryExpressions[i].rightExpression, {}, vars.Keys)
    decreases e, |e.binaryExpressions| - k, 1
  {
    if k < |e.binaryExpressions| {
      RelationalPairSound(e, k, tokens, pos, p, vars);
    } else {
      assert RelationalPairTokens(e, k) == [];
    }
  }

  /** The step of `RelationalPairsSound`: the relational pair at `k`, then the rest. */
  lemma RelationalPairSound(e: RelationalExpression, k: nat, tokens: seq<Token>, pos: nat, p: nat, vars: Vars)
    requires k < |e.binaryExpressions| && pos <= |tokens|
    requires RelationalTail(tokens, pos, vars) == Ok((e.binaryExpressions[k..], p))
    ensures At(tokens, pos, RelationalPairTokens(e, k)) && p == pos + |RelationalPairTokens(e, k)|
    ensures forall i :: k <= i < |e.binaryExpressions| ==> AdditiveIn(e.binaryExpressions[i].rightExpression, {}, vars.Keys)
    decreases e, |e.binaryExpressions| - k, 0
  {
    var pair := e.binaryExpressions[k];
    var pairs := e.binaryExpressions[k..];
    RelationalTailUncons(tokens, pos, vars, pairs, p);
    var q := ParseAdditive(tokens, pos + 1, vars).value.1;
    assert pairs[0] == pair && pairs[1..] == e.binaryExpressions[k + 1..];
    assert tokens[pos] == RelationalOperatorToken(pair.operator);
    AdditiveSound(pair.rightExpression, tokens, pos + 1, q, vars);
    RelationalPairsSound(e, k + 1, tokens, q, p, vars);
    AtCons(tokens, pos, RelationalOperatorToken(pair.operator), AdditiveTokens(pair.rightExpression), RelationalPairTokens(e, k + 1));
  }

  lemma AdditiveSound(e: AdditiveExpression, tokens: seq<Token>, pos: nat, p: nat, vars: Vars)
    requires pos <= |tokens| && ParseAdditive(tokens, pos, vars) == Ok((e, p))
    ensures At(tokens, pos, AdditiveTokens(e)) && p == pos + |AdditiveTokens(e)|
    ensures AdditiveIn(e, {}, vars.Keys)
    decreases e, |e.binaryTerms| + 1
  {
    var q := ParseTerm(tokens, pos, vars).value.1;
    assert e.binaryTerms[0..] == e.binaryTerms;
    TermSound(e.term, tokens, pos, q, vars);
    AdditivePairsSound(e, 0, tokens, q, p, vars);
    AtJoin(tokens, pos, TermTokens(e.term), AdditivePairTokens(e, 0));
  }

  lemma AdditivePairsSound(e: AdditiveExpression, k: nat, tokens: seq<Token>, pos: nat, p: nat, vars: Vars)
    requires k <= |e.binaryTerms| && pos <= |tokens|
    requires AdditiveTail(tokens, pos, vars) == Ok((e.binaryTerms[k..], p))
    ensures At(tokens, pos, AdditivePairTokens(e, k)) && p == pos + |AdditivePairTokens(e, k)|
    ensures forall i :: k <= i < |e.binaryTerms| ==> TermIn(e.binaryTerms[i].rightTerm, {}, vars.Keys)
    decreases e, |e.binaryTerms| - k, 1
  {
    if k < |e.binaryTerms| {
      AdditivePairSound(e, k, tokens, pos, p, vars);
    } else {
      assert AdditivePairTokens(e, k) == [];
    }
  }

  /** The step of `AdditivePairsSound`: the additive pair at `k`, then the rest. */
  lemma AdditivePairSound(e: AdditiveExpression, k: nat, tokens: seq<Token>, pos: nat, p: nat, vars: Vars)
    requires k < |e.binaryTerms| && pos <= |tokens|
    requires AdditiveTail(tokens, pos, vars) == Ok((e.binaryTerms[k..], p))
    ensures At(tokens, pos, AdditivePairTokens(e, k)) && p == pos + |AdditivePairTokens(e, k)|
    ensures forall i :: k <= i < |e.binaryTerms| ==> TermIn(e.binaryTerms[i].rightTerm, {}, vars.Keys)
    decreases e, |e.binaryTerms| - k, 0
  {
    var pair := e.binaryTerms[k];
    var pairs := e.binaryTerms[k..];
    AdditiveTailUncons(tokens, pos, vars, pairs, p);
    var q := ParseTerm(tokens, pos + 1, vars).value.1;
    assert pairs[0] == pair && pairs[1..] == e.binaryTerms[k + 1..];
    assert tokens[pos] == AdditiveOperatorToken(pair.operator);
    TermSound(pair.rightTerm, tokens, pos + 1, q, vars);
    AdditivePairsSound(e, k + 1, tokens, q, p, vars);
    AtCons(tokens, pos, AdditiveOperatorToken(pair.operator), TermTokens(pair.rightTerm), AdditivePairTokens(e, k + 1));
  }

  lemma TermSound(e: Term, tokens: seq<Token>, pos: nat, p: nat, vars: Vars)
    requires pos <= |tokens| && ParseTerm(tokens, pos, vars) == Ok((e, p))
    ensures At(tokens, pos, TermTokens(e)) && p == pos + |TermTokens(e)|
    ensures TermIn(e, {}, vars.Keys)
    decreases e, |e.binaryFactors| + 1
  {
    var q := ParseFactor(tokens, pos, vars).value.1;
    assert e.binaryFactors[0..] == e.binaryFactors;
    FactorSound(e.factor, tokens, pos, q, vars);
    TermPairsSound(e, 0, tokens, q, p, vars);
    AtJoin(tokens, pos, FactorTokens(e.factor), TermPairTokens(e, 0));
  }

  lemma TermPairsSound(e: Term, k: nat, tokens: seq<Token>, pos: nat, p: nat, vars: Vars)
    requires k <= |e.binaryFactors| && pos <= |tokens|
    requires TermTail(tokens, pos, vars) == Ok((e.binaryFactors[k..], p))
    ensures At(tokens, pos, TermPairTokens(e, k)) && p == pos + |TermPairTokens(e, k)|
    ensures forall i :: k <= i < |e.binaryFactors| ==> FactorIn(e.binaryFactors[i].rightFactor, {}, vars.Keys)
    decreases e, |e.binaryFactors| - k, 1
  {
    if k < |e.binaryFactors| {
      TermPairSound(e, k, tokens, pos, p, vars);
    } else {
      assert TermPairTokens(e, k) == [];
    }
  }

  /** The step of `TermPairsSound`: the multiplicative pair at `k`, then the rest. */
  lemma TermPairSound(e: Term, k: nat, tokens: seq<Token>, pos: nat, p: nat, vars: Vars)
    requires k < |e.binaryFactors| && pos <= |tokens|
    requires TermTail(tokens, pos, vars) == Ok((e.binaryFactors[k..], p))
    ensures At(tokens, pos, TermPairTokens(e, k)) && p == pos + |TermPairTokens(e, k)|
    ensures forall i :: k <= i < |e.binaryFactors| ==> FactorIn(e.binaryFactors[i].rightFactor, {}, vars.Keys)
    decreases e, |e.binaryFactors| - k, 0
  {
    var pair := e.binaryFactors[k];
    var pairs := e.binaryFactors[k..];
    TermTailUncons(tokens, pos, vars, pairs, p);
    var q := ParseFactor(tokens, pos + 1, vars).value.1;
    assert pairs[0] == pair && pairs[1..] == e.binaryFactors[k + 1..];
    assert tokens[pos] == FactorOperatorToken(pair.operator);
    FactorSound(pair.rightFactor, tokens, pos + 1, q, vars);
    TermPairsSound(e, k + 1, tokens, q, p, vars);
    AtCons(tokens, pos, FactorOperatorToken(pair.operator), FactorTokens(pair.rightFactor), TermPairTokens(e, k + 1));
  }

  lemma FactorSound(f: Factor, tokens: seq<Token>, pos: nat, p: nat, vars: Vars)
    requires pos <= |tokens| && ParseFactor(tokens, pos, vars) == Ok((f, p))
    ensures At(tokens, pos, FactorTokens(f)) && p == pos + |FactorTokens(f)|
    ensures FactorIn(f, {}, vars.Keys)
    decreases f, 0
  {
    if ParseWithParens(tokens, pos, vars).Ok? {
      var inner := ParseExpression(tokens, pos + 1, vars);
      var q := inner.value.1;
      ExpressionSound(f.expression, tokens, pos + 1, q, vars);
      AtJoin(tokens, pos, [OpenParen], ExpressionTokens(f.expression));
      AtJoin(tokens, pos, [OpenParen] + ExpressionTokens(f.expression), [CloseParen]);
    } else if ParseUnaryOperation(tokens, pos, vars).Ok? {
      var operation := f.operation;
      assert tokens[pos] == UnaryOperatorToken(operation.operator);
      FactorSound(operation.factor, tokens, pos + 1, p, vars);
      AtJoin(tokens, pos, [UnaryOperatorToken(operation.operator)], FactorTokens(operation.factor));
    }
  }

  lemma ExpressionSound(e: Expression, tokens: seq<Token>, pos: nat, p: nat, vars: Vars)
    requires pos <= |tokens| && ParseExpression(tokens, pos, vars) == Ok((e, p))
    ensures At(tokens, pos, ExpressionTokens(e)) && p == pos + |ExpressionTokens(e)|
    ensures ExpressionIn(e, {}, vars.Keys)
    decreases e, 0
  {
    if ParseAssignment(tokens, pos, vars).Ok? {
      ExpressionSound(e.expression, tokens, pos + 2, p, vars);
      AtJoin(tokens, pos, [Token.Identifier(e.name), Token.Assignment], ExpressionTokens(e.expression));
    } else {
      OrSound(e.or, tokens, pos, p, vars);
    }
  }

  /** What the parser returns prints back to exactly the tokens it consumed, reads no
      identifier and assigns only declared variables. */
  lemma PrintAfterParse(tokens: seq<Token>, vars: Vars)
    requires ParseExpression(tokens, 0, vars).Ok?
    ensures var (e, p) := ParseExpression(tokens, 0, vars).value;
      tokens[..p] == ExpressionTokens(e) && ExpressionIn(e, {}, vars.Keys)
  {
    var (e, p) := ParseExpression(tokens, 0, vars).value;
    ExpressionSound(e, tokens, 0, p, vars);
    assert forall i :: 0 <= i < p ==> tokens[0 + i] == ExpressionTokens(e)[i];
  }
}

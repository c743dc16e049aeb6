/** The chain levels of the expression parser as the source writes them: parse one
    lower-level node, then a `while let` loop that, as long as the next token is an operator
    of this level, parses the next lower-level node, pushes the pair and moves the leftover
    tokens on. Leftover tokens are a position in the input, as in Parser. Each method is
    proved equal to the corresponding function of Parser; the stack frame is only read. */
module ParserLoops {
  import opened Wrappers
  import opened Tokens
  import opened Ast
  import opened Parser
  import opened StackFrames

  /** The pairs collected so far, put in front of the pairs a tail parse finds. */
  function Prepend<P>(pre: seq<P>, r: Result<(seq<P>, nat)>): Result<(seq<P>, nat)> {
    match r
    case Ok((pairs, rest)) => Ok((pre + pairs, rest))
    case Err(err) => Err(err)
  }

  lemma PrependNothing<P>(r: Result<(seq<P>, nat)>)
    ensures Prepend([], r) == r
  {
    if r.Ok? {
      assert [] + r.value.0 == r.value.0;
    }
  }

  lemma PrependTwice<P>(pre: seq<P>, pair: P, r: Result<(seq<P>, nat)>)
    ensures Prepend(pre, Prepend([pair], r)) == Prepend(pre + [pair], r)
  {
    if r.Ok? {
      assert pre + ([pair] + r.value.0) == (pre + [pair]) + r.value.0;
    }
  }

  /** One iteration of the TermTail loop, unfolded. */
  lemma TermTailStep(tokens: seq<Token>, pos: nat, vars: Vars)
    requires pos < |tokens| && BinaryFactorOperatorForToken(tokens[pos]).Some?
    ensures var m := Parser.ParseFactor(tokens, pos + 1, vars);
      && (m.Err? ==> TermTail(tokens, pos, vars) == Err(m.error))
      && (m.Ok? ==>
            TermTail(tokens, pos, vars) == Prepend([BinaryFactor(BinaryFactorOperatorForToken(tokens[pos]).value, m.value.0)], TermTail(tokens, m.value.1, vars)))
  {
  }

  method ParseTerm(tokens: seq<Token>, pos: nat, frame: StackFrame) returns (r: Result<(Term, nat)>)
    requires pos <= |tokens|
    ensures r == Parser.ParseTerm(tokens, pos, frame.vars)
  {
    var first := Parser.ParseFactor(tokens, pos, frame.vars);
    if first.Err? {
      return Err(first.error);
    }
    var pairs: seq<BinaryFactor> := [];
    var leftoverPos := first.value.1;
    PrependNothing(TermTail(tokens, leftoverPos, frame.vars));
    while leftoverPos < |tokens| && BinaryFactorOperatorForToken(tokens[leftoverPos]).Some?
      invariant leftoverPos <= |tokens|
      invariant TermTail(tokens, first.value.1, frame.vars) == Prepend(pairs, TermTail(tokens, leftoverPos, frame.vars))
      decreases |tokens| - leftoverPos
    {
      var operator := BinaryFactorOperatorForToken(tokens[leftoverPos]).value;
      var matched := Parser.ParseFactor(tokens, leftoverPos + 1, frame.vars);
      TermTailStep(tokens, leftoverPos, frame.vars);
      if matched.Err? {
        return Err(matched.error);
      }
      PrependTwice(pairs, BinaryFactor(operator, matched.value.0), TermTail(tokens, matched.value.1, frame.vars));
      pairs := pairs + [BinaryFactor(operator, matched.value.0)];
      leftoverPos := matched.value.1;
    }
    assert TermTail(tokens, leftoverPos, frame.vars) == Ok(([], leftoverPos));
    assert pairs + [] == pairs;
    return Ok((Term(first.value.0, pairs), leftoverPos));
  }

  /** One iteration of the AdditiveTail loop, unfolded. */
  lemma AdditiveTailStep(tokens: seq<Token>, pos: nat, vars: Vars)
    requires pos < |tokens| && AdditiveOperatorForToken(tokens[pos]).Some?
    ensures var m := Parser.ParseTerm(tokens, pos + 1, vars);
      && (m.Err? ==> AdditiveTail(tokens, pos, vars) == Err(m.error))
      && (m.Ok? ==>
            AdditiveTail(tokens, pos, vars) == Prepend([BinaryTerms(AdditiveOperatorForToken(tokens[pos]).value, m.value.0)], AdditiveTail(tokens, m.value.1, vars)))
  {
  }

  method ParseAdditive(tokens: seq<Token>, pos: nat, frame: StackFrame) returns (r: Result<(AdditiveExpression, nat)>)
    requires pos <= |tokens|
    ensures r == Parser.ParseAdditive(tokens, pos, frame.vars)
  {
    var first := ParseTerm(tokens, pos, frame);
    if first.Err? {
      return Err(first.error);
    }
    var pairs: seq<BinaryTerms> := [];
    var leftoverPos := first.value.1;
    PrependNothing(AdditiveTail(tokens, leftoverPos, frame.vars));
    while leftoverPos < |tokens| && AdditiveOperatorForToken(tokens[leftoverPos]).Some?
      invariant leftoverPos <= |tokens|
      invariant AdditiveTail(tokens, first.value.1, frame.vars) == Prepend(pairs, AdditiveTail(tokens, leftoverPos, frame.vars))
      decreases |tokens| - leftoverPos
    {
      var operator := AdditiveOperatorForToken(tokens[leftoverPos]).value;
      var matched := ParseTerm(tokens, leftoverPos + 1, frame);
      AdditiveTailStep(tokens, leftoverPos, frame.vars);
      if matched.Err? {
        return Err(matched.error);
      }
      PrependTwice(pairs, BinaryTerms(operator, matched.value.0), AdditiveTail(tokens, matched.value.1, frame.vars));
      pairs := pairs + [BinaryTerms(operator, matched.value.0)];
      leftoverPos := matched.value.1;
    }
    assert AdditiveTail(tokens, leftoverPos, frame.vars) == Ok(([], leftoverPos));
    assert pairs + [] == pairs;
    return Ok((AdditiveExpression(first.value.0, pairs), leftoverPos));
  }

  /** One iteration of the RelationalTail loop, unfolded. */
  lemma RelationalTailStep(tokens: seq<Token>, pos: nat, vars: Vars)
    requires pos < |tokens| && RelationalOperatorForToken(tokens[pos]).Some?
    ensures var m := Parser.ParseAdditive(tokens, pos + 1, vars);
      && (m.Err? ==> RelationalTail(tokens, pos, vars) == Err(m.error))
      && (m.Ok? ==>
            RelationalTail(tokens, pos, vars) == Prepend([BinaryAdditiveExpression(RelationalOperatorForToken(tokens[pos]).value, m.value.0)], RelationalTail(tokens, m.value.1, vars)))
  {
  }

  method ParseRelational(tokens: seq<Token>, pos: nat, frame: StackFrame) returns (r: Result<(RelationalExpression, nat)>)
    requires pos <= |tokens|
    ensures r == Parser.ParseRelational(tokens, pos, frame.vars)
  {
    var first := ParseAdditive(tokens, pos, frame);
    if first.Err? {
      return Err(first.error);
    }
    var pairs: seq<BinaryAdditiveExpression> := [];
    var leftoverPos := first.value.1;
    PrependNothing(RelationalTail(tokens, leftoverPos, frame.vars));
    while leftoverPos < |tokens| && RelationalOperatorForToken(tokens[leftoverPos]).Some?
      invariant leftoverPos <= |tokens|
      invariant RelationalTail(tokens, first.value.1, frame.vars) == Prepend(pairs, RelationalTail(tokens, leftoverPos, frame.vars))
      decreases |tokens| - leftoverPos
    {
      var operator := RelationalOperatorForToken(tokens[leftoverPos]).value;
      var matched := ParseAdditive(tokens, leftoverPos + 1, frame);
      RelationalTailStep(tokens, leftoverPos, frame.vars);
      if matched.Err? {
        return Err(matched.error);
      }
      PrependTwice(pairs, BinaryAdditiveExpression(operator, matched.value.0), RelationalTail(tokens, matched.value.1, frame.vars));
      pairs := pairs + [BinaryAdditiveExpression(operator, matched.value.0)];
      leftoverPos := matched.value.1;
    }
    assert RelationalTail(tokens, leftoverPos, frame.vars) == Ok(([], leftoverPos));
    assert pairs + [] == pairs;
    return Ok((RelationalExpression(first.value.0, pairs), leftoverPos));
  }

  /** One iteration of the EqualityTail loop, unfolded. */
  lemma EqualityTailStep(tokens: seq<Token>, pos: nat, vars: Vars)
    requires pos < |tokens| && EqualityOperatorForToken(tokens[pos]).Some?
    ensures var m := Parser.ParseRelational(tokens, pos + 1, vars);
      && (m.Err? ==> EqualityTail(tokens, pos, vars) == Err(m.error))
      && (m.Ok? ==>
            EqualityTail(tokens, pos, vars) == Prepend([BinaryRelationalExpression(EqualityOperatorForToken(tokens[pos]).value, m.value.0)], EqualityTail(tokens, m.value.1, vars)))
  {
  }

  method ParseEquality(tokens: seq<Token>, pos: nat, frame: StackFrame) returns (r: Result<(EqualityExpression, nat)>)
    requires pos <= |tokens|
    ensures r == Parser.ParseEquality(tokens, pos, frame.vars)
  {
    var first := ParseRelational(tokens, pos, frame);
    if first.Err? {
      return Err(first.error);
    }
    var pairs: seq<BinaryRelationalExpression> := [];
    var leftoverPos := first.value.1;
    PrependNothing(EqualityTail(tokens, leftoverPos, frame.vars));
    while leftoverPos < |tokens| && EqualityOperatorForToken(tokens[leftoverPos]).Some?
      invariant leftoverPos <= |tokens|
      invariant EqualityTail(tokens, first.value.1, frame.vars) == Prepend(pairs, EqualityTail(tokens, leftoverPos, frame.vars))
      decreases |tokens| - leftoverPos
    {
      var operator := EqualityOperatorForToken(tokens[leftoverPos]).value;
      var matched := ParseRelational(tokens, leftoverPos + 1, frame);
      EqualityTailStep(tokens, leftoverPos, frame.vars);
      if matched.Err? {
        return Err(matched.error);
      }
      PrependTwice(pairs, BinaryRelationalExpression(operator, matched.value.0), EqualityTail(tokens, matched.value.1, frame.vars));
      pairs := pairs + [BinaryRelationalExpression(operator, matched.value.0)];
      leftoverPos := matched.value.1;
    }
    assert EqualityTail(tokens, leftoverPos, frame.vars) == Ok(([], leftoverPos));
    assert pairs + [] == pairs;
    return Ok((EqualityExpression(first.value.0, pairs), leftoverPos));
  }

  /** One iteration of the LogicalAndTail loop, unfolded. */
  lemma LogicalAndTailStep(tokens: seq<Token>, pos: nat, vars: Vars)
    requires pos < |tokens| && LogicalAndOperatorForToken(tokens[pos]).Some?
    ensures var m := Parser.ParseEquality(tokens, pos + 1, vars);
      && (m.Err? ==> LogicalAndTail(tokens, pos, vars) == Err(m.error))
      && (m.Ok? ==>
            LogicalAndTail(tokens, pos, vars) == Prepend([BinaryEqualityExpression(LogicalAndOperatorForToken(tokens[pos]).value, m.value.0)], LogicalAndTail(tokens, m.value.1, vars)))
  {
  }

  method ParseLogicalAnd(tokens: seq<Token>, pos: nat, frame: StackFrame) returns (r: Result<(LogicalAndExpression, nat)>)
    requires pos <= |tokens|
    ensures r == Parser.ParseLogicalAnd(tokens, pos, frame.vars)
  {
    var first := ParseEquality(tokens, pos, frame);
    if first.Err? {
      return Err(first.error);
    }
    var pairs: seq<BinaryEqualityExpression> := [];
    var leftoverPos := first.value.1;
    PrependNothing(LogicalAndTail(tokens, leftoverPos, frame.vars));
    while leftoverPos < |tokens| && LogicalAndOperatorForToken(tokens[leftoverPos]).Some?
      invariant leftoverPos <= |tokens|
      invariant LogicalAndTail(tokens, first.value.1, frame.vars) == Prepend(pairs, LogicalAndTail(tokens, leftoverPos, frame.vars))
      decreases |tokens| - leftoverPos
    {
      var operator := LogicalAndOperatorForToken(tokens[leftoverPos]).value;
      var matched := ParseEquality(tokens, leftoverPos + 1, frame);
      LogicalAndTailStep(tokens, leftoverPos, frame.vars);
      if matched.Err? {
        return Err(matched.error);
      }
      PrependTwice(pairs, BinaryEqualityExpression(operator, matched.value.0), LogicalAndTail(tokens, matched.value.1, frame.vars));
      pairs := pairs + [BinaryEqualityExpression(operator, matched.value.0)];
      leftoverPos := matched.value.1;
    }
    assert LogicalAndTail(tokens, leftoverPos, frame.vars) == Ok(([], leftoverPos));
    assert pairs + [] == pairs;
    return Ok((LogicalAndExpression(first.value.0, pairs), leftoverPos));
  }

  /** One iteration of the LogicalOrTail loop, unfolded. */
  lemma LogicalOrTailStep(tokens: seq<Token>, pos: nat, vars: Vars)
    requires pos < |tokens| && ExpressionOperatorForToken(tokens[pos]).Some?
    ensures var m := Parser.ParseLogicalAnd(tokens, pos + 1, vars);
      && (m.Err? ==> LogicalOrTail(tokens, pos, vars) == Err(m.error))
      && (m.Ok? ==>
            LogicalOrTail(tokens, pos, vars) == Prepend([BinaryLogicalAndExpression(ExpressionOperatorForToken(tokens[pos]).value, m.value.0)], LogicalOrTail(tokens, m.value.1, vars)))
  {
  }

  method ParseLogicalOr(tokens: seq<Token>, pos: nat, frame: StackFrame) returns (r: Result<(LogicalOrExpression, nat)>)
    requires pos <= |tokens|
    ensures r == Parser.ParseLogicalOr(tokens, pos, frame.vars)
  {
    var first := ParseLogicalAnd(tokens, pos, frame);
    if first.Err? {
      return Err(first.error);
    }
    var pairs: seq<BinaryLogicalAndExpression> := [];
    var leftoverPos := first.value.1;
    PrependNothing(LogicalOrTail(tokens, leftoverPos, frame.vars));
    while leftoverPos < |tokens| && ExpressionOperatorForToken(tokens[leftoverPos]).Some?
      invariant leftoverPos <= |tokens|
      invariant LogicalOrTail(tokens, first.value.1, frame.vars) == Prepend(pairs, LogicalOrTail(tokens, leftoverPos, frame.vars))
      decreases |tokens| - leftoverPos
    {
      var operator := ExpressionOperatorForToken(tokens[leftoverPos]).value;
      var matched := ParseLogicalAnd(tokens, leftoverPos + 1, frame);
      LogicalOrTailStep(tokens, leftoverPos, frame.vars);
      if matched.Err? {
        return Err(matched.error);
      }
      PrependTwice(pairs, BinaryLogicalAndExpression(operator, matched.value.0), LogicalOrTail(tokens, matched.value.1, frame.vars));
      pairs := pairs + [BinaryLogicalAndExpression(operator, matched.value.0)];
      leftoverPos := matched.value.1;
    }
    assert LogicalOrTail(tokens, leftoverPos, frame.vars) == Ok(([], leftoverPos));
    assert pairs + [] == pairs;
    return Ok((LogicalOrExpression(first.value.0, pairs), leftoverPos));
  }
}

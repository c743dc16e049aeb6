/** The meaning of an expression, for comparison with the code generated for it: C's
    evaluation order and short-circuiting, on 64-bit two's-complement integers.

    Operands are evaluated left to right, and the first failure of an operand is the result.
    `||` and `&&` do not evaluate their right operand when the left one decides, and give 0
    or 1; comparisons and `!` give 0 or 1; `+`, `-`, `*` and unary `-` wrap around; `/`
    truncates toward zero. A division by zero is a failure. A negative dividend is kept
    apart as `NegativeDividend`, because the generated division does not compute a signed
    quotient for it (see `GeneratedNegativeDivision` in Correctness). */
module Evaluator {
  import opened Int64
  import opened Ast

  /** The environment: the value of every variable in scope. */
  type Env = map<string, i64>

  datatype Value = Int(v: i64) | DivisionByZero | NegativeDividend

  function Truth(b: bool): (r: i64)
    ensures r == 0 || r == 1
    ensures r == 1 <==> b
  {
    if b then 1 else 0
  }

  /** `x != 0` as 0 or 1, for the value of a right operand of `||` or `&&`. */
  function Normalise(v: Value): (r: Value)
    ensures v.Int? <==> r.Int?
    ensures v.Int? ==> r.v == Truth(v.v != 0)
    ensures !v.Int? ==> r == v
  {
    match v
    case Int(x) => Int(Truth(x != 0))
    case _ => v
  }

  function ApplyUnary(op: UnaryOperator, x: i64): i64 {
    match op
    case Negation => Wrap(-(x as int))
    case BitwiseComplement => (-(x as int) - 1) as i64
    case LogicalNegation => Truth(x == 0)
  }

  function ApplyFactor(op: BinaryFactorOperator, l: i64, r: i64): (v: Value)
    ensures v.DivisionByZero? <==> op == Division && r == 0
    ensures v.NegativeDividend? <==> op == Division && r != 0 && l < 0
    ensures op == Division && r != 0 && l >= 0 ==> v == Int(TruncDiv(l as int, r as int) as i64)
  {
    match op
    case Multiplication => Int(Wrap(l as int * r as int))
    case Division =>
      if r == 0 then DivisionByZero
      else if l < 0 then NegativeDividend
      else
        NonNegativeQuotientInRange(l as int, r as int);
        Int(TruncDiv(l as int, r as int) as i64)
  }

  function ApplyAdditive(op: AdditiveOperator, l: i64, r: i64): i64 {
    match op
    case Addition => Wrap(l as int + r as int)
    case Subtraction => Wrap(l as int - r as int)
  }

  function ApplyEquality(op: EqualityOperator, l: i64, r: i64): i64 {
    match op
    case Equal => Truth(l == r)
    case NotEqual => Truth(l != r)
  }

  function ApplyRelational(op: RelationalOperator, l: i64, r: i64): i64 {
    match op
    case LessThan => Truth(l < r)
    case LessThanOrEqual => Truth(l <= r)
    case GreaterThan => Truth(l > r)
    case GreaterThanOrEqual => Truth(l >= r)
  }

  function EvalExpression(e: Expression, env: Env): Value
    requires ExpressionIn(e, env.Keys, {})
    decreases e, 0
  {
    match e
    case LogicalOr(or) => EvalOr(or, env)
  }

  function EvalOr(e: LogicalOrExpression, env: Env): Value
    requires OrIn(e, env.Keys, {})
    decreases e, |e.binaryExpressions| + 1
  {
    EvalOrPrefix(e, |e.binaryExpressions|, env)
  }

  /** The value of the left operand and the first `k` `||` pairs. */
  function EvalOrPrefix(e: LogicalOrExpression, k: nat, env: Env): Value
    requires k <= |e.binaryExpressions| && OrIn(e, env.Keys, {})
    decreases e, k
  {
    if k == 0 then EvalAnd(e.expression, env)
    else OrValue(EvalOrPrefix(e, k - 1, env), EvalAnd(e.binaryExpressions[k - 1].rightExpression, env))
  }

  /** The value of `l || r`: 1 when `l` is nonzero, whatever `r` is; a failure of `l` propagates. */
  function OrValue(l: Value, r: Value): Value {
    match l
    case Int(x) => if x != 0 then Int(1) else Normalise(r)
    case failure => failure
  }

  function EvalAnd(e: LogicalAndExpression, env: Env): Value
    requires AndIn(e, env.Keys, {})
    decreases e, |e.binaryExpressions| + 1
  {
    EvalAndPrefix(e, |e.binaryExpressions|, env)
  }

  function EvalAndPrefix(e: LogicalAndExpression, k: nat, env: Env): Value
    requires k <= |e.binaryExpressions| && AndIn(e, env.Keys, {})
    decreases e, k
  {
    if k == 0 then EvalEquality(e.expression, env)
    else AndValue(EvalAndPrefix(e, k - 1, env), EvalEquality(e.binaryExpressions[k - 1].rightExpression, env))
  }

  /** The value of `l && r`: 0 when `l` is 0, whatever `r` is; a failure of `l` propagates. */
  function AndValue(l: Value, r: Value): Value {
    match l
    case Int(x) => if x == 0 then Int(0) else Normalise(r)
    case failure => failure
  }

  function EvalEquality(e: EqualityExpression, env: Env): Value
    requires EqualityIn(e, env.Keys, {})
    decreases e, |e.binaryExpressions| + 1
  {
    EvalEqualityPrefix(e, |e.binaryExpressions|, env)
  }

  function EvalEqualityPrefix(e: EqualityExpression, k: nat, env: Env): Value
    requires k <= |e.binaryExpressions| && EqualityIn(e, env.Keys, {})
    decreases e, k
  {
    if k == 0 then EvalRelational(e.expression, env)
    else
      var pair := e.binaryExpressions[k - 1];
      match EvalEqualityPrefix(e, k - 1, env)
      case Int(l) =>
        (match EvalRelational(pair.rightExpression, env)
         case Int(r) => Int(ApplyEquality(pair.operator, l, r))
         case failure => failure)
      case failure => failure
  }

  function EvalRelational(e: RelationalExpression, env: Env): Value
    requires RelationalIn(e, env.Keys, {})
    decreases e, |e.binaryExpressions| + 1
  {
    EvalRelationalPrefix(e, |e.binaryExpressions|, env)
  }

  function EvalRelationalPrefix(e: RelationalExpression, k: nat, env: Env): Value
    requires k <= |e.binaryExpressions| && RelationalIn(e, env.Keys, {})
    decreases e, k
  {
    if k == 0 then EvalAdditive(e.expression, env)
    else
      var pair := e.binaryExpressions[k - 1];
      match EvalRelationalPrefix(e, k - 1, env)
      case Int(l) =>
        (match EvalAdditive(pair.rightExpression, env)
         case Int(r) => Int(ApplyRelational(pair.operator, l, r))
         case failure => failure)
      case failure => failure
  }

  function EvalAdditive(e: AdditiveExpression, env: Env): Value
    requires AdditiveIn(e, env.Keys, {})
    decreases e, |e.binaryTerms| + 1
  {
    EvalAdditivePrefix(e, |e.binaryTerms|, env)
  }

  function EvalAdditivePrefix(e: AdditiveExpression, k: nat, env: Env): Value
    requires k <= |e.binaryTerms| && AdditiveIn(e, env.Keys, {})
    decreases e, k
  {
    if k == 0 then EvalTerm(e.term, env)
    else
      var pair := e.binaryTerms[k - 1];
      match EvalAdditivePrefix(e, k - 1, env)
      case Int(l) =>
        (match EvalTerm(pair.rightTerm, env)
         case Int(r) => Int(ApplyAdditive(pair.operator, l, r))
         case failure => failure)
      case failure => failure
  }

  function EvalTerm(t: Term, env: Env): Value
    requires TermIn(t, env.Keys, {})
    decreases t, |t.binaryFactors| + 1
  {
    EvalTermPrefix(t, |t.binaryFactors|, env)
  }

  function EvalTermPrefix(t: Term, k: nat, env: Env): Value
    requires k <= |t.binaryFactors| && TermIn(t, env.Keys, {})
    decreases t, k
  {
    if k == 0 then EvalFactor(t.factor, env)
    else
      var pair := t.binaryFactors[k - 1];
      match EvalTermPrefix(t, k - 1, env)
      case Int(l) =>
        (match EvalFactor(pair.rightFactor, env)
         case Int(r) => ApplyFactor(pair.operator, l, r)
         case failure => failure)
      case failure => failure
  }

  function EvalFactor(f: Factor, env: Env): Value
    requires FactorIn(f, env.Keys, {})
    decreases f, 0
  {
    match f
    case Constant(v) => Int(v)
    case Identifier(name) => Int(env[name])
    case Parenthesized(e) => EvalExpression(e, env)
    case UnaryOperation(op) =>
      match EvalFactor(op.factor, env)
      case Int(x) => Int(ApplyUnary(op.operator, x))
      case failure => failure
  }
}

/** The instructions the code generator emits for each node of the syntax tree, as
    functions of the node, the frame's variable slots and the clause counter on entry.

    Every level leaves its value in `%rax`. A binary operator keeps the left value on the
    stack while the right operand is computed (`push %rax` ... `pop %rcx`); `||` and `&&` take
    a fresh clause, numbered by the counter, whose labels enclose the right operand. */
module CodeGen {
  import opened Int64
  import opened Ast
  import opened Asm
  import opened Parser
  import opened FunctionParser

  /** Emitted code and the clause counter after it. */
  datatype Emitted = Emitted(code: seq<Instr>, next: nat)

  // ---------------------------------------------------------------- fixed sequences

  function UnaryOperatorCode(op: UnaryOperator): seq<Instr> {
    match op
    case Negation => [Neg(Rax)]
    case LogicalNegation => [CmpInt(0, Rax), MovInt(0, Rax), Set(E, Al)]
    case BitwiseComplement => [Not(Rax)]
  }

  /** Left operand in rcx, right operand in rax. Division moves the dividend into rax and the
      divisor into rcx through rdx, then clears rdx before `idiv`. */
  function FactorOperatorCode(op: BinaryFactorOperator): seq<Instr> {
    match op
    case Multiplication => [Imul(Rcx, Rax)]
    case Division => [Mov(Rcx, Rdx), Mov(Rax, Rcx), Mov(Rdx, Rax), MovInt(0, Rdx), Idiv(Rcx)]
  }

  function AdditiveOperatorCode(op: AdditiveOperator): seq<Instr> {
    match op
    case Addition => [Add(Rcx, Rax)]
    case Subtraction => [Sub(Rax, Rcx), Mov(Rcx, Rax)]
  }

  function EqualityCondition(op: EqualityOperator): Condition {
    match op
    case Equal => E
    case NotEqual => NE
  }

  function RelationalCondition(op: RelationalOperator): Condition {
    match op
    case LessThan => L
    case LessThanOrEqual => LE
    case GreaterThan => G
    case GreaterThanOrEqual => GE
  }

  /** `cmp %rax, %rcx; mov $0, %rax; setX %al`: rax becomes 1 when the left operand (rcx)
      stands in relation `c` to the right one (rax), and 0 otherwise. */
  function CompareCode(c: Condition): seq<Instr> {
    [Cmp(Rax, Rcx), MovInt(0, Rax), Set(c, Al)]
  }

  /** A binary operator on a value already in rax: save it, compute the right operand, bring
      the left value back into rcx and combine. */
  function Binary(right: seq<Instr>, combine: seq<Instr>): seq<Instr> {
    [Push(Rax)] + right + [Pop(Rcx)] + combine
  }

  /** `cmp $0, %rax; mov $0, %rax; setne %al`: rax becomes 1 if it was non-zero, else 0. */
  function NormaliseCode(): seq<Instr> {
    [CmpInt(0, Rax), MovInt(0, Rax), Set(NE, Al)]
  }

  /** The opening of a `||` clause `n`: a non-zero left value sets rax to 1 and jumps to
      the end label; a zero one jumps to the start label, where the right operand begins. */
  function OrOpening(n: nat): seq<Instr> {
    [CmpInt(0, Rax), Je(StartLabel(n)), MovInt(1, Rax), Jmp(EndLabel(n)), Label(StartLabel(n))]
  }

  /** The opening of a `&&` clause `n`: a non-zero left value jumps to the start label; a zero
      one jumps to the end label with rax still 0. */
  function AndOpening(n: nat): seq<Instr> {
    [CmpInt(0, Rax), Jne(StartLabel(n)), Jmp(EndLabel(n)), Label(StartLabel(n))]
  }

  /** The right operand's value normalised to 0 or 1, then the end label of clause `n`. */
  function ClauseClosing(n: nat): seq<Instr> {
    NormaliseCode() + [Label(EndLabel(n))]
  }

  function OrClauseCode(n: nat, right: seq<Instr>): seq<Instr> {
    OrOpening(n) + right + ClauseClosing(n)
  }

  function AndClauseCode(n: nat, right: seq<Instr>): seq<Instr> {
    AndOpening(n) + right + ClauseClosing(n)
  }

  // ---------------------------------------------------------------- the number of clauses

  /** The number of `||` and `&&` operators in a node: the clauses its code takes. */
  function ExpressionClauses(e: Expression): nat
    decreases e, 0
  {
    match e
    case Assignment(_, rhs) => ExpressionClauses(rhs)
    case LogicalOr(or) => OrClauses(or)
  }

  function OrClauses(e: LogicalOrExpression): nat
    decreases e, |e.binaryExpressions| + 1
  {
    OrPrefixClauses(e, |e.binaryExpressions|)
  }

  function OrPrefixClauses(e: LogicalOrExpression, k: nat): nat
    requires k <= |e.binaryExpressions|
    decreases e, k
  {
    if k == 0 then AndClauses(e.expression)
    else OrPrefixClauses(e, k - 1) + 1 + AndClauses(e.binaryExpressions[k - 1].rightExpression)
  }

  function AndClauses(e: LogicalAndExpression): nat
    decreases e, |e.binaryExpressions| + 1
  {
    AndPrefixClauses(e, |e.binaryExpressions|)
  }

  function AndPrefixClauses(e: LogicalAndExpression, k: nat): nat
    requires k <= |e.binaryExpressions|
    decreases e, k
  {
    if k == 0 then EqualityClauses(e.expression)
    else AndPrefixClauses(e, k - 1) + 1 + EqualityClauses(e.binaryExpressions[k - 1].rightExpression)
  }

  function EqualityClauses(e: EqualityExpression): nat
    decreases e, |e.binaryExpressions| + 1
  {
    EqualityPrefixClauses(e, |e.binaryExpressions|)
  }

  function EqualityPrefixClauses(e: EqualityExpression, k: nat): nat
    requires k <= |e.binaryExpressions|
    decreases e, k
  {
    if k == 0 then RelationalClauses(e.expression)
    else EqualityPrefixClauses(e, k - 1) + RelationalClauses(e.binaryExpressions[k - 1].rightExpression)
  }

  function RelationalClauses(e: RelationalExpression): nat
    decreases e, |e.binaryExpressions| + 1
  {
    RelationalPrefixClauses(e, |e.binaryExpressions|)
  }

  function RelationalPrefixClauses(e: RelationalExpression, k: nat): nat
    requires k <= |e.binaryExpressions|
    decreases e, k
  {
    if k == 0 then AdditiveClauses(e.expression)
    else RelationalPrefixClauses(e, k - 1) + AdditiveClauses(e.binaryExpressions[k - 1].rightExpression)
  }

  function AdditiveClauses(e: AdditiveExpression): nat
    decreases e, |e.binaryTerms| + 1
  {
    AdditivePrefixClauses(e, |e.binaryTerms|)
  }

  function AdditivePrefixClauses(e: AdditiveExpression, k: nat): nat
    requires k <= |e.binaryTerms|
    decreases e, k
  {
    if k == 0 then TermClauses(e.term)
    else AdditivePrefixClauses(e, k - 1) + TermClauses(e.binaryTerms[k - 1].rightTerm)
  }

  function TermClauses(t: Term): nat
    decreases t, |t.binaryFactors| + 1
  {
    TermPrefixClauses(t, |t.binaryFactors|)
  }

  function TermPrefixClauses(t: Term, k: nat): nat
    requires k <= |t.binaryFactors|
    decreases t, k
  {
    if k == 0 then FactorClauses(t.factor)
    else TermPrefixClauses(t, k - 1) + FactorClauses(t.binaryFactors[k - 1].rightFactor)
  }

  function FactorClauses(f: Factor): nat
    decreases f, 0
  {
    match f
    case Constant(_) => 0
    case Identifier(_) => 0
    case Parenthesized(e) => ExpressionClauses(e)
    case UnaryOperation(op) => FactorClauses(op.factor)
  }

  // ---------------------------------------------------------------- code of the nodes

  /** `expression::asm`. An assignment has no code in the generator, so the expression must
      be free of them; every identifier must be bound in the frame. */
  function ExpressionCode(e: Expression, vars: Vars, n: nat): (r: Emitted)
    requires ExpressionIn(e, vars.Keys, {})
    ensures r.next == n + ExpressionClauses(e)
    decreases e, 0
  {
    match e
    case LogicalOr(or) => OrCode(or, vars, n)
  }

  function OrCode(e: LogicalOrExpression, vars: Vars, n: nat): (r: Emitted)
    requires OrIn(e, vars.Keys, {})
    ensures r.next == n + OrClauses(e)
    decreases e, |e.binaryExpressions| + 1
  {
    OrPrefix(e, |e.binaryExpressions|, vars, n)
  }

  /** The code of the left operand and of the first `k` `||` pairs. */
  function OrPrefix(e: LogicalOrExpression, k: nat, vars: Vars, n: nat): (r: Emitted)
    requires k <= |e.binaryExpressions| && OrIn(e, vars.Keys, {})
    ensures r.next == n + OrPrefixClauses(e, k)
    decreases e, k
  {
    if k == 0 then AndCode(e.expression, vars, n)
    else
      var p := OrPrefix(e, k - 1, vars, n);
      var right := AndCode(e.binaryExpressions[k - 1].rightExpression, vars, p.next + 1);
      Emitted(p.code + OrClauseCode(p.next, right.code), right.next)
  }

  function AndCode(e: LogicalAndExpression, vars: Vars, n: nat): (r: Emitted)
    requires AndIn(e, vars.Keys, {})
    ensures r.next == n + AndClauses(e)
    decreases e, |e.binaryExpressions| + 1
  {
    AndPrefix(e, |e.binaryExpressions|, vars, n)
  }

  function AndPrefix(e: LogicalAndExpression, k: nat, vars: Vars, n: nat): (r: Emitted)
    requires k <= |e.binaryExpressions| && AndIn(e, vars.Keys, {})
    ensures r.next == n + AndPrefixClauses(e, k)
    decreases e, k
  {
    if k == 0 then EqualityCode(e.expression, vars, n)
    else
      var p := AndPrefix(e, k - 1, vars, n);
      var right := EqualityCode(e.binaryExpressions[k - 1].rightExpression, vars, p.next + 1);
      Emitted(p.code + AndClauseCode(p.next, right.code), right.next)
  }

  function EqualityCode(e: EqualityExpression, vars: Vars, n: nat): (r: Emitted)
    requires EqualityIn(e, vars.Keys, {})
    ensures r.next == n + EqualityClauses(e)
    decreases e, |e.binaryExpressions| + 1
  {
    EqualityPrefix(e, |e.binaryExpressions|, vars, n)
  }

  function EqualityPrefix(e: EqualityExpression, k: nat, vars: Vars, n: nat): (r: Emitted)
    requires k <= |e.binaryExpressions| && EqualityIn(e, vars.Keys, {})
    ensures r.next == n + EqualityPrefixClauses(e, k)
    decreases e, k
  {
    if k == 0 then RelationalCode(e.expression, vars, n)
    else
      var p := EqualityPrefix(e, k - 1, vars, n);
      var pair := e.binaryExpressions[k - 1];
      var right := RelationalCode(pair.rightExpression, vars, p.next);
      Emitted(p.code + Binary(right.code, CompareCode(EqualityCondition(pair.operator))), right.next)
  }

  function RelationalCode(e: RelationalExpression, vars: Vars, n: nat): (r: Emitted)
    requires RelationalIn(e, vars.Keys, {})
    ensures r.next == n + RelationalClauses(e)
    decreases e, |e.binaryExpressions| + 1
  {
    RelationalPrefix(e, |e.binaryExpressions|, vars, n)
  }

  function RelationalPrefix(e: RelationalExpression, k: nat, vars: Vars, n: nat): (r: Emitted)
    requires k <= |e.binaryExpressions| && RelationalIn(e, vars.Keys, {})
    ensures r.next == n + RelationalPrefixClauses(e, k)
    decreases e, k
  {
    if k == 0 then AdditiveCode(e.expression, vars, n)
    else
      var p := RelationalPrefix(e, k - 1, vars, n);
      var pair := e.binaryExpressions[k - 1];
      var right := AdditiveCode(pair.rightExpression, vars, p.next);
      Emitted(p.code + Binary(right.code, CompareCode(RelationalCondition(pair.operator))), right.next)
  }

  function AdditiveCode(e: AdditiveExpression, vars: Vars, n: nat): (r: Emitted)
    requires AdditiveIn(e, vars.Keys, {})
    ensures r.next == n + AdditiveClauses(e)
    decreases e, |e.binaryTerms| + 1
  {
    AdditivePrefix(e, |e.binaryTerms|, vars, n)
  }

  function AdditivePrefix(e: AdditiveExpression, k: nat, vars: Vars, n: nat): (r: Emitted)
    requires k <= |e.binaryTerms| && AdditiveIn(e, vars.Keys, {})
    ensures r.next == n + AdditivePrefixClauses(e, k)
    decreases e, k
  {
    if k == 0 then TermCode(e.term, vars, n)
    else
      var p := AdditivePrefix(e, k - 1, vars, n);
      var pair := e.binaryTerms[k - 1];
      var right := TermCode(pair.rightTerm, vars, p.next);
      Emitted(p.code + Binary(right.code, AdditiveOperatorCode(pair.operator)), right.next)
  }

  /** `term::asm`. */
  function TermCode(t: Term, vars: Vars, n: nat): (r: Emitted)
    requires TermIn(t, vars.Keys, {})
    ensures r.next == n + TermClauses(t)
    decreases t, |t.binaryFactors| + 1
  {
    TermPrefix(t, |t.binaryFactors|, vars, n)
  }

  function TermPrefix(t: Term, k: nat, vars: Vars, n: nat): (r: Emitted)
    requires k <= |t.binaryFactors| && TermIn(t, vars.Keys, {})
    ensures r.next == n + TermPrefixClauses(t, k)
    decreases t, k
  {
    if k == 0 then FactorCode(t.factor, vars, n)
    else
      var p := TermPrefix(t, k - 1, vars, n);
      var pair := t.binaryFactors[k - 1];
      var right := FactorCode(pair.rightFactor, vars, p.next);
      Emitted(p.code + Binary(right.code, FactorOperatorCode(pair.operator)), right.next)
  }

  /** `factor::asm`: a constant is one `mov $value, %rax`, a variable one `mov` from its
      frame slot; a parenthesised expression and a unary operation delegate. */
  function FactorCode(f: Factor, vars: Vars, n: nat): (r: Emitted)
    requires FactorIn(f, vars.Keys, {})
    ensures r.next == n + FactorClauses(f)
    decreases f, 0
  {
    match f
    case Constant(v) => Emitted([MovInt(v, Rax)], n)
    case Identifier(name) => Emitted([Mov(RbpOffset(vars[name]), Rax)], n)
    case Parenthesized(e) => ExpressionCode(e, vars, n)
    case UnaryOperation(op) =>
      var operand := FactorCode(op.factor, vars, n);
      Emitted(operand.code + UnaryOperatorCode(op.operator), operand.next)
  }

  // ---------------------------------------------------------------- one pair more

  /** Each prefix is the previous one followed by one more pair's code, numbered from where
      the previous one stopped: the shape of one turn of the generator's loops. */
  lemma OrPrefixStep(e: LogicalOrExpression, k: nat, vars: Vars, n: nat)
    requires k < |e.binaryExpressions| && OrIn(e, vars.Keys, {})
    ensures var p := OrPrefix(e, k, vars, n);
      var right := AndCode(e.binaryExpressions[k].rightExpression, vars, p.next + 1);
      OrPrefix(e, k + 1, vars, n) == Emitted(p.code + OrClauseCode(p.next, right.code), right.next)
  {
  }

  lemma AndPrefixStep(e: LogicalAndExpression, k: nat, vars: Vars, n: nat)
    requires k < |e.binaryExpressions| && AndIn(e, vars.Keys, {})
    ensures var p := AndPrefix(e, k, vars, n);
      var right := EqualityCode(e.binaryExpressions[k].rightExpression, vars, p.next + 1);
      AndPrefix(e, k + 1, vars, n) == Emitted(p.code + AndClauseCode(p.next, right.code), right.next)
  {
  }

  lemma EqualityPrefixStep(e: EqualityExpression, k: nat, vars: Vars, n: nat)
    requires k < |e.binaryExpressions| && EqualityIn(e, vars.Keys, {})
    ensures var p := EqualityPrefix(e, k, vars, n);
      var pair := e.binaryExpressions[k];
      var right := RelationalCode(pair.rightExpression, vars, p.next);
      EqualityPrefix(e, k + 1, vars, n)
        == Emitted(p.code + Binary(right.code, CompareCode(EqualityCondition(pair.operator))), right.next)
  {
  }

  lemma RelationalPrefixStep(e: RelationalExpression, k: nat, vars: Vars, n: nat)
    requires k < |e.binaryExpressions| && RelationalIn(e, vars.Keys, {})
    ensures var p := RelationalPrefix(e, k, vars, n);
      var pair := e.binaryExpressions[k];
      var right := AdditiveCode(pair.rightExpression, vars, p.next);
      RelationalPrefix(e, k + 1, vars, n)
        == Emitted(p.code + Binary(right.code, CompareCode(RelationalCondition(pair.operator))), right.next)
  {
  }

  lemma AdditivePrefixStep(e: AdditiveExpression, k: nat, vars: Vars, n: nat)
    requires k < |e.binaryTerms| && AdditiveIn(e, vars.Keys, {})
    ensures var p := AdditivePrefix(e, k, vars, n);
      var pair := e.binaryTerms[k];
      var right := TermCode(pair.rightTerm, vars, p.next);
      AdditivePrefix(e, k + 1, vars, n)
        == Emitted(p.code + Binary(right.code, AdditiveOperatorCode(pair.operator)), right.next)
  {
  }

  lemma TermPrefixStep(t: Term, k: nat, vars: Vars, n: nat)
    requires k < |t.binaryFactors| && TermIn(t, vars.Keys, {})
    ensures var p := TermPrefix(t, k, vars, n);
      var pair := t.binaryFactors[k];
      var right := FactorCode(pair.rightFactor, vars, p.next);
      TermPrefix(t, k + 1, vars, n)
        == Emitted(p.code + Binary(right.code, FactorOperatorCode(pair.operator)), right.next)
  {
  }

  // ---------------------------------------------------------------- statements and functions

  /** The generator has code for `return` statements only. */
  predicate Generable(s: Statement, vars: Vars) {
    s.Return? && ExpressionIn(s.expression, vars.Keys, {})
  }

  /** `statement::asm`: the expression's code, then `ret`. */
  function StatementCode(s: Statement, vars: Vars, n: nat): (r: Emitted)
    requires Generable(s, vars)
    ensures r.next == n + ExpressionClauses(s.expression)
  {
    var e := ExpressionCode(s.expression, vars, n);
    Emitted(e.code + [Ret], e.next)
  }

  /** The clauses the code of the first `k` statements takes. */
  function StatementsClauses(statements: seq<Statement>, k: nat, vars: Vars): nat
    requires k <= |statements| && forall i :: 0 <= i < |statements| ==> Generable(statements[i], vars)
  {
    if k == 0 then 0 else StatementsClauses(statements, k - 1, vars) + ExpressionClauses(statements[k - 1].expression)
  }

  /** The code of the first `k` statements, one after another. */
  function StatementsPrefix(statements: seq<Statement>, k: nat, vars: Vars, n: nat): (r: Emitted)
    requires k <= |statements| && forall i :: 0 <= i < |statements| ==> Generable(statements[i], vars)
    ensures r.next == n + StatementsClauses(statements, k, vars)
  {
    if k == 0 then Emitted([], n)
    else
      var p := StatementsPrefix(statements, k - 1, vars, n);
      var c := StatementCode(statements[k - 1], vars, p.next);
      Emitted(p.code + c.code, c.next)
  }

  lemma StatementsPrefixStep(statements: seq<Statement>, k: nat, vars: Vars, n: nat)
    requires k < |statements| && forall i :: 0 <= i < |statements| ==> Generable(statements[i], vars)
    ensures var p := StatementsPrefix(statements, k, vars, n);
      var c := StatementCode(statements[k], vars, p.next);
      StatementsPrefix(statements, k + 1, vars, n) == Emitted(p.code + c.code, c.next)
  {
  }

  /** `function::asm`: the label, the statements, `mov $0, %rax` unless the last statement
      is a return, and the epilogue. */
  function FunctionCode(f: Function, n: nat): (r: Emitted)
    requires forall i :: 0 <= i < |f.statements| ==> Generable(f.statements[i], f.stackFrame.vars)
    ensures r.next == n + StatementsClauses(f.statements, |f.statements|, f.stackFrame.vars)
  {
    var body := StatementsPrefix(f.statements, |f.statements|, f.stackFrame.vars, n);
    var default := if EndsWithReturn(f.statements) then [] else [MovInt(0, Rax)];
    Emitted([Globl(f.name), Label("_" + f.name)] + body.code + default + [FunctionReturn], body.next)
  }
}

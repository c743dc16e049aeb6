/** The one-pass code generator: one method per node kind, each appending to the emitter.
    Every method appends exactly the code CodeGen gives for its node and the clause counter
    on entry, and leaves the counter where that code's clauses end.

    The fixed runs of emitter calls inside the loops (the opening and the closing of a
    clause, the instructions that combine two operands) are grouped into small methods; the
    calls and their order are the generator's own. */
module Generator {
  import opened Ast
  import opened Asm
  import opened Parser
  import opened CodeGen
  import opened FunctionParser

  // ---------------------------------------------------------------- grouped emitter calls

  /** `new_clause`, `cmp $0, %rax`, `je start`, `mov $1, %rax`, `jmp end`, `start:`. */
  method OpenOrClause(asm: Asm) returns (clause: Clause)
    modifies asm
    ensures fresh(clause) && clause.state == Started && clause.count == old(asm.clauseCount)
    ensures asm.code == old(asm.code) + OrOpening(clause.count)
    ensures asm.clauseCount == old(asm.clauseCount) + 1
  {
    clause := asm.NewClause();
    asm.CmpInt(0, Rax);
    asm.Je(clause.StartId());
    asm.MovInt(1, Rax);
    asm.Jmp(clause.EndId());
    asm.StartClause(clause);
    assert asm.code == old(asm.code) + OrOpening(clause.count);
  }

  /** `new_clause`, `cmp $0, %rax`, `jne start`, `jmp end`, `start:`. */
  method OpenAndClause(asm: Asm) returns (clause: Clause)
    modifies asm
    ensures fresh(clause) && clause.state == Started && clause.count == old(asm.clauseCount)
    ensures asm.code == old(asm.code) + AndOpening(clause.count)
    ensures asm.clauseCount == old(asm.clauseCount) + 1
  {
    clause := asm.NewClause();
    asm.CmpInt(0, Rax);
    asm.Jne(clause.StartId());
    asm.Jmp(clause.EndId());
    asm.StartClause(clause);
    assert asm.code == old(asm.code) + AndOpening(clause.count);
  }

  /** `cmp $0, %rax`, `mov $0, %rax`, `setne %al`, `end:`. */
  method CloseClause(asm: Asm, clause: Clause)
    requires clause.state == Started
    modifies asm, clause
    ensures clause.state == Ended
    ensures asm.code == old(asm.code) + ClauseClosing(clause.count)
    ensures asm.clauseCount == old(asm.clauseCount)
  {
    asm.CmpInt(0, Rax);
    asm.MovInt(0, Rax);
    asm.SetCondition(NE, Al);
    asm.EndClause(clause);
    assert asm.code == old(asm.code) + ClauseClosing(clause.count);
  }

  /** `cmp %rax, %rcx`, `mov $0, %rax`, then the `setX %al` of the operator. */
  method CompareAsm(asm: Asm, c: Condition)
    modifies asm
    ensures asm.code == old(asm.code) + CompareCode(c)
    ensures asm.clauseCount == old(asm.clauseCount)
  {
    asm.Cmp(Rax, Rcx);
    asm.MovInt(0, Rax);
    asm.SetCondition(c, Al);
    assert asm.code == old(asm.code) + CompareCode(c);
  }

  method AdditiveOperatorAsm(asm: Asm, op: AdditiveOperator)
    modifies asm
    ensures asm.code == old(asm.code) + AdditiveOperatorCode(op)
    ensures asm.clauseCount == old(asm.clauseCount)
  {
    match op
    case Addition =>
      asm.Add(Rcx, Rax);
    case Subtraction =>
      asm.Sub(Rax, Rcx);
      asm.Mov(Rcx, Rax);
      assert asm.code == old(asm.code) + AdditiveOperatorCode(op);
  }

  method FactorOperatorAsm(asm: Asm, op: BinaryFactorOperator)
    modifies asm
    ensures asm.code == old(asm.code) + FactorOperatorCode(op)
    ensures asm.clauseCount == old(asm.clauseCount)
  {
    match op
    case Multiplication =>
      asm.Imul(Rcx, Rax);
    case Division =>
      asm.Mov(Rcx, Rdx);
      asm.Mov(Rax, Rcx);
      asm.Mov(Rdx, Rax);
      asm.MovInt(0, Rdx);
      asm.Idiv(Rcx);
      assert asm.code == old(asm.code) + FactorOperatorCode(op);
  }

  method UnaryOperatorAsm(asm: Asm, op: UnaryOperator)
    modifies asm
    ensures asm.code == old(asm.code) + UnaryOperatorCode(op)
    ensures asm.clauseCount == old(asm.clauseCount)
  {
    match op
    case Negation =>
      asm.Neg(Rax);
    case LogicalNegation =>
      asm.CmpInt(0, Rax);
      asm.MovInt(0, Rax);
      asm.SetCondition(E, Al);
      assert asm.code == old(asm.code) + UnaryOperatorCode(op);
    case BitwiseComplement =>
      asm.Not(Rax);
  }

  /** The buffer after one more pair: what was there, then the pair's code. */
  lemma Spliced(start: seq<Instr>, p: seq<Instr>, open: seq<Instr>, right: seq<Instr>, close: seq<Instr>)
    ensures start + p + open + right + close == start + (p + (open + right + close))
  {
  }

  lemma Appended(start: seq<Instr>, p: seq<Instr>, more: seq<Instr>)
    ensures start + p + more == start + (p + more)
  {
  }

  lemma BinarySpliced(start: seq<Instr>, p: seq<Instr>, right: seq<Instr>, combine: seq<Instr>)
    ensures start + p + [Push(Rax)] + right + [Pop(Rcx)] + combine == start + (p + Binary(right, combine))
  {
  }

  /** One `||` pair: its clause, with the right operand between the clause's labels. */
  method OrClauseAsm(asm: Asm, right: LogicalAndExpression, vars: Vars)
    requires AndIn(right, vars.Keys, {})
    modifies asm
    ensures var r := AndCode(right, vars, old(asm.clauseCount) + 1);
      asm.code == old(asm.code) + OrClauseCode(old(asm.clauseCount), r.code) && asm.clauseCount == r.next
    decreases right, 1
  {
    var clause := OpenOrClause(asm);
    LogicalAndAsm(asm, right, vars);
    CloseClause(asm, clause);
  }

  /** One `&&` pair, likewise. */
  method AndClauseAsm(asm: Asm, right: EqualityExpression, vars: Vars)
    requires EqualityIn(right, vars.Keys, {})
    modifies asm
    ensures var r := EqualityCode(right, vars, old(asm.clauseCount) + 1);
      asm.code == old(asm.code) + AndClauseCode(old(asm.clauseCount), r.code) && asm.clauseCount == r.next
    decreases right, 1
  {
    var clause := OpenAndClause(asm);
    EqualityAsm(asm, right, vars);
    CloseClause(asm, clause);
  }

  // ---------------------------------------------------------------- the node methods

  /** `expression::asm`: the left operand, then for each `||` a fresh clause whose start
      label opens the right operand and whose end label closes it. */
  method ExpressionAsm(asm: Asm, e: Expression, vars: Vars)
    requires ExpressionIn(e, vars.Keys, {})
    modifies asm
    ensures asm.code == old(asm.code) + ExpressionCode(e, vars, old(asm.clauseCount)).code
    ensures asm.clauseCount == ExpressionCode(e, vars, old(asm.clauseCount)).next
    decreases e, 0
  {
    var or := e.or;
    ghost var n := asm.clauseCount;
    ghost var start := asm.code;
    LogicalAndAsm(asm, or.expression, vars);
    for i := 0 to |or.binaryExpressions|
      invariant asm.code == start + OrPrefix(or, i, vars, n).code
      invariant asm.clauseCount == OrPrefix(or, i, vars, n).next
    {
      var pair := or.binaryExpressions[i];
      ghost var p := OrPrefix(or, i, vars, n);
      ghost var right := AndCode(pair.rightExpression, vars, p.next + 1).code;
      OrPrefixStep(or, i, vars, n);
      OrClauseAsm(asm, pair.rightExpression, vars);
      Appended(start, p.code, OrClauseCode(p.next, right));
    }
  }

  /** `logical_and_asm`: as for `||`, with the jump to the right operand taken on non-zero. */
  method LogicalAndAsm(asm: Asm, e: LogicalAndExpression, vars: Vars)
    requires AndIn(e, vars.Keys, {})
    modifies asm
    ensures asm.code == old(asm.code) + AndCode(e, vars, old(asm.clauseCount)).code
    ensures asm.clauseCount == AndCode(e, vars, old(asm.clauseCount)).next
    decreases e, 0
  {
    ghost var n := asm.clauseCount;
    ghost var start := asm.code;
    EqualityAsm(asm, e.expression, vars);
    for i := 0 to |e.binaryExpressions|
      invariant asm.code == start + AndPrefix(e, i, vars, n).code
      invariant asm.clauseCount == AndPrefix(e, i, vars, n).next
    {
      var pair := e.binaryExpressions[i];
      ghost var p := AndPrefix(e, i, vars, n);
      ghost var right := EqualityCode(pair.rightExpression, vars, p.next + 1).code;
      AndPrefixStep(e, i, vars, n);
      AndClauseAsm(asm, pair.rightExpression, vars);
      Appended(start, p.code, AndClauseCode(p.next, right));
    }
  }

  /** `equality_asm`: each pair saves the left value, computes the right one, compares. */
  method EqualityAsm(asm: Asm, e: EqualityExpression, vars: Vars)
    requires EqualityIn(e, vars.Keys, {})
    modifies asm
    ensures asm.code == old(asm.code) + EqualityCode(e, vars, old(asm.clauseCount)).code
    ensures asm.clauseCount == EqualityCode(e, vars, old(asm.clauseCount)).next
    decreases e, 0
  {
    ghost var n := asm.clauseCount;
    ghost var start := asm.code;
    RelationalAsm(asm, e.expression, vars);
    for i := 0 to |e.binaryExpressions|
      invariant asm.code == start + EqualityPrefix(e, i, vars, n).code
      invariant asm.clauseCount == EqualityPrefix(e, i, vars, n).next
    {
      var pair := e.binaryExpressions[i];
      ghost var p := EqualityPrefix(e, i, vars, n);
      ghost var right := RelationalCode(pair.rightExpression, vars, p.next).code;
      EqualityPrefixStep(e, i, vars, n);
      asm.Push(Rax);
      RelationalAsm(asm, pair.rightExpression, vars);
      asm.Pop(Rcx);
      CompareAsm(asm, EqualityCondition(pair.operator));
      BinarySpliced(start, p.code, right, CompareCode(EqualityCondition(pair.operator)));
    }
  }

  /** `relational_asm`: as `equality_asm`, with `setl`, `setle`, `setg` or `setge`. */
  method RelationalAsm(asm: Asm, e: RelationalExpression, vars: Vars)
    requires RelationalIn(e, vars.Keys, {})
    modifies asm
    ensures asm.code == old(asm.code) + RelationalCode(e, vars, old(asm.clauseCount)).code
    ensures asm.clauseCount == RelationalCode(e, vars, old(asm.clauseCount)).next
    decreases e, 0
  {
    ghost var n := asm.clauseCount;
    ghost var start := asm.code;
    AdditiveAsm(asm, e.expression, vars);
    for i := 0 to |e.binaryExpressions|
      invariant asm.code == start + RelationalPrefix(e, i, vars, n).code
      invariant asm.clauseCount == RelationalPrefix(e, i, vars, n).next
    {
      var pair := e.binaryExpressions[i];
      ghost var p := RelationalPrefix(e, i, vars, n);
      ghost var right := AdditiveCode(pair.rightExpression, vars, p.next).code;
      RelationalPrefixStep(e, i, vars, n);
      asm.Push(Rax);
      AdditiveAsm(asm, pair.rightExpression, vars);
      asm.Pop(Rcx);
      CompareAsm(asm, RelationalCondition(pair.operator));
      BinarySpliced(start, p.code, right, CompareCode(RelationalCondition(pair.operator)));
    }
  }

  /** `additive_asm`: `add %rcx, %rax`, or `sub %rax, %rcx; mov %rcx, %rax`. */
  method AdditiveAsm(asm: Asm, e: AdditiveExpression, vars: Vars)
    requires AdditiveIn(e, vars.Keys, {})
    modifies asm
    ensures asm.code == old(asm.code) + AdditiveCode(e, vars, old(asm.clauseCount)).code
    ensures asm.clauseCount == AdditiveCode(e, vars, old(asm.clauseCount)).next
    decreases e, 0
  {
    ghost var n := asm.clauseCount;
    ghost var start := asm.code;
    TermAsm(asm, e.term, vars);
    for i := 0 to |e.binaryTerms|
      invariant asm.code == start + AdditivePrefix(e, i, vars, n).code
      invariant asm.clauseCount == AdditivePrefix(e, i, vars, n).next
    {
      var pair := e.binaryTerms[i];
      ghost var p := AdditivePrefix(e, i, vars, n);
      ghost var right := TermCode(pair.rightTerm, vars, p.next).code;
      AdditivePrefixStep(e, i, vars, n);
      asm.Push(Rax);
      TermAsm(asm, pair.rightTerm, vars);
      asm.Pop(Rcx);
      AdditiveOperatorAsm(asm, pair.operator);
      BinarySpliced(start, p.code, right, AdditiveOperatorCode(pair.operator));
    }
  }

  /** `term::asm`: `imul %rcx, %rax`, or the division sequence ending in `idiv %rcx`. */
  method TermAsm(asm: Asm, t: Term, vars: Vars)
    requires TermIn(t, vars.Keys, {})
    modifies asm
    ensures asm.code == old(asm.code) + TermCode(t, vars, old(asm.clauseCount)).code
    ensures asm.clauseCount == TermCode(t, vars, old(asm.clauseCount)).next
    decreases t, 0
  {
    ghost var n := asm.clauseCount;
    ghost var start := asm.code;
    FactorAsm(asm, t.factor, vars);
    for i := 0 to |t.binaryFactors|
      invariant asm.code == start + TermPrefix(t, i, vars, n).code
      invariant asm.clauseCount == TermPrefix(t, i, vars, n).next
    {
      var pair := t.binaryFactors[i];
      ghost var p := TermPrefix(t, i, vars, n);
      ghost var right := FactorCode(pair.rightFactor, vars, p.next).code;
      TermPrefixStep(t, i, vars, n);
      asm.Push(Rax);
      FactorAsm(asm, pair.rightFactor, vars);
      asm.Pop(Rcx);
      FactorOperatorAsm(asm, pair.operator);
      BinarySpliced(start, p.code, right, FactorOperatorCode(pair.operator));
    }
  }

  /** `factor::asm`. */
  method FactorAsm(asm: Asm, f: Factor, vars: Vars)
    requires FactorIn(f, vars.Keys, {})
    modifies asm
    ensures asm.code == old(asm.code) + FactorCode(f, vars, old(asm.clauseCount)).code
    ensures asm.clauseCount == FactorCode(f, vars, old(asm.clauseCount)).next
    decreases f, 1
  {
    match f
    case Parenthesized(e) => ExpressionAsm(asm, e, vars);
    case UnaryOperation(op) => UnaryOperationAsm(asm, op, vars);
    case Constant(v) => asm.MovInt(v, Rax);
    case Identifier(name) => asm.Mov(RbpOffset(vars[name]), Rax);
  }

  /** `unary_operation_asm`: the operand, then `neg`, `not`, or `cmp $0; mov $0; sete`. */
  method UnaryOperationAsm(asm: Asm, op: UnaryOperation, vars: Vars)
    requires FactorIn(op.factor, vars.Keys, {})
    modifies asm
    ensures asm.code == old(asm.code) + FactorCode(Factor.UnaryOperation(op), vars, old(asm.clauseCount)).code
    ensures asm.clauseCount == FactorCode(Factor.UnaryOperation(op), vars, old(asm.clauseCount)).next
    decreases op, 0
  {
    FactorAsm(asm, op.factor, vars);
    UnaryOperatorAsm(asm, op.operator);
  }

  /** `statement::asm`: only `return` has code. */
  method StatementAsm(asm: Asm, s: Statement, vars: Vars)
    requires Generable(s, vars)
    modifies asm
    ensures asm.code == old(asm.code) + StatementCode(s, vars, old(asm.clauseCount)).code
    ensures asm.clauseCount == StatementCode(s, vars, old(asm.clauseCount)).next
  {
    ExpressionAsm(asm, s.expression, vars);
    asm.Ret();
  }

  /** `function::asm`. */
  method FunctionAsm(asm: Asm, f: Function)
    requires forall i :: 0 <= i < |f.statements| ==> Generable(f.statements[i], f.stackFrame.vars)
    modifies asm
    ensures asm.code == old(asm.code) + FunctionCode(f, old(asm.clauseCount)).code
    ensures asm.clauseCount == FunctionCode(f, old(asm.clauseCount)).next
  {
    var hasReturn := |f.statements| > 0 && f.statements[|f.statements| - 1].Return?;
    ghost var n := asm.clauseCount;
    ghost var start := asm.code;
    ghost var header := [Globl(f.name), Label("_" + f.name)];
    var vars := f.stackFrame.vars;
    asm.DeclareFunction(f.name);
    for i := 0 to |f.statements|
      invariant asm.code == start + header + StatementsPrefix(f.statements, i, vars, n).code
      invariant asm.clauseCount == StatementsPrefix(f.statements, i, vars, n).next
    {
      ghost var p := StatementsPrefix(f.statements, i, vars, n);
      StatementsPrefixStep(f.statements, i, vars, n);
      StatementAsm(asm, f.statements[i], vars);
      Appended(start + header, p.code, StatementCode(f.statements[i], vars, p.next).code);
    }
    if !hasReturn {
      asm.MovInt(0, Rax);
    }
    asm.FunctionReturn();
  }
}

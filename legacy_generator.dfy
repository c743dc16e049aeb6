/** The older string-returning code generator. It is written against a tree of its own: an
    expression is a term followed by (additive operator, term) pairs, a term is a factor
    followed by (multiplicative operator, factor) pairs, and a factor is a constant, a unary
    operation or a parenthesised expression. The parser that built that tree is not part of
    this model; the tree is declared here as the generator uses it.

    Each node's method returns the text of its code. The text is specified as the rendering of
    an instruction list; the instruction lists are those the modular generator gives the same
    tree (lifted into its own syntax tree), so the older generator computes what the modular
    one computes. */
module LegacyGenerator {
  import opened Int64
  import opened Numerals
  import opened Asm
  import opened Machine
  import Ast
  import CodeGen
  import Parser
  import Evaluator
  import Correctness
  import ProgramCorrectness

  datatype BinaryTerm = BinaryTerm(operator: Ast.AdditiveOperator, rightTerm: Term)
  datatype Expression = Expression(term: Term, binaryTerms: seq<BinaryTerm>)
  datatype BinaryFactor = BinaryFactor(operator: Ast.BinaryFactorOperator, rightFactor: Factor)
  datatype Term = Term(factor: Factor, binaryFactors: seq<BinaryFactor>)
  datatype Factor =
    | Constant(value: i64)
    | UnaryOperation(operation: UnaryOperation)
    | Parenthesized(expression: Expression)
  datatype UnaryOperation = UnaryOperation(operator: Ast.UnaryOperator, factor: Factor)
  datatype Statement = Return(expression: Expression)
  datatype Function = Function(name: string, statement: Statement)
  datatype Program = Program(func: Function)

  // ---------------------------------------------------------------- the code of each node

  /** An expression: its first term, then each pair saved, computed and combined in order. */
  function ExpressionCode(e: Expression): seq<Instr>
    decreases e, |e.binaryTerms| + 1
  {
    ExpressionPrefix(e, |e.binaryTerms|)
  }

  /** The first term and the first `k` pairs. */
  function ExpressionPrefix(e: Expression, k: nat): seq<Instr>
    requires k <= |e.binaryTerms|
    decreases e, k
  {
    if k == 0 then TermCode(e.term)
    else
      var pair := e.binaryTerms[k - 1];
      ExpressionPrefix(e, k - 1) + CodeGen.Binary(TermCode(pair.rightTerm), CodeGen.AdditiveOperatorCode(pair.operator))
  }

  function TermCode(t: Term): seq<Instr>
    decreases t, |t.binaryFactors| + 1
  {
    TermPrefix(t, |t.binaryFactors|)
  }

  function TermPrefix(t: Term, k: nat): seq<Instr>
    requires k <= |t.binaryFactors|
    decreases t, k
  {
    if k == 0 then FactorCode(t.factor)
    else
      var pair := t.binaryFactors[k - 1];
      TermPrefix(t, k - 1) + CodeGen.Binary(FactorCode(pair.rightFactor), CodeGen.FactorOperatorCode(pair.operator))
  }

  function FactorCode(f: Factor): seq<Instr>
    decreases f, 0
  {
    match f
    case Constant(v) => [MovInt(v, Rax)]
    case UnaryOperation(op) => UnaryOperationCode(op)
    case Parenthesized(e) => ExpressionCode(e)
  }

  function UnaryOperationCode(op: UnaryOperation): seq<Instr>
    decreases op.factor, 1
  {
    FactorCode(op.factor) + CodeGen.UnaryOperatorCode(op.operator)
  }

  function StatementCode(s: Statement): seq<Instr> {
    ExpressionCode(s.expression) + [Ret]
  }

  /** The directive, the label `_name`, then the statement. */
  function FunctionCode(f: Function): seq<Instr> {
    [Globl(f.name), Label("_" + f.name)] + StatementCode(f.statement)
  }

  // ---------------------------------------------------------------- text of instruction lists

  lemma Associative(x: string, y: string, z: string)
    ensures (x + y) + z == x + (y + z)
  {}

  lemma AssociativeCode(x: seq<Instr>, y: seq<Instr>, z: seq<Instr>)
    ensures (x + y) + z == x + (y + z)
  {}

  lemma SplitLast(b: seq<Instr>)
    requires |b| > 0
    ensures b == b[..|b| - 1] + [b[|b| - 1]]
  {}

  /** The text of two lists one after the other is the two texts one after the other. */
  lemma {:induction false} RenderConcat(a: seq<Instr>, b: seq<Instr>)
    ensures RenderCode(a + b) == RenderCode(a) + RenderCode(b)
    decreases |b|
  {
    if |b| == 0 {
      assert a + b == a;
    } else {
      var c := b[..|b| - 1];
      SplitLast(b);
      RenderConcat(a, c);
      RenderConcatStep(a, c, b[|b| - 1]);
    }
  }

  lemma RenderConcatStep(a: seq<Instr>, c: seq<Instr>, last: Instr)
    requires RenderCode(a + c) == RenderCode(a) + RenderCode(c)
    ensures RenderCode(a + (c + [last])) == RenderCode(a) + RenderCode(c + [last])
  {
    AssociativeCode(a, c, [last]);
    RenderOfAppend(a + c, last);
    RenderOfAppend(c, last);
    Associative(RenderCode(a), RenderCode(c), Render(last));
  }

  /** The lines the generator writes, each the text of one instruction. */
  lemma PushLine()
    ensures Render(Push(Rax)) == "\tpush\t%rax\n"
  {}

  lemma PopLine()
    ensures Render(Pop(Rcx)) == "\tpop\t%rcx\n"
  {}

  lemma AddLine()
    ensures Render(Add(Rcx, Rax)) == "\tadd\t%rcx, %rax\n"
  {}

  lemma SubLine()
    ensures Render(Sub(Rax, Rcx)) == "\tsub\t%rax, %rcx\n"
  {}

  lemma MovRcxRaxLine()
    ensures Render(Mov(Rcx, Rax)) == "\tmov\t%rcx, %rax\n"
  {}

  lemma ImulLine()
    ensures Render(Imul(Rcx, Rax)) == "\timul\t%rcx, %rax\n"
  {}

  lemma MovRcxRdxLine()
    ensures Render(Mov(Rcx, Rdx)) == "\tmov\t%rcx, %rdx\n"
  {}

  lemma MovRaxRcxLine()
    ensures Render(Mov(Rax, Rcx)) == "\tmov\t%rax, %rcx\n"
  {}

  lemma MovRdxRaxLine()
    ensures Render(Mov(Rdx, Rax)) == "\tmov\t%rdx, %rax\n"
  {}

  lemma ClearRdxLine()
    ensures Render(MovInt(0, Rdx)) == "\tmov\t$0, %rdx\n"
  {
    assert IntToString(0) == "0";
  }

  lemma IdivLine()
    ensures Render(Idiv(Rcx)) == "\tidiv\t%rcx\n"
  {}

  lemma NegLine()
    ensures Render(Neg(Rax)) == "\tneg\t%rax\n"
  {}

  lemma CmpZeroLine()
    ensures Render(CmpInt(0, Rax)) == "\tcmp\t$0, %rax\n"
  {
    assert IntToString(0) == "0";
  }

  lemma ClearRaxLine()
    ensures Render(MovInt(0, Rax)) == "\tmov\t$0, %rax\n"
  {
    assert IntToString(0) == "0";
  }

  lemma SeteLine()
    ensures Render(Set(E, Al)) == "\tsete\t%al\n"
  {}

  lemma NotLine()
    ensures Render(Not(Rax)) == "\tnot\t%rax\n"
  {}

  /** A constant's line: `mov $value, %rax`, the value in decimal. */
  lemma ConstantLine(value: i64)
    ensures Render(MovInt(value, Rax)) == "\tmov\t$" + IntToString(value as int) + ", %rax\n"
  {
    var x := "\tmov\t$" + IntToString(value as int);
    Associative(x + ", ", "%rax", "\n");
    Associative(x, ", ", "%rax\n");
  }

  /** One instruction's text. */
  lemma RenderOne(i: Instr)
    ensures RenderCode([i]) == Render(i)
  {
    RenderOfAppend([], i);
    assert [] + [i] == [i];
  }

  /** One (operator, operand) pair more is `push %rax`, the operand, `pop %rcx` and the
      operator's instructions. */
  lemma PairShape(p: seq<Instr>, right: seq<Instr>, combine: seq<Instr>)
    ensures p + CodeGen.Binary(right, combine) == p + [Push(Rax)] + right + [Pop(Rcx)] + combine
  {}

  lemma AdditiveShape(code: seq<Instr>, op: Ast.AdditiveOperator)
    ensures op.Addition? ==> code + CodeGen.AdditiveOperatorCode(op) == code + [Add(Rcx, Rax)]
    ensures op.Subtraction? ==> code + CodeGen.AdditiveOperatorCode(op) == code + [Sub(Rax, Rcx)] + [Mov(Rcx, Rax)]
  {}

  lemma FactorShape(code: seq<Instr>, op: Ast.BinaryFactorOperator)
    ensures op.Multiplication? ==> code + CodeGen.FactorOperatorCode(op) == code + [Imul(Rcx, Rax)]
    ensures op.Division? ==>
      code + CodeGen.FactorOperatorCode(op)
        == code + [Mov(Rcx, Rdx)] + [Mov(Rax, Rcx)] + [Mov(Rdx, Rax)] + [MovInt(0, Rdx)] + [Idiv(Rcx)]
  {}

  lemma UnaryShape(code: seq<Instr>, op: Ast.UnaryOperator)
    ensures op.Negation? ==> code + CodeGen.UnaryOperatorCode(op) == code + [Neg(Rax)]
    ensures op.LogicalNegation? ==>
      code + CodeGen.UnaryOperatorCode(op) == code + [CmpInt(0, Rax)] + [MovInt(0, Rax)] + [Set(E, Al)]
    ensures op.BitwiseComplement? ==> code + CodeGen.UnaryOperatorCode(op) == code + [Not(Rax)]
  {}

  // ---------------------------------------------------------------- the generator methods

  /** `expression_asm`: the first term's text, then for each pair `push %rax`, the term,
      `pop %rcx` and the operator's lines. */
  method ExpressionAsm(e: Expression) returns (asm: string)
    ensures asm == RenderCode(ExpressionCode(e))
    decreases e, 0
  {
    ghost var code := ExpressionPrefix(e, 0);
    assert code == TermCode(e.term);
    asm := TermAsm(e.term);
    for i := 0 to |e.binaryTerms|
      invariant code == ExpressionPrefix(e, i) && asm == RenderCode(code)
    {
      asm, code := BinaryTermAsm(asm, code, e.binaryTerms[i]);
    }
    assert code == ExpressionCode(e);
  }

  /** One turn of `expression_asm`'s loop: `push %rax`, the term, `pop %rcx` and the
      operator's lines, appended to the text so far. */
  method BinaryTermAsm(asm: string, ghost code: seq<Instr>, term: BinaryTerm) returns (text: string, ghost next: seq<Instr>)
    requires asm == RenderCode(code)
    ensures next == code + CodeGen.Binary(TermCode(term.rightTerm), CodeGen.AdditiveOperatorCode(term.operator))
    ensures text == RenderCode(next)
    decreases term, 0
  {
    ghost var c := code;
    PairShape(code, TermCode(term.rightTerm), CodeGen.AdditiveOperatorCode(term.operator));
    text := asm + "\tpush\t%rax\n";
    PushLine();
    RenderOfAppend(c, Push(Rax));
    c := c + [Push(Rax)];
    var right := TermAsm(term.rightTerm);
    text := text + right;
    RenderConcat(c, TermCode(term.rightTerm));
    c := c + TermCode(term.rightTerm);
    text := text + "\tpop\t%rcx\n";
    PopLine();
    RenderOfAppend(c, Pop(Rcx));
    c := c + [Pop(Rcx)];
    text := AdditiveOperatorAsm(text, c, term.operator);
    next := c + CodeGen.AdditiveOperatorCode(term.operator);
  }

  /** The operator's lines of one (operator, term) pair: `add %rcx, %rax`, or
      `sub %rax, %rcx` then `mov %rcx, %rax`. */
  method AdditiveOperatorAsm(asm: string, ghost code: seq<Instr>, op: Ast.AdditiveOperator) returns (text: string)
    requires asm == RenderCode(code)
    ensures text == RenderCode(code + CodeGen.AdditiveOperatorCode(op))
  {
    AdditiveShape(code, op);
    match op {
      case Addition =>
        text := asm + "\tadd\t%rcx, %rax\n";
        AddLine();
        RenderOfAppend(code, Add(Rcx, Rax));
      case Subtraction =>
        text := asm + "\tsub\t%rax, %rcx\n";
        SubLine();
        RenderOfAppend(code, Sub(Rax, Rcx));
        text := text + "\tmov\t%rcx, %rax\n";
        MovRcxRaxLine();
        RenderOfAppend(code + [Sub(Rax, Rcx)], Mov(Rcx, Rax));
    }
  }

  /** `term_asm`: the same shape over the factors. */
  method TermAsm(t: Term) returns (asm: string)
    ensures asm == RenderCode(TermCode(t))
    decreases t, 0
  {
    asm := FactorAsm(t.factor);
    ghost var code := FactorCode(t.factor);
    assert code == TermPrefix(t, 0);
    for i := 0 to |t.binaryFactors|
      invariant code == TermPrefix(t, i) && asm == RenderCode(code)
    {
      asm, code := BinaryFactorAsm(asm, code, t.binaryFactors[i]);
    }
    assert code == TermCode(t);
  }

  /** One turn of `term_asm`'s loop: `push %rax`, the factor, `pop %rcx` and the operator's
      lines, appended to the text so far. */
  method BinaryFactorAsm(asm: string, ghost code: seq<Instr>, factor: BinaryFactor) returns (text: string, ghost next: seq<Instr>)
    requires asm == RenderCode(code)
    ensures next == code + CodeGen.Binary(FactorCode(factor.rightFactor), CodeGen.FactorOperatorCode(factor.operator))
    ensures text == RenderCode(next)
    decreases factor, 0
  {
    ghost var c := code;
    PairShape(code, FactorCode(factor.rightFactor), CodeGen.FactorOperatorCode(factor.operator));
    text := asm + "\tpush\t%rax\n";
    PushLine();
    RenderOfAppend(c, Push(Rax));
    c := c + [Push(Rax)];
    var right := FactorAsm(factor.rightFactor);
    text := text + right;
    RenderConcat(c, FactorCode(factor.rightFactor));
    c := c + FactorCode(factor.rightFactor);
    text := text + "\tpop\t%rcx\n";
    PopLine();
    RenderOfAppend(c, Pop(Rcx));
    c := c + [Pop(Rcx)];
    text := FactorOperatorAsm(text, c, factor.operator);
    next := c + CodeGen.FactorOperatorCode(factor.operator);
  }

  /** The operator's lines of one (operator, factor) pair: `imul %rcx, %rax`, or the division:
      the operands swapped through rdx, rdx cleared, then `idiv %rcx`. */
  method FactorOperatorAsm(asm: string, ghost code: seq<Instr>, op: Ast.BinaryFactorOperator) returns (text: string)
    requires asm == RenderCode(code)
    ensures text == RenderCode(code + CodeGen.FactorOperatorCode(op))
  {
    FactorShape(code, op);
    match op {
      case Multiplication =>
        text := asm + "\timul\t%rcx, %rax\n";
        ImulLine();
        RenderOfAppend(code, Imul(Rcx, Rax));
      case Division =>
        ghost var c := code;
        text := asm + "\tmov\t%rcx, %rdx\n";
        MovRcxRdxLine();
        RenderOfAppend(c, Mov(Rcx, Rdx));
        c := c + [Mov(Rcx, Rdx)];
        text := text + "\tmov\t%rax, %rcx\n";
        MovRaxRcxLine();
        RenderOfAppend(c, Mov(Rax, Rcx));
        c := c + [Mov(Rax, Rcx)];
        text := text + "\tmov\t%rdx, %rax\n";
        MovRdxRaxLine();
        RenderOfAppend(c, Mov(Rdx, Rax));
        c := c + [Mov(Rdx, Rax)];
        text := text + "\tmov\t$0, %rdx\n";
        ClearRdxLine();
        RenderOfAppend(c, MovInt(0, Rdx));
        c := c + [MovInt(0, Rdx)];
        text := text + "\tidiv\t%rcx\n";
        IdivLine();
        RenderOfAppend(c, Idiv(Rcx));
    }
  }

  /** `factor_asm`: a constant is one `mov $value, %rax` line. */
  method FactorAsm(f: Factor) returns (asm: string)
    ensures asm == RenderCode(FactorCode(f))
    decreases f, 0
  {
    match f {
      case Constant(value) =>
        asm := "\tmov\t$" + IntToString(value as int) + ", %rax\n";
        ConstantLine(value);
        RenderOne(MovInt(value, Rax));
      case UnaryOperation(operation) =>
        asm := UnaryOperationAsm(operation);
      case Parenthesized(expression) =>
        asm := ExpressionAsm(expression);
    }
  }

  /** `unary_operation_asm`: the operand's text, then `neg`, `cmp/mov/sete` or `not`. */
  method UnaryOperationAsm(operation: UnaryOperation) returns (asm: string)
    ensures asm == RenderCode(UnaryOperationCode(operation))
    decreases operation.factor, 1
  {
    asm := FactorAsm(operation.factor);
    ghost var code := FactorCode(operation.factor);
    UnaryShape(code, operation.operator);
    match operation.operator {
      case Negation =>
        asm := asm + "\tneg\t%rax\n";
        NegLine();
        RenderOfAppend(code, Neg(Rax));
      case LogicalNegation =>
        asm := asm + "\tcmp\t$0, %rax\n";
        CmpZeroLine();
        RenderOfAppend(code, CmpInt(0, Rax));
        code := code + [CmpInt(0, Rax)];
        asm := asm + "\tmov\t$0, %rax\n";
        ClearRaxLine();
        RenderOfAppend(code, MovInt(0, Rax));
        code := code + [MovInt(0, Rax)];
        asm := asm + "\tsete\t%al\n";
        SeteLine();
        RenderOfAppend(code, Set(E, Al));
      case BitwiseComplement =>
        asm := asm + "\tnot\t%rax\n";
        NotLine();
        RenderOfAppend(code, Not(Rax));
    }
  }

  /** `statement_asm`: the expression's text, then `ret`. */
  method StatementAsm(statement: Statement) returns (asm: string)
    ensures asm == RenderCode(StatementCode(statement))
  {
    asm := ExpressionAsm(statement.expression);
    asm := asm + "\tret\n";
    RenderOfAppend(ExpressionCode(statement.expression), Ret);
  }

  /** `function_asm`: `.globl _name`, the label `_name:`, then the statement's text. */
  method FunctionAsm(func: Function) returns (asm: string)
    ensures asm == RenderCode(FunctionCode(func))
  {
    asm := "\t.globl\t_" + func.name + "\n";
    asm := asm + ("_" + func.name + ":\n");
    var statement := StatementAsm(func.statement);
    asm := asm + statement;
    var header := [Globl(func.name)] + [Label("_" + func.name)];
    RenderOne(Globl(func.name));
    RenderOfAppend([Globl(func.name)], Label("_" + func.name));
    RenderConcat(header, StatementCode(func.statement));
    assert FunctionCode(func) == header + StatementCode(func.statement);
  }

  /** `program_asm`: the text of its one function. */
  method ProgramAsm(program: Program) returns (asm: string)
    ensures asm == RenderCode(FunctionCode(program.func))
  {
    asm := FunctionAsm(program.func);
  }

  // ---------------------------------------------------------------- the tree, lifted

  /** The modular parser's tree for the same expression: a parenthesised expression becomes a
      full expression whose every level above the additive one has no pairs. */
  function Lift(e: Expression): (a: Ast.AdditiveExpression)
    ensures |a.binaryTerms| == |e.binaryTerms|
    ensures forall readable, writable :: Ast.AdditiveIn(a, readable, writable)
    decreases e, |e.binaryTerms| + 1
  {
    Ast.AdditiveExpression(LiftTerm(e.term), LiftTerms(e, |e.binaryTerms|))
  }

  function LiftTerms(e: Expression, k: nat): (pairs: seq<Ast.BinaryTerms>)
    requires k <= |e.binaryTerms|
    ensures |pairs| == k
    ensures forall i :: 0 <= i < k ==>
      pairs[i] == Ast.BinaryTerms(e.binaryTerms[i].operator, LiftTerm(e.binaryTerms[i].rightTerm))
    ensures forall i, readable, writable :: 0 <= i < k ==> Ast.TermIn(pairs[i].rightTerm, readable, writable)
    decreases e, k
  {
    if k == 0 then []
    else
      var pair := e.binaryTerms[k - 1];
      LiftTerms(e, k - 1) + [Ast.BinaryTerms(pair.operator, LiftTerm(pair.rightTerm))]
  }

  function LiftTerm(t: Term): (a: Ast.Term)
    ensures |a.binaryFactors| == |t.binaryFactors|
    ensures forall readable, writable :: Ast.TermIn(a, readable, writable)
    decreases t, |t.binaryFactors| + 1
  {
    Ast.Term(LiftFactor(t.factor), LiftFactors(t, |t.binaryFactors|))
  }

  function LiftFactors(t: Term, k: nat): (pairs: seq<Ast.BinaryFactor>)
    requires k <= |t.binaryFactors|
    ensures |pairs| == k
    ensures forall i :: 0 <= i < k ==>
      pairs[i] == Ast.BinaryFactor(t.binaryFactors[i].operator, LiftFactor(t.binaryFactors[i].rightFactor))
    ensures forall i, readable, writable :: 0 <= i < k ==> Ast.FactorIn(pairs[i].rightFactor, readable, writable)
    decreases t, k
  {
    if k == 0 then []
    else
      var pair := t.binaryFactors[k - 1];
      LiftFactors(t, k - 1) + [Ast.BinaryFactor(pair.operator, LiftFactor(pair.rightFactor))]
  }

  function LiftFactor(f: Factor): (a: Ast.Factor)
    ensures forall readable, writable :: Ast.FactorIn(a, readable, writable)
    decreases f, 0
  {
    match f
    case Constant(v) => Ast.Constant(v)
    case UnaryOperation(op) => Ast.Factor.UnaryOperation(Ast.UnaryOperation.UnaryOperation(op.operator, LiftFactor(op.factor)))
    case Parenthesized(e) =>
      var a := Lift(e);
      WrapIn(a);
      Ast.Parenthesized(Wrap(a))
  }

  /** An additive expression as a whole expression, with no pairs on the levels above it. */
  function Wrap(a: Ast.AdditiveExpression): Ast.Expression {
    Ast.LogicalOr(Ast.LogicalOrExpression(Ast.LogicalAndExpression(
      Ast.EqualityExpression(Ast.RelationalExpression(a, []), []), []), []))
  }

  /** Wrapping reads and assigns the names the additive expression does. */
  lemma WrapIn(a: Ast.AdditiveExpression)
    requires forall readable, writable :: Ast.AdditiveIn(a, readable, writable)
    ensures forall readable, writable :: Ast.ExpressionIn(Wrap(a), readable, writable)
  {
    forall readable, writable
      ensures Ast.ExpressionIn(Wrap(a), readable, writable)
    {
      var or := Wrap(a).or;
      assert Ast.RelationalIn(or.expression.expression.expression, readable, writable);
      assert Ast.EqualityIn(or.expression.expression, readable, writable);
      assert Ast.AndIn(or.expression, readable, writable);
      assert Ast.OrIn(or, readable, writable);
    }
  }

  /** The modular generator gives a wrapped expression the code of the additive one. */
  lemma WrapCode(a: Ast.AdditiveExpression, n: nat)
    requires forall readable, writable :: Ast.AdditiveIn(a, readable, writable)
    requires forall readable, writable :: Ast.ExpressionIn(Wrap(a), readable, writable)
    ensures CodeGen.ExpressionCode(Wrap(a), map[], n).code == CodeGen.AdditiveCode(a, map[], n).code
  {
    var or := Wrap(a).or;
    var and := or.expression;
    var equality := and.expression;
    var relational := equality.expression;
    var empty: Parser.Vars := map[];
    var keys := empty.Keys;
    assert Ast.ExpressionIn(Wrap(a), keys, {});
    assert Ast.OrIn(or, keys, {}) && Ast.AndIn(and, keys, {});
    assert Ast.EqualityIn(equality, keys, {}) && Ast.RelationalIn(relational, keys, {});
    assert CodeGen.RelationalCode(relational, map[], n) == CodeGen.AdditiveCode(a, map[], n);
    assert CodeGen.EqualityCode(equality, map[], n) == CodeGen.RelationalCode(relational, map[], n);
    assert CodeGen.AndCode(and, map[], n) == CodeGen.EqualityCode(equality, map[], n);
    assert CodeGen.OrCode(or, map[], n) == CodeGen.AndCode(and, map[], n);
  }

  // ---------------------------------------------------------------- same code as the modular generator

  /** The older generator's code for an expression is the modular generator's code for the
      lifted tree, whatever clause number the modular one starts from. */
  lemma {:induction false} SameExpressionCode(e: Expression, k: nat, n: nat)
    requires k <= |e.binaryTerms|
    ensures ExpressionPrefix(e, k) == CodeGen.AdditivePrefix(Lift(e), k, map[], n).code
    decreases e, k
  {
    if k == 0 {
      SameTermCode(e.term, |e.term.binaryFactors|, n);
    } else {
      var p := CodeGen.AdditivePrefix(Lift(e), k - 1, map[], n);
      var pair := e.binaryTerms[k - 1];
      SameExpressionCode(e, k - 1, n);
      SameTermCode(pair.rightTerm, |pair.rightTerm.binaryFactors|, p.next);
    }
  }

  lemma {:induction false} SameTermCode(t: Term, k: nat, n: nat)
    requires k <= |t.binaryFactors|
    ensures TermPrefix(t, k) == CodeGen.TermPrefix(LiftTerm(t), k, map[], n).code
    decreases t, k
  {
    if k == 0 {
      SameFactorCode(t.factor, n);
    } else {
      var p := CodeGen.TermPrefix(LiftTerm(t), k - 1, map[], n);
      var pair := t.binaryFactors[k - 1];
      SameTermCode(t, k - 1, n);
      SameFactorCode(pair.rightFactor, p.next);
    }
  }

  lemma {:induction false} SameFactorCode(f: Factor, n: nat)
    ensures FactorCode(f) == CodeGen.FactorCode(LiftFactor(f), map[], n).code
    decreases f, 0
  {
    match f
    case Constant(_) =>
    case UnaryOperation(op) =>
      SameFactorCode(op.factor, n);
    case Parenthesized(e) =>
      SameExpressionCode(e, |e.binaryTerms|, n);
      WrapIn(Lift(e));
      WrapCode(Lift(e), n);
  }

  // ---------------------------------------------------------------- what the code computes

  /** Run from any state, an expression's code leaves in rax the value the evaluator gives the
      lifted tree (the stack and the frame as they were), or faults on a division by zero,
      except for a division with a negative dividend, on which the evaluator says nothing. */
  lemma ExpressionCorrect(e: Expression, s: State, rest: seq<Instr>) returns (u: State)
    ensures Correctness.Computes(ExpressionCode(e), rest, s, Evaluator.EvalAdditive(Lift(e), map[]), u)
  {
    SameExpressionCode(e, |e.binaryTerms|, 0);
    u := Correctness.AdditiveCorrect(Lift(e), |e.binaryTerms|, map[], map[], 0, s, rest);
  }

  /** A function's code returns the value of its `return` expression, except for a division
      with a negative dividend, on which the evaluator says nothing. */
  lemma FunctionCorrect(f: Function, s: State) returns (u: State)
    ensures ProgramCorrectness.Returned(FunctionCode(f), s, Evaluator.EvalAdditive(Lift(f.statement.expression), map[]), u)
  {
    var e := ExpressionCode(f.statement.expression);
    u := ExpressionCorrect(f.statement.expression, s, [Ret]);
    assert FunctionCode(f) == [Globl(f.name)] + ([Label("_" + f.name)] + (e + [Ret]));
    ExecStraight(Globl(f.name), [Label("_" + f.name)] + (e + [Ret]), s);
    ExecStraight(Label("_" + f.name), e + [Ret], s);
    assert [Ret] + [] == [Ret];
    ExecReturn(Ret, [], u);
  }
}

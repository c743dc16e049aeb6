/** The code of a `return` statement and of a function returns what the expression means.

    The generator accepts only `return` statements, so a function's code returns at its
    first statement; the statements after it are never reached. A function with no statement
    returns 0. */
module ProgramCorrectness {
  import opened Int64
  import opened Ast
  import opened Asm
  import opened Parser
  import opened CodeGen
  import opened Evaluator
  import opened Machine
  import opened FunctionParser
  import opened Correctness

  /** `code` run from `s` returns `v` in rax, from a state `u` with the stack and the frame
      of `s`, or faults when `v` is a division by zero. */
  predicate Returned(code: seq<Instr>, s: State, v: Value, u: State) {
    match v
    case Int(x) => Exec(code, s) == Returns(u) && Leaves(u, s, x)
    case DivisionByZero => Exec(code, s) == Faults
    case NegativeDividend => true
  }

  /** `return e;`, followed by any code, returns the value of `e`. */
  lemma StatementCorrect(st: Statement, vars: Vars, env: Env, n: nat, s: State, rest: seq<Instr>) returns (u: State)
    requires Generable(st, vars) && Agrees(vars, env, s.memory)
    ensures Returned(StatementCode(st, vars, n).code + rest, s, EvalExpression(st.expression, env), u)
  {
    var e := ExpressionCode(st.expression, vars, n).code;
    u := ExpressionCorrect(st.expression, vars, env, n, s, [Ret] + rest);
    ExecReturn(Ret, rest, u);
    assert StatementCode(st, vars, n).code + rest == e + ([Ret] + rest);
  }

  /** The code of the first `k` statements starts with the code of the first one. */
  lemma {:induction false} StatementsPrefixHead(statements: seq<Statement>, k: nat, vars: Vars, n: nat) returns (tail: seq<Instr>)
    requires 0 < k <= |statements| && forall i :: 0 <= i < |statements| ==> Generable(statements[i], vars)
    ensures StatementsPrefix(statements, k, vars, n).code == StatementCode(statements[0], vars, n).code + tail
  {
    var p := StatementsPrefix(statements, k - 1, vars, n);
    var c := StatementCode(statements[k - 1], vars, p.next).code;
    if k == 1 {
      tail := [];
      assert p == Emitted([], n);
    } else {
      var t := StatementsPrefixHead(statements, k - 1, vars, n);
      tail := t + c;
    }
  }

  /** A function with no statement returns 0; otherwise it returns the value of its first
      statement's expression, or faults on a division by zero there. */
  lemma FunctionCorrect(f: Function, n: nat, env: Env, s: State) returns (u: State)
    requires forall i :: 0 <= i < |f.statements| ==> Generable(f.statements[i], f.stackFrame.vars)
    requires Agrees(f.stackFrame.vars, env, s.memory)
    ensures |f.statements| == 0 ==> Returned(FunctionCode(f, n).code, s, Int(0), u)
    ensures |f.statements| > 0 ==> Returned(FunctionCode(f, n).code, s, EvalExpression(f.statements[0].expression, env), u)
  {
    var vars := f.stackFrame.vars;
    var body := StatementsPrefix(f.statements, |f.statements|, vars, n).code;
    var default := if EndsWithReturn(f.statements) then [] else [MovInt(0, Rax)];
    assert FunctionCode(f, n).code == [Globl(f.name)] + ([Label("_" + f.name)] + (body + default + [FunctionReturn]));
    if |f.statements| == 0 {
      u := EmptyBodyReturns(f.name, body + default + [FunctionReturn], s);
    } else {
      assert body + default + [FunctionReturn] == body + (default + [FunctionReturn]);
      u := FirstStatementReturns(f, n, env, s, default + [FunctionReturn]);
    }
  }

  /** With no statement, the body is `mov $0, %rax` and the epilogue. */
  lemma EmptyBodyReturns(name: string, after: seq<Instr>, s: State) returns (u: State)
    requires after == [] + [] + [MovInt(0, Rax)] + [FunctionReturn]
    ensures Returned([Globl(name)] + ([Label("_" + name)] + after), s, Int(0), u)
  {
    u := s.(rax := 0);
    assert after == [MovInt(0, Rax)] + [FunctionReturn];
    ExecStraight(Globl(name), [Label("_" + name)] + after, s);
    ExecStraight(Label("_" + name), after, s);
    ExecStraight(MovInt(0, Rax), [FunctionReturn], s);
    ExecReturn(FunctionReturn, [], u);
  }

  /** Past the label, the code of the first statement runs and returns. */
  lemma FirstStatementReturns(f: Function, n: nat, env: Env, s: State, tail: seq<Instr>) returns (u: State)
    requires 0 < |f.statements| && forall i :: 0 <= i < |f.statements| ==> Generable(f.statements[i], f.stackFrame.vars)
    requires Agrees(f.stackFrame.vars, env, s.memory)
    ensures var after := StatementsPrefix(f.statements, |f.statements|, f.stackFrame.vars, n).code + tail;
      Returned([Globl(f.name)] + ([Label("_" + f.name)] + after), s, EvalExpression(f.statements[0].expression, env), u)
  {
    var vars := f.stackFrame.vars;
    var after := StatementsPrefix(f.statements, |f.statements|, vars, n).code + tail;
    var more := StatementsPrefixHead(f.statements, |f.statements|, vars, n);
    var first := StatementCode(f.statements[0], vars, n).code;
    assert after == first + (more + tail);
    ExecStraight(Globl(f.name), [Label("_" + f.name)] + after, s);
    ExecStraight(Label("_" + f.name), after, s);
    u := StatementCorrect(f.statements[0], vars, env, n, s, more + tail);
  }
}

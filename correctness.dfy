/** The generated code computes what the expression means.

    Running the code of a node, followed by any code `rest`, from a machine state whose
    frame slots hold the variables leaves the node's value in rax, with the stack and the
    frame as they were, and goes on with `rest`; a division by zero faults. Nothing is
    promised for a division with a negative dividend: the generated division clears rdx
    instead of sign-extending rax into it, so `idiv` divides the unsigned reading of the
    dividend (`GeneratedNegativeDivision`). */
module Correctness {
  import opened Wrappers
  import opened Int64
  import opened Ast
  import opened Asm
  import opened Parser
  import opened CodeGen
  import opened ClauseLabels
  import opened Evaluator
  import opened Machine
  import opened FunctionParser

  /** The frame slots of `vars` hold the values of `env`. */
  predicate Agrees(vars: Vars, env: Env, memory: map<int, i64>) {
    && vars.Keys == env.Keys
    && forall x :: x in vars ==> vars[x] in memory && memory[vars[x]] == env[x]
  }

  /** `u` holds `x` in rax, with the stack and the frame of `s`. */
  predicate Leaves(u: State, s: State, x: i64) {
    u.rax == x && u.stack == s.stack && u.memory == s.memory
  }

  /** `code` followed by `rest`, run from `s`, computes `v`: it continues with `rest` from a
      state that holds the value, or faults on a division by zero. */
  ghost predicate Delivers(code: seq<Instr>, rest: seq<Instr>, s: State, v: Value) {
    match v
    case Int(x) => exists u :: Leaves(u, s, x) && Exec(code + rest, s) == Exec(rest, u)
    case DivisionByZero => Exec(code + rest, s) == Faults
    case NegativeDividend => true
  }

  /** `Delivers` with its witness named: `u` is the state `rest` continues from. */
  predicate Computes(code: seq<Instr>, rest: seq<Instr>, s: State, v: Value, u: State) {
    match v
    case Int(x) => Leaves(u, s, x) && Exec(code + rest, s) == Exec(rest, u)
    case DivisionByZero => Exec(code + rest, s) == Faults
    case NegativeDividend => true
  }

  lemma Witness(code: seq<Instr>, rest: seq<Instr>, s: State, v: Value) returns (u: State)
    requires Delivers(code, rest, s, v)
    ensures Computes(code, rest, s, v, u)
  {
    if v.Int? {
      u :| Leaves(u, s, v.v) && Exec(code + rest, s) == Exec(rest, u);
    } else {
      u := s;
    }
  }

  lemma Witnessed(code: seq<Instr>, rest: seq<Instr>, s: State, v: Value, u: State)
    requires Computes(code, rest, s, v, u)
    ensures Delivers(code, rest, s, v)
  {
  }

  function Pushed(u: State): State {
    u.(stack := u.stack + [u.rax])
  }

  // ---------------------------------------------------------------- composing runs

  /** Code that hands a state with the same stack and frame to the rest passes on what the
      code after it computes. */
  lemma Lift(first: seq<Instr>, code: seq<Instr>, rest: seq<Instr>, s: State, u: State, v: Value)
    requires Exec(first + (code + rest), s) == Exec(code + rest, u)
    requires u.stack == s.stack && u.memory == s.memory
    requires Delivers(code, rest, u, v)
    ensures Delivers(first + code, rest, s, v)
  {
    assert first + code + rest == first + (code + rest);
    if v.Int? {
      var z :| Leaves(z, u, v.v) && Exec(code + rest, u) == Exec(rest, z);
      assert Leaves(z, s, v.v);
    }
  }

  /** A failure of the code before is the failure of the whole. */
  lemma LiftFailure(first: seq<Instr>, code: seq<Instr>, rest: seq<Instr>, s: State, v: Value)
    requires !v.Int? && Delivers(first, code + rest, s, v)
    ensures Delivers(first + code, rest, s, v)
  {
    assert first + code + rest == first + (code + rest);
  }

  /** `w` holds the right value `r` in rax and the left value of `u` in rcx, with the stack
      and the frame of `u`. */
  predicate Popped(w: State, u: State, r: i64) {
    w.rax == r && w.rcx == u.rax && w.stack == u.stack && w.memory == u.memory
  }

  /** `push %rax`, the right operand, `pop %rcx`: the left value in rcx, the right one in
      rax, and the stack back as it was. */
  lemma PushRightPop(right: seq<Instr>, tail: seq<Instr>, u: State, rv: Value)
    requires Delivers(right, [Pop(Rcx)] + tail, Pushed(u), rv)
    ensures rv.Int? ==> exists w :: Popped(w, u, rv.v) && Exec([Push(Rax)] + right + [Pop(Rcx)] + tail, u) == Exec(tail, w)
    ensures rv.DivisionByZero? ==> Exec([Push(Rax)] + right + [Pop(Rcx)] + tail, u) == Faults
  {
    var pushed := Pushed(u);
    assert Step(Push(Rax), u) == Some(pushed);
    assert [Push(Rax)] + right + [Pop(Rcx)] + tail == [Push(Rax)] + (right + ([Pop(Rcx)] + tail));
    ExecStraight(Push(Rax), right + ([Pop(Rcx)] + tail), u);
    if rv.Int? {
      var w0 :| Leaves(w0, pushed, rv.v) && Exec(right + ([Pop(Rcx)] + tail), pushed) == Exec([Pop(Rcx)] + tail, w0);
      var w := w0.(stack := u.stack, rcx := u.rax);
      assert w0.stack[..|w0.stack| - 1] == u.stack;
      assert Step(Pop(Rcx), w0) == Some(w);
      ExecStraight(Pop(Rcx), tail, w0);
      assert Popped(w, u, rv.v);
    }
  }

  // ---------------------------------------------------------------- the fixed sequences

  lemma CompareRuns(c: Condition, w: State)
    ensures var t := Run(CompareCode(c), w);
      t.Some? && Leaves(t.value, w, Truth(Holds(c, Flags(w.rcx, w.rax))))
  {
    var w1 := w.(flags := Some(Flags(w.rcx, w.rax)));
    var w2 := w1.(rax := 0);
    assert CompareCode(c) == [Cmp(Rax, Rcx)] + ([MovInt(0, Rax)] + [Set(c, Al)]);
    assert Step(Cmp(Rax, Rcx), w) == Some(w1);
    RunCons(Cmp(Rax, Rcx), [MovInt(0, Rax)] + [Set(c, Al)], w);
    assert Step(MovInt(0, Rax), w1) == Some(w2);
    RunCons(MovInt(0, Rax), [Set(c, Al)], w1);
    SetOnZero(c, w2);
    RunOne(Set(c, Al), w2);
  }

  lemma CompareDelivers(c: Condition, w: State, rest: seq<Instr>)
    ensures Delivers(CompareCode(c), rest, w, Int(Truth(Holds(c, Flags(w.rcx, w.rax)))))
  {
    CompareRuns(c, w);
    ExecRun(CompareCode(c), rest, w);
  }

  lemma NormaliseRuns(w: State)
    ensures var t := Run(NormaliseCode(), w);
      t.Some? && Leaves(t.value, w, Truth(w.rax != 0))
  {
    var w1 := w.(flags := Some(Flags(w.rax, 0)));
    var w2 := w1.(rax := 0);
    assert NormaliseCode() == [CmpInt(0, Rax)] + ([MovInt(0, Rax)] + [Set(NE, Al)]);
    assert Step(CmpInt(0, Rax), w) == Some(w1);
    RunCons(CmpInt(0, Rax), [MovInt(0, Rax)] + [Set(NE, Al)], w);
    assert Step(MovInt(0, Rax), w1) == Some(w2);
    RunCons(MovInt(0, Rax), [Set(NE, Al)], w1);
    SetOnZero(NE, w2);
    RunOne(Set(NE, Al), w2);
  }

  lemma AdditiveDelivers(op: AdditiveOperator, w: State, rest: seq<Instr>)
    ensures Delivers(AdditiveOperatorCode(op), rest, w, Int(ApplyAdditive(op, w.rcx, w.rax)))
  {
    var code := AdditiveOperatorCode(op);
    match op
    case Addition =>
      assert w.rcx as int + w.rax as int == w.rax as int + w.rcx as int;
      var t := w.(rax := Wrap(w.rax as int + w.rcx as int));
      assert code == [code[0]] && Step(code[0], w) == Some(t);
      RunOne(code[0], w);
      ExecRun(code, rest, w);
      assert Leaves(t, w, ApplyAdditive(op, w.rcx, w.rax));
    case Subtraction =>
      var d := Wrap(w.rcx as int - w.rax as int);
      var t1 := w.(rcx := d);
      var t := t1.(rax := d);
      assert code == [Sub(Rax, Rcx)] + [Mov(Rcx, Rax)];
      assert Step(Sub(Rax, Rcx), w) == Some(t1);
      RunCons(Sub(Rax, Rcx), [Mov(Rcx, Rax)], w);
      assert Step(Mov(Rcx, Rax), t1) == Some(t);
      RunOne(Mov(Rcx, Rax), t1);
      ExecRun(code, rest, w);
      assert Leaves(t, w, ApplyAdditive(op, w.rcx, w.rax));
  }

  lemma FactorDelivers(op: BinaryFactorOperator, w: State, rest: seq<Instr>)
    ensures Delivers(FactorOperatorCode(op), rest, w, ApplyFactor(op, w.rcx, w.rax))
  {
    var code := FactorOperatorCode(op);
    var l, r := w.rcx, w.rax;
    match op
    case Multiplication =>
      assert l as int * r as int == r as int * l as int;
      var t := w.(rax := Wrap(r as int * l as int));
      assert code == [code[0]] && Step(code[0], w) == Some(t);
      RunOne(code[0], w);
      ExecRun(code, rest, w);
      assert Leaves(t, w, Wrap(l as int * r as int));
    case Division =>
      var prelude := [Mov(Rcx, Rdx), Mov(Rax, Rcx), Mov(Rdx, Rax), MovInt(0, Rdx)];
      assert code == prelude + [Idiv(Rcx)];
      var w4 := w.(rdx := 0, rcx := r, rax := l);
      DivisionPreludeRuns(w);
      ExecRun(prelude, [Idiv(Rcx)] + rest, w);
      assert code + rest == prelude + ([Idiv(Rcx)] + rest);
      if r == 0 {
        assert Step(Idiv(Rcx), w4).None?;
        ExecFault(Idiv(Rcx), rest, w4);
      } else if l >= 0 {
        assert w4.rdx as int * TWO_64 + Unsigned(w4.rax) == l as int;
        var q := TruncDiv(l as int, r as int);
        NonNegativeQuotientInRange(l as int, r as int);
        assert InRange(TruncRem(l as int, r as int));
        var t := w4.(rax := q as i64, rdx := TruncRem(l as int, r as int) as i64);
        assert Step(Idiv(Rcx), w4) == Some(t);
        ExecStraight(Idiv(Rcx), rest, w4);
        assert Leaves(t, w, q as i64);
      }
  }

  /** The generated division of -7 by 2 does not give -3: with rdx cleared, `idiv` divides
      the unsigned reading 2^64 - 7 of the dividend, and the quotient still fits. */
  lemma GeneratedNegativeDivision(w: State)
    requires w.rcx == -7 && w.rax == 2
    ensures Exec(FactorOperatorCode(Division), w).Falls?
    ensures Exec(FactorOperatorCode(Division), w).state.rax == 9223372036854775804
    ensures TruncDiv(-7, 2) == -3
  {
    var prelude := [Mov(Rcx, Rdx), Mov(Rax, Rcx), Mov(Rdx, Rax), MovInt(0, Rdx)];
    assert FactorOperatorCode(Division) == prelude + [Idiv(Rcx)];
    var w4 := w.(rdx := 0, rcx := 2, rax := -7);
    DivisionPreludeRuns(w);
    ExecRun(prelude, [Idiv(Rcx)], w);
    assert Unsigned(-7) == TWO_64 - 7;
    assert TruncDiv(TWO_64 - 7, 2) == 9223372036854775804;
    assert TruncRem(TWO_64 - 7, 2) == 1;
    var t := w4.(rax := 9223372036854775804, rdx := 1);
    assert Step(Idiv(Rcx), w4) == Some(t);
    ExecStraight(Idiv(Rcx), [], w4);
    assert TruncDiv(-7, 2) == -3;
  }

  /** The four `mov`s before `idiv`: dividend in rax, divisor in rcx, rdx cleared. */
  lemma DivisionPreludeRuns(w: State)
    ensures Run([Mov(Rcx, Rdx), Mov(Rax, Rcx), Mov(Rdx, Rax), MovInt(0, Rdx)], w)
      == Some(w.(rdx := 0, rcx := w.rax, rax := w.rcx))
  {
    var w1 := w.(rdx := w.rcx);
    var w2 := w1.(rcx := w.rax);
    var w3 := w2.(rax := w.rcx);
    var w4 := w3.(rdx := 0);
    assert [Mov(Rcx, Rdx), Mov(Rax, Rcx), Mov(Rdx, Rax), MovInt(0, Rdx)]
      == [Mov(Rcx, Rdx)] + ([Mov(Rax, Rcx)] + ([Mov(Rdx, Rax)] + [MovInt(0, Rdx)]));
    assert Step(Mov(Rcx, Rdx), w) == Some(w1);
    RunCons(Mov(Rcx, Rdx), [Mov(Rax, Rcx)] + ([Mov(Rdx, Rax)] + [MovInt(0, Rdx)]), w);
    assert Step(Mov(Rax, Rcx), w1) == Some(w2);
    RunCons(Mov(Rax, Rcx), [Mov(Rdx, Rax)] + [MovInt(0, Rdx)], w1);
    assert Step(Mov(Rdx, Rax), w2) == Some(w3);
    RunCons(Mov(Rdx, Rax), [MovInt(0, Rdx)], w2);
    assert Step(MovInt(0, Rdx), w3) == Some(w4);
    RunOne(MovInt(0, Rdx), w3);
  }

  lemma UnaryDelivers(op: UnaryOperator, w: State, rest: seq<Instr>)
    ensures Delivers(UnaryOperatorCode(op), rest, w, Int(ApplyUnary(op, w.rax)))
  {
    var code := UnaryOperatorCode(op);
    match op
    case Negation =>
      var t := w.(rax := Wrap(-(w.rax as int)));
      assert code == [code[0]] && Step(code[0], w) == Some(t);
      RunOne(code[0], w);
      ExecRun(code, rest, w);
      assert Leaves(t, w, ApplyUnary(op, w.rax));
    case BitwiseComplement =>
      var t := w.(rax := (-(w.rax as int) - 1) as i64);
      assert code == [code[0]] && Step(code[0], w) == Some(t);
      RunOne(code[0], w);
      ExecRun(code, rest, w);
      assert Leaves(t, w, ApplyUnary(op, w.rax));
    case LogicalNegation =>
      CompareZeroRuns(w);
      ExecRun(code, rest, w);
  }

  lemma CompareZeroRuns(w: State)
    ensures var t := Run(UnaryOperatorCode(LogicalNegation), w);
      t.Some? && Leaves(t.value, w, Truth(w.rax == 0))
  {
    var w1 := w.(flags := Some(Flags(w.rax, 0)));
    var w2 := w1.(rax := 0);
    assert UnaryOperatorCode(LogicalNegation) == [CmpInt(0, Rax)] + ([MovInt(0, Rax)] + [Set(E, Al)]);
    assert Step(CmpInt(0, Rax), w) == Some(w1);
    RunCons(CmpInt(0, Rax), [MovInt(0, Rax)] + [Set(E, Al)], w);
    assert Step(MovInt(0, Rax), w1) == Some(w2);
    RunCons(MovInt(0, Rax), [Set(E, Al)], w1);
    SetOnZero(E, w2);
    RunOne(Set(E, Al), w2);
  }

  // ---------------------------------------------------------------- operands and clauses

  lemma BinaryFactorDelivers(op: BinaryFactorOperator, right: seq<Instr>, rest: seq<Instr>, u: State, rv: Value)
    requires Delivers(right, [Pop(Rcx)] + (FactorOperatorCode(op) + rest), Pushed(u), rv)
    ensures Delivers(Binary(right, FactorOperatorCode(op)), rest, u,
      if rv.Int? then ApplyFactor(op, u.rax, rv.v) else rv)
  {
    var combine := FactorOperatorCode(op);
    PushRightPop(right, combine + rest, u, rv);
    assert Binary(right, combine) + rest == [Push(Rax)] + right + [Pop(Rcx)] + (combine + rest);
    if rv.Int? {
      var w :| Popped(w, u, rv.v) && Exec([Push(Rax)] + right + [Pop(Rcx)] + (combine + rest), u) == Exec(combine + rest, w);
      FactorDelivers(op, w, rest);
      var v := ApplyFactor(op, u.rax, rv.v);
      if v.Int? {
        var z :| Leaves(z, w, v.v) && Exec(combine + rest, w) == Exec(rest, z);
        assert Leaves(z, u, v.v);
      }
    }
  }

  lemma BinaryAdditiveDelivers(op: AdditiveOperator, right: seq<Instr>, rest: seq<Instr>, u: State, rv: Value)
    requires Delivers(right, [Pop(Rcx)] + (AdditiveOperatorCode(op) + rest), Pushed(u), rv)
    ensures Delivers(Binary(right, AdditiveOperatorCode(op)), rest, u,
      if rv.Int? then Int(ApplyAdditive(op, u.rax, rv.v)) else rv)
  {
    var combine := AdditiveOperatorCode(op);
    PushRightPop(right, combine + rest, u, rv);
    assert Binary(right, combine) + rest == [Push(Rax)] + right + [Pop(Rcx)] + (combine + rest);
    if rv.Int? {
      var w :| Popped(w, u, rv.v) && Exec([Push(Rax)] + right + [Pop(Rcx)] + (combine + rest), u) == Exec(combine + rest, w);
      AdditiveDelivers(op, w, rest);
      var x := ApplyAdditive(op, u.rax, rv.v);
      var z :| Leaves(z, w, x) && Exec(combine + rest, w) == Exec(rest, z);
      assert Leaves(z, u, x);
    }
  }

  lemma BinaryCompareDelivers(c: Condition, right: seq<Instr>, rest: seq<Instr>, u: State, rv: Value)
    requires Delivers(right, [Pop(Rcx)] + (CompareCode(c) + rest), Pushed(u), rv)
    ensures Delivers(Binary(right, CompareCode(c)), rest, u,
      if rv.Int? then Int(Truth(Holds(c, Flags(u.rax, rv.v)))) else rv)
  {
    var combine := CompareCode(c);
    PushRightPop(right, combine + rest, u, rv);
    assert Binary(right, combine) + rest == [Push(Rax)] + right + [Pop(Rcx)] + (combine + rest);
    if rv.Int? {
      var w :| Popped(w, u, rv.v) && Exec([Push(Rax)] + right + [Pop(Rcx)] + (combine + rest), u) == Exec(combine + rest, w);
      CompareDelivers(c, w, rest);
      var x := Truth(Holds(c, Flags(u.rax, rv.v)));
      var z :| Leaves(z, w, x) && Exec(combine + rest, w) == Exec(rest, z);
      assert Leaves(z, u, x);
    }
  }

  /** The end of a clause: the right operand's value normalised, then the end label. */
  lemma ClosingDelivers(m: nat, w: State, rest: seq<Instr>)
    ensures Delivers(ClauseClosing(m), rest, w, Int(Truth(w.rax != 0)))
  {
    NormaliseRuns(w);
    var t := Run(NormaliseCode(), w).value;
    assert ClauseClosing(m) + rest == NormaliseCode() + ([Label(EndLabel(m))] + rest);
    ExecRun(NormaliseCode(), [Label(EndLabel(m))] + rest, w);
    assert Step(Label(EndLabel(m)), t) == Some(t);
    ExecStraight(Label(EndLabel(m)), rest, t);
  }

  /** A jump to a clause's end label skips its start label, its right operand and its
      normalisation. */
  lemma SkipClause(m: nat, right: seq<Instr>, rest: seq<Instr>, s: State)
    requires Label(EndLabel(m)) !in right
    ensures Jump([Label(StartLabel(m))] + (right + (ClauseClosing(m) + rest)), EndLabel(m), s) == Exec(rest, s)
  {
    var mid := [Label(StartLabel(m))] + right + NormaliseCode();
    assert [Label(StartLabel(m))] + (right + (ClauseClosing(m) + rest)) == mid + [Label(EndLabel(m))] + rest;
    assert Label(EndLabel(m)) !in mid by {
      ClauseLabelsDistinct(m, m);
    }
    JumpOver(mid, EndLabel(m), rest, s);
  }

  /** A jump to a clause's start label lands on its right operand. */
  lemma EnterClause(mid: seq<Instr>, m: nat, body: seq<Instr>, s: State)
    requires Label(StartLabel(m)) !in mid
    ensures Jump(mid + ([Label(StartLabel(m))] + body), StartLabel(m), s) == Exec(body, s)
  {
    assert mid + ([Label(StartLabel(m))] + body) == mid + [Label(StartLabel(m))] + body;
    JumpOver(mid, StartLabel(m), body, s);
  }

  /** The short cut of `||`: 1 in rax, then a jump past the clause. */
  lemma OrShortCircuit(m: nat, right: seq<Instr>, rest: seq<Instr>, s: State)
    requires Label(EndLabel(m)) !in right
    ensures Exec([MovInt(1, Rax), Jmp(EndLabel(m))] + ([Label(StartLabel(m))] + (right + (ClauseClosing(m) + rest))), s)
      == Exec(rest, s.(rax := 1))
  {
    var landing := [Label(StartLabel(m))] + (right + (ClauseClosing(m) + rest));
    assert [MovInt(1, Rax), Jmp(EndLabel(m))] + landing == [MovInt(1, Rax)] + ([Jmp(EndLabel(m))] + landing);
    assert Step(MovInt(1, Rax), s) == Some(s.(rax := 1));
    ExecStraight(MovInt(1, Rax), [Jmp(EndLabel(m))] + landing, s);
    ExecJmp(EndLabel(m), landing, s.(rax := 1));
    SkipClause(m, right, rest, s.(rax := 1));
  }

  /** `||` on a left value in rax: a non-zero one gives 1 without running the right operand;
      zero gives the right operand's value as 0 or 1. */
  lemma OrClauseDelivers(m: nat, right: seq<Instr>, rest: seq<Instr>, u: State, rv: Value)
    requires Label(EndLabel(m)) !in right
    requires u.rax == 0 ==> Delivers(right, ClauseClosing(m) + rest, u.(flags := Some(Flags(u.rax, 0))), rv)
    ensures Delivers(OrClauseCode(m, right), rest, u, if u.rax != 0 then Int(1) else Normalise(rv))
  {
    var u1 := u.(flags := Some(Flags(u.rax, 0)));
    var body := right + (ClauseClosing(m) + rest);
    var landing := [Label(StartLabel(m))] + body;
    var skip := [MovInt(1, Rax), Jmp(EndLabel(m))];
    assert OrClauseCode(m, right) + rest == [CmpInt(0, Rax)] + ([Je(StartLabel(m))] + (skip + landing));
    assert Step(CmpInt(0, Rax), u) == Some(u1);
    ExecStraight(CmpInt(0, Rax), [Je(StartLabel(m))] + (skip + landing), u);
    ExecJe(StartLabel(m), skip + landing, u1);
    if u.rax != 0 {
      OrShortCircuit(m, right, rest, u1);
      assert Leaves(u1.(rax := 1), u, 1);
    } else {
      EnterClause(skip, m, body, u1);
      ClauseRightDelivers(m, right, rest, u, u1, rv);
    }
  }

  /** `&&` on a left value in rax: zero gives 0 without running the right operand; a
      non-zero one gives the right operand's value as 0 or 1. */
  lemma AndClauseDelivers(m: nat, right: seq<Instr>, rest: seq<Instr>, u: State, rv: Value)
    requires Label(EndLabel(m)) !in right
    requires u.rax != 0 ==> Delivers(right, ClauseClosing(m) + rest, u.(flags := Some(Flags(u.rax, 0))), rv)
    ensures Delivers(AndClauseCode(m, right), rest, u, if u.rax == 0 then Int(0) else Normalise(rv))
  {
    var u1 := u.(flags := Some(Flags(u.rax, 0)));
    var body := right + (ClauseClosing(m) + rest);
    var landing := [Label(StartLabel(m))] + body;
    var skip := [Jmp(EndLabel(m))];
    assert AndClauseCode(m, right) + rest == [CmpInt(0, Rax)] + ([Jne(StartLabel(m))] + (skip + landing));
    assert Step(CmpInt(0, Rax), u) == Some(u1);
    ExecStraight(CmpInt(0, Rax), [Jne(StartLabel(m))] + (skip + landing), u);
    ExecJne(StartLabel(m), skip + landing, u1);
    if u.rax == 0 {
      ExecJmp(EndLabel(m), landing, u1);
      SkipClause(m, right, rest, u1);
      assert Leaves(u1, u, 0);
    } else {
      EnterClause(skip, m, body, u1);
      ClauseRightDelivers(m, right, rest, u, u1, rv);
    }
  }

  /** From the start label: the right operand, then the closing. */
  lemma ClauseRightDelivers(m: nat, right: seq<Instr>, rest: seq<Instr>, u: State, u1: State, rv: Value)
    requires u1.stack == u.stack && u1.memory == u.memory
    requires Delivers(right, ClauseClosing(m) + rest, u1, rv)
    ensures Normalise(rv).Int? ==>
      exists z :: Leaves(z, u, Normalise(rv).v) && Exec(right + (ClauseClosing(m) + rest), u1) == Exec(rest, z)
    ensures rv.DivisionByZero? ==> Exec(right + (ClauseClosing(m) + rest), u1) == Faults
  {
    if rv.Int? {
      var w :| Leaves(w, u1, rv.v) && Exec(right + (ClauseClosing(m) + rest), u1) == Exec(ClauseClosing(m) + rest, w);
      ClosingDelivers(m, w, rest);
      var z :| Leaves(z, w, Truth(rv.v != 0)) && Exec(ClauseClosing(m) + rest, w) == Exec(rest, z);
      assert Leaves(z, u, Truth(rv.v != 0)) && Leaves(z, u1, Truth(rv.v != 0));
    }
  }

  // ---------------------------------------------------------------- one pair more

  /** One more binary pair after the code `first` of the operands before it, which leaves
      `left` in state `ul`; the right operand runs from `ul` with the left value pushed. A
      failure on either side passes on. */
  lemma TermPair(first: seq<Instr>, right: seq<Instr>, op: BinaryFactorOperator, rest: seq<Instr>, s: State,
    left: Value, ul: State, rv: Value, ur: State) returns (u: State)
    requires Computes(first, Binary(right, FactorOperatorCode(op)) + rest, s, left, ul)
    requires left.Int? ==> Computes(right, [Pop(Rcx)] + (FactorOperatorCode(op) + rest), Pushed(ul), rv, ur)
    ensures Computes(first + Binary(right, FactorOperatorCode(op)), rest, s,
      match left case Int(l) => (match rv case Int(r) => ApplyFactor(op, l, r) case failure => failure) case failure => failure, u)
  {
    var code := Binary(right, FactorOperatorCode(op));
    if left.Int? {
      Witnessed(right, [Pop(Rcx)] + (FactorOperatorCode(op) + rest), Pushed(ul), rv, ur);
      BinaryFactorDelivers(op, right, rest, ul, rv);
      var v := if rv.Int? then ApplyFactor(op, ul.rax, rv.v) else rv;
      Lift(first, code, rest, s, ul, v);
      u := Witness(first + code, rest, s, v);
    } else {
      Witnessed(first, code + rest, s, left, ul);
      LiftFailure(first, code, rest, s, left);
      u := Witness(first + code, rest, s, left);
    }
  }

  lemma AdditivePair(first: seq<Instr>, right: seq<Instr>, op: AdditiveOperator, rest: seq<Instr>, s: State,
    left: Value, ul: State, rv: Value, ur: State) returns (u: State)
    requires Computes(first, Binary(right, AdditiveOperatorCode(op)) + rest, s, left, ul)
    requires left.Int? ==> Computes(right, [Pop(Rcx)] + (AdditiveOperatorCode(op) + rest), Pushed(ul), rv, ur)
    ensures Computes(first + Binary(right, AdditiveOperatorCode(op)), rest, s,
      match left case Int(l) => (match rv case Int(r) => Int(ApplyAdditive(op, l, r)) case failure => failure) case failure => failure, u)
  {
    var code := Binary(right, AdditiveOperatorCode(op));
    if left.Int? {
      Witnessed(right, [Pop(Rcx)] + (AdditiveOperatorCode(op) + rest), Pushed(ul), rv, ur);
      BinaryAdditiveDelivers(op, right, rest, ul, rv);
      var v := if rv.Int? then Int(ApplyAdditive(op, ul.rax, rv.v)) else rv;
      Lift(first, code, rest, s, ul, v);
      u := Witness(first + code, rest, s, v);
    } else {
      Witnessed(first, code + rest, s, left, ul);
      LiftFailure(first, code, rest, s, left);
      u := Witness(first + code, rest, s, left);
    }
  }

  lemma EqualityPair(first: seq<Instr>, right: seq<Instr>, op: EqualityOperator, rest: seq<Instr>, s: State,
    left: Value, ul: State, rv: Value, ur: State) returns (u: State)
    requires Computes(first, Binary(right, CompareCode(EqualityCondition(op))) + rest, s, left, ul)
    requires left.Int? ==> Computes(right, [Pop(Rcx)] + (CompareCode(EqualityCondition(op)) + rest), Pushed(ul), rv, ur)
    ensures Computes(first + Binary(right, CompareCode(EqualityCondition(op))), rest, s,
      match left case Int(l) => (match rv case Int(r) => Int(ApplyEquality(op, l, r)) case failure => failure) case failure => failure, u)
  {
    var code := Binary(right, CompareCode(EqualityCondition(op)));
    if left.Int? {
      Witnessed(right, [Pop(Rcx)] + (CompareCode(EqualityCondition(op)) + rest), Pushed(ul), rv, ur);
      BinaryCompareDelivers(EqualityCondition(op), right, rest, ul, rv);
      assert rv.Int? ==> Truth(Holds(EqualityCondition(op), Flags(ul.rax, rv.v))) == ApplyEquality(op, ul.rax, rv.v);
      var v := if rv.Int? then Int(ApplyEquality(op, ul.rax, rv.v)) else rv;
      Lift(first, code, rest, s, ul, v);
      u := Witness(first + code, rest, s, v);
    } else {
      Witnessed(first, code + rest, s, left, ul);
      LiftFailure(first, code, rest, s, left);
      u := Witness(first + code, rest, s, left);
    }
  }

  lemma RelationalPair(first: seq<Instr>, right: seq<Instr>, op: RelationalOperator, rest: seq<Instr>, s: State,
    left: Value, ul: State, rv: Value, ur: State) returns (u: State)
    requires Computes(first, Binary(right, CompareCode(RelationalCondition(op))) + rest, s, left, ul)
    requires left.Int? ==> Computes(right, [Pop(Rcx)] + (CompareCode(RelationalCondition(op)) + rest), Pushed(ul), rv, ur)
    ensures Computes(first + Binary(right, CompareCode(RelationalCondition(op))), rest, s,
      match left case Int(l) => (match rv case Int(r) => Int(ApplyRelational(op, l, r)) case failure => failure) case failure => failure, u)
  {
    var code := Binary(right, CompareCode(RelationalCondition(op)));
    if left.Int? {
      Witnessed(right, [Pop(Rcx)] + (CompareCode(RelationalCondition(op)) + rest), Pushed(ul), rv, ur);
      BinaryCompareDelivers(RelationalCondition(op), right, rest, ul, rv);
      assert rv.Int? ==> Truth(Holds(RelationalCondition(op), Flags(ul.rax, rv.v))) == ApplyRelational(op, ul.rax, rv.v);
      var v := if rv.Int? then Int(ApplyRelational(op, ul.rax, rv.v)) else rv;
      Lift(first, code, rest, s, ul, v);
      u := Witness(first + code, rest, s, v);
    } else {
      Witnessed(first, code + rest, s, left, ul);
      LiftFailure(first, code, rest, s, left);
      u := Witness(first + code, rest, s, left);
    }
  }

  /** One more `||` pair after the code `first` of the operands before it, which leaves
      `left` in state `ul`; the right operand runs only when the left value does not decide. */
  lemma OrPair(first: seq<Instr>, m: nat, right: seq<Instr>, rest: seq<Instr>, s: State,
    left: Value, ul: State, rv: Value, ur: State) returns (u: State)
    requires Computes(first, OrClauseCode(m, right) + rest, s, left, ul)
    requires Label(EndLabel(m)) !in right
    requires left == Int(0) ==> Computes(right, ClauseClosing(m) + rest, ul.(flags := Some(Flags(ul.rax, 0))), rv, ur)
    ensures Computes(first + OrClauseCode(m, right), rest, s,
      OrValue(left, rv), u)
  {
    var code := OrClauseCode(m, right);
    if left.Int? {
      if left == Int(0) {
        Witnessed(right, ClauseClosing(m) + rest, ul.(flags := Some(Flags(ul.rax, 0))), rv, ur);
      }
      OrClauseDelivers(m, right, rest, ul, rv);
      var v := if ul.rax != 0 then Int(1) else Normalise(rv);
      Lift(first, code, rest, s, ul, v);
      u := Witness(first + code, rest, s, v);
    } else {
      Witnessed(first, code + rest, s, left, ul);
      LiftFailure(first, code, rest, s, left);
      u := Witness(first + code, rest, s, left);
    }
  }

  /** One more `&&` pair after the code `first` of the operands before it, which leaves
      `left` in state `ul`; the right operand runs only when the left value does not decide. */
  lemma AndPair(first: seq<Instr>, m: nat, right: seq<Instr>, rest: seq<Instr>, s: State,
    left: Value, ul: State, rv: Value, ur: State) returns (u: State)
    requires Computes(first, AndClauseCode(m, right) + rest, s, left, ul)
    requires Label(EndLabel(m)) !in right
    requires (left.Int? && left.v != 0) ==> Computes(right, ClauseClosing(m) + rest, ul.(flags := Some(Flags(ul.rax, 0))), rv, ur)
    ensures Computes(first + AndClauseCode(m, right), rest, s,
      AndValue(left, rv), u)
  {
    var code := AndClauseCode(m, right);
    if left.Int? {
      if (left.Int? && left.v != 0) {
        Witnessed(right, ClauseClosing(m) + rest, ul.(flags := Some(Flags(ul.rax, 0))), rv, ur);
      }
      AndClauseDelivers(m, right, rest, ul, rv);
      var v := if ul.rax == 0 then Int(0) else Normalise(rv);
      Lift(first, code, rest, s, ul, v);
      u := Witness(first + code, rest, s, v);
    } else {
      Witnessed(first, code + rest, s, left, ul);
      LiftFailure(first, code, rest, s, left);
      u := Witness(first + code, rest, s, left);
    }
  }

  /** A unary operator after the code of its operand. */
  lemma UnaryPair(operand: seq<Instr>, op: UnaryOperator, rest: seq<Instr>, s: State, rv: Value, uo: State)
    returns (u: State)
    requires Computes(operand, UnaryOperatorCode(op) + rest, s, rv, uo)
    ensures Computes(operand + UnaryOperatorCode(op), rest, s,
      match rv case Int(x) => Int(ApplyUnary(op, x)) case failure => failure, u)
  {
    var oc := UnaryOperatorCode(op);
    Witnessed(operand, oc + rest, s, rv, uo);
    if rv.Int? {
      UnaryDelivers(op, uo, rest);
      Lift(operand, oc, rest, s, uo, Int(ApplyUnary(op, rv.v)));
      u := Witness(operand + oc, rest, s, Int(ApplyUnary(op, rv.v)));
    } else {
      LiftFailure(operand, oc, rest, s, rv);
      u := Witness(operand + oc, rest, s, rv);
    }
  }

  // ---------------------------------------------------------------- the nodes

  /** `Computes` of equal code and equal values. Stating a node's result through this step
      keeps the solver from unfolding the node's code functions in the goal. */
  lemma Recast(a: seq<Instr>, b: seq<Instr>, rest: seq<Instr>, s: State, v: Value, w: Value, u: State)
    requires a == b && v == w && Computes(b, rest, s, w, u)
    ensures Computes(a, rest, s, v, u)
  {
  }

  /** The code of an expression computes its value: from a state whose frame slots hold the
      variables, the code followed by `rest` continues with `rest` from a state `u` that
      holds the value in rax, with the stack and the frame unchanged, or faults on a division
      by zero. */
  lemma ExpressionCorrect(e: Expression, vars: Vars, env: Env, n: nat, s: State, rest: seq<Instr>) returns (u: State)
    requires ExpressionIn(e, vars.Keys, {}) && Agrees(vars, env, s.memory)
    ensures Computes(ExpressionCode(e, vars, n).code, rest, s, EvalExpression(e, env), u)
    decreases e, 0
  {
    match e
    case LogicalOr(or) =>
      u := OrCorrect(or, |or.binaryExpressions|, vars, env, n, s, rest);
      assert OrCode(or, vars, n) == OrPrefix(or, |or.binaryExpressions|, vars, n);
      assert EvalOr(or, env) == EvalOrPrefix(or, |or.binaryExpressions|, env);
      Recast(ExpressionCode(e, vars, n).code, OrPrefix(or, |or.binaryExpressions|, vars, n).code, rest, s,
        EvalExpression(e, env), EvalOrPrefix(or, |or.binaryExpressions|, env), u);
  }

  /** The code of the left operand and the first `k` `||` pairs computes their value. */
  lemma OrCorrect(e: LogicalOrExpression, k: nat, vars: Vars, env: Env, n: nat, s: State, rest: seq<Instr>) returns (u: State)
    requires k <= |e.binaryExpressions| && OrIn(e, vars.Keys, {}) && Agrees(vars, env, s.memory)
    ensures Computes(OrPrefix(e, k, vars, n).code, rest, s, EvalOrPrefix(e, k, env), u)
    decreases e, k, 2
  {
    if k == 0 {
      u := AndCorrect(e.expression, |e.expression.binaryExpressions|, vars, env, n, s, rest);
      assert AndCode(e.expression, vars, n) == AndPrefix(e.expression, |e.expression.binaryExpressions|, vars, n);
      assert EvalAnd(e.expression, env) == EvalAndPrefix(e.expression, |e.expression.binaryExpressions|, env);
      Recast(OrPrefix(e, 0, vars, n).code, AndPrefix(e.expression, |e.expression.binaryExpressions|, vars, n).code, rest, s,
        EvalOrPrefix(e, 0, env), EvalAndPrefix(e.expression, |e.expression.binaryExpressions|, env), u);
    } else {
      var p := OrPrefix(e, k - 1, vars, n);
      var right := e.binaryExpressions[k - 1].rightExpression;
      var left := EvalOrPrefix(e, k - 1, env);
      var m := p.next;
      var ul := OrCorrect(e, k - 1, vars, env, n, s, OrClauseCode(m, AndCode(right, vars, m + 1).code) + rest);
      u := OrRight(e, k, vars, env, n, s, rest, ul);
    }
  }

  /** The right operand of the `k`-th pair, from the state `ul` the pairs before leave. */
  lemma OrRight(e: LogicalOrExpression, k: nat, vars: Vars, env: Env, n: nat, s: State, rest: seq<Instr>, ul: State)
    returns (u: State)
    requires 0 < k <= |e.binaryExpressions| && OrIn(e, vars.Keys, {}) && Agrees(vars, env, s.memory)
    requires var p := OrPrefix(e, k - 1, vars, n);
      var right := e.binaryExpressions[k - 1].rightExpression;
      Computes(p.code, OrClauseCode(p.next, AndCode(right, vars, p.next + 1).code) + rest, s, EvalOrPrefix(e, k - 1, env), ul)
    ensures Computes(OrPrefix(e, k, vars, n).code, rest, s, EvalOrPrefix(e, k, env), u)
    decreases e, k, 1
  {
    var p := OrPrefix(e, k - 1, vars, n);
    var right := e.binaryExpressions[k - 1].rightExpression;
    var left := EvalOrPrefix(e, k - 1, env);
    var ur := s;
    if left == Int(0) {
      ur := AndCorrect(right, |right.binaryExpressions|, vars, env, p.next + 1, ul.(flags := Some(Flags(ul.rax, 0))), ClauseClosing(p.next) + rest);
    }
    OrStepFacts(e, k, vars, env, n);
    u := OrCombine(p.code, p.next, AndCode(right, vars, p.next + 1).code, AndPrefix(right, |right.binaryExpressions|, vars, p.next + 1).code, rest, s,
      left, ul, EvalAndPrefix(right, |right.binaryExpressions|, env), ur, OrPrefix(e, k, vars, n).code, EvalOrPrefix(e, k, env));
  }

  /** How the code and the value of `k` pairs extend those of `k - 1`. */
  lemma OrStepFacts(e: LogicalOrExpression, k: nat, vars: Vars, env: Env, n: nat)
    requires 0 < k <= |e.binaryExpressions| && OrIn(e, vars.Keys, {}) && vars.Keys == env.Keys
    ensures var p := OrPrefix(e, k - 1, vars, n);
      var right := e.binaryExpressions[k - 1].rightExpression;
      var rc := AndCode(right, vars, p.next + 1).code;
      && OrPrefix(e, k, vars, n).code == p.code + OrClauseCode(p.next, rc)
      && rc == AndPrefix(right, |right.binaryExpressions|, vars, p.next + 1).code
      && Label(EndLabel(p.next)) !in rc
      && EvalOrPrefix(e, k, env) == OrValue(EvalOrPrefix(e, k - 1, env), EvalAndPrefix(right, |right.binaryExpressions|, env))
  {
    OrClauseStep(e, k, vars, n);
  }


  /** `OrPair` for a clause whose code and value are given by equations. */
  lemma OrCombine(first: seq<Instr>, m: nat, right: seq<Instr>, right': seq<Instr>, rest: seq<Instr>, s: State,
    left: Value, ul: State, rv: Value, ur: State, whole: seq<Instr>, wv: Value) returns (u: State)
    requires whole == first + OrClauseCode(m, right) && right == right'
    requires wv == OrValue(left, rv)
    requires Computes(first, OrClauseCode(m, right) + rest, s, left, ul)
    requires Label(EndLabel(m)) !in right
    requires left == Int(0) ==> Computes(right', ClauseClosing(m) + rest, ul.(flags := Some(Flags(ul.rax, 0))), rv, ur)
    ensures Computes(whole, rest, s, wv, u)
  {
    u := OrPair(first, m, right, rest, s, left, ul, rv, ur);
  }



  /** The code of the left operand and the first `k` `&&` pairs computes their value. */
  lemma AndCorrect(e: LogicalAndExpression, k: nat, vars: Vars, env: Env, n: nat, s: State, rest: seq<Instr>) returns (u: State)
    requires k <= |e.binaryExpressions| && AndIn(e, vars.Keys, {}) && Agrees(vars, env, s.memory)
    ensures Computes(AndPrefix(e, k, vars, n).code, rest, s, EvalAndPrefix(e, k, env), u)
    decreases e, k, 2
  {
    if k == 0 {
      u := EqualityCorrect(e.expression, |e.expression.binaryExpressions|, vars, env, n, s, rest);
      assert EqualityCode(e.expression, vars, n) == EqualityPrefix(e.expression, |e.expression.binaryExpressions|, vars, n);
      assert EvalEquality(e.expression, env) == EvalEqualityPrefix(e.expression, |e.expression.binaryExpressions|, env);
      Recast(AndPrefix(e, 0, vars, n).code, EqualityPrefix(e.expression, |e.expression.binaryExpressions|, vars, n).code, rest, s,
        EvalAndPrefix(e, 0, env), EvalEqualityPrefix(e.expression, |e.expression.binaryExpressions|, env), u);
    } else {
      var p := AndPrefix(e, k - 1, vars, n);
      var right := e.binaryExpressions[k - 1].rightExpression;
      var left := EvalAndPrefix(e, k - 1, env);
      var m := p.next;
      var ul := AndCorrect(e, k - 1, vars, env, n, s, AndClauseCode(m, EqualityCode(right, vars, m + 1).code) + rest);
      u := AndRight(e, k, vars, env, n, s, rest, ul);
    }
  }

  /** The right operand of the `k`-th pair, from the state `ul` the pairs before leave. */
  lemma AndRight(e: LogicalAndExpression, k: nat, vars: Vars, env: Env, n: nat, s: State, rest: seq<Instr>, ul: State)
    returns (u: State)
    requires 0 < k <= |e.binaryExpressions| && AndIn(e, vars.Keys, {}) && Agrees(vars, env, s.memory)
    requires var p := AndPrefix(e, k - 1, vars, n);
      var right := e.binaryExpressions[k - 1].rightExpression;
      Computes(p.code, AndClauseCode(p.next, EqualityCode(right, vars, p.next + 1).code) + rest, s, EvalAndPrefix(e, k - 1, env), ul)
    ensures Computes(AndPrefix(e, k, vars, n).code, rest, s, EvalAndPrefix(e, k, env), u)
    decreases e, k, 1
  {
    var p := AndPrefix(e, k - 1, vars, n);
    var right := e.binaryExpressions[k - 1].rightExpression;
    var left := EvalAndPrefix(e, k - 1, env);
    var ur := s;
    if (left.Int? && left.v != 0) {
      ur := EqualityCorrect(right, |right.binaryExpressions|, vars, env, p.next + 1, ul.(flags := Some(Flags(ul.rax, 0))), ClauseClosing(p.next) + rest);
    }
    AndStepFacts(e, k, vars, env, n);
    u := AndCombine(p.code, p.next, EqualityCode(right, vars, p.next + 1).code, EqualityPrefix(right, |right.binaryExpressions|, vars, p.next + 1).code, rest, s,
      left, ul, EvalEqualityPrefix(right, |right.binaryExpressions|, env), ur, AndPrefix(e, k, vars, n).code, EvalAndPrefix(e, k, env));
  }

  /** How the code and the value of `k` pairs extend those of `k - 1`. */
  lemma AndStepFacts(e: LogicalAndExpression, k: nat, vars: Vars, env: Env, n: nat)
    requires 0 < k <= |e.binaryExpressions| && AndIn(e, vars.Keys, {}) && vars.Keys == env.Keys
    ensures var p := AndPrefix(e, k - 1, vars, n);
      var right := e.binaryExpressions[k - 1].rightExpression;
      var rc := EqualityCode(right, vars, p.next + 1).code;
      && AndPrefix(e, k, vars, n).code == p.code + AndClauseCode(p.next, rc)
      && rc == EqualityPrefix(right, |right.binaryExpressions|, vars, p.next + 1).code
      && Label(EndLabel(p.next)) !in rc
      && EvalAndPrefix(e, k, env) == AndValue(EvalAndPrefix(e, k - 1, env), EvalEqualityPrefix(right, |right.binaryExpressions|, env))
  {
    AndClauseStep(e, k, vars, n);
  }


  /** `AndPair` for a clause whose code and value are given by equations. */
  lemma AndCombine(first: seq<Instr>, m: nat, right: seq<Instr>, right': seq<Instr>, rest: seq<Instr>, s: State,
    left: Value, ul: State, rv: Value, ur: State, whole: seq<Instr>, wv: Value) returns (u: State)
    requires whole == first + AndClauseCode(m, right) && right == right'
    requires wv == AndValue(left, rv)
    requires Computes(first, AndClauseCode(m, right) + rest, s, left, ul)
    requires Label(EndLabel(m)) !in right
    requires (left.Int? && left.v != 0) ==> Computes(right', ClauseClosing(m) + rest, ul.(flags := Some(Flags(ul.rax, 0))), rv, ur)
    ensures Computes(whole, rest, s, wv, u)
  {
    u := AndPair(first, m, right, rest, s, left, ul, rv, ur);
  }



  lemma EqualityCorrect(e: EqualityExpression, k: nat, vars: Vars, env: Env, n: nat, s: State, rest: seq<Instr>) returns (u: State)
    requires k <= |e.binaryExpressions| && EqualityIn(e, vars.Keys, {}) && Agrees(vars, env, s.memory)
    ensures Computes(EqualityPrefix(e, k, vars, n).code, rest, s, EvalEqualityPrefix(e, k, env), u)
    decreases e, k
  {
    if k == 0 {
      u := RelationalCorrect(e.expression, |e.expression.binaryExpressions|, vars, env, n, s, rest);
      assert RelationalCode(e.expression, vars, n) == RelationalPrefix(e.expression, |e.expression.binaryExpressions|, vars, n);
      assert EvalRelational(e.expression, env) == EvalRelationalPrefix(e.expression, |e.expression.binaryExpressions|, env);
      Recast(EqualityPrefix(e, 0, vars, n).code, RelationalPrefix(e.expression, |e.expression.binaryExpressions|, vars, n).code, rest, s, EvalEqualityPrefix(e, 0, env), EvalRelationalPrefix(e.expression, |e.expression.binaryExpressions|, env), u);
    } else {
      var p := EqualityPrefix(e, k - 1, vars, n);
      var pair := e.binaryExpressions[k - 1];
      var right := pair.rightExpression;
      var left := EvalEqualityPrefix(e, k - 1, env);
      var rv := EvalRelational(right, env);
      var rc := RelationalCode(right, vars, p.next).code;
      var code := Binary(rc, CompareCode(EqualityCondition(pair.operator)));
      var ul := EqualityCorrect(e, k - 1, vars, env, n, s, code + rest);
      var ur := s;
      if left.Int? {
        ur := RelationalCorrect(right, |right.binaryExpressions|, vars, env, p.next, Pushed(ul), [Pop(Rcx)] + (CompareCode(EqualityCondition(pair.operator)) + rest));
        Recast(rc, RelationalPrefix(right, |right.binaryExpressions|, vars, p.next).code, [Pop(Rcx)] + (CompareCode(EqualityCondition(pair.operator)) + rest), Pushed(ul), rv, EvalRelationalPrefix(right, |right.binaryExpressions|, env), ur);
      }
      u := EqualityPair(p.code, rc, pair.operator, rest, s, left, ul, rv, ur);
      assert EqualityPrefix(e, k, vars, n).code == p.code + code by {
        EqualityPrefixStep(e, k - 1, vars, n);
      }
      Recast(EqualityPrefix(e, k, vars, n).code, p.code + code, rest, s, EvalEqualityPrefix(e, k, env),
        match left case Int(l) => (match rv case Int(r) => Int(ApplyEquality(pair.operator, l, r)) case failure => failure) case failure => failure, u);
    }
  }

  lemma RelationalCorrect(e: RelationalExpression, k: nat, vars: Vars, env: Env, n: nat, s: State, rest: seq<Instr>) returns (u: State)
    requires k <= |e.binaryExpressions| && RelationalIn(e, vars.Keys, {}) && Agrees(vars, env, s.memory)
    ensures Computes(RelationalPrefix(e, k, vars, n).code, rest, s, EvalRelationalPrefix(e, k, env), u)
    decreases e, k
  {
    if k == 0 {
      u := AdditiveCorrect(e.expression, |e.expression.binaryTerms|, vars, env, n, s, rest);
      assert AdditiveCode(e.expression, vars, n) == AdditivePrefix(e.expression, |e.expression.binaryTerms|, vars, n);
      assert EvalAdditive(e.expression, env) == EvalAdditivePrefix(e.expression, |e.expression.binaryTerms|, env);
      Recast(RelationalPrefix(e, 0, vars, n).code, AdditivePrefix(e.expression, |e.expression.binaryTerms|, vars, n).code, rest, s, EvalRelationalPrefix(e, 0, env), EvalAdditivePrefix(e.expression, |e.expression.binaryTerms|, env), u);
    } else {
      var p := RelationalPrefix(e, k - 1, vars, n);
      var pair := e.binaryExpressions[k - 1];
      var right := pair.rightExpression;
      var left := EvalRelationalPrefix(e, k - 1, env);
      var rv := EvalAdditive(right, env);
      var rc := AdditiveCode(right, vars, p.next).code;
      var code := Binary(rc, CompareCode(RelationalCondition(pair.operator)));
      var ul := RelationalCorrect(e, k - 1, vars, env, n, s, code + rest);
      var ur := s;
      if left.Int? {
        ur := AdditiveCorrect(right, |right.binaryTerms|, vars, env, p.next, Pushed(ul), [Pop(Rcx)] + (CompareCode(RelationalCondition(pair.operator)) + rest));
        Recast(rc, AdditivePrefix(right, |right.binaryTerms|, vars, p.next).code, [Pop(Rcx)] + (CompareCode(RelationalCondition(pair.operator)) + rest), Pushed(ul), rv, EvalAdditivePrefix(right, |right.binaryTerms|, env), ur);
      }
      u := RelationalPair(p.code, rc, pair.operator, rest, s, left, ul, rv, ur);
      assert RelationalPrefix(e, k, vars, n).code == p.code + code by {
        RelationalPrefixStep(e, k - 1, vars, n);
      }
      Recast(RelationalPrefix(e, k, vars, n).code, p.code + code, rest, s, EvalRelationalPrefix(e, k, env),
        match left case Int(l) => (match rv case Int(r) => Int(ApplyRelational(pair.operator, l, r)) case failure => failure) case failure => failure, u);
    }
  }

  lemma AdditiveCorrect(e: AdditiveExpression, k: nat, vars: Vars, env: Env, n: nat, s: State, rest: seq<Instr>) returns (u: State)
    requires k <= |e.binaryTerms| && AdditiveIn(e, vars.Keys, {}) && Agrees(vars, env, s.memory)
    ensures Computes(AdditivePrefix(e, k, vars, n).code, rest, s, EvalAdditivePrefix(e, k, env), u)
    decreases e, k
  {
    if k == 0 {
      u := TermCorrect(e.term, |e.term.binaryFactors|, vars, env, n, s, rest);
      assert TermCode(e.term, vars, n) == TermPrefix(e.term, |e.term.binaryFactors|, vars, n);
      assert EvalTerm(e.term, env) == EvalTermPrefix(e.term, |e.term.binaryFactors|, env);
      Recast(AdditivePrefix(e, 0, vars, n).code, TermPrefix(e.term, |e.term.binaryFactors|, vars, n).code, rest, s, EvalAdditivePrefix(e, 0, env), EvalTermPrefix(e.term, |e.term.binaryFactors|, env), u);
    } else {
      var p := AdditivePrefix(e, k - 1, vars, n);
      var pair := e.binaryTerms[k - 1];
      var right := pair.rightTerm;
      var left := EvalAdditivePrefix(e, k - 1, env);
      var rv := EvalTerm(right, env);
      var rc := TermCode(right, vars, p.next).code;
      var code := Binary(rc, AdditiveOperatorCode(pair.operator));
      var ul := AdditiveCorrect(e, k - 1, vars, env, n, s, code + rest);
      var ur := s;
      if left.Int? {
        ur := TermCorrect(right, |right.binaryFactors|, vars, env, p.next, Pushed(ul), [Pop(Rcx)] + (AdditiveOperatorCode(pair.operator) + rest));
        Recast(rc, TermPrefix(right, |right.binaryFactors|, vars, p.next).code, [Pop(Rcx)] + (AdditiveOperatorCode(pair.operator) + rest), Pushed(ul), rv, EvalTermPrefix(right, |right.binaryFactors|, env), ur);
      }
      u := AdditivePair(p.code, rc, pair.operator, rest, s, left, ul, rv, ur);
      assert AdditivePrefix(e, k, vars, n).code == p.code + code by {
        AdditivePrefixStep(e, k - 1, vars, n);
      }
      Recast(AdditivePrefix(e, k, vars, n).code, p.code + code, rest, s, EvalAdditivePrefix(e, k, env),
        match left case Int(l) => (match rv case Int(r) => Int(ApplyAdditive(pair.operator, l, r)) case failure => failure) case failure => failure, u);
    }
  }

  lemma TermCorrect(t: Term, k: nat, vars: Vars, env: Env, n: nat, s: State, rest: seq<Instr>) returns (u: State)
    requires k <= |t.binaryFactors| && TermIn(t, vars.Keys, {}) && Agrees(vars, env, s.memory)
    ensures Computes(TermPrefix(t, k, vars, n).code, rest, s, EvalTermPrefix(t, k, env), u)
    decreases t, k
  {
    if k == 0 {
      u := FactorCorrect(t.factor, vars, env, n, s, rest);
      Recast(TermPrefix(t, 0, vars, n).code, FactorCode(t.factor, vars, n).code, rest, s, EvalTermPrefix(t, 0, env), EvalFactor(t.factor, env), u);
    } else {
      var p := TermPrefix(t, k - 1, vars, n);
      var pair := t.binaryFactors[k - 1];
      var right := pair.rightFactor;
      var left := EvalTermPrefix(t, k - 1, env);
      var rv := EvalFactor(right, env);
      var rc := FactorCode(right, vars, p.next).code;
      var code := Binary(rc, FactorOperatorCode(pair.operator));
      var ul := TermCorrect(t, k - 1, vars, env, n, s, code + rest);
      var ur := s;
      if left.Int? {
        ur := FactorCorrect(right, vars, env, p.next, Pushed(ul), [Pop(Rcx)] + (FactorOperatorCode(pair.operator) + rest));
      }
      u := TermPair(p.code, rc, pair.operator, rest, s, left, ul, rv, ur);
      assert TermPrefix(t, k, vars, n).code == p.code + code by {
        TermPrefixStep(t, k - 1, vars, n);
      }
      Recast(TermPrefix(t, k, vars, n).code, p.code + code, rest, s, EvalTermPrefix(t, k, env),
        match left case Int(l) => (match rv case Int(r) => ApplyFactor(pair.operator, l, r) case failure => failure) case failure => failure, u);
    }
  }

  lemma FactorCorrect(f: Factor, vars: Vars, env: Env, n: nat, s: State, rest: seq<Instr>) returns (u: State)
    requires FactorIn(f, vars.Keys, {}) && Agrees(vars, env, s.memory)
    ensures Computes(FactorCode(f, vars, n).code, rest, s, EvalFactor(f, env), u)
    decreases f, 0
  {
    match f
    case Constant(v) =>
      u := s.(rax := v);
      assert Step(MovInt(v, Rax), s) == Some(u);
      ExecStraight(MovInt(v, Rax), rest, s);
    case Identifier(name) =>
      u := s.(rax := env[name]);
      assert Step(Mov(RbpOffset(vars[name]), Rax), s) == Some(u);
      ExecStraight(Mov(RbpOffset(vars[name]), Rax), rest, s);
    case Parenthesized(e) =>
      u := ExpressionCorrect(e, vars, env, n, s, rest);
    case UnaryOperation(op) =>
      var operand := FactorCode(op.factor, vars, n).code;
      var rv := EvalFactor(op.factor, env);
      var uo := FactorCorrect(op.factor, vars, env, n, s, UnaryOperatorCode(op.operator) + rest);
      u := UnaryPair(operand, op.operator, rest, s, rv, uo);
      Recast(FactorCode(f, vars, n).code, operand + UnaryOperatorCode(op.operator), rest, s, EvalFactor(f, env),
        match rv case Int(x) => Int(ApplyUnary(op.operator, x)) case failure => failure, u);
  }
}

/** The labels of generated code.

    The clause counter gives every `||` and `&&` a fresh number, and each clause places its
    start label and its end label once. So the code of a node numbered from `n` places
    exactly the labels of the clauses `n` up to the counter after it, each once, and every
    jump in it targets a label it places after the jump. An assembler then sees no label
    twice, and every jump goes forward, which is the only kind the machine of `Machine`
    follows. */
module ClauseLabels {
  import opened Ast
  import opened Asm
  import opened Parser
  import opened CodeGen
  import opened FunctionParser

  predicate IsJump(i: Instr) {
    i.Jmp? || i.Je? || i.Jne?
  }

  /** `name` is the start or the end label of a clause numbered in `[lo, hi)`. */
  predicate ClauseLabelIn(name: string, lo: nat, hi: nat) {
    exists c: nat :: lo <= c < hi && (name == StartLabel(c) || name == EndLabel(c))
  }

  /** Every label `code` places belongs to a clause numbered in `[lo, hi)`. */
  predicate LabelsWithin(code: seq<Instr>, lo: nat, hi: nat) {
    forall i :: 0 <= i < |code| && code[i].Label? ==> ClauseLabelIn(code[i].name, lo, hi)
  }

  /** No label is placed twice. */
  predicate LabelsUnique(code: seq<Instr>) {
    forall i, j :: 0 <= i < j < |code| && code[i].Label? ==> code[i] != code[j]
  }

  /** Both labels of clause `c` are placed. */
  predicate BothPlaced(code: seq<Instr>, c: nat) {
    Label(StartLabel(c)) in code && Label(EndLabel(c)) in code
  }

  /** Both labels of every clause numbered in `[lo, hi)` are placed. */
  predicate LabelsPlaced(code: seq<Instr>, lo: nat, hi: nat) {
    forall c: nat :: lo <= c < hi ==> BothPlaced(code, c)
  }

  /** Every jump in `code` targets a label placed after it, in `code` or in `after`. */
  predicate JumpsAhead(code: seq<Instr>, after: seq<Instr>) {
    forall i :: 0 <= i < |code| && IsJump(code[i]) ==> Label(code[i].target) in code[i + 1..] + after
  }

  /** `code` places the two labels of each clause numbered in `[lo, hi)`, each once, and no
      other label, and each of its jumps goes forward to one of them. */
  predicate WellLabelled(code: seq<Instr>, lo: nat, hi: nat) {
    && lo <= hi
    && LabelsWithin(code, lo, hi)
    && LabelsUnique(code)
    && LabelsPlaced(code, lo, hi)
    && JumpsAhead(code, [])
  }

  /** Code with neither labels nor jumps. */
  predicate Plain(code: seq<Instr>) {
    forall i :: 0 <= i < |code| ==> !code[i].Label? && !IsJump(code[i])
  }

  // ---------------------------------------------------------------- consequences

  /** A jump in well-labelled code targets a label placed after it and nowhere before. */
  lemma JumpsForward(code: seq<Instr>, lo: nat, hi: nat, i: nat)
    requires WellLabelled(code, lo, hi) && i < |code| && IsJump(code[i])
    ensures Label(code[i].target) in code[i + 1..]
    ensures Label(code[i].target) !in code[..i + 1]
  {
    var target := Label(code[i].target);
    assert code[i + 1..] + [] == code[i + 1..];
    var k :| 0 <= k < |code[i + 1..]| && code[i + 1..][k] == target;
    assert code[i + 1 + k] == target;
    forall j | 0 <= j <= i
      ensures code[j] != target
    {
      if code[j].Label? {
        assert j < i + 1 + k;
      }
    }
  }

  /** Each label of a clause in range is placed at exactly one position. */
  lemma PlacedOnce(code: seq<Instr>, lo: nat, hi: nat, c: nat, start: bool)
    requires WellLabelled(code, lo, hi) && lo <= c < hi
    ensures var l := Label(if start then StartLabel(c) else EndLabel(c));
      exists j :: 0 <= j < |code| && code[j] == l && forall j' :: 0 <= j' < |code| && code[j'] == l ==> j' == j
  {
    var l := Label(if start then StartLabel(c) else EndLabel(c));
    assert BothPlaced(code, c);
    var j :| 0 <= j < |code| && code[j] == l;
    forall j' | 0 <= j' < |code| && j' != j
      ensures code[j'] != l
    {
      if j' < j && code[j'].Label? {
        assert code[j'] != code[j];
      }
    }
  }

  /** Code whose labels are all numbered from `lo` on places no label of an earlier clause. */
  lemma EarlierAbsent(code: seq<Instr>, lo: nat, hi: nat, c: nat)
    requires LabelsWithin(code, lo, hi) && c < lo
    ensures Label(StartLabel(c)) !in code && Label(EndLabel(c)) !in code
  {
    forall i | 0 <= i < |code|
      ensures code[i] != Label(StartLabel(c)) && code[i] != Label(EndLabel(c))
    {
      if code[i].Label? {
        RangesDisjoint(code[i].name, lo, hi, c, c + 1);
      }
    }
  }

  /** No name is a clause label of two disjoint ranges. */
  lemma RangesDisjoint(name: string, lo: nat, hi: nat, lo': nat, hi': nat)
    requires ClauseLabelIn(name, lo, hi) && (hi <= lo' || hi' <= lo)
    ensures !ClauseLabelIn(name, lo', hi')
  {
    var c: nat :| lo <= c < hi && (name == StartLabel(c) || name == EndLabel(c));
    forall d: nat | lo' <= d < hi'
      ensures name != StartLabel(d) && name != EndLabel(d)
    {
      ClauseLabelsDistinct(c, d);
      ClauseLabelsDistinct(d, c);
    }
  }

  // ---------------------------------------------------------------- putting code together

  lemma WithinWiden(code: seq<Instr>, lo: nat, hi: nat, lo': nat, hi': nat)
    requires LabelsWithin(code, lo, hi) && lo' <= lo && hi <= hi'
    ensures LabelsWithin(code, lo', hi')
  {
    forall i | 0 <= i < |code| && code[i].Label?
      ensures ClauseLabelIn(code[i].name, lo', hi')
    {
      var c: nat :| lo <= c < hi && (code[i].name == StartLabel(c) || code[i].name == EndLabel(c));
    }
  }

  lemma WithinAppend(a: seq<Instr>, b: seq<Instr>, lo: nat, hi: nat)
    requires LabelsWithin(a, lo, hi) && LabelsWithin(b, lo, hi)
    ensures LabelsWithin(a + b, lo, hi)
  {
    forall i | 0 <= i < |a + b| && (a + b)[i].Label?
      ensures ClauseLabelIn((a + b)[i].name, lo, hi)
    {
      if i < |a| {
        assert (a + b)[i] == a[i];
      } else {
        assert (a + b)[i] == b[i - |a|];
      }
    }
  }

  /** Labels numbered below `mid` are none of those numbered from `mid` on. */
  lemma RangesApart(a: seq<Instr>, b: seq<Instr>, lo: nat, mid: nat, hi: nat)
    requires LabelsWithin(a, lo, mid) && LabelsWithin(b, mid, hi)
    ensures forall i :: 0 <= i < |a| && a[i].Label? ==> a[i] !in b
  {
    forall i, j | 0 <= i < |a| && a[i].Label? && 0 <= j < |b|
      ensures a[i] != b[j]
    {
      RangesDisjoint(a[i].name, lo, mid, mid, hi);
    }
  }

  lemma UniqueAppend(a: seq<Instr>, b: seq<Instr>)
    requires LabelsUnique(a) && LabelsUnique(b)
    requires forall i :: 0 <= i < |a| && a[i].Label? ==> a[i] !in b
    ensures LabelsUnique(a + b)
  {
    forall i, j | 0 <= i < j < |a + b| && (a + b)[i].Label?
      ensures (a + b)[i] != (a + b)[j]
    {
      if j < |a| {
        assert (a + b)[i] == a[i] && (a + b)[j] == a[j];
      } else if i < |a| {
        assert (a + b)[i] == a[i] && (a + b)[j] == b[j - |a|];
      } else {
        assert (a + b)[i] == b[i - |a|] && (a + b)[j] == b[j - |a|];
      }
    }
  }

  lemma PlacedAppend(a: seq<Instr>, b: seq<Instr>, lo: nat, mid: nat, hi: nat)
    requires LabelsPlaced(a, lo, mid) && LabelsPlaced(b, mid, hi)
    ensures LabelsPlaced(a + b, lo, hi)
  {
    forall c: nat | lo <= c < hi
      ensures BothPlaced(a + b, c)
    {
      if c < mid {
        assert BothPlaced(a, c);
      } else {
        assert BothPlaced(b, c);
      }
    }
  }

  /** Jumps that go forward within `a` also go forward within `a` followed by `b`. */
  lemma JumpsExtend(a: seq<Instr>, b: seq<Instr>)
    requires JumpsAhead(a, [])
    ensures JumpsAhead(a, b)
  {
    forall i | 0 <= i < |a| && IsJump(a[i])
      ensures Label(a[i].target) in a[i + 1..] + b
    {
      assert a[i + 1..] + [] == a[i + 1..];
    }
  }

  lemma JumpsAppend(a: seq<Instr>, b: seq<Instr>)
    requires JumpsAhead(a, b) && JumpsAhead(b, [])
    ensures JumpsAhead(a + b, [])
  {
    forall i | 0 <= i < |a + b| && IsJump((a + b)[i])
      ensures Label((a + b)[i].target) in (a + b)[i + 1..] + []
    {
      if i < |a| {
        assert (a + b)[i] == a[i];
        assert (a + b)[i + 1..] + [] == a[i + 1..] + b;
      } else {
        assert (a + b)[i] == b[i - |a|];
        assert (a + b)[i + 1..] + [] == b[i - |a| + 1..] + [];
      }
    }
  }

  /** Well-labelled code for `[lo, mid)` followed by well-labelled code for `[mid, hi)`. */
  lemma WellLabelledAppend(a: seq<Instr>, b: seq<Instr>, lo: nat, mid: nat, hi: nat)
    requires WellLabelled(a, lo, mid) && WellLabelled(b, mid, hi)
    ensures WellLabelled(a + b, lo, hi)
  {
    WithinWiden(a, lo, mid, lo, hi);
    WithinWiden(b, mid, hi, lo, hi);
    WithinAppend(a, b, lo, hi);
    RangesApart(a, b, lo, mid, hi);
    UniqueAppend(a, b);
    PlacedAppend(a, b, lo, mid, hi);
    JumpsExtend(a, b);
    JumpsAppend(a, b);
  }

  lemma PlainWellLabelled(code: seq<Instr>, n: nat)
    requires Plain(code)
    ensures WellLabelled(code, n, n)
  {
  }

  /** `push %rax`, the right operand, `pop %rcx` and the combining instructions. */
  lemma BinaryWellLabelled(right: seq<Instr>, combine: seq<Instr>, lo: nat, hi: nat)
    requires WellLabelled(right, lo, hi) && Plain(combine)
    ensures WellLabelled(Binary(right, combine), lo, hi)
  {
    PlainWellLabelled([Push(Rax)], lo);
    PlainWellLabelled([Pop(Rcx)], hi);
    PlainWellLabelled(combine, hi);
    WellLabelledAppend([Push(Rax)], right, lo, lo, hi);
    WellLabelledAppend([Push(Rax)] + right, [Pop(Rcx)], lo, hi, hi);
    WellLabelledAppend([Push(Rax)] + right + [Pop(Rcx)], combine, lo, hi, hi);
  }

  /** The opening of clause `m`: no label but its start label, last, and jumps to the
      clause's own two labels only. */
  predicate Opening(o: seq<Instr>, m: nat) {
    && |o| > 0
    && o[|o| - 1] == Label(StartLabel(m))
    && forall i :: 0 <= i < |o| - 1 ==>
         !o[i].Label? && (IsJump(o[i]) ==> o[i].target == StartLabel(m) || o[i].target == EndLabel(m))
  }

  lemma OpeningsShaped(m: nat)
    ensures Opening(OrOpening(m), m) && Opening(AndOpening(m), m)
  {
  }

  /** A clause `m` around a right operand numbered from `m + 1`. */
  lemma ClauseWellLabelled(o: seq<Instr>, m: nat, right: seq<Instr>, hi: nat)
    requires Opening(o, m) && WellLabelled(right, m + 1, hi)
    ensures WellLabelled(o + right + ClauseClosing(m), m, hi)
  {
    ClauseWithin(o, m, right, hi);
    ClauseUnique(o, m, right, hi);
    ClausePlaced(o, m, right, hi);
    ClauseJumps(o, m, right, hi);
  }

  lemma ClauseWithin(o: seq<Instr>, m: nat, right: seq<Instr>, hi: nat)
    requires Opening(o, m) && m < hi && LabelsWithin(right, m + 1, hi)
    ensures LabelsWithin(o + right + ClauseClosing(m), m, hi)
  {
    var closing := ClauseClosing(m);
    assert LabelsWithin(o, m, m + 1);
    assert LabelsWithin(closing, m, m + 1) by {
      assert closing == NormaliseCode() + [Label(EndLabel(m))];
    }
    WithinWiden(o, m, m + 1, m, hi);
    WithinWiden(right, m + 1, hi, m, hi);
    WithinWiden(closing, m, m + 1, m, hi);
    WithinAppend(o, right, m, hi);
    WithinAppend(o + right, closing, m, hi);
  }

  lemma ClauseUnique(o: seq<Instr>, m: nat, right: seq<Instr>, hi: nat)
    requires Opening(o, m) && LabelsWithin(right, m + 1, hi) && LabelsUnique(right)
    ensures LabelsUnique(o + right + ClauseClosing(m))
  {
    var closing := ClauseClosing(m);
    var end := Label(EndLabel(m));
    assert closing == NormaliseCode() + [end];
    assert LabelsWithin(o, m, m + 1);
    RangesApart(o, right, m, m + 1, hi);
    UniqueAppend(o, right);
    EarlierAbsent(right, m + 1, hi, m);
    ClauseLabelsDistinct(m, m);
    assert end !in o;
    assert end !in o + right;
    forall i | 0 <= i < |o + right| && (o + right)[i].Label?
      ensures (o + right)[i] !in closing
    {
    }
    UniqueAppend(o + right, closing);
  }

  lemma ClausePlaced(o: seq<Instr>, m: nat, right: seq<Instr>, hi: nat)
    requires Opening(o, m) && LabelsPlaced(right, m + 1, hi)
    ensures LabelsPlaced(o + right + ClauseClosing(m), m, hi)
  {
    var code := o + right + ClauseClosing(m);
    assert code[|o| - 1] == Label(StartLabel(m));
    assert code[|code| - 1] == Label(EndLabel(m));
    forall c: nat | m <= c < hi
      ensures BothPlaced(code, c)
    {
      if m < c {
        assert BothPlaced(right, c);
      }
    }
  }

  lemma ClauseJumps(o: seq<Instr>, m: nat, right: seq<Instr>, hi: nat)
    requires Opening(o, m) && JumpsAhead(right, [])
    ensures JumpsAhead(o + right + ClauseClosing(m), [])
  {
    var closing := ClauseClosing(m);
    assert closing == NormaliseCode() + [Label(EndLabel(m))];
    assert JumpsAhead(closing, []);
    JumpsExtend(right, closing);
    JumpsAppend(right, closing);
    forall i | 0 <= i < |o| && IsJump(o[i])
      ensures Label(o[i].target) in o[i + 1..] + (right + closing)
    {
      assert o[i + 1..][|o| - 2 - i] == Label(StartLabel(m));
      assert closing[3] == Label(EndLabel(m));
    }
    JumpsAppend(o, right + closing);
    assert o + right + closing == o + (right + closing);
  }

  // ---------------------------------------------------------------- the code of each level

  lemma ExpressionLabels(e: Expression, vars: Vars, n: nat)
    requires ExpressionIn(e, vars.Keys, {})
    ensures WellLabelled(ExpressionCode(e, vars, n).code, n, n + ExpressionClauses(e))
    decreases e, 0
  {
    match e
    case LogicalOr(or) =>
      var r := OrPrefix(or, |or.binaryExpressions|, vars, n);
      OrLabels(or, |or.binaryExpressions|, vars, n);
      assert ExpressionCode(e, vars, n) == r;
      assert ExpressionPlaces(r, n, ExpressionClauses(e));
  }

  /** The code of `r` is well labelled for the `count` clauses numbered from `n`. */
  predicate ExpressionPlaces(r: Emitted, n: nat, count: nat) {
    r.next == n + count && WellLabelled(r.code, n, r.next)
  }

  lemma OrLabels(e: LogicalOrExpression, k: nat, vars: Vars, n: nat)
    requires k <= |e.binaryExpressions| && OrIn(e, vars.Keys, {})
    ensures var r := OrPrefix(e, k, vars, n); WellLabelled(r.code, n, r.next)
    decreases e, k
  {
    if k == 0 {
      AndLabels(e.expression, |e.expression.binaryExpressions|, vars, n);
    } else {
      var p := OrPrefix(e, k - 1, vars, n);
      var operand := e.binaryExpressions[k - 1].rightExpression;
      var right := AndCode(operand, vars, p.next + 1);
      assert OrPrefix(e, k, vars, n) == Emitted(p.code + OrClauseCode(p.next, right.code), right.next);
      OrLabels(e, k - 1, vars, n);
      AndLabels(operand, |operand.binaryExpressions|, vars, p.next + 1);
      OrPairLabelled(p, right, OrPrefix(e, k, vars, n), n);
    }
  }

  /** The prefix code, then a `||` clause numbered `p.next` around the right operand. */
  lemma OrPairLabelled(p: Emitted, right: Emitted, whole: Emitted, n: nat)
    requires WellLabelled(p.code, n, p.next) && WellLabelled(right.code, p.next + 1, right.next)
    requires whole == Emitted(p.code + OrClauseCode(p.next, right.code), right.next)
    ensures WellLabelled(whole.code, n, whole.next)
  {
    OpeningsShaped(p.next);
    ClauseWellLabelled(OrOpening(p.next), p.next, right.code, right.next);
    WellLabelledAppend(p.code, OrClauseCode(p.next, right.code), n, p.next, right.next);
  }

  lemma AndLabels(e: LogicalAndExpression, k: nat, vars: Vars, n: nat)
    requires k <= |e.binaryExpressions| && AndIn(e, vars.Keys, {})
    ensures var r := AndPrefix(e, k, vars, n); WellLabelled(r.code, n, r.next)
    decreases e, k
  {
    if k == 0 {
      EqualityLabels(e.expression, |e.expression.binaryExpressions|, vars, n);
    } else {
      var p := AndPrefix(e, k - 1, vars, n);
      var operand := e.binaryExpressions[k - 1].rightExpression;
      var right := EqualityCode(operand, vars, p.next + 1);
      assert AndPrefix(e, k, vars, n) == Emitted(p.code + AndClauseCode(p.next, right.code), right.next);
      AndLabels(e, k - 1, vars, n);
      EqualityLabels(operand, |operand.binaryExpressions|, vars, p.next + 1);
      AndPairLabelled(p, right, AndPrefix(e, k, vars, n), n);
    }
  }

  /** The prefix code, then a `&&` clause numbered `p.next` around the right operand. */
  lemma AndPairLabelled(p: Emitted, right: Emitted, whole: Emitted, n: nat)
    requires WellLabelled(p.code, n, p.next) && WellLabelled(right.code, p.next + 1, right.next)
    requires whole == Emitted(p.code + AndClauseCode(p.next, right.code), right.next)
    ensures WellLabelled(whole.code, n, whole.next)
  {
    OpeningsShaped(p.next);
    ClauseWellLabelled(AndOpening(p.next), p.next, right.code, right.next);
    WellLabelledAppend(p.code, AndClauseCode(p.next, right.code), n, p.next, right.next);
  }

  lemma EqualityLabels(e: EqualityExpression, k: nat, vars: Vars, n: nat)
    requires k <= |e.binaryExpressions| && EqualityIn(e, vars.Keys, {})
    ensures var r := EqualityPrefix(e, k, vars, n); WellLabelled(r.code, n, r.next)
    decreases e, k
  {
    if k == 0 {
      RelationalLabels(e.expression, |e.expression.binaryExpressions|, vars, n);
    } else {
      var p := EqualityPrefix(e, k - 1, vars, n);
      var pair := e.binaryExpressions[k - 1];
      var right := RelationalCode(pair.rightExpression, vars, p.next);
      assert EqualityPrefix(e, k, vars, n) == Emitted(p.code + Binary(right.code, CompareCode(EqualityCondition(pair.operator))), right.next);
      EqualityLabels(e, k - 1, vars, n);
      RelationalLabels(pair.rightExpression, |pair.rightExpression.binaryExpressions|, vars, p.next);
      BinaryWellLabelled(right.code, CompareCode(EqualityCondition(pair.operator)), p.next, right.next);
      WellLabelledAppend(p.code, Binary(right.code, CompareCode(EqualityCondition(pair.operator))), n, p.next, right.next);
    }
  }

  lemma RelationalLabels(e: RelationalExpression, k: nat, vars: Vars, n: nat)
    requires k <= |e.binaryExpressions| && RelationalIn(e, vars.Keys, {})
    ensures var r := RelationalPrefix(e, k, vars, n); WellLabelled(r.code, n, r.next)
    decreases e, k
  {
    if k == 0 {
      AdditiveLabels(e.expression, |e.expression.binaryTerms|, vars, n);
    } else {
      var p := RelationalPrefix(e, k - 1, vars, n);
      var pair := e.binaryExpressions[k - 1];
      var right := AdditiveCode(pair.rightExpression, vars, p.next);
      assert RelationalPrefix(e, k, vars, n) == Emitted(p.code + Binary(right.code, CompareCode(RelationalCondition(pair.operator))), right.next);
      RelationalLabels(e, k - 1, vars, n);
      AdditiveLabels(pair.rightExpression, |pair.rightExpression.binaryTerms|, vars, p.next);
      BinaryWellLabelled(right.code, CompareCode(RelationalCondition(pair.operator)), p.next, right.next);
      WellLabelledAppend(p.code, Binary(right.code, CompareCode(RelationalCondition(pair.operator))), n, p.next, right.next);
    }
  }

  lemma AdditiveLabels(e: AdditiveExpression, k: nat, vars: Vars, n: nat)
    requires k <= |e.binaryTerms| && AdditiveIn(e, vars.Keys, {})
    ensures var r := AdditivePrefix(e, k, vars, n); WellLabelled(r.code, n, r.next)
    decreases e, k
  {
    if k == 0 {
      TermLabels(e.term, |e.term.binaryFactors|, vars, n);
    } else {
      var p := AdditivePrefix(e, k - 1, vars, n);
      var pair := e.binaryTerms[k - 1];
      var right := TermCode(pair.rightTerm, vars, p.next);
      assert AdditivePrefix(e, k, vars, n) == Emitted(p.code + Binary(right.code, AdditiveOperatorCode(pair.operator)), right.next);
      AdditiveLabels(e, k - 1, vars, n);
      TermLabels(pair.rightTerm, |pair.rightTerm.binaryFactors|, vars, p.next);
      BinaryWellLabelled(right.code, AdditiveOperatorCode(pair.operator), p.next, right.next);
      WellLabelledAppend(p.code, Binary(right.code, AdditiveOperatorCode(pair.operator)), n, p.next, right.next);
    }
  }

  lemma TermLabels(t: Term, k: nat, vars: Vars, n: nat)
    requires k <= |t.binaryFactors| && TermIn(t, vars.Keys, {})
    ensures var r := TermPrefix(t, k, vars, n); WellLabelled(r.code, n, r.next)
    decreases t, k
  {
    if k == 0 {
      FactorLabels(t.factor, vars, n);
    } else {
      var p := TermPrefix(t, k - 1, vars, n);
      var pair := t.binaryFactors[k - 1];
      var right := FactorCode(pair.rightFactor, vars, p.next);
      assert TermPrefix(t, k, vars, n) == Emitted(p.code + Binary(right.code, FactorOperatorCode(pair.operator)), right.next);
      TermLabels(t, k - 1, vars, n);
      FactorLabels(pair.rightFactor, vars, p.next);
      BinaryWellLabelled(right.code, FactorOperatorCode(pair.operator), p.next, right.next);
      WellLabelledAppend(p.code, Binary(right.code, FactorOperatorCode(pair.operator)), n, p.next, right.next);
    }
  }

  lemma FactorLabels(f: Factor, vars: Vars, n: nat)
    requires FactorIn(f, vars.Keys, {})
    ensures var r := FactorCode(f, vars, n); WellLabelled(r.code, n, r.next)
    decreases f, 0
  {
    match f
    case Constant(v) => PlainWellLabelled([MovInt(v, Rax)], n);
    case Identifier(name) => PlainWellLabelled([Mov(RbpOffset(vars[name]), Rax)], n);
    case Parenthesized(e) => ExpressionLabels(e, vars, n);
    case UnaryOperation(op) =>
      var operand := FactorCode(op.factor, vars, n);
      FactorLabels(op.factor, vars, n);
      PlainWellLabelled(UnaryOperatorCode(op.operator), operand.next);
      WellLabelledAppend(operand.code, UnaryOperatorCode(op.operator), n, operand.next, operand.next);
  }

  /** The statements of a function body, one after another, share one numbering: across the
      whole body no clause label is placed twice and every jump goes forward. */
  lemma StatementsLabels(statements: seq<Statement>, k: nat, vars: Vars, n: nat)
    requires k <= |statements| && forall i :: 0 <= i < |statements| ==> Generable(statements[i], vars)
    ensures var r := StatementsPrefix(statements, k, vars, n); WellLabelled(r.code, n, r.next)
  {
    if k == 0 {
      PlainWellLabelled([], n);
    } else {
      var p := StatementsPrefix(statements, k - 1, vars, n);
      var e := ExpressionCode(statements[k - 1].expression, vars, p.next);
      StatementsLabels(statements, k - 1, vars, n);
      ExpressionLabels(statements[k - 1].expression, vars, p.next);
      PlainWellLabelled([Ret], e.next);
      WellLabelledAppend(e.code, [Ret], p.next, e.next, e.next);
      WellLabelledAppend(p.code, e.code + [Ret], n, p.next, e.next);
    }
  }

  /** One `||` pair more: the prefix code is followed by clause `p.next`, whose right
      operand places no end label of that clause, so the clause's jump to it skips the
      operand. */
  lemma OrClauseStep(e: LogicalOrExpression, k: nat, vars: Vars, n: nat)
    requires 0 < k <= |e.binaryExpressions| && OrIn(e, vars.Keys, {})
    ensures var p := OrPrefix(e, k - 1, vars, n);
      var right := e.binaryExpressions[k - 1].rightExpression;
      var rc := AndCode(right, vars, p.next + 1).code;
      && OrPrefix(e, k, vars, n).code == p.code + OrClauseCode(p.next, rc)
      && rc == AndPrefix(right, |right.binaryExpressions|, vars, p.next + 1).code
      && Label(EndLabel(p.next)) !in rc
  {
    var p := OrPrefix(e, k - 1, vars, n);
    var right := AndCode(e.binaryExpressions[k - 1].rightExpression, vars, p.next + 1);
    assert OrPrefix(e, k, vars, n) == Emitted(p.code + OrClauseCode(p.next, right.code), right.next);
    AndOperandAvoids(e.binaryExpressions[k - 1].rightExpression, vars, p.next);
  }

  /** One `&&` pair more, in the same way. */
  lemma AndClauseStep(e: LogicalAndExpression, k: nat, vars: Vars, n: nat)
    requires 0 < k <= |e.binaryExpressions| && AndIn(e, vars.Keys, {})
    ensures var p := AndPrefix(e, k - 1, vars, n);
      var right := e.binaryExpressions[k - 1].rightExpression;
      var rc := EqualityCode(right, vars, p.next + 1).code;
      && AndPrefix(e, k, vars, n).code == p.code + AndClauseCode(p.next, rc)
      && rc == EqualityPrefix(right, |right.binaryExpressions|, vars, p.next + 1).code
      && Label(EndLabel(p.next)) !in rc
  {
    var p := AndPrefix(e, k - 1, vars, n);
    var right := EqualityCode(e.binaryExpressions[k - 1].rightExpression, vars, p.next + 1);
    assert AndPrefix(e, k, vars, n) == Emitted(p.code + AndClauseCode(p.next, right.code), right.next);
    EqualityOperandAvoids(e.binaryExpressions[k - 1].rightExpression, vars, p.next);
  }

  /** The right operand of a clause numbered `m` is numbered from `m + 1`, so it places no
      end label of clause `m`. */
  lemma AndOperandAvoids(e: LogicalAndExpression, vars: Vars, m: nat)
    requires AndIn(e, vars.Keys, {})
    ensures Label(EndLabel(m)) !in AndPrefix(e, |e.binaryExpressions|, vars, m + 1).code
  {
    var r := AndPrefix(e, |e.binaryExpressions|, vars, m + 1);
    AndLabels(e, |e.binaryExpressions|, vars, m + 1);
    EarlierAbsent(r.code, m + 1, r.next, m);
  }

  lemma EqualityOperandAvoids(e: EqualityExpression, vars: Vars, m: nat)
    requires EqualityIn(e, vars.Keys, {})
    ensures Label(EndLabel(m)) !in EqualityPrefix(e, |e.binaryExpressions|, vars, m + 1).code
  {
    var r := EqualityPrefix(e, |e.binaryExpressions|, vars, m + 1);
    EqualityLabels(e, |e.binaryExpressions|, vars, m + 1);
    EarlierAbsent(r.code, m + 1, r.next, m);
  }
}

/** The assembly emitter: an append-only buffer of AT&T-syntax x86-64 lines and a counter
    that names the labels of short-circuit clauses.

    Each line is an `Instr`, and `Render` gives its text; the buffer is the list of
    instructions appended so far, and its text is their rendering in order. Properties of
    emitted code are then stated on instruction lists. */
module Asm {
  import opened Int64
  import opened Numerals

  /** `RbpOffset` (a slot of the stack frame) is used by the code generator but absent from
      the emitter's own enum. Its `offset(%rbp)` text is this model's choice: the emitter
      defines none, and no emitted code sets `%rbp` up. */
  datatype Register = Rax | Rcx | Rdx | Al | RbpOffset(offset: int)

  function RegisterName(r: Register): string {
    match r
    case Rax => "%rax"
    case Rcx => "%rcx"
    case Rdx => "%rdx"
    case Al => "%al"
    case RbpOffset(o) => IntToString(o) + "(%rbp)"
  }

  /** Distinct registers are printed differently. */
  lemma RegisterNameInjective(a: Register, b: Register)
    requires RegisterName(a) == RegisterName(b)
    ensures a == b
  {
    if a.RbpOffset? && b.RbpOffset? {
      var sx, sy := IntToString(a.offset), IntToString(b.offset);
      assert sx + "(%rbp)" == sy + "(%rbp)";
      assert |sx| == |sy|;
      assert sx == (sx + "(%rbp)")[..|sx|];
      assert sy == (sy + "(%rbp)")[..|sy|];
      IntToStringInjective(a.offset, b.offset);
    }
  }

  /** The flag condition a `setX` instruction reads. */
  datatype Condition = E | NE | L | LE | G | GE

  function ConditionSuffix(c: Condition): string {
    match c
    case E => "e"
    case NE => "ne"
    case L => "l"
    case LE => "le"
    case G => "g"
    case GE => "ge"
  }

  /** One line (or, for `Globl`, one directive) of emitted assembly. `FunctionReturn` stands
      for the epilogue the function generator appends, which the emitter does not define;
      its three-line text below is this model's choice and pops a `%rbp` that the emitted
      prologue never pushed. */
  datatype Instr =
    | Globl(name: string)
    | Label(name: string)
    | MovInt(value: i64, dest: Register)
    | Mov(src: Register, dest: Register)
    | Push(src: Register)
    | Pop(dest: Register)
    | Ret
    | Add(src: Register, dest: Register)
    | Sub(src: Register, dest: Register)
    | Imul(src: Register, dest: Register)
    | Idiv(src: Register)
    | Neg(src: Register)
    | Cmp(srcA: Register, srcB: Register)
    | CmpInt(value: i64, src: Register)
    | Set(condition: Condition, dest: Register)
    | Not(src: Register)
    | Jmp(target: string)
    | Je(target: string)
    | Jne(target: string)
    | FunctionReturn

  function Render(i: Instr): string {
    match i
    case Globl(name) => "\t.globl\t_" + name + "\n"
    case Label(name) => name + ":\n"
    case MovInt(v, d) => "\tmov\t$" + IntToString(v as int) + ", " + RegisterName(d) + "\n"
    case Mov(s, d) => "\tmov\t" + RegisterName(s) + ", " + RegisterName(d) + "\n"
    case Push(s) => "\tpush\t" + RegisterName(s) + "\n"
    case Pop(d) => "\tpop\t" + RegisterName(d) + "\n"
    case Ret => "\tret\n"
    case Add(s, d) => "\tadd\t" + RegisterName(s) + ", " + RegisterName(d) + "\n"
    case Sub(s, d) => "\tsub\t" + RegisterName(s) + ", " + RegisterName(d) + "\n"
    case Imul(s, d) => "\timul\t" + RegisterName(s) + ", " + RegisterName(d) + "\n"
    case Idiv(s) => "\tidiv\t" + RegisterName(s) + "\n"
    case Neg(s) => "\tneg\t" + RegisterName(s) + "\n"
    case Cmp(a, b) => "\tcmp\t" + RegisterName(a) + ", " + RegisterName(b) + "\n"
    case CmpInt(v, s) => "\tcmp\t$" + IntToString(v as int) + ", " + RegisterName(s) + "\n"
    case Set(c, d) => "\tset" + ConditionSuffix(c) + "\t" + RegisterName(d) + "\n"
    case Not(s) => "\tnot\t" + RegisterName(s) + "\n"
    case Jmp(t) => "\tjmp\t" + t + "\n"
    case Je(t) => "\tje\t" + t + "\n"
    case Jne(t) => "\tjne\t" + t + "\n"
    case FunctionReturn => "\tmov\t%rbp, %rsp\n\tpop\t%rbp\n\tret\n"
  }

  /** The text of a list of instructions, one after another. */
  function RenderCode(code: seq<Instr>): string
    decreases |code|
  {
    if |code| == 0 then "" else RenderCode(code[..|code| - 1]) + Render(code[|code| - 1])
  }

  /** Appending one instruction appends exactly its text. */
  lemma RenderOfAppend(code: seq<Instr>, i: Instr)
    ensures RenderCode(code + [i]) == RenderCode(code) + Render(i)
  {
    var c := code + [i];
    assert c[..|c| - 1] == code && c[|c| - 1] == i;
  }

  /** Labels of clause number `count` (`start_id` and `end_id`). */
  function StartLabel(count: nat): string {
    "_clause_" + NatToString(count)
  }

  function EndLabel(count: nat): string {
    "_end_" + NatToString(count)
  }

  /** Clause labels with different numbers are different, and no start label is an end
      label. */
  lemma ClauseLabelsDistinct(a: nat, b: nat)
    ensures StartLabel(a) == StartLabel(b) <==> a == b
    ensures EndLabel(a) == EndLabel(b) <==> a == b
    ensures StartLabel(a) != EndLabel(b)
  {
    var sa, sb := NatToString(a), NatToString(b);
    if StartLabel(a) == StartLabel(b) {
      assert sa == StartLabel(a)[8..] && sb == StartLabel(b)[8..];
      NatToStringInjective(a, b);
    }
    if EndLabel(a) == EndLabel(b) {
      assert sa == EndLabel(a)[5..] && sb == EndLabel(b)[5..];
      NatToStringInjective(a, b);
    }
    assert StartLabel(a)[1] == 'c' && EndLabel(b)[1] == 'e';
  }

  datatype ClauseState = New | Started | Ended

  /** A pair of labels with a New -> Started -> Ended lifecycle. */
  class Clause {
    var state: ClauseState
    const count: nat

    constructor (count: nat)
      ensures this.count == count && state == New
    {
      this.count := count;
      state := New;
    }

    function StartId(): string {
      StartLabel(count)
    }

    function EndId(): string {
      EndLabel(count)
    }
  }

  /** The emitter. Its text buffer is kept as the list of instructions appended so far;
      the text itself is `Source()`, their rendering one after another. */
  class Asm {
    var clauseCount: nat
    var code: seq<Instr>

    function Source(): string
      reads this
    {
      RenderCode(code)
    }

    constructor ()
      ensures clauseCount == 0 && code == [] && Source() == ""
    {
      clauseCount := 0;
      code := [];
    }

    /** Appends one instruction: the text grows by exactly its line. Every emitter method
        below is this with a fixed instruction. */
    method Emit(i: Instr)
      modifies this
      ensures code == old(code) + [i] && Source() == old(Source()) + Render(i)
      ensures clauseCount == old(clauseCount)
    {
      code := code + [i];
      RenderOfAppend(old(code), i);
    }

    method DeclareFunction(name: string)
      modifies this
      ensures code == old(code) + [Globl(name), Label("_" + name)]
      ensures clauseCount == old(clauseCount)
    {
      Emit(Globl(name));
      Emit(Label("_" + name));
    }

    method MovInt(value: i64, dest: Register)
      modifies this
      ensures code == old(code) + [Instr.MovInt(value, dest)]
      ensures clauseCount == old(clauseCount)
    {
      Emit(Instr.MovInt(value, dest));
    }

    method Mov(src: Register, dest: Register)
      modifies this
      ensures code == old(code) + [Instr.Mov(src, dest)]
      ensures clauseCount == old(clauseCount)
    {
      Emit(Instr.Mov(src, dest));
    }

    method Push(src: Register)
      modifies this
      ensures code == old(code) + [Instr.Push(src)]
      ensures clauseCount == old(clauseCount)
    {
      Emit(Instr.Push(src));
    }

    method Pop(dest: Register)
      modifies this
      ensures code == old(code) + [Instr.Pop(dest)]
      ensures clauseCount == old(clauseCount)
    {
      Emit(Instr.Pop(dest));
    }

    method Ret()
      modifies this
      ensures code == old(code) + [Instr.Ret]
      ensures clauseCount == old(clauseCount)
    {
      Emit(Instr.Ret);
    }

    method Add(src: Register, dest: Register)
      modifies this
      ensures code == old(code) + [Instr.Add(src, dest)]
      ensures clauseCount == old(clauseCount)
    {
      Emit(Instr.Add(src, dest));
    }

    method Sub(src: Register, dest: Register)
      modifies this
      ensures code == old(code) + [Instr.Sub(src, dest)]
      ensures clauseCount == old(clauseCount)
    {
      Emit(Instr.Sub(src, dest));
    }

    method Imul(src: Register, dest: Register)
      modifies this
      ensures code == old(code) + [Instr.Imul(src, dest)]
      ensures clauseCount == old(clauseCount)
    {
      Emit(Instr.Imul(src, dest));
    }

    method Idiv(src: Register)
      modifies this
      ensures code == old(code) + [Instr.Idiv(src)]
      ensures clauseCount == old(clauseCount)
    {
      Emit(Instr.Idiv(src));
    }

    method Neg(src: Register)
      modifies this
      ensures code == old(code) + [Instr.Neg(src)]
      ensures clauseCount == old(clauseCount)
    {
      Emit(Instr.Neg(src));
    }

    method Cmp(srcA: Register, srcB: Register)
      modifies this
      ensures code == old(code) + [Instr.Cmp(srcA, srcB)]
      ensures clauseCount == old(clauseCount)
    {
      Emit(Instr.Cmp(srcA, srcB));
    }

    method CmpInt(value: i64, src: Register)
      modifies this
      ensures code == old(code) + [Instr.CmpInt(value, src)]
      ensures clauseCount == old(clauseCount)
    {
      Emit(Instr.CmpInt(value, src));
    }

    /** `sete`, `setne`, `setl`, `setle`, `setg` and `setge`, one method per condition. */
    method SetCondition(condition: Condition, dest: Register)
      modifies this
      ensures code == old(code) + [Set(condition, dest)]
      ensures clauseCount == old(clauseCount)
    {
      Emit(Set(condition, dest));
    }

    method Not(src: Register)
      modifies this
      ensures code == old(code) + [Instr.Not(src)]
      ensures clauseCount == old(clauseCount)
    {
      Emit(Instr.Not(src));
    }

    method Jmp(clauseId: string)
      modifies this
      ensures code == old(code) + [Instr.Jmp(clauseId)]
      ensures clauseCount == old(clauseCount)
    {
      Emit(Instr.Jmp(clauseId));
    }

    method Je(clauseId: string)
      modifies this
      ensures code == old(code) + [Instr.Je(clauseId)]
      ensures clauseCount == old(clauseCount)
    {
      Emit(Instr.Je(clauseId));
    }

    method Jne(clauseId: string)
      modifies this
      ensures code == old(code) + [Instr.Jne(clauseId)]
      ensures clauseCount == old(clauseCount)
    {
      Emit(Instr.Jne(clauseId));
    }

    /** The epilogue the function generator calls; asm.rs defines no such method. */
    method FunctionReturn()
      modifies this
      ensures code == old(code) + [Instr.FunctionReturn]
      ensures clauseCount == old(clauseCount)
    {
      Emit(Instr.FunctionReturn);
    }

    /** A clause numbered by the counter, which then moves on by one. */
    method NewClause() returns (clause: Clause)
      modifies this
      ensures fresh(clause) && clause.state == New && clause.count == old(clauseCount)
      ensures clauseCount == old(clauseCount) + 1
      ensures code == old(code)
    {
      clause := new Clause(clauseCount);
      clauseCount := clauseCount + 1;
    }

    /** Places the start label; only a New clause may be started. */
    method StartClause(clause: Clause)
      requires clause.state == New
      modifies this, clause
      ensures clause.state == Started
      ensures code == old(code) + [Label(clause.StartId())]
      ensures clauseCount == old(clauseCount)
    {
      Emit(Label(clause.StartId()));
      clause.state := Started;
    }

    /** Places the end label; only a Started clause may be ended. */
    method EndClause(clause: Clause)
      requires clause.state == Started
      modifies this, clause
      ensures clause.state == Ended
      ensures code == old(code) + [Label(clause.EndId())]
      ensures clauseCount == old(clauseCount)
    {
      Emit(Label(clause.EndId()));
      clause.state := Ended;
    }
  }
}

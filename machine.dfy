/** An abstract x86-64 machine for the instruction subset the code generator emits: the
    registers rax, rcx and rdx (al is the low byte of rax), a push/pop stack, the frame slots
    addressed relative to rbp, the operands of the last `cmp`, and forward jumps to labels.

    `Exec` runs a list of instructions from its first one. A jump continues right after the
    first later occurrence of its label; `ret` (and the function epilogue) stops the run. */
module Machine {
  import opened Wrappers
  import opened Int64
  import opened Asm

  /** The operands of the last `cmp src, dest`: `left` is dest and `right` is src, so the
      conditions compare dest with src, as the flags of `dest - src` do. */
  datatype Flags = Flags(left: i64, right: i64)

  datatype State = State(
    rax: i64, rcx: i64, rdx: i64,
    stack: seq<i64>,
    memory: map<int, i64>,
    flags: Option<Flags>)

  /** How a run ends: by running off the end of the code, by `ret`, or by a fault (a trap, a
      stack underflow, an unset flag, an unknown frame slot or a missing label). */
  datatype Exit = Falls(state: State) | Returns(state: State) | Faults

  function LowByte(x: i64): (b: int)
    ensures 0 <= b < 256
  {
    Unsigned(x) % 256
  }

  /** `x` with its low byte replaced by the low byte of `b`, as a write to `%al` does. */
  function WithLowByte(x: i64, b: i64): (r: i64)
    ensures LowByte(r) == LowByte(b)
    ensures Unsigned(r) / 256 == Unsigned(x) / 256
  {
    var u := Unsigned(x);
    FromUnsigned(u - u % 256 + LowByte(b))
  }

  function Read(s: State, r: Register): Option<i64> {
    match r
    case Rax => Some(s.rax)
    case Rcx => Some(s.rcx)
    case Rdx => Some(s.rdx)
    case Al => Some(LowByte(s.rax) as i64)
    case RbpOffset(o) => if o in s.memory then Some(s.memory[o]) else None
  }

  function Write(s: State, r: Register, v: i64): State {
    match r
    case Rax => s.(rax := v)
    case Rcx => s.(rcx := v)
    case Rdx => s.(rdx := v)
    case Al => s.(rax := WithLowByte(s.rax, v))
    case RbpOffset(o) => s.(memory := s.memory[o := v])
  }

  predicate Holds(c: Condition, f: Flags) {
    match c
    case E => f.left == f.right
    case NE => f.left != f.right
    case L => f.left < f.right
    case LE => f.left <= f.right
    case G => f.left > f.right
    case GE => f.left >= f.right
  }

  /** `idiv src`: the 128-bit dividend rdx:rax divided by src, truncating; a zero divisor or
      a quotient that does not fit into 64 bits traps. */
  function Divide(s: State, divisor: i64): Option<State> {
    if divisor == 0 then None
    else
      var dividend := s.rdx as int * TWO_64 + Unsigned(s.rax);
      var q := TruncDiv(dividend, divisor as int);
      var r := TruncRem(dividend, divisor as int);
      if InRange(q) && InRange(r) then Some(s.(rax := q as i64, rdx := r as i64)) else None
  }

  /** One instruction that neither jumps nor returns. */
  predicate Straight(i: Instr) {
    !(i.Jmp? || i.Je? || i.Jne? || i.Ret? || i.FunctionReturn?)
  }

  /** The effect of a straight-line instruction; `None` is a fault. */
  function Step(i: Instr, s: State): Option<State>
    requires Straight(i)
  {
    match i
    case Globl(_) => Some(s)
    case Label(_) => Some(s)
    case MovInt(v, d) => Some(Write(s, d, v))
    case Mov(a, d) =>
      (match Read(s, a) case None => None case Some(x) => Some(Write(s, d, x)))
    case Push(a) =>
      (match Read(s, a) case None => None case Some(x) => Some(s.(stack := s.stack + [x])))
    case Pop(d) =>
      if |s.stack| == 0 then None
      else Some(Write(s.(stack := s.stack[..|s.stack| - 1]), d, s.stack[|s.stack| - 1]))
    case Add(a, d) =>
      (match (Read(s, a), Read(s, d))
       case (Some(x), Some(y)) => Some(Write(s, d, Wrap(y as int + x as int)))
       case _ => None)
    case Sub(a, d) =>
      (match (Read(s, a), Read(s, d))
       case (Some(x), Some(y)) => Some(Write(s, d, Wrap(y as int - x as int)))
       case _ => None)
    case Imul(a, d) =>
      (match (Read(s, a), Read(s, d))
       case (Some(x), Some(y)) => Some(Write(s, d, Wrap(y as int * x as int)))
       case _ => None)
    case Idiv(a) =>
      (match Read(s, a) case None => None case Some(x) => Divide(s, x))
    case Neg(a) =>
      (match Read(s, a) case None => None case Some(x) => Some(Write(s, a, Wrap(-(x as int)))))
    case Not(a) =>
      (match Read(s, a) case None => None case Some(x) => Some(Write(s, a, (-(x as int) - 1) as i64)))
    case Cmp(a, b) =>
      (match (Read(s, a), Read(s, b))
       case (Some(x), Some(y)) => Some(s.(flags := Some(Flags(y, x))))
       case _ => None)
    case CmpInt(v, a) =>
      (match Read(s, a) case None => None case Some(x) => Some(s.(flags := Some(Flags(x, v)))))
    case Set(c, d) =>
      if s.flags.None? then None else Some(Write(s, d, if Holds(c, s.flags.value) then 1 else 0))
  }

  /** The index of the first `name:` label in `code`. */
  function FindLabel(code: seq<Instr>, name: string): (r: Option<nat>)
    ensures r.Some? ==> r.value < |code| && code[r.value] == Label(name)
    ensures r.None? ==> Label(name) !in code
    decreases |code|
  {
    if |code| == 0 then None
    else if code[0] == Label(name) then Some(0)
    else match FindLabel(code[1..], name)
      case None => None
      case Some(j) => Some(j + 1)
  }

  /** Runs `code` on `s` until it runs off its end, returns or faults. The epilogue
      `FunctionReturn` returns like `ret`; what it does to `%rsp` and `%rbp` is not modelled. */
  function Exec(code: seq<Instr>, s: State): Exit
    decreases |code|
  {
    if |code| == 0 then Falls(s)
    else match code[0]
      case Ret => Returns(s)
      case FunctionReturn => Returns(s)
      case Jmp(t) => Jump(code[1..], t, s)
      case Je(t) =>
        if s.flags.None? then Faults
        else if Holds(E, s.flags.value) then Jump(code[1..], t, s)
        else Exec(code[1..], s)
      case Jne(t) =>
        if s.flags.None? then Faults
        else if Holds(NE, s.flags.value) then Jump(code[1..], t, s)
        else Exec(code[1..], s)
      case _ =>
        (match Step(code[0], s)
         case None => Faults
         case Some(next) => Exec(code[1..], next))
  }

  /** Continues after the first `name:` in `rest`. */
  function Jump(rest: seq<Instr>, name: string, s: State): Exit
    decreases |rest|
  {
    match FindLabel(rest, name)
    case None => Faults
    case Some(j) => Exec(rest[j + 1..], s)
  }

  // ---------------------------------------------------------------- running code piecewise

  /** A straight-line instruction hands its successor state to the rest of the code. */
  lemma ExecStraight(i: Instr, rest: seq<Instr>, s: State)
    requires Straight(i) && Step(i, s).Some?
    ensures Exec([i] + rest, s) == Exec(rest, Step(i, s).value)
  {
    assert ([i] + rest)[0] == i && ([i] + rest)[1..] == rest;
  }

  /** A straight-line instruction that faults ends the run. */
  lemma ExecFault(i: Instr, rest: seq<Instr>, s: State)
    requires Straight(i) && Step(i, s).None?
    ensures Exec([i] + rest, s) == Faults
  {
    assert ([i] + rest)[0] == i;
  }

  lemma ExecJmp(name: string, rest: seq<Instr>, s: State)
    ensures Exec([Jmp(name)] + rest, s) == Jump(rest, name, s)
  {
    assert ([Jmp(name)] + rest)[0] == Jmp(name) && ([Jmp(name)] + rest)[1..] == rest;
  }

  /** `je` jumps when the last comparison found its operands equal, and falls through
      otherwise. */
  lemma ExecJe(name: string, rest: seq<Instr>, s: State)
    requires s.flags.Some?
    ensures Exec([Je(name)] + rest, s)
      == if s.flags.value.left == s.flags.value.right then Jump(rest, name, s) else Exec(rest, s)
  {
    assert ([Je(name)] + rest)[0] == Je(name) && ([Je(name)] + rest)[1..] == rest;
  }

  /** `jne` jumps when they differ. */
  lemma ExecJne(name: string, rest: seq<Instr>, s: State)
    requires s.flags.Some?
    ensures Exec([Jne(name)] + rest, s)
      == if s.flags.value.left != s.flags.value.right then Jump(rest, name, s) else Exec(rest, s)
  {
    assert ([Jne(name)] + rest)[0] == Jne(name) && ([Jne(name)] + rest)[1..] == rest;
  }

  lemma ExecReturn(i: Instr, rest: seq<Instr>, s: State)
    requires i == Ret || i == FunctionReturn
    ensures Exec([i] + rest, s) == Returns(s)
  {
    assert ([i] + rest)[0] == i;
  }

  /** Straight-line instructions that cannot fault, run one after another. */
  function Run(code: seq<Instr>, s: State): Option<State>
    decreases |code|
  {
    if |code| == 0 then Some(s)
    else if !Straight(code[0]) then None
    else match Step(code[0], s)
      case None => None
      case Some(t) => Run(code[1..], t)
  }

  lemma RunOne(i: Instr, s: State)
    requires Straight(i)
    ensures Run([i], s) == Step(i, s)
  {
    assert [i][1..] == [];
  }

  lemma RunCons(i: Instr, rest: seq<Instr>, s: State)
    requires Straight(i) && Step(i, s).Some?
    ensures Run([i] + rest, s) == Run(rest, Step(i, s).value)
  {
    assert ([i] + rest)[0] == i && ([i] + rest)[1..] == rest;
  }

  /** Straight-line code that runs without a fault hands its final state to what follows. */
  lemma {:induction false} ExecRun(code: seq<Instr>, rest: seq<Instr>, s: State)
    requires Run(code, s).Some?
    ensures Exec(code + rest, s) == Exec(rest, Run(code, s).value)
    decreases |code|
  {
    if |code| > 0 {
      var t := Step(code[0], s).value;
      assert Straight(code[0]);
      assert Run(code, s) == Run(code[1..], t);
      assert code + rest == [code[0]] + (code[1..] + rest);
      ExecStraight(code[0], code[1..] + rest, s);
      assert Exec(code + rest, s) == Exec(code[1..] + rest, t);
      ExecRun(code[1..], rest, t);
      assert Exec(code[1..] + rest, t) == Exec(rest, Run(code[1..], t).value);
    } else {
      assert code + rest == rest;
    }
  }

  /** `jmp name` over code without that label lands right after the label. */
  lemma JumpOver(mid: seq<Instr>, name: string, rest: seq<Instr>, s: State)
    requires Label(name) !in mid
    ensures Jump(mid + [Label(name)] + rest, name, s) == Exec(rest, s)
  {
    var code := mid + [Label(name)] + rest;
    FindLabelAfter(mid, name, [Label(name)] + rest);
    assert code == mid + ([Label(name)] + rest);
    assert FindLabel([Label(name)] + rest, name) == Some(0);
    assert code[|mid| + 1..] == rest;
  }

  lemma {:induction false} FindLabelAfter(a: seq<Instr>, name: string, b: seq<Instr>)
    requires Label(name) !in a && FindLabel(b, name).Some?
    ensures FindLabel(a + b, name) == Some(|a| + FindLabel(b, name).value)
    decreases |a|
  {
    if |a| > 0 {
      assert (a + b)[0] == a[0] && a[0] != Label(name);
      assert (a + b)[1..] == a[1..] + b;
      assert Label(name) !in a[1..] by {
        assert forall x :: x in a[1..] ==> x in a;
      }
      FindLabelAfter(a[1..], name, b);
    } else {
      assert a + b == b;
    }
  }

  /** `setX %al` with rax clear leaves 1 in rax when the condition holds, and 0 otherwise. */
  lemma SetOnZero(c: Condition, s: State)
    requires s.rax == 0 && s.flags.Some?
    ensures Step(Set(c, Al), s) == Some(s.(rax := if Holds(c, s.flags.value) then 1 else 0))
  {
    var b := Holds(c, s.flags.value);
    var v: i64 := if b then 1 else 0;
    assert Step(Set(c, Al), s) == Some(Write(s, Al, v));
    assert Write(s, Al, v) == s.(rax := v) by {
      WriteAlOfZero(s, b);
    }
  }

  /** `setX %al` after `mov $0, %rax` leaves exactly 0 or 1 in rax. */
  lemma WriteAlOfZero(s: State, b: bool)
    requires s.rax == 0
    ensures Write(s, Al, if b then 1 else 0).rax == if b then 1 else 0
  {
    assert Unsigned(s.rax) == 0;
  }
}

/** The symbol table of a function: each declared variable is bound to a slot of the stack
    frame, 8 bytes below the previous one. */
module StackFrames {

  /** What a frame looks like when variables are only ever added under fresh names: the
      bound offsets are distinct negative multiples of 8 between `offset` and -8, one per
      variable, so they fill that range exactly. */
  ghost predicate FrameInvariant(offset: int, vars: map<string, int>) {
    && |vars.Keys| * 8 == -offset
    && (forall x :: x in vars ==> offset <= vars[x] <= -8 && vars[x] % 8 == 0)
    && (forall x, y :: x in vars && y in vars && x != y ==> vars[x] != vars[y])
  }

  /** The pure effect of `add_var`. */
  function AddBinding(offset: int, vars: map<string, int>, name: string): (r: (int, map<string, int>))
    ensures r.0 == offset - 8
    ensures name in r.1 && r.1[name] == offset - 8
    ensures forall x :: x in vars && x != name ==> x in r.1 && r.1[x] == vars[x]
    ensures r.1.Keys == vars.Keys + {name}
  {
    (offset - 8, vars[name := offset - 8])
  }

  /** Adding a fresh name keeps the frame invariant. */
  lemma AddFreshKeepsInvariant(offset: int, vars: map<string, int>, name: string)
    requires FrameInvariant(offset, vars) && name !in vars
    ensures FrameInvariant(offset - 8, vars[name := offset - 8])
  {
    var vars' := vars[name := offset - 8];
    assert vars'.Keys == vars.Keys + {name};
    FreshSlotInRange(offset, vars, name);
    FreshSlotDistinct(offset, vars, name);
  }

  lemma FreshSlotInRange(offset: int, vars: map<string, int>, name: string)
    requires FrameInvariant(offset, vars) && name !in vars
    ensures var vars' := vars[name := offset - 8];
      forall x :: x in vars' ==> offset - 8 <= vars'[x] <= -8 && vars'[x] % 8 == 0
  {
    var vars' := vars[name := offset - 8];
    forall x | x in vars'
      ensures offset - 8 <= vars'[x] <= -8 && vars'[x] % 8 == 0
    {
      if x != name {
        assert vars'[x] == vars[x];
      }
    }
  }

  lemma FreshSlotDistinct(offset: int, vars: map<string, int>, name: string)
    requires FrameInvariant(offset, vars) && name !in vars
    ensures var vars' := vars[name := offset - 8];
      forall x, y :: x in vars' && y in vars' && x != y ==> vars'[x] != vars'[y]
  {
    var vars' := vars[name := offset - 8];
    forall x, y | x in vars' && y in vars' && x != y
      ensures vars'[x] != vars'[y]
    {
      if x != name && y != name {
        assert vars'[x] == vars[x] && vars'[y] == vars[y];
      } else if x == name {
        assert vars'[y] == vars[y] >= offset;
      } else {
        assert vars'[x] == vars[x] >= offset;
      }
    }
  }

  /** A name bound twice (not something the statement parser allows) reuses no old slot but
      leaves the previous slot of that name unreachable. */
  lemma AddExistingShrinksTable(offset: int, vars: map<string, int>, name: string)
    requires FrameInvariant(offset, vars) && name in vars
    ensures !FrameInvariant(AddBinding(offset, vars, name).0, AddBinding(offset, vars, name).1)
  {
    var vars' := vars[name := offset - 8];
    assert vars'.Keys == vars.Keys;
  }

  /** The contents of a frame as a value, as the parsed function carries it. */
  datatype Frame = Frame(currentOffset: int, vars: map<string, int>)

  class StackFrame {
    var currentOffset: int
    var vars: map<string, int>

    /** The default frame: offset 0 and no bindings. */
    constructor ()
      ensures currentOffset == 0 && vars == map[]
      ensures FrameInvariant(currentOffset, vars)
    {
      currentOffset := 0;
      vars := map[];
    }

    function State(): Frame
      reads this
    {
      Frame(currentOffset, vars)
    }

    method AddVar(name: string)
      modifies this
      ensures currentOffset == old(currentOffset) - 8
      ensures vars == old(vars)[name := currentOffset]
      ensures (currentOffset, vars) == AddBinding(old(currentOffset), old(vars), name)
    {
      currentOffset := currentOffset - 8;
      vars := vars[name := currentOffset];
    }
  }
}

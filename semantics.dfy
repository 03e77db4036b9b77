/** The meaning of one iteration of the interpreter loop of c0vm.c
    (`execute`, lines 55-660), as a function of the machine state, and of a
    run of the loop with a bound on the number of iterations. Each
    instruction checks and pops in the order the C code does, so the fault a
    malformed program meets is the one the C code meets first. */
module Semantics {
  import opened Int32Arith
  import opened Values
  import opened Opcodes

  /** A suspended caller: the contents of a `frame` record. */
  datatype SavedFrame = SavedFrame(S: seq<Value>, P: seq<UByte>, pc: int, V: seq<Value>)

  /** The interpreter's state: the active operand stack `S` (its top is the
      last element), code `P`, program counter `pc`, locals `V`, and the
      call stack (its top is the last element). */
  datatype State = State(
    S: seq<Value>,
    P: seq<UByte>,
    pc: int,
    V: seq<Value>,
    callStack: seq<SavedFrame>)

  /** What one iteration leads to when it does not fault. */
  datatype Next = Continue(st: State) | Done(result: Int32)

  /** How a bounded run ends. */
  datatype Outcome = Returned(value: Int32) | Faulted(fault: Fault) | OutOfFuel

  // ---------------------------------------------------------------------
  // Reading code and operands

  /** `P[i]`, which the C code reads without a bound check. */
  function CodeAt(P: seq<UByte>, i: int): Res<UByte>
  {
    if 0 <= i < |P| then Ok(P[i]) else Err(Contract(CodeOutOfRange))
  }

  /** `c0v_pop(S)`: the top value and the stack below it. */
  function PopValue(S: seq<Value>): Res<(Value, seq<Value>)>
  {
    if |S| == 0 then Err(Contract(StackUnderflow)) else Ok((S[|S| - 1], S[..|S| - 1]))
  }

  /** `val2int(v)`. */
  function IntOf(v: Value): Res<Int32>
  {
    if v.Int? then Ok(v.i) else Err(Contract(NotAnInt))
  }

  /** `val2ptr(v)`. */
  function PtrOf(v: Value): Res<Pointer>
  {
    if v.Ptr? then Ok(v.p) else Err(Contract(NotAPointer))
  }

  /** `val2int(c0v_pop(S))`. */
  function PopInt(S: seq<Value>): Res<(Int32, seq<Value>)>
  {
    var p :- PopValue(S);
    var i :- IntOf(p.0);
    Ok((i, p.1))
  }

  /** `val2ptr(c0v_pop(S))`. */
  function PopPtr(S: seq<Value>): Res<(Pointer, seq<Value>)>
  {
    var p :- PopValue(S);
    var a :- PtrOf(p.0);
    Ok((a, p.1))
  }

  // ---------------------------------------------------------------------
  // One instruction

  /** One iteration of the loop: fetch the byte at `pc` and run its case. */
  function Step(prog: Program, native: NativeTable, st: State): Res<Next>
  {
    var byte :- CodeAt(st.P, st.pc);
    StepOp(prog, native, Decode(byte), byte, st)
  }

  /** The case of the switch for `op`, which `byte`, the byte at `st.pc`,
      decodes to, found family by family. */
  function StepOp(prog: Program, native: NativeTable, op: Opcode, byte: UByte, st: State): Res<Next>
  {
    if IsStackOp(op) then StepStack(op, st)
    else if IsArithmetic(op) then StepArithmetic(op, st)
    else if IsConstant(op) then StepConstant(prog, op, st)
    else if op.VLoad? then StepVLoad(st)
    else if op.VStore? then StepVStore(st)
    else if op.AThrow? then StepAThrow(st)
    else if op.Assert? then StepAssert(st)
    else if IsControl(op) then StepControl(op, st)
    else if op.InvokeStatic? then StepInvokeStatic(prog, st)
    else if op.InvokeNative? then StepInvokeNative(prog, native, st)
    else if op.Return? then StepReturn(st)
    else Err(InvalidOpcode(byte))
  }

  function StepStack(op: Opcode, st: State): Res<Next>
    requires IsStackOp(op)
  {
    if op.Pop? then StepPop(st)
    else if op.Dup? then StepDup(st)
    else StepSwap(st)
  }

  function StepArithmetic(op: Opcode, st: State): Res<Next>
    requires IsArithmetic(op)
  {
    if op.IDiv? || op.IRem? then StepDivide(op, st) else StepBinary(op, st)
  }

  function StepConstant(prog: Program, op: Opcode, st: State): Res<Next>
    requires IsConstant(op)
  {
    if op.BiPush? then StepBiPush(st)
    else if op.ILdc? then StepILdc(prog, st)
    else if op.ALdc? then StepALdc(prog, st)
    else Ok(Continue(st.(S := st.S + [Ptr(Null)], pc := st.pc + 1)))
  }

  function StepControl(op: Opcode, st: State): Res<Next>
    requires IsControl(op)
  {
    if op.Nop? then Ok(Continue(st.(pc := st.pc + 1)))
    else if op.IfCmpEq? || op.IfCmpNe? then StepCompareValues(op, st)
    else if IsIntCompare(op) then StepCompareInts(op, st)
    else Jump(st, st.S, true)
  }

  function StepPop(st: State): Res<Next>
  {
    var p :- PopValue(st.S);
    Ok(Continue(st.(S := p.1, pc := st.pc + 1)))
  }

  function StepDup(st: State): Res<Next>
  {
    var p :- PopValue(st.S);
    Ok(Continue(st.(S := p.1 + [p.0, p.0], pc := st.pc + 1)))
  }

  function StepSwap(st: State): Res<Next>
  {
    var p1 :- PopValue(st.S);
    var p2 :- PopValue(p1.1);
    Ok(Continue(st.(S := p2.1 + [p1.0, p2.0], pc := st.pc + 1)))
  }

  /** RETURN: the popped value must be an integer and the stack empty after
      it; then either the caller's frame is restored with the value pushed
      on its stack, or the run ends with that value. */
  function StepReturn(st: State): Res<Next>
  {
    var p :- PopInt(st.S);
    if p.1 != [] then Err(Contract(StackNotEmptyAtReturn))
    else if st.callStack == [] then Ok(Done(p.0))
    else
      var f := st.callStack[|st.callStack| - 1];
      Ok(Continue(State(f.S + [Int(p.0)], f.P, f.pc, f.V, st.callStack[..|st.callStack| - 1])))
  }

  /** The value a binary opcode pushes for `v2 op v1`, `v1` being the top.
      IXOR computes `v2 | v1`, as the C code does. */
  function BinaryResult(op: Opcode, v2: Int32, v1: Int32): Res<Int32>
    requires IsBinary(op)
  {
    match op
    case IAdd => Ok(Wrap(v1 as int + v2 as int))
    case ISub => Ok(Wrap(v2 as int - v1 as int))
    case IMul => Ok(Wrap(v2 as int * v1 as int))
    case IAnd => Ok(And(v2, v1))
    case IOr => Ok(Or(v2, v1))
    case IXor => Ok(Or(v2, v1))
    case IShr => if v1 < 0 || v1 >= 32 then Err(Arith(ShiftOutOfRange)) else Ok(Shr(v2, v1 as int))
    case IShl => if v1 < 0 || v1 >= 32 then Err(Arith(ShiftOutOfRange)) else Ok(Shl(v2, v1 as int))
  }

  function StepBinary(op: Opcode, st: State): Res<Next>
    requires IsBinary(op)
  {
    var p1 :- PopInt(st.S);
    var p2 :- PopInt(p1.1);
    var r :- BinaryResult(op, p2.0, p1.0);
    Ok(Continue(st.(S := p2.1 + [Int(r)], pc := st.pc + 1)))
  }

  /** IDIV and IREM test the divisor before the dividend is popped. */
  function StepDivide(op: Opcode, st: State): Res<Next>
    requires op.IDiv? || op.IRem?
  {
    var p1 :- PopInt(st.S);
    var v1 := p1.0;
    if v1 == 0 then Err(Arith(DivisionByZero))
    else
      var p2 :- PopInt(p1.1);
      var v2 := p2.0;
      if v2 as int == INT_MIN && v1 == -1 then Err(Arith(DivisionOverflow))
      else
        var r := if op.IDiv? then Quotient(v2, v1) else Remainder(v2, v1);
        Ok(Continue(st.(S := p2.1 + [Int(r)], pc := st.pc + 1)))
  }

  function StepBiPush(st: State): Res<Next>
  {
    var b :- CodeAt(st.P, st.pc + 1);
    Ok(Continue(st.(S := st.S + [Int(SignExtend8(b))], pc := st.pc + 2)))
  }

  function StepILdc(prog: Program, st: State): Res<Next>
  {
    var c1 :- CodeAt(st.P, st.pc + 1);
    var c2 :- CodeAt(st.P, st.pc + 2);
    var index := BigEndian16(c1, c2) as int;
    if index >= |prog.intPool| then Err(Contract(IntPoolIndex))
    else Ok(Continue(st.(S := st.S + [Int(prog.intPool[index])], pc := st.pc + 3)))
  }

  function StepALdc(prog: Program, st: State): Res<Next>
  {
    var c1 :- CodeAt(st.P, st.pc + 1);
    var c2 :- CodeAt(st.P, st.pc + 2);
    var index := BigEndian16(c1, c2) as int;
    if index >= prog.stringCount then Err(Contract(StringPoolIndex))
    else Ok(Continue(st.(S := st.S + [Ptr(StringAt(index))], pc := st.pc + 3)))
  }

  function StepVLoad(st: State): Res<Next>
  {
    var index :- CodeAt(st.P, st.pc + 1);
    if index as int >= |st.V| then Err(Contract(LocalIndex))
    else Ok(Continue(st.(S := st.S + [st.V[index]], pc := st.pc + 2)))
  }

  function StepVStore(st: State): Res<Next>
  {
    var index :- CodeAt(st.P, st.pc + 1);
    var p :- PopValue(st.S);
    if index as int >= |st.V| then Err(Contract(LocalIndex))
    else Ok(Continue(st.(S := p.1, V := st.V[index := p.0], pc := st.pc + 2)))
  }

  function StepAThrow(st: State): Res<Next>
  {
    var p :- PopPtr(st.S);
    Err(UserError(p.0))
  }

  function StepAssert(st: State): Res<Next>
  {
    var e :- PopPtr(st.S);
    var x :- PopInt(e.1);
    if x.0 == 0 then Err(AssertionFailure(e.0))
    else Ok(Continue(st.(S := x.1, pc := st.pc + 1)))
  }

  /** The signed 16-bit offset after a branch opcode at `pc`: a taken branch
      goes to `pc + offset`, an untaken one to `pc + 3`. */
  function Jump(st: State, S': seq<Value>, taken: bool): Res<Next>
  {
    var c1 :- CodeAt(st.P, st.pc + 1);
    var c2 :- CodeAt(st.P, st.pc + 2);
    var target := if taken then st.pc + Signed16(c1, c2) else st.pc + 3;
    Ok(Continue(st.(S := S', pc := target)))
  }

  function StepCompareValues(op: Opcode, st: State): Res<Next>
    requires op.IfCmpEq? || op.IfCmpNe?
  {
    var p1 :- PopValue(st.S);
    var p2 :- PopValue(p1.1);
    Jump(st, p2.1, if op.IfCmpEq? then p2.0 == p1.0 else p2.0 != p1.0)
  }

  /** `v2 OP v1`, `v1` being the value popped first. */
  function Compare(op: Opcode, v2: Int32, v1: Int32): bool
    requires IsIntCompare(op)
  {
    match op
    case IfICmpLt => v2 < v1
    case IfICmpGe => v2 >= v1
    case IfICmpGt => v2 > v1
    case IfICmpLe => v2 <= v1
  }

  function StepCompareInts(op: Opcode, st: State): Res<Next>
    requires IsIntCompare(op)
  {
    var p1 :- PopInt(st.S);
    var p2 :- PopInt(p1.1);
    Jump(st, p2.1, Compare(op, p2.0, p1.0))
  }

  /** How many values INVOKESTATIC pops for a callee declaring `numArgs`:
      the count is first truncated to `uint8_t`, and the loop counter that
      starts at `count - 1` is an `int8_t`. */
  function StaticArgCount(numArgs: U16): nat
  {
    var first := ToInt8(numArgs as int % 0x100 - 1);
    if first < 0 then 0 else first + 1
  }

  function StepInvokeStatic(prog: Program, st: State): Res<Next>
  {
    var c1 :- CodeAt(st.P, st.pc + 1);
    var c2 :- CodeAt(st.P, st.pc + 2);
    var index := BigEndian16(c1, c2) as int;
    if index >= |prog.functions| then Err(Contract(FunctionPoolIndex))
    else Call(prog.functions[index], st)
  }

  /** The call of `g` by the INVOKESTATIC at `st.pc`: the callee's locals
      hold the popped arguments in argument order followed by zeros; the
      caller is saved with the pc of the next instruction, and the callee
      starts at pc 0 on an empty stack. */
  function Call(g: FunctionInfo, st: State): Res<Next>
  {
    var numVars := g.numVars as int % 0x100;
    var n := StaticArgCount(g.numArgs);
    if n > 0 && |st.S| == 0 then Err(Contract(StackUnderflow))
    else if n > numVars then Err(Contract(LocalIndex))
    else if |st.S| < n then Err(Contract(StackUnderflow))
    else
      var caller := SavedFrame(st.S[..|st.S| - n], st.P, st.pc + 3, st.V);
      var locals := st.S[|st.S| - n..] + Zeros(numVars - n);
      Ok(Continue(State([], g.code, 0, locals, st.callStack + [caller])))
  }

  /** INVOKENATIVE: the top `num_args` values, in argument order, go to the
      native function; its result replaces them. */
  function StepInvokeNative(prog: Program, native: NativeTable, st: State): Res<Next>
  {
    var c1 :- CodeAt(st.P, st.pc + 1);
    var c2 :- CodeAt(st.P, st.pc + 2);
    var index := BigEndian16(c1, c2) as int;
    if index >= |prog.natives| then Err(Contract(NativePoolIndex))
    else
      var d := prog.natives[index];
      var n := d.numArgs as int;
      if |st.S| < n then Err(Contract(StackUnderflow))
      else
        var result := native(d.tableIndex, st.S[|st.S| - n..]);
        Ok(Continue(st.(S := st.S[..|st.S| - n] + [result], pc := st.pc + 3)))
  }

  // ---------------------------------------------------------------------
  // A run of the loop

  /** The state `execute` starts in: function 0 at pc 0 with an empty stack,
      zeroed locals and no callers. */
  function Initial(prog: Program): State
    requires |prog.functions| > 0
  {
    State([], prog.functions[0].code, 0, Zeros(prog.functions[0].numVars as int), [])
  }

  /** At most `fuel` iterations of a loop whose body is `step`, from `st`:
      the loop stops at the first fault or return. */
  function Iterate(step: State -> Res<Next>, st: State, fuel: nat): Outcome
    decreases fuel, 1
  {
    if fuel == 0 then OutOfFuel else Resume(step, st, fuel)
  }

  /** The loop once it has an iteration left to run: the iteration's
      fault or return ends it, and otherwise the rest of the run starts
      from the new state. */
  function Resume(step: State -> Res<Next>, st: State, fuel: nat): Outcome
    requires fuel > 0
    decreases fuel, 0
  {
    match step(st)
    case Err(f) => Faulted(f)
    case Ok(Done(v)) => Returned(v)
    case Ok(Continue(st')) => Iterate(step, st', fuel - 1)
  }

  /** The body of the interpreter loop, as the `step` of `Iterate`. */
  function StepOf(prog: Program, native: NativeTable): State -> Res<Next>
  {
    s => Step(prog, native, s)
  }

  /** At most `fuel` iterations of the interpreter loop from `st`. */
  function RunFrom(prog: Program, native: NativeTable, st: State, fuel: nat): Outcome
  {
    Iterate(StepOf(prog, native), st, fuel)
  }

  /** One iteration of a run that has fuel left. */
  lemma Unroll(prog: Program, native: NativeTable, st: State, fuel: nat)
    requires fuel > 0
    ensures RunFrom(prog, native, st, fuel)
         == match Step(prog, native, st)
            case Err(f) => Faulted(f)
            case Ok(Done(v)) => Returned(v)
            case Ok(Continue(st')) => RunFrom(prog, native, st', fuel - 1)
  {
    assert RunFrom(prog, native, st, fuel) == Resume(StepOf(prog, native), st, fuel);
  }

  /** `execute(bc0)` cut off after `fuel` iterations. */
  function Run(prog: Program, native: NativeTable, fuel: nat): Outcome
  {
    if |prog.functions| == 0 then Faulted(Contract(FunctionPoolIndex))
    else RunFrom(prog, native, Initial(prog), fuel)
  }
}

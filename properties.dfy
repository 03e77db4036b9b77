/** What the instructions of the interpreter do, stated instruction by
    instruction against `Semantics.Step`, and what runs of the loop do. */
module Properties {
  import opened Int32Arith
  import opened Values
  import opened Opcodes
  import opened Semantics

  /** The instruction at `st.pc` has opcode `op`. */
  predicate At(st: State, op: Opcode)
  {
    0 <= st.pc < |st.P| && Decode(st.P[st.pc]) == op
  }

  /** The state after an instruction that leaves everything but the operand
      stack alone and moves on by `len` bytes. */
  function Advanced(st: State, S': seq<Value>, len: int): State
  {
    st.(S := S', pc := st.pc + len)
  }

  // ---------------------------------------------------------------------
  // Stack shuffles (c0vm.c:67-93)

  /** POP removes the top value; on an empty stack it faults. */
  lemma PopRemovesTop(prog: Program, native: NativeTable, st: State)
    requires At(st, Opcode.Pop)
    ensures st.S == [] ==> Step(prog, native, st) == Err(Contract(StackUnderflow))
    ensures st.S != [] ==>
      && Step(prog, native, st).Ok? && Step(prog, native, st).value.Continue?
      && var st' := Step(prog, native, st).value.st;
         st'.S + [st.S[|st.S| - 1]] == st.S && st'.pc == st.pc + 1
         && st'.P == st.P && st'.V == st.V && st'.callStack == st.callStack
  {
  }

  /** DUP leaves two copies of the top value above an unchanged rest. */
  lemma DupCopiesTop(prog: Program, native: NativeTable, st: State)
    requires At(st, Dup)
    ensures st.S == [] ==> Step(prog, native, st) == Err(Contract(StackUnderflow))
    ensures st.S != [] ==>
      Step(prog, native, st) == Ok(Continue(Advanced(st, st.S + [st.S[|st.S| - 1]], 1)))
  {
    if st.S != [] {
      var n := |st.S|;
      assert st.S[..n - 1] + [st.S[n - 1], st.S[n - 1]] == st.S + [st.S[n - 1]];
    }
  }

  /** SWAP exchanges the top two values and keeps everything below them;
      the stack keeps its length and its values. */
  lemma SwapExchangesTopTwo(prog: Program, native: NativeTable, st: State,
                            rest: seq<Value>, v2: Value, v1: Value)
    requires At(st, Swap) && st.S == rest + [v2, v1]
    ensures Step(prog, native, st) == Ok(Continue(Advanced(st, rest + [v1, v2], 1)))
    ensures multiset(rest + [v1, v2]) == multiset(st.S)
  {
    assert st.S[..|st.S| - 1] == rest + [v2];
    assert (rest + [v2])[..|rest|] == rest;
    ExchangePermutes(rest, v2, v1);
  }

  /** Exchanging the last two elements of a sequence permutes it. */
  lemma ExchangePermutes(rest: seq<Value>, v2: Value, v1: Value)
    ensures multiset(rest + [v1, v2]) == multiset(rest + [v2, v1])
  {
    assert multiset(rest + [v1, v2]) == multiset(rest) + multiset([v1, v2]);
    assert multiset(rest + [v2, v1]) == multiset(rest) + multiset([v2, v1]);
  }

  /** SWAP on fewer than two values underflows the stack. */
  lemma SwapUnderflow(prog: Program, native: NativeTable, st: State)
    requires At(st, Swap) && |st.S| < 2
    ensures Step(prog, native, st) == Err(Contract(StackUnderflow))
  {
  }

  // ---------------------------------------------------------------------
  // Integer arithmetic (c0vm.c:147-290)

  /** An instruction on two integers pops `v1`, then `v2`, and pushes the
      value `BinaryResult` computes from them, or faults as it does. */
  lemma BinaryStep(prog: Program, native: NativeTable, st: State, op: Opcode,
                   rest: seq<Value>, v2: Int32, v1: Int32)
    requires IsBinary(op) && At(st, op) && st.S == rest + [Int(v2), Int(v1)]
    ensures Step(prog, native, st) == match BinaryResult(op, v2, v1)
              case Ok(x) => Ok(Continue(Advanced(st, rest + [Int(x)], 1)))
              case Err(f) => Err(f)
  {
    assert st.S[..|st.S| - 1] == rest + [Int(v2)];
    assert (rest + [Int(v2)])[..|rest|] == rest;
  }

  /** IADD, ISUB and IMUL push the exact sum, difference or product of
      `v2` and `v1` reduced to 32 bits: the mathematical result when it is
      an int32, and otherwise the value congruent to it modulo 2^32. */
  lemma ArithmeticWraps(prog: Program, native: NativeTable, st: State, op: Opcode,
                        rest: seq<Value>, v2: Int32, v1: Int32)
    requires op.IAdd? || op.ISub? || op.IMul?
    requires At(st, op) && st.S == rest + [Int(v2), Int(v1)]
    ensures var exact := match op
              case IAdd => v2 as int + v1 as int
              case ISub => v2 as int - v1 as int
              case IMul => v2 as int * v1 as int;
            && Step(prog, native, st).Ok? && Step(prog, native, st).value.Continue?
            && var st' := Step(prog, native, st).value.st;
               && st' == Advanced(st, rest + [st'.S[|rest|]], 1)
               && |st'.S| == |rest| + 1 && st'.S[|rest|].Int?
               && st'.S[|rest|].i as int % TWO_32 == exact % TWO_32
               && (INT_MIN <= exact <= INT_MAX ==> st'.S[|rest|].i as int == exact)
  {
    BinaryStep(prog, native, st, op, rest, v2, v1);
  }

  /** IAND and IOR push the bitwise AND and OR of `v2` and `v1`, read as
      32-bit patterns; IXOR, as the interpreter is written, pushes the
      bitwise OR too. */
  lemma BitwiseOps(prog: Program, native: NativeTable, st: State, op: Opcode,
                   rest: seq<Value>, v2: Int32, v1: Int32)
    requires op.IAnd? || op.IOr? || op.IXor?
    requires At(st, op) && st.S == rest + [Int(v2), Int(v1)]
    ensures var bits := if op.IAnd? then ToBits(v2) & ToBits(v1) else ToBits(v2) | ToBits(v1);
            && Step(prog, native, st).Ok? && Step(prog, native, st).value.Continue?
            && var st' := Step(prog, native, st).value.st;
               && st' == Advanced(st, rest + [st'.S[|rest|]], 1)
               && |st'.S| == |rest| + 1 && st'.S[|rest|].Int?
               && st'.S[|rest|].i as int % TWO_32 == bits as int
  {
    BinaryStep(prog, native, st, op, rest, v2, v1);
    FromBitsResidue(if op.IAnd? then ToBits(v2) & ToBits(v1) else ToBits(v2) | ToBits(v1));
  }

  /** IXOR is not exclusive or: on 1 and 1 it pushes 1 where XOR is 0. */
  lemma XorIsOr(prog: Program, native: NativeTable, st: State, rest: seq<Value>)
    requires At(st, IXor) && st.S == rest + [Int(1), Int(1)]
    ensures Step(prog, native, st) == Ok(Continue(Advanced(st, rest + [Int(1)], 1)))
    ensures Xor(1, 1) == 0
  {
    BinaryStep(prog, native, st, IXor, rest, 1, 1);
    OrIsNotXor();
  }

  /** IDIV and IREM fault on a zero divisor before they look below it, so
      even a stack holding nothing but the divisor faults this way. */
  lemma DivideByZero(prog: Program, native: NativeTable, st: State, op: Opcode, rest: seq<Value>)
    requires op.IDiv? || op.IRem?
    requires At(st, op) && st.S == rest + [Int(0)]
    ensures Step(prog, native, st) == Err(Arith(DivisionByZero))
  {
    assert st.S[..|st.S| - 1] == rest;
  }

  /** IDIV and IREM fault on INT_MIN divided by -1. */
  lemma DivideOverflow(prog: Program, native: NativeTable, st: State, op: Opcode, rest: seq<Value>)
    requires op.IDiv? || op.IRem?
    requires At(st, op) && st.S == rest + [Int(INT_MIN as Int32), Int(-1)]
    ensures Step(prog, native, st) == Err(Arith(DivisionOverflow))
  {
    assert st.S[..|st.S| - 1] == rest + [Int(INT_MIN as Int32)];
  }

  /** Otherwise IDIV pushes `q` and IREM pushes `m` such that
      `v2 == v1 * q + m`, with `m` smaller than the divisor in magnitude and
      of the sign of `v2`: the quotient is truncated toward zero. */
  lemma DivideDefined(prog: Program, native: NativeTable, stD: State, stR: State,
                      rest: seq<Value>, v2: Int32, v1: Int32)
    requires At(stD, IDiv) && At(stR, IRem)
    requires stD.S == rest + [Int(v2), Int(v1)] && stR.S == stD.S
    requires v1 != 0 && !(v2 as int == INT_MIN && v1 == -1)
    ensures Step(prog, native, stD) == Ok(Continue(Advanced(stD, rest + [Int(Quotient(v2, v1))], 1)))
    ensures Step(prog, native, stR) == Ok(Continue(Advanced(stR, rest + [Int(Remainder(v2, v1))], 1)))
    ensures var q, m := Quotient(v2, v1) as int, Remainder(v2, v1) as int;
            && v2 as int == v1 as int * q + m
            && Abs(m) < Abs(v1 as int)
            && (m != 0 ==> (m < 0 <==> v2 < 0))
  {
    DivideStep(prog, native, stD, IDiv, rest, v2, v1);
    DivideStep(prog, native, stR, IRem, rest, v2, v1);
    DivRem(v2 as int, v1 as int);
  }

  /** IDIV or IREM on two integers it does not fault on. */
  lemma DivideStep(prog: Program, native: NativeTable, st: State, op: Opcode,
                   rest: seq<Value>, v2: Int32, v1: Int32)
    requires (op.IDiv? || op.IRem?) && At(st, op) && st.S == rest + [Int(v2), Int(v1)]
    requires v1 != 0 && !(v2 as int == INT_MIN && v1 == -1)
    ensures Step(prog, native, st)
         == Ok(Continue(Advanced(st, rest + [Int(if op.IDiv? then Quotient(v2, v1) else Remainder(v2, v1))], 1)))
  {
    assert st.S[..|st.S| - 1] == rest + [Int(v2)];
    assert (rest + [Int(v2)])[..|rest|] == rest;
  }

  /** ISHL and ISHR fault exactly when the shift amount is outside 0..31;
      that test comes after both operands are popped, as `ShiftPopsFirst`
      shows. */
  lemma ShiftFaultsIff(prog: Program, native: NativeTable, st: State, op: Opcode,
                       rest: seq<Value>, v2: Int32, v1: Int32)
    requires op.IShl? || op.IShr?
    requires At(st, op) && st.S == rest + [Int(v2), Int(v1)]
    ensures Step(prog, native, st).Err? <==> v1 < 0 || v1 >= 32
    ensures Step(prog, native, st).Err? ==> Step(prog, native, st) == Err(Arith(ShiftOutOfRange))
  {
    BinaryStep(prog, native, st, op, rest, v2, v1);
  }

  /** The range test of ISHL and ISHR comes only after both pops: with an
      out-of-range amount on top, a missing second operand still
      underflows and a pointer below it still fails the kind check. */
  lemma ShiftPopsFirst(prog: Program, native: NativeTable, st: State, op: Opcode,
                       rest: seq<Value>, p: Pointer, v1: Int32)
    requires op.IShl? || op.IShr?
    requires At(st, op) && (v1 < 0 || v1 >= 32)
    ensures st.S == [Int(v1)] ==> Step(prog, native, st) == Err(Contract(StackUnderflow))
    ensures st.S == rest + [Ptr(p), Int(v1)] ==> Step(prog, native, st) == Err(Contract(NotAnInt))
  {
    if st.S == rest + [Ptr(p), Int(v1)] {
      assert st.S[..|st.S| - 1] == rest + [Ptr(p)];
    }
  }

  /** An in-range ISHR pushes `v2` divided by `2^v1` rounded down
      (arithmetic shift); ISHL pushes `v2 * 2^v1` reduced to 32 bits. */
  lemma ShiftDefined(prog: Program, native: NativeTable, st: State, op: Opcode,
                     rest: seq<Value>, v2: Int32, v1: Int32)
    requires op.IShl? || op.IShr?
    requires At(st, op) && st.S == rest + [Int(v2), Int(v1)] && 0 <= v1 < 32
    ensures Step(prog, native, st).Ok? && Step(prog, native, st).value.Continue?
    ensures var st' := Step(prog, native, st).value.st;
            var d := Pow2(v1 as int);
            && st' == Advanced(st, rest + [st'.S[|rest|]], 1)
            && |st'.S| == |rest| + 1 && st'.S[|rest|].Int?
            && var r := st'.S[|rest|].i as int;
               if op.IShr? then r * d <= v2 as int < (r + 1) * d
               else r % TWO_32 == (v2 as int * d) % TWO_32
  {
    BinaryStep(prog, native, st, op, rest, v2, v1);
  }

  // ---------------------------------------------------------------------
  // Constants (c0vm.c:295-338)

  /** BIPUSH pushes every int in -128..127 written as its low byte, and
      moves on by 2. */
  lemma BiPushSignExtends(prog: Program, native: NativeTable, st: State, x: int)
    requires At(st, BiPush) && -128 <= x < 128
    requires st.pc + 1 < |st.P| && st.P[st.pc + 1] as int == x % 0x100
    ensures Step(prog, native, st) == Ok(Continue(Advanced(st, st.S + [Int(x as Int32)], 2)))
  {
    var b := st.P[st.pc + 1];
    assert SignExtend8(b) as int == x;
  }

  /** The two bytes after ILDC and ALDC are the big-endian pool index: any
      `index` below the pool size, written as its high and low bytes,
      pushes that pool entry and moves on by 3; a larger one faults. */
  lemma LoadConstant(prog: Program, native: NativeTable, st: State, index: U16)
    requires (At(st, ILdc) || At(st, ALdc)) && st.pc + 2 < |st.P|
    requires st.P[st.pc + 1] as int == index as int / 0x100 && st.P[st.pc + 2] as int == index as int % 0x100
    ensures At(st, ILdc) ==>
      if index as int < |prog.intPool|
      then Step(prog, native, st) == Ok(Continue(Advanced(st, st.S + [Int(prog.intPool[index])], 3)))
      else Step(prog, native, st) == Err(Contract(IntPoolIndex))
    ensures At(st, ALdc) ==>
      if index as int < prog.stringCount
      then Step(prog, native, st) == Ok(Continue(Advanced(st, st.S + [Ptr(StringAt(index as int))], 3)))
      else Step(prog, native, st) == Err(Contract(StringPoolIndex))
  {
    BigEndian16Split(index);
  }

  // ---------------------------------------------------------------------
  // Locals (c0vm.c:343-359)

  /** VSTORE of a local followed by VLOAD of the same local leaves the
      stored value on top again, and the local holds it. */
  lemma StoreThenLoad(prog: Program, native: NativeTable, st: State, rest: seq<Value>, v: Value)
    requires At(st, VStore) && st.pc + 3 < |st.P|
    requires Decode(st.P[st.pc + 2]) == VLoad && st.P[st.pc + 3] == st.P[st.pc + 1]
    requires st.P[st.pc + 1] as int < |st.V| && st.S == rest + [v]
    ensures Step(prog, native, st).Ok? && Step(prog, native, st).value.Continue?
    ensures var st1 := Step(prog, native, st).value.st;
            var index := st.P[st.pc + 1] as int;
            && st1.V == st.V[index := v] && st1.S == rest && st1.pc == st.pc + 2
            && Step(prog, native, st1) == Ok(Continue(st1.(S := st.S, pc := st.pc + 4)))
  {
    assert st.S[..|st.S| - 1] == rest;
  }

  /** VLOAD pushes the local its operand byte names and moves on by 2. */
  lemma LoadPushes(prog: Program, native: NativeTable, st: State)
    requires At(st, VLoad) && st.pc + 1 < |st.P| && st.P[st.pc + 1] as int < |st.V|
    ensures Step(prog, native, st) == Ok(Continue(Advanced(st, st.S + [st.V[st.P[st.pc + 1]]], 2)))
  {
  }

  /** A local index beyond the locals array faults for both instructions;
      VLOAD does so whatever the stack holds, VSTORE once it has popped. */
  lemma LocalOutOfRange(prog: Program, native: NativeTable, st: State)
    requires (At(st, VLoad) || At(st, VStore)) && st.pc + 1 < |st.P|
    requires At(st, VStore) ==> st.S != []
    requires st.P[st.pc + 1] as int >= |st.V|
    ensures Step(prog, native, st) == Err(Contract(LocalIndex))
  {
  }

  // ---------------------------------------------------------------------
  // Assertions and errors (c0vm.c:364-382)

  /** ATHROW ends the run with its message. */
  lemma AThrowRaises(prog: Program, native: NativeTable, st: State, rest: seq<Value>, e: Pointer)
    requires At(st, AThrow) && st.S == rest + [Ptr(e)]
    ensures Step(prog, native, st) == Err(UserError(e))
  {
  }

  /** ASSERT pops the message and then the condition; it faults with the
      message exactly when the condition is 0, and otherwise drops both. */
  lemma AssertChecks(prog: Program, native: NativeTable, st: State, rest: seq<Value>, x: Int32, e: Pointer)
    requires At(st, Assert) && st.S == rest + [Int(x), Ptr(e)]
    ensures Step(prog, native, st) ==
      if x == 0 then Err(AssertionFailure(e)) else Ok(Continue(Advanced(st, rest, 1)))
  {
    assert st.S[..|st.S| - 1] == rest + [Int(x)];
    assert (rest + [Int(x)])[..|rest|] == rest;
  }

  // ---------------------------------------------------------------------
  // Branches (c0vm.c:387-526)

  /** The condition each conditional branch tests on `v2` and `v1`, `v1`
      having been the top of the stack. */
  predicate Taken(op: Opcode, v2: Value, v1: Value)
  {
    if op.IfCmpEq? then v2 == v1
    else if op.IfCmpNe? then v2 != v1
    else IsIntCompare(op) && v2.Int? && v1.Int? && Compare(op, v2.i, v1.i)
  }

  /** A conditional branch at address `pc` pops both operands and goes to
      `pc + offset` when its condition holds and to `pc + 3` otherwise,
      `offset` being the signed 16-bit number its two operand bytes spell.
      Every offset in -32768..32767 can be written this way. */
  lemma ConditionalBranch(prog: Program, native: NativeTable, st: State, op: Opcode,
                          rest: seq<Value>, v2: Value, v1: Value, offset: int)
    requires op.IfCmpEq? || op.IfCmpNe? || IsIntCompare(op)
    requires IsIntCompare(op) ==> v2.Int? && v1.Int?
    requires At(st, op) && st.S == rest + [v2, v1] && st.pc + 2 < |st.P|
    requires -0x8000 <= offset < 0x8000
    requires st.P[st.pc + 1] as int == offset % 0x1_0000 / 0x100
    requires st.P[st.pc + 2] as int == offset % 0x1_0000 % 0x100
    ensures Step(prog, native, st) ==
      Ok(Continue(st.(S := rest, pc := if Taken(op, v2, v1) then st.pc + offset else st.pc + 3)))
  {
    assert st.S[..|st.S| - 1] == rest + [v2];
    assert (rest + [v2])[..|rest|] == rest;
    assert Step(prog, native, st) == Jump(st, rest, Taken(op, v2, v1));
    JumpsBy(st, rest, Taken(op, v2, v1), offset);
  }

  /** GOTO goes to `pc + offset` and leaves the stack alone. */
  lemma GotoJumps(prog: Program, native: NativeTable, st: State, offset: int)
    requires At(st, Goto) && st.pc + 2 < |st.P|
    requires -0x8000 <= offset < 0x8000
    requires st.P[st.pc + 1] as int == offset % 0x1_0000 / 0x100
    requires st.P[st.pc + 2] as int == offset % 0x1_0000 % 0x100
    ensures Step(prog, native, st) == Ok(Continue(st.(pc := st.pc + offset)))
  {
    JumpsBy(st, st.S, true, offset);
  }

  /** A jump whose operand bytes spell `offset` lands at `pc + offset` when
      taken and at `pc + 3` otherwise. */
  lemma JumpsBy(st: State, S': seq<Value>, taken: bool, offset: int)
    requires 0 <= st.pc && st.pc + 2 < |st.P|
    requires -0x8000 <= offset < 0x8000
    requires st.P[st.pc + 1] as int == offset % 0x1_0000 / 0x100
    requires st.P[st.pc + 2] as int == offset % 0x1_0000 % 0x100
    ensures Jump(st, S', taken) == Ok(Continue(st.(S := S', pc := if taken then st.pc + offset else st.pc + 3)))
  {
    OffsetBytes(st.P[st.pc + 1], st.P[st.pc + 2], offset);
  }

  /** The two bytes of a 16-bit offset read back as that offset. */
  lemma OffsetBytes(c1: UByte, c2: UByte, offset: int)
    requires -0x8000 <= offset < 0x8000
    requires c1 as int == offset % 0x1_0000 / 0x100 && c2 as int == offset % 0x1_0000 % 0x100
    ensures Signed16(c1, c2) == offset
  {
    var u := offset % 0x1_0000;
    assert BigEndian16(c1, c2) as int == u;
  }

  // ---------------------------------------------------------------------
  // Calls and returns (c0vm.c:100-142, 531-610)

  /** The function-pool or native-pool index spelled by the two bytes after
      the opcode. */
  function PoolIndex(st: State): (r: int)
    requires 0 <= st.pc && st.pc + 2 < |st.P|
    ensures 0 <= r < 0x1_0000
    ensures r / 0x100 == st.P[st.pc + 1] as int && r % 0x100 == st.P[st.pc + 2] as int
  {
    BigEndian16(st.P[st.pc + 1], st.P[st.pc + 2]) as int
  }

  /** The number of values INVOKESTATIC pops is the callee's declared
      argument count cut to 8 bits when that is at most 128, and 0
      otherwise: above 128 the `int8_t` loop counter starts negative. */
  lemma StaticArgCountAsWritten(numArgs: U16)
    ensures StaticArgCount(numArgs) == if 1 <= numArgs as int % 0x100 <= 128 then numArgs as int % 0x100 else 0
  {
    var a := numArgs as int % 0x100;
    var first := ToInt8(a - 1);
    if 1 <= a <= 128 {
      assert first == a - 1;
    } else if a == 0 {
      assert first == -1;
    } else {
      assert first == a - 1 - 0x100;
    }
  }

  /** INVOKESTATIC of a function with at most 128 arguments and fewer than
      256 locals, with its arguments on the stack: the callee starts at pc 0
      on an empty stack with its arguments, in order, in its first locals
      and zeros in the rest; the caller's remaining stack, code, locals and
      return address `pc + 3` are pushed as one new frame. */
  lemma InvokeStaticEnters(prog: Program, native: NativeTable, st: State)
    requires At(st, InvokeStatic) && st.pc + 2 < |st.P| && PoolIndex(st) < |prog.functions|
    requires var g := prog.functions[PoolIndex(st)];
             g.numArgs <= 128 && g.numArgs <= g.numVars < 256 && g.numArgs as int <= |st.S|
    ensures var g := prog.functions[PoolIndex(st)];
            var n := g.numArgs as int;
            && Step(prog, native, st).Ok? && Step(prog, native, st).value.Continue?
            && var st' := Step(prog, native, st).value.st;
               && st'.S == [] && st'.P == g.code && st'.pc == 0
               && |st'.V| == g.numVars as int
               && (forall k :: 0 <= k < n ==> st'.V[k] == st.S[|st.S| - n + k])
               && (forall k :: n <= k < |st'.V| ==> st'.V[k] == Int(0))
               && st'.callStack == st.callStack + [SavedFrame(st.S[..|st.S| - n], st.P, st.pc + 3, st.V)]
  {
    var g := prog.functions[PoolIndex(st)];
    InvokeStaticCalls(prog, native, st);
    CallEnters(g, st);
  }

  /** INVOKESTATIC calls the function its two operand bytes name. */
  lemma InvokeStaticCalls(prog: Program, native: NativeTable, st: State)
    requires At(st, InvokeStatic) && st.pc + 2 < |st.P| && PoolIndex(st) < |prog.functions|
    ensures Step(prog, native, st) == Call(prog.functions[PoolIndex(st)], st)
  {
    InvokeStaticDispatch(prog, native, st);
  }

  /** The loop body hands INVOKESTATIC to its own case. */
  lemma InvokeStaticDispatch(prog: Program, native: NativeTable, st: State)
    requires At(st, InvokeStatic)
    ensures Step(prog, native, st) == StepInvokeStatic(prog, st)
  {
    var byte := st.P[st.pc];
    assert CodeAt(st.P, st.pc) == Ok(byte);
    assert StepOp(prog, native, InvokeStatic, byte, st) == StepInvokeStatic(prog, st);
  }

  /** The frame switch of INVOKESTATIC, once the callee `g` is known. */
  lemma CallEnters(g: FunctionInfo, st: State)
    requires g.numArgs <= 128 && g.numArgs <= g.numVars < 256 && g.numArgs as int <= |st.S|
    ensures var n := g.numArgs as int;
            && Call(g, st).Ok? && Call(g, st).value.Continue?
            && var st' := Call(g, st).value.st;
               && st'.S == [] && st'.P == g.code && st'.pc == 0
               && |st'.V| == g.numVars as int
               && (forall k :: 0 <= k < n ==> st'.V[k] == st.S[|st.S| - n + k])
               && (forall k :: n <= k < |st'.V| ==> st'.V[k] == Int(0))
               && st'.callStack == st.callStack + [SavedFrame(st.S[..|st.S| - n], st.P, st.pc + 3, st.V)]
  {
    var n := g.numArgs as int;
    StaticArgCountAsWritten(g.numArgs);
    assert StaticArgCount(g.numArgs) == n && g.numVars as int % 0x100 == g.numVars as int;
    var locals := st.S[|st.S| - n..] + Zeros(g.numVars as int - n);
    var caller := SavedFrame(st.S[..|st.S| - n], st.P, st.pc + 3, st.V);
    assert Call(g, st) == Ok(Continue(State([], g.code, 0, locals, st.callStack + [caller])));
    assert forall k :: 0 <= k < n ==> locals[k] == st.S[|st.S| - n + k];
    assert forall k :: n <= k < |locals| ==> locals[k] == Int(0);
  }

  /** RETURN from a called function resumes the caller exactly as it was
      saved, with the returned value pushed on its stack. */
  lemma ReturnResumesCaller(prog: Program, native: NativeTable, st: State, v: Int32)
    requires At(st, Return) && st.S == [Int(v)] && st.callStack != []
    ensures var f := st.callStack[|st.callStack| - 1];
            Step(prog, native, st) ==
              Ok(Continue(State(f.S + [Int(v)], f.P, f.pc, f.V, st.callStack[..|st.callStack| - 1])))
  {
  }

  /** RETURN with no caller ends the run with the value returned. */
  lemma ReturnFromMain(prog: Program, native: NativeTable, st: State, v: Int32)
    requires At(st, Return) && st.S == [Int(v)] && st.callStack == []
    ensures Step(prog, native, st) == Ok(Done(v))
  {
  }

  /** RETURN faults unless the value it pops is an int and the last one:
      on an empty stack the pop underflows, a pointer on top fails the kind
      check, and an int above other values fails the empty-stack assert. */
  lemma ReturnChecks(prog: Program, native: NativeTable, st: State)
    requires At(st, Return) && !(|st.S| == 1 && st.S[0].Int?)
    ensures Step(prog, native, st).Err?
    ensures st.S == [] ==> Step(prog, native, st) == Err(Contract(StackUnderflow))
    ensures st.S != [] && st.S[|st.S| - 1].Ptr? ==> Step(prog, native, st) == Err(Contract(NotAnInt))
    ensures st.S != [] && st.S[|st.S| - 1].Int? ==> Step(prog, native, st) == Err(Contract(StackNotEmptyAtReturn))
  {
  }

  /** A call followed by the callee's RETURN: whatever the callee did on
      its own frame, the caller goes on at the instruction after the call
      with its arguments replaced by the result, and nothing else of the
      caller changed. */
  lemma CallThenReturn(prog: Program, native: NativeTable, st: State, entered: State, st2: State, v: Int32)
    requires At(st, InvokeStatic)
    requires Step(prog, native, st) == Ok(Continue(entered))
    requires At(st2, Return) && st2.S == [Int(v)] && st2.callStack == entered.callStack
    ensures st.pc + 2 < |st.P| && PoolIndex(st) < |prog.functions|
    ensures var n := StaticArgCount(prog.functions[PoolIndex(st)].numArgs);
            && n <= |st.S|
            && Step(prog, native, st2) == Ok(Continue(st.(S := st.S[..|st.S| - n] + [Int(v)], pc := st.pc + 3)))
  {
    InvokeStaticDispatch(prog, native, st);
    assert st.pc + 2 < |st.P| && PoolIndex(st) < |prog.functions|;
    var g := prog.functions[PoolIndex(st)];
    var n := StaticArgCount(g.numArgs);
    CallSaves(g, st, entered);
    ReturnResumesCaller(prog, native, st2, v);
    assert entered.callStack[..|entered.callStack| - 1] == st.callStack;
  }

  /** An INVOKESTATIC that does not fault saves the caller's frame below
      the popped arguments. */
  lemma CallSaves(g: FunctionInfo, st: State, entered: State)
    requires Call(g, st) == Ok(Continue(entered))
    ensures var n := StaticArgCount(g.numArgs);
            && n <= |st.S|
            && entered.callStack == st.callStack + [SavedFrame(st.S[..|st.S| - n], st.P, st.pc + 3, st.V)]
  {
  }

  /** INVOKENATIVE passes the top `num_args` values, in argument order, to
      the native function, replaces them by its result, moves on by 3 and
      leaves the code, the locals and the call stack alone. */
  lemma InvokeNativeCalls(prog: Program, native: NativeTable, st: State)
    requires At(st, InvokeNative) && st.pc + 2 < |st.P| && PoolIndex(st) < |prog.natives|
    requires prog.natives[PoolIndex(st)].numArgs as int <= |st.S|
    ensures var d := prog.natives[PoolIndex(st)];
            var n := d.numArgs as int;
            var args := st.S[|st.S| - n..];
            && |args| == n && st.S[..|st.S| - n] + args == st.S
            && Step(prog, native, st) ==
                 Ok(Continue(Advanced(st, st.S[..|st.S| - n] + [native(d.tableIndex, args)], 3)))
  {
    var d := prog.natives[PoolIndex(st)];
    var n := d.numArgs as int;
    assert st.S[..|st.S| - n] + st.S[|st.S| - n..] == st.S;
    assert Step(prog, native, st) == StepInvokeNative(prog, native, st);
  }

  /** Every opcode the interpreter names but does not implement, like every
      byte that is no opcode, aborts the run with that byte. */
  lemma UnimplementedAborts(prog: Program, native: NativeTable, st: State)
    requires 0 <= st.pc < |st.P|
    requires IsUnimplemented(Decode(st.P[st.pc])) || Decode(st.P[st.pc]).Unknown?
    ensures Step(prog, native, st) == Err(InvalidOpcode(st.P[st.pc]))
  {
  }

  /** INVOKESTATIC pushes exactly one frame, which returns to `pc + 3` in
      the caller's code with the caller's locals, and keeps the frames
      below it. */
  lemma InvokeStaticPushesFrame(prog: Program, native: NativeTable, st: State, st': State)
    requires At(st, InvokeStatic) && Step(prog, native, st) == Ok(Continue(st'))
    ensures |st'.callStack| == |st.callStack| + 1
    ensures st'.callStack[..|st.callStack|] == st.callStack
    ensures var f := st'.callStack[|st.callStack|];
            f.P == st.P && f.pc == st.pc + 3 && f.V == st.V
  {
    assert (st.callStack + [st'.callStack[|st.callStack|]])[..|st.callStack|] == st.callStack;
  }

  /** A RETURN that does not end the run pops exactly one frame. */
  lemma ReturnPopsFrame(prog: Program, native: NativeTable, st: State, st': State)
    requires At(st, Return) && Step(prog, native, st) == Ok(Continue(st'))
    ensures st.callStack != [] && st'.callStack == st.callStack[..|st.callStack| - 1]
  {
  }

  /** Only INVOKESTATIC and RETURN touch the call stack or switch code:
      every other instruction that does not fault keeps both. */
  lemma OthersKeepFrames(prog: Program, native: NativeTable, st: State, st': State)
    requires Step(prog, native, st) == Ok(Continue(st'))
    requires 0 <= st.pc < |st.P| && !Decode(st.P[st.pc]).InvokeStatic? && !Decode(st.P[st.pc]).Return?
    ensures st'.callStack == st.callStack && st'.P == st.P
  {
    var op := Decode(st.P[st.pc]);
    if IsBinary(op) || op.IDiv? || op.IRem? {
      ArithmeticKeepsFrames(prog, native, st, st', op);
    } else if op.IfCmpEq? || op.IfCmpNe? || IsIntCompare(op) || op.Goto? {
      BranchKeepsFrames(prog, native, st, st', op);
    } else {
      SimpleKeepsFrames(prog, native, st, st', op);
    }
  }

  lemma ArithmeticKeepsFrames(prog: Program, native: NativeTable, st: State, st': State, op: Opcode)
    requires At(st, op) && (IsBinary(op) || op.IDiv? || op.IRem?)
    requires Step(prog, native, st) == Ok(Continue(st'))
    ensures st'.callStack == st.callStack && st'.P == st.P
  {
  }

  lemma BranchKeepsFrames(prog: Program, native: NativeTable, st: State, st': State, op: Opcode)
    requires At(st, op) && (op.IfCmpEq? || op.IfCmpNe? || IsIntCompare(op) || op.Goto?)
    requires Step(prog, native, st) == Ok(Continue(st'))
    ensures st'.callStack == st.callStack && st'.P == st.P
  {
  }

  lemma SimpleKeepsFrames(prog: Program, native: NativeTable, st: State, st': State, op: Opcode)
    requires At(st, op) && !op.InvokeStatic? && !op.Return?
    requires !(IsBinary(op) || op.IDiv? || op.IRem?)
    requires !(op.IfCmpEq? || op.IfCmpNe? || IsIntCompare(op) || op.Goto?)
    requires Step(prog, native, st) == Ok(Continue(st'))
    ensures st'.callStack == st.callStack && st'.P == st.P
  {
  }

  // ---------------------------------------------------------------------
  // Runs of the loop (c0vm.c:55-660)

  /** A loop that ends within some number of iterations ends the same way
      with more: the fuel bound only cuts off runs that have not ended. */
  lemma {:induction false} MoreFuel(step: State -> Res<Next>, st: State, fuel: nat, more: nat)
    requires fuel <= more && Iterate(step, st, fuel) != OutOfFuel
    ensures Iterate(step, st, more) == Iterate(step, st, fuel)
    decreases fuel
  {
    if fuel > 0 {
      assert Iterate(step, st, fuel) == Resume(step, st, fuel);
      assert Iterate(step, st, more) == Resume(step, st, more);
      match step(st)
      case Ok(Continue(st')) =>
        MoreFuel(step, st', fuel - 1, more - 1);
      case _ =>
    }
  }

  /** A run of the interpreter that ends within `fuel` iterations ends the
      same way with any larger bound. */
  lemma RunMoreFuel(prog: Program, native: NativeTable, fuel: nat, more: nat)
    requires fuel <= more && Run(prog, native, fuel) != OutOfFuel
    ensures Run(prog, native, more) == Run(prog, native, fuel)
  {
    if |prog.functions| > 0 {
      MoreFuel(StepOf(prog, native), Initial(prog), fuel, more);
    }
  }

  /** `st` leads to `mid` in exactly `n` iterations of `step`, none of
      which ends the loop. */
  ghost predicate Reaches(step: State -> Res<Next>, st: State, n: nat, mid: State)
    decreases n
  {
    if n == 0 then st == mid
    else step(st).Ok? && step(st).value.Continue? && Reaches(step, step(st).value.st, n - 1, mid)
  }

  /** Running `first` iterations and then `second` more is running
      `first + second`, when the first part has not ended. */
  lemma {:induction false} RunSplits(step: State -> Res<Next>, st: State, first: nat, second: nat, mid: State)
    requires Reaches(step, st, first, mid)
    ensures Iterate(step, st, first + second) == Iterate(step, mid, second)
    decreases first
  {
    if first > 0 {
      assert Iterate(step, st, first + second) == Resume(step, st, first + second);
      RunSplits(step, step(st).value.st, first - 1, second, mid);
    }
  }
}

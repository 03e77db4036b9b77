# C0VM interpreter loop, modelled in Dafny

This project models `execute` from c0vm.c, the core of the C0 virtual
machine. `execute` runs a loaded bytecode file: it starts function 0 at
pc 0 with an empty operand stack and zeroed locals. Each pass of its
`while (true)` loop fetches the byte at `P[pc]` and runs one case of its
`switch`:

- stack shuffles;
- 32-bit integer arithmetic, bitwise operations and shifts;
- constants from the code, the integer pool and the string pool;
- loads and stores of locals;
- ATHROW and ASSERT;
- conditional and unconditional branches on signed 16-bit offsets;
- INVOKESTATIC, which saves the caller in a `frame` on the call stack;
- INVOKENATIVE, which calls foreign code;
- RETURN, which resumes the caller or ends the run with an `int`.

The model has three layers.

- **The pure semantics.** `Semantics.Step` is one iteration of the loop, a
  function of the machine state. It checks and pops in the C code's order,
  so a malformed program meets the same fault first. `Semantics.Run` is a
  run of the loop cut off after `fuel` iterations.
- **The imperative machine.** `Machine.Vm` is a class whose fields are
  `execute`'s variables `S`, `P`, `pc`, `V` (an array) and `callStack` (a
  sequence of `frame` records that refer to their locals arrays). Each case
  of the switch is a method that updates those fields step by step, and
  each is proved to leave the state that `Semantics.Step` gives.
  `Machine.Execute`, the loop itself, is proved to return `Run`.
- **The properties.** The `Properties` module states what each instruction
  does, and what runs do. `Samples` and `Scenarios` follow small programs
  from start to end.

How the model treats the C code's edge cases:

- **Faults.** Every way the C code stops early is a `Fault` value:
  - `c0_arith_error` calls;
  - `c0_user_error` and `c0_assertion_failure`;
  - `abort()` on an invalid opcode;
  - every `ASSERT`, `REQUIRES` or `assert` the interpreter or its stack
    library would fail;
  - every read outside an array that the C code does not bound-check (an
    empty pop, a value of the wrong kind, a code, pool or local index out
    of range). These become a `Contract` fault rather than undefined
    behaviour.
- **IXOR.** The C code computes `v2 | v1`, and the model does the same:
  `Properties.XorIsOr` and `Scenarios.XorReturns7` state it.
- **INVOKESTATIC counts.** The callee's `num_args` and `num_vars` are cut to
  `uint8_t`, and its argument loop counts with an `int8_t`. The model keeps
  both: `Semantics.StaticArgCount` and `Properties.StaticArgCountAsWritten`.

## Model

| member | source | states |
|---|---|---|
| Int32Arith.Wrap | c0vm.c:154 | the `int32_t` a C operation stores is congruent to the exact result modulo 2^32, and equals it when it fits |
| Int32Arith.DivRem | c0vm.c:180-223 | C division: `a == b * q + r`, `Abs(r) < Abs(b)`, `r` has the dividend's sign, and the quotient is truncated toward zero |
| Int32Arith.DivInRange | c0vm.c:192-197 | once INT_MIN / -1 is excluded, the C quotient and remainder of two `int32_t` are `int32_t` again |
| Int32Arith.Quotient | c0vm.c:197 | IDIV's value times the divisor plus IREM's value is the dividend, and the product is no larger than the dividend in magnitude (truncation toward zero) |
| Int32Arith.Remainder | c0vm.c:219 | IREM's value is smaller than the divisor in magnitude, has the dividend's sign when nonzero, and differs from the dividend by a multiple of the divisor |
| Int32Arith.OrIsNotXor | c0vm.c:248-258 | the OR that IXOR computes differs from exclusive or on 1 and 1 |
| Int32Arith.Shr | c0vm.c:260-274 | `v2 >> v1` for an amount in 0..31 is `v2 / 2^v1` rounded down, and keeps the sign |
| Int32Arith.Shl | c0vm.c:277-290 | `v2 << v1` for an amount in 0..31 is `v2 * 2^v1` reduced modulo 2^32 |
| Int32Arith.SignExtend8 | c0vm.c:297 | `(int32_t)(byte)b` lies in -128..127 and has `b` as its low byte |
| Int32Arith.BigEndian16 | c0vm.c:305-309 | the index `c1 << 8` or-ed with `c2` has `c1` as its high byte and `c2` as its low byte |
| Int32Arith.BigEndian16Split | c0vm.c:305-309 | every 16-bit index is the decoding of its own high and low bytes |
| Int32Arith.Signed16 | c0vm.c:398-401 | the `int16_t` branch offset lies in -32768..32767, has the two bytes' pattern, and is negative exactly when the high byte's top bit is set |
| Int32Arith.ToInt8 | c0vm.c:546 | conversion to `int8_t` lands in -128..127 and keeps the value modulo 256 |
| Values.Zeros | c0vm.c:47 | an `xcalloc`ed locals array of length `n` holds `n` zero values |
| Opcodes.DecodeEncode | c0vm.c:63 | every named opcode is read back from its byte: no two opcodes of the switch share a byte |
| Opcodes.EncodeDecode | c0vm.c:63 | every byte reads back as itself, including the bytes that name no opcode |
| Semantics.Unroll | c0vm.c:55-63 | a run with an iteration left is its first iteration's fault or return, or the rest of the run from the new state |
| Machine.Vm.constructor | c0vm.c:44-52 | the machine starts in `Initial`: function 0's code at pc 0, an empty stack, zeroed locals, no callers |
| Machine.Vm.Pop | c0vm.c:69 | `c0v_pop` returns the top value and removes it, and faults on an empty stack |
| Machine.Vm.PopInt | c0vm.c:150 | `val2int(c0v_pop(S))` gives what `Semantics.PopInt` gives |
| Machine.Vm.PopPtr | c0vm.c:366 | `val2ptr(c0v_pop(S))` gives what `Semantics.PopPtr` gives |
| Machine.Vm.Push | c0vm.c:76-77 | `c0v_push` appends its value to the stack |
| Machine.Vm.PushInt | c0vm.c:30-32 | `push_int` appends the integer to the stack |
| Machine.Vm.Iteration | c0vm.c:55-660 | one pass of the loop: it faults or returns as the bounded run from the old state does, or leaves the state from which the rest of that run goes on |
| Machine.Vm.Step | c0vm.c:63-658 | the switch on `P[pc]` leaves the state `Semantics.Step` gives and reports its fault or return |
| Machine.Vm.ExecStack | c0vm.c:67-93 | POP, DUP and SWAP agree with `Semantics.StepStack` |
| Machine.Vm.ExecArithmetic | c0vm.c:147-290 | the arithmetic, bitwise and shift cases agree with `Semantics.StepArithmetic` |
| Machine.Vm.ExecConstant | c0vm.c:295-338 | BIPUSH, ILDC, ALDC and ACONST_NULL agree with `Semantics.StepConstant` |
| Machine.Vm.ExecControl | c0vm.c:387-526 | NOP, the branches and GOTO agree with `Semantics.StepControl` |
| Machine.Vm.ExecPop | c0vm.c:67-71 | POP agrees with `Semantics.StepPop` |
| Machine.Vm.ExecDup | c0vm.c:73-79 | DUP agrees with `Semantics.StepDup` |
| Machine.Vm.ExecSwap | c0vm.c:81-93 | SWAP agrees with `Semantics.StepSwap` |
| Machine.Vm.ExecReturn | c0vm.c:100-142 | RETURN agrees with `Semantics.StepReturn`, and keeps each activation's locals array distinct |
| Machine.Vm.RestoreCaller | c0vm.c:117-122 | popping a frame resumes its stack with the returned value pushed, its code, pc and locals, and drops it from the call stack |
| Machine.Vm.ExecBinary | c0vm.c:147-290 | the two-operand cases with no check between the pops (IADD, ISUB, IMUL at 147-178; IAND, IOR, IXOR, ISHR, ISHL at 226-290; not IDIV and IREM, which `ExecDivide` runs) agree with `Semantics.StepBinary` |
| Machine.Vm.ExecDivide | c0vm.c:180-223 | IDIV and IREM agree with `Semantics.StepDivide`: the divisor is tested before the dividend is popped |
| Machine.Vm.ExecBiPush | c0vm.c:295-301 | BIPUSH agrees with `Semantics.StepBiPush` |
| Machine.Vm.ExecILdc | c0vm.c:303-315 | ILDC agrees with `Semantics.StepILdc` |
| Machine.Vm.ExecALdc | c0vm.c:317-332 | ALDC agrees with `Semantics.StepALdc` |
| Machine.Vm.ExecAConstNull | c0vm.c:334-338 | ACONST_NULL pushes the null pointer and moves on by one |
| Machine.Vm.ExecVLoad | c0vm.c:343-350 | VLOAD agrees with `Semantics.StepVLoad` |
| Machine.Vm.ExecVStore | c0vm.c:352-359 | VSTORE agrees with `Semantics.StepVStore` |
| Machine.Vm.ExecAThrow | c0vm.c:364-370 | ATHROW agrees with `Semantics.StepAThrow` |
| Machine.Vm.ExecAssert | c0vm.c:372-382 | ASSERT agrees with `Semantics.StepAssert` |
| Machine.Vm.ExecNop | c0vm.c:387-390 | NOP moves on by one and changes nothing else |
| Machine.Vm.Branch | c0vm.c:398-407 | reading the offset and jumping, with `pc` on its first byte, agrees with `Semantics.Jump` from the opcode's address |
| Machine.Vm.ExecCompareValues | c0vm.c:392-430 | IF_CMPEQ and IF_CMPNE agree with `Semantics.StepCompareValues` |
| Machine.Vm.ExecCompareInts | c0vm.c:432-510 | IF_ICMPLT, IF_ICMPGE, IF_ICMPGT and IF_ICMPLE agree with `Semantics.StepCompareInts` |
| Machine.Vm.ExecGoto | c0vm.c:512-526 | GOTO agrees with `Semantics.Jump`, taken |
| Machine.Vm.ExecInvokeStatic | c0vm.c:531-581 | INVOKESTATIC agrees with `Semantics.StepInvokeStatic`, and only adds fresh locals arrays |
| Machine.Vm.CallFunction | c0vm.c:538-579 | the frame switch agrees with `Semantics.Call`: zeroed `Vg`, arguments popped into it, caller saved with `pc + 3` |
| Machine.Vm.EnterCallee | c0vm.c:559-576 | pushing the caller's frame and starting the callee at pc 0 on an empty stack with its own locals array |
| Machine.Vm.PopArguments | c0vm.c:546-552 | the `int8_t` argument loop leaves the top `n` values in argument order in `Vg`, with zeros after them, or faults on an underflow or on a write past `Vg` |
| Machine.Vm.PopNativeArguments | c0vm.c:596-600 | the native argument loop leaves the top `num_args` values in `Vg` in argument order, or underflows |
| Machine.Vm.ExecInvokeNative | c0vm.c:583-610 | INVOKENATIVE agrees with `Semantics.StepInvokeNative` |
| Machine.CallContinues | c0vm.c:538-579 | an unfolding of `Semantics.Call`'s last branch for `CallFunction`'s proof: a call that neither underflows nor writes past `Vg` enters the callee with the arguments and zeros as locals and the caller's frame on top of the call stack |
| Machine.Advance | c0vm.c:55-660 | an iteration that agrees with `Semantics.Step` moves the bounded run forward by one |
| Machine.Execute | c0vm.c:40-664 | `execute` with a bound on its iterations returns exactly `Semantics.Run`: the value, the fault, or out of fuel |
| Properties.PopRemovesTop | c0vm.c:67-71 | POP removes the top value and keeps the rest of the state, or underflows |
| Properties.DupCopiesTop | c0vm.c:73-79 | DUP leaves two copies of the top value above the rest, or underflows |
| Properties.SwapExchangesTopTwo | c0vm.c:81-93 | SWAP exchanges the top two values; the stack is a permutation of the old one |
| Properties.ExchangePermutes | c0vm.c:88-89 | exchanging the top two values keeps the multiset of stack values |
| Properties.SwapUnderflow | c0vm.c:83-86 | SWAP on fewer than two values underflows |
| Properties.BinaryStep | c0vm.c:147-290 | a two-operand instruction other than IDIV and IREM (147-178 and 226-290; division is `DivideStep`) pops `v1` then `v2` and pushes `BinaryResult(v2, v1)`, or faults as it does |
| Properties.ArithmeticWraps | c0vm.c:147-178 | IADD, ISUB and IMUL push the exact result modulo 2^32, and the exact result when it fits |
| Properties.BitwiseOps | c0vm.c:226-258 | IAND and IOR push the AND and OR of the 32-bit patterns, and IXOR pushes the OR |
| Properties.XorIsOr | c0vm.c:248-258 | IXOR on 1 and 1 pushes 1, where exclusive or gives 0 |
| Properties.DivideByZero | c0vm.c:183-187 | IDIV and IREM by zero fault with a division error |
| Properties.DivideOverflow | c0vm.c:192-195 | IDIV and IREM of INT_MIN by -1 fault |
| Properties.DivideDefined | c0vm.c:180-223 | otherwise IDIV pushes `q` and IREM `m` with `v2 == v1 * q + m`, `Abs(m) < Abs(v1)`, and `m` has the sign of `v2` |
| Properties.DivideStep | c0vm.c:180-223 | a valid IDIV or IREM pushes the quotient or the remainder and moves on by one |
| Properties.ShiftFaultsIff | c0vm.c:260-290 | ISHL and ISHR fault exactly when the amount is outside 0..31, and then with the shift error |
| Properties.ShiftPopsFirst | c0vm.c:260-290 | the shift range test comes after both pops: an out-of-range amount over an empty stack underflows, and over a pointer fails the kind check |
| Properties.ShiftDefined | c0vm.c:260-290 | an in-range ISHR is floor division by `2^v1`; ISHL is multiplication by `2^v1` modulo 2^32 |
| Properties.BiPushSignExtends | c0vm.c:295-301 | BIPUSH pushes every value in -128..127 written as its low byte, and moves on by two |
| Properties.LoadConstant | c0vm.c:303-332 | ILDC and ALDC push the pool entry their big-endian index names and move on by three, or fault past the pool |
| Properties.StoreThenLoad | c0vm.c:343-359 | VSTORE then VLOAD of the same local puts the stored value back on top, and the local holds it |
| Properties.LoadPushes | c0vm.c:343-350 | VLOAD pushes the local its operand byte names and moves on by two |
| Properties.LocalOutOfRange | c0vm.c:343-359 | a local index past the locals array faults for VLOAD on any stack and for VSTORE once it has popped its value |
| Properties.AThrowRaises | c0vm.c:364-370 | ATHROW ends the run with its message |
| Properties.AssertChecks | c0vm.c:372-382 | ASSERT faults with its message exactly when the condition is 0, and otherwise drops both |
| Properties.ConditionalBranch | c0vm.c:392-510 | a conditional branch pops both operands and goes to `pc + offset` when its condition holds and to `pc + 3` otherwise |
| Properties.GotoJumps | c0vm.c:512-526 | GOTO goes to `pc + offset` and leaves the stack alone |
| Properties.JumpsBy | c0vm.c:398-407 | a jump whose operand bytes spell `offset` lands on `pc + offset` when taken and on `pc + 3` otherwise |
| Properties.OffsetBytes | c0vm.c:398-401 | every offset in -32768..32767, written as two bytes, reads back as itself |
| Properties.PoolIndex | c0vm.c:533-536 | the pool index after a call opcode lies in 0..65535 and has the two operand bytes as its high and low bytes |
| Properties.StaticArgCountAsWritten | c0vm.c:541-552 | INVOKESTATIC pops the argument count cut to 8 bits when that is at most 128, and nothing when it is 0 or above 128 |
| Properties.InvokeStaticEnters | c0vm.c:531-581 | a well-formed INVOKESTATIC starts the callee at pc 0 on an empty stack with its arguments in order and zeros in its locals, and saves the caller with `pc + 3` |
| Properties.InvokeStaticCalls | c0vm.c:531-543 | an unfolding of the dispatch: INVOKESTATIC calls the function its operand bytes name (the frame it builds is stated by `CallEnters` and `InvokeStaticEnters`) |
| Properties.InvokeStaticDispatch | c0vm.c:531 | an unfolding of the dispatch: the loop body hands INVOKESTATIC to its own case |
| Properties.CallEnters | c0vm.c:538-579 | the frame switch of a well-formed call, once the callee is known |
| Properties.ReturnResumesCaller | c0vm.c:112-126 | RETURN from a callee resumes the caller as it was saved, with the value pushed |
| Properties.ReturnFromMain | c0vm.c:134-138 | RETURN with no caller ends the run with the value |
| Properties.ReturnChecks | c0vm.c:102-103 | RETURN faults unless it pops an integer that was the last value on the stack: an empty stack underflows, a pointer fails the kind check, an integer above other values fails the empty-stack assert |
| Properties.CallThenReturn | c0vm.c:531-581 | after a call and the callee's RETURN, the caller goes on at `pc + 3` with its arguments replaced by the result, and nothing else of it changed |
| Properties.CallSaves | c0vm.c:559-565 | a call that does not fault saves the caller's frame below the popped arguments |
| Properties.InvokeNativeCalls | c0vm.c:583-610 | INVOKENATIVE passes the top `num_args` values in order to the native function, replaces them by its result and moves on by three |
| Properties.UnimplementedAborts | c0vm.c:616-658 | every named but unimplemented opcode, and every byte that is no opcode, aborts with that byte |
| Properties.InvokeStaticPushesFrame | c0vm.c:559-565 | INVOKESTATIC pushes exactly one frame, which returns to the caller's code at `pc + 3` with its locals |
| Properties.ReturnPopsFrame | c0vm.c:112-126 | a RETURN that does not end the run pops exactly one frame |
| Properties.OthersKeepFrames | c0vm.c:63-658 | every other instruction that does not fault keeps the call stack and the code |
| Properties.MoreFuel | c0vm.c:55-660 | a loop that ends within some bound ends the same way with any larger bound |
| Properties.RunMoreFuel | c0vm.c:40-664 | a run of `execute` that ends within `fuel` iterations ends the same way with more |
| Properties.RunSplits | c0vm.c:55-660 | `first` iterations that reach `mid`, followed by `second` more, are the run of `first + second` |
| Samples.XorStep | c0vm.c:248-258 | IXOR on 6 and 3 pushes 7, where exclusive or gives 5 |
| Scenarios.MultiplyReturns15 | c0vm.c:40-664 | `return 5 * 3;` returns 15 with four or more iterations |
| Scenarios.XorReturns7 | c0vm.c:40-664 | `return 6 ^ 3;` returns 7, not 5, with four or more iterations |
| Scenarios.DivideByZeroFaults | c0vm.c:40-664 | `return 1 / 0;` faults with a division error with three or more iterations |
| Scenarios.CallReturns11 | c0vm.c:40-664 | `main` calling `succ(10)` returns 11 with seven or more iterations |
| Scenarios.NestedReturns11 | c0vm.c:40-664 | `main` calling `relay(10)`, which returns `succ(10)`, returns 11 through both returns with ten or more iterations |

## Left out

- The memory, array and tag instructions (c0vm.c:616-654) are not
  implemented by the C code either: it sends them to the default case. The
  model does the same with an `InvalidOpcode` fault.
- The `DEBUG` trace printing and `IF_DEBUG` output are left out: they are
  output only.
- `xcalloc` and `free` are not modelled, nor `c0v_stack_free` and
  `stack_free`. Allocation is a fresh array; freeing has no effect on the
  interpreter's results.
- `native_function_table` is foreign code. The model takes it as a
  parameter, a function from the table index and the argument sequence to
  the returned value. It cannot touch the interpreter's state. A native
  is therefore total, deterministic and free of side effects: two calls
  with equal arguments push equal values, so IF_CMPEQ on their results is
  taken, and a native can never abort, print, or return a fresh pointer
  on each call, all of which real natives can do.
- The loading of the bytecode file is not part of this model. The program
  is a value: the function pool, the integer pool, the string pool's size
  and the native pool. The string pool's bytes are not modelled; ALDC
  pushes a pointer that names its offset.
- lib/c0vm.h is not part of this model. The opcode byte values follow the
  standard C0VM instruction table, and `num_args` and `num_vars` are taken
  to be 16-bit fields.
- The stack library, lib/c0v_stack.h and lib/stack.h, is not part of this
  model. Its stacks are sequences whose top is the last element.
- Machine.Execute: the C loop has no bound. The model stops after `fuel`
  iterations with `OutOfFuel`. `Properties.RunMoreFuel` shows that a run
  that ends gives the same result with any larger bound.
- The C code's undefined behaviour (an empty pop, a value of the wrong
  kind, a code, pool or local index out of range, a write past `Vg`) is
  modelled as a `Contract` fault that stops the run. The real program
  could go on with garbage or crash at some other point.
- Properties.BitwiseOps: it states the pushed value by its residue modulo
  2^32, that is by its 32-bit pattern, rather than as a signed value.
- Three implementation-defined conversions are modelled as two's
  complement, which is what common compilers do: `>>` of a negative
  `int32_t` is an arithmetic shift (c0vm.c:272); the branch offset
  `(c1<<8) | c2` at or above 0x8000, stored into the `int16_t c3`
  (c0vm.c:401 and the other branches), becomes negative; and the count
  minus one, when the count is 129 or more, stored into the `int8_t i`
  (c0vm.c:546), becomes negative, so the loop pops nothing.
- The ISHL of a negative `v2`, undefined in C, is modelled as the two's
  complement shift modulo 2^32.
- Signed overflow in IADD, ISUB and IMUL (c0vm.c:147-178) is undefined in
  C. It is modelled as wrap-around modulo 2^32, as if the interpreter were
  built with `-fwrapv`.
- The same holds for an ISHL of a positive `v2` whose result does not fit
  in 32 bits (c0vm.c:287). It is modelled as the product with 2^k, wrapped
  modulo 2^32.
- The C code's out-of-memory aborts (`xcalloc` failing) are not modelled.

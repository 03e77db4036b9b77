/** The values the interpreter moves around, the faults that end a run, and
    the loaded program it reads. */
module Values {
  import opened Int32Arith

  /** What a C0 pointer refers to. The interpreter never dereferences one:
      it only compares pointers and hands them to errors and natives. */
  datatype Pointer =
    | Null
      /** `bc0->string_pool + offset`, as pushed by ALDC. */
    | StringAt(offset: nat)
      /** A pointer made by native code, known only by identity. */
    | Foreign(handle: nat)

  /** A `c0_value`: an integer or a pointer. */
  datatype Value = Int(i: Int32) | Ptr(p: Pointer)

  /** The three `c0_arith_error` calls of the interpreter. */
  datatype ArithError =
    | DivisionByZero     // "division by zero not allowed!"
    | DivisionOverflow   // INT_MIN divided by -1
    | ShiftOutOfRange    // "shifting error!"

  /** Contract violations: a malformed program breaks an ASSERT, REQUIRES or
      assert of the interpreter or its stack library, or makes it read
      outside an array the C code does not bound-check. */
  datatype Violation =
    | StackUnderflow         // c0v_pop on an empty operand stack
    | NotAnInt               // val2int on a pointer
    | NotAPointer            // val2ptr on an integer
    | StackNotEmptyAtReturn  // assert(c0v_stack_empty(S)) in RETURN
    | CodeOutOfRange         // P[pc] outside the function body
    | IntPoolIndex           // ASSERT(index < bc0->int_count)
    | StringPoolIndex        // ASSERT(index < bc0->string_count)
    | FunctionPoolIndex      // bc0->function_pool[index] out of range
    | NativePoolIndex        // bc0->native_pool[index] out of range
    | LocalIndex             // V[index] or Vg[i] out of range

  /** Every way a run can end other than the outermost RETURN. */
  datatype Fault =
    | Arith(error: ArithError)
    | AssertionFailure(message: Pointer)   // ASSERT on a zero condition
    | UserError(message: Pointer)          // ATHROW
    | InvalidOpcode(opcode: UByte)         // the switch's default case
    | Contract(violation: Violation)

  /** A result that is either a value or the fault that aborted the run. */
  datatype Res<+T> = Ok(value: T) | Err(fault: Fault) {
    predicate IsFailure() {
      Err?
    }

    function PropagateFailure<U>(): Res<U>
      requires Err?
    {
      Err(fault)
    }

    function Extract(): T
      requires Ok?
    {
      value
    }
  }

  /** One entry of `bc0->function_pool`. */
  datatype FunctionInfo = FunctionInfo(numArgs: U16, numVars: U16, code: seq<UByte>)

  /** One entry of `bc0->native_pool`. */
  datatype NativeInfo = NativeInfo(numArgs: U16, tableIndex: U16)

  /** The loaded bytecode file, read-only to the interpreter. The string
      pool's bytes are not modelled, only its size `string_count`. */
  datatype Program = Program(
    functions: seq<FunctionInfo>,
    intPool: seq<Int32>,
    stringCount: nat,
    natives: seq<NativeInfo>)

  /** `native_function_table`: foreign code, seen as a function from its
      table index and its argument array to the value it returns. */
  type NativeTable = (U16, seq<Value>) -> Value

  /** A zero-filled `c0_value` array, as `xcalloc` returns it. */
  function Zeros(n: nat): (r: seq<Value>)
    ensures |r| == n && forall k :: 0 <= k < n ==> r[k] == Int(0)
  {
    if n == 0 then [] else Zeros(n - 1) + [Int(0)]
  }
}

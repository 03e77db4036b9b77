/** Whole runs of small bytecode programs, from the first instruction of
    function 0 to the value `execute` returns or the fault that ends it. */
module Scenarios {
  import opened Values
  import opened Opcodes
  import opened Semantics
  import opened Samples

  /** `return 5 * 3;` returns 15 once it has four iterations. */
  lemma MultiplyReturns15(native: NativeTable, fuel: nat)
    requires fuel >= 4
    ensures Run(Single(MULTIPLY), native, fuel) == Returned(15)
  {
    SingleStarts(MULTIPLY);
    MultiplyEnds(native, fuel - 2);
    PushSecond(Single(MULTIPLY), native, MULTIPLY, 5, 3, fuel - 1, Returned(15));
    PushFirst(Single(MULTIPLY), native, MULTIPLY, 5, fuel, Returned(15));
  }

  /** `return 6 ^ 3;` returns 7, the bitwise or of 6 and 3, and not 5. */
  lemma XorReturns7(native: NativeTable, fuel: nat)
    requires fuel >= 4
    ensures Run(Single(XOR), native, fuel) == Returned(7)
  {
    SingleStarts(XOR);
    XorEnds(native, fuel - 2);
    PushSecond(Single(XOR), native, XOR, 6, 3, fuel - 1, Returned(7));
    PushFirst(Single(XOR), native, XOR, 6, fuel, Returned(7));
  }

  /** `return 1 / 0;` faults on the division however long the run may go
      on. */
  lemma DivideByZeroFaults(native: NativeTable, fuel: nat)
    requires fuel >= 3
    ensures Run(Single(DIVIDE_BY_ZERO), native, fuel) == Faulted(Arith(DivisionByZero))
  {
    var result := Faulted(Arith(DivisionByZero));
    SingleStarts(DIVIDE_BY_ZERO);
    DivideEnds(native, fuel - 2);
    PushSecond(Single(DIVIDE_BY_ZERO), native, DIVIDE_BY_ZERO, 1, 0, fuel - 1, result);
    PushFirst(Single(DIVIDE_BY_ZERO), native, DIVIDE_BY_ZERO, 1, fuel, result);
  }

  /** `succ(10)` called from `main` returns 11 once the run has seven
      iterations: the call, the callee's body and the return to the
      caller. */
  lemma CallReturns11(native: NativeTable, fuel: nat)
    requires fuel >= 7
    ensures Run(CallProgram(), native, fuel) == Returned(11)
  {
    var prog := CallProgram();
    assert Initial(prog) == State([], MAIN, 0, [], []) by {
      assert Zeros(0) == [];
    }
    CallRuns(native, fuel - 1);
    PushFirst(prog, native, MAIN, 10, fuel, Returned(11));
  }

  /** A call two levels deep: `main` calls `relay(10)`, which returns
      `succ(10)`. The 11 reaches `main` through both returns once the run
      has ten iterations. */
  lemma NestedReturns11(native: NativeTable, fuel: nat)
    requires fuel >= 10
    ensures Run(NestedProgram(), native, fuel) == Returned(11)
  {
    var prog := NestedProgram();
    assert Initial(prog) == State([], MAIN, 0, [], []) by {
      assert Zeros(0) == [];
    }
    NestedRuns(native, fuel - 1);
    PushFirst(prog, native, MAIN, 10, fuel, Returned(11));
  }
}

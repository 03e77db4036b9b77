/** Small bytecode programs, and the runs of the interpreter on them
    followed back from the last instruction, one iteration at a time. */
module Samples {
  import opened Int32Arith
  import opened Values
  import opened Opcodes
  import opened Semantics
  import opened Properties

  /** A program whose only function is `main`, taking no arguments and
      having no locals. */
  function Single(code: seq<UByte>): Program
  {
    Program([FunctionInfo(0, 0, code)], [], 0, [])
  }

  /** `main` starts at pc 0 of `code` on an empty stack with no locals. */
  lemma SingleStarts(code: seq<UByte>)
    ensures Initial(Single(code)) == State([], code, 0, [], [])
  {
    assert Zeros(0) == [];
  }

  /** One iteration that neither faults nor returns hands the rest of the
      run to the next state. */
  lemma Continues(prog: Program, native: NativeTable, st: State, st': State, fuel: nat)
    requires fuel > 0 && Step(prog, native, st) == Ok(Continue(st'))
    ensures RunFrom(prog, native, st, fuel) == RunFrom(prog, native, st', fuel - 1)
  {
    Unroll(prog, native, st, fuel);
  }

  /** A BIPUSH of `x` on an empty stack, at `pc` 0, followed by the rest
      of the run. */
  lemma PushFirst(prog: Program, native: NativeTable, code: seq<UByte>, x: int, fuel: nat, result: Outcome)
    requires fuel >= 2 && 0 <= x < 128 && |code| > 1 && Decode(code[0]) == BiPush && code[1] as int == x
    requires RunFrom(prog, native, State([Int(x as Int32)], code, 2, [], []), fuel - 1) == result
    ensures RunFrom(prog, native, State([], code, 0, [], []), fuel) == result
  {
    var st := State([], code, 0, [], []);
    BiPushSignExtends(prog, native, st, x);
    assert [] + [Int(x as Int32)] == [Int(x as Int32)];
    Continues(prog, native, st, State([Int(x as Int32)], code, 2, [], []), fuel);
  }

  /** A second BIPUSH of `y`, at `pc` 2, onto `[x]`. */
  lemma PushSecond(prog: Program, native: NativeTable, code: seq<UByte>, x: Int32, y: int, fuel: nat, result: Outcome)
    requires fuel >= 2 && 0 <= y < 128 && |code| > 3 && Decode(code[2]) == BiPush && code[3] as int == y
    requires RunFrom(prog, native, State([Int(x), Int(y as Int32)], code, 4, [], []), fuel - 1) == result
    ensures RunFrom(prog, native, State([Int(x)], code, 2, [], []), fuel) == result
  {
    var st := State([Int(x)], code, 2, [], []);
    BiPushSignExtends(prog, native, st, y);
    assert [Int(x)] + [Int(y as Int32)] == [Int(x), Int(y as Int32)];
    Continues(prog, native, st, State([Int(x), Int(y as Int32)], code, 4, [], []), fuel);
  }

  /** `return 5 * 3;`: BIPUSH 5, BIPUSH 3, IMUL, RETURN. */
  const MULTIPLY: seq<UByte> := [0x10, 5, 0x10, 3, 0x68, 0xB0]

  /** The IMUL pushes 15. */
  lemma MultiplyStep(native: NativeTable)
    ensures Step(Single(MULTIPLY), native, State([Int(5), Int(3)], MULTIPLY, 4, [], []))
         == Ok(Continue(State([Int(15)], MULTIPLY, 5, [], [])))
  {
    var st := State([Int(5), Int(3)], MULTIPLY, 4, [], []);
    assert st.S == [] + [Int(5), Int(3)];
    BinaryStep(Single(MULTIPLY), native, st, IMul, [], 5, 3);
    assert [] + [Int(15)] == [Int(15)];
  }

  /** From the IMUL on, the program returns 15. */
  lemma MultiplyEnds(native: NativeTable, fuel: nat)
    requires fuel >= 2
    ensures RunFrom(Single(MULTIPLY), native, State([Int(5), Int(3)], MULTIPLY, 4, [], []), fuel) == Returned(15)
  {
    var prog := Single(MULTIPLY);
    MultiplyStep(native);
    var s3 := State([Int(15)], MULTIPLY, 5, [], []);
    ReturnFromMain(prog, native, s3, 15);
    Unroll(prog, native, s3, fuel - 1);
    Continues(prog, native, State([Int(5), Int(3)], MULTIPLY, 4, [], []), s3, fuel);
  }

  /** `return 6 ^ 3;`: BIPUSH 6, BIPUSH 3, IXOR, RETURN. */
  const XOR: seq<UByte> := [0x10, 6, 0x10, 3, 0x82, 0xB0]

  /** The IXOR pushes 6 | 3, which is 7, where exclusive or gives 5: the
      instruction runs as written. */
  lemma XorStep(native: NativeTable)
    ensures Step(Single(XOR), native, State([Int(6), Int(3)], XOR, 4, [], []))
         == Ok(Continue(State([Int(7)], XOR, 5, [], [])))
  {
    var st := State([Int(6), Int(3)], XOR, 4, [], []);
    assert st.S == [] + [Int(6), Int(3)];
    BinaryStep(Single(XOR), native, st, IXor, [], 6, 3);
    assert ToBits(6) | ToBits(3) == 7;
    FromBitsResidue(7);
    ResidueDetermines(Or(6, 3) as int, 7);
    assert [] + [Int(7)] == [Int(7)];
  }

  /** From the IXOR on, the program returns 7. */
  lemma XorEnds(native: NativeTable, fuel: nat)
    requires fuel >= 2
    ensures RunFrom(Single(XOR), native, State([Int(6), Int(3)], XOR, 4, [], []), fuel) == Returned(7)
  {
    var prog := Single(XOR);
    XorStep(native);
    var s3 := State([Int(7)], XOR, 5, [], []);
    ReturnFromMain(prog, native, s3, 7);
    Unroll(prog, native, s3, fuel - 1);
    Continues(prog, native, State([Int(6), Int(3)], XOR, 4, [], []), s3, fuel);
  }

  /** `return 1 / 0;`: BIPUSH 1, BIPUSH 0, IDIV, RETURN. */
  const DIVIDE_BY_ZERO: seq<UByte> := [0x10, 1, 0x10, 0, 0x6C, 0xB0]

  /** The IDIV faults. */
  lemma DivideEnds(native: NativeTable, fuel: nat)
    requires fuel >= 1
    ensures RunFrom(Single(DIVIDE_BY_ZERO), native, State([Int(1), Int(0)], DIVIDE_BY_ZERO, 4, [], []), fuel)
         == Faulted(Arith(DivisionByZero))
  {
    var st := State([Int(1), Int(0)], DIVIDE_BY_ZERO, 4, [], []);
    assert st.S == [Int(1)] + [Int(0)];
    Properties.DivideByZero(Single(DIVIDE_BY_ZERO), native, st, IDiv, [Int(1)]);
    Unroll(Single(DIVIDE_BY_ZERO), native, st, fuel);
  }

  /** `int succ(int x) { return x + 1; }  int main() { return succ(10); }`:
      `main` is function 0, `succ` function 1 with one argument and one
      local. */
  const MAIN: seq<UByte> := [0x10, 10, 0xB8, 0, 1, 0xB0]  // BIPUSH 10, INVOKESTATIC 0 1, RETURN
  const SUCC: seq<UByte> := [0x15, 0, 0x10, 1, 0x60, 0xB0]  // VLOAD 0, BIPUSH 1, IADD, RETURN

  function CallProgram(): Program
  {
    Program([FunctionInfo(0, 0, MAIN), FunctionInfo(1, 1, SUCC)], [], 0, [])
  }

  /** `int relay(int x) { return succ(x); }` in between: `main` calls
      function 1, `relay`, which calls `succ`, function 2. */
  const RELAY: seq<UByte> := [0x15, 0, 0xB8, 0, 2, 0xB0]  // VLOAD 0, INVOKESTATIC 0 2, RETURN

  function NestedProgram(): Program
  {
    Program([FunctionInfo(0, 0, MAIN), FunctionInfo(1, 1, RELAY), FunctionInfo(1, 1, SUCC)], [], 0, [])
  }

  /** A RETURN with no caller left ends the run with the value. */
  lemma ReturnsLast(prog: Program, native: NativeTable, code: seq<UByte>, pc: int, V: seq<Value>,
                    v: Int32, fuel: nat)
    requires fuel >= 1 && 0 <= pc < |code| && code[pc] == 0xB0
    ensures RunFrom(prog, native, State([Int(v)], code, pc, V, []), fuel) == Returned(v)
  {
    ReturnFromMain(prog, native, State([Int(v)], code, pc, V, []), v);
    Unroll(prog, native, State([Int(v)], code, pc, V, []), fuel);
  }

  /** A RETURN with a caller hands `v` to it, on top of the caller's saved
      stack, at the caller's saved pc. */
  lemma ReturnsTo(prog: Program, native: NativeTable, code: seq<UByte>, pc: int, V: seq<Value>,
                  v: Int32, cs: seq<SavedFrame>, f: SavedFrame, fuel: nat, result: Outcome)
    requires fuel >= 1 && 0 <= pc < |code| && code[pc] == 0xB0
    requires RunFrom(prog, native, State(f.S + [Int(v)], f.P, f.pc, f.V, cs), fuel - 1) == result
    ensures RunFrom(prog, native, State([Int(v)], code, pc, V, cs + [f]), fuel) == result
  {
    var st := State([Int(v)], code, pc, V, cs + [f]);
    ReturnResumesCaller(prog, native, st, v);
    assert (cs + [f])[..|cs|] == cs;
    Continues(prog, native, st, State(f.S + [Int(v)], f.P, f.pc, f.V, cs), fuel);
  }

  /** A VLOAD 0 at pc 0, on an empty stack, pushes the only local. */
  lemma LoadsArgument(prog: Program, native: NativeTable, code: seq<UByte>, x: Value,
                      cs: seq<SavedFrame>, fuel: nat, result: Outcome)
    requires fuel >= 1 && |code| > 1 && code[0] == 0x15 && code[1] == 0
    requires RunFrom(prog, native, State([x], code, 2, [x], cs), fuel - 1) == result
    ensures RunFrom(prog, native, State([], code, 0, [x], cs), fuel) == result
  {
    var st := State([], code, 0, [x], cs);
    LoadPushes(prog, native, st);
    assert [] + [x] == [x];
    Continues(prog, native, st, State([x], code, 2, [x], cs), fuel);
  }

  /** Entering a function that takes one argument into its one local,
      with that argument alone on the caller's stack. */
  lemma EntersWithOne(g: FunctionInfo, st: State, x: Value)
    requires g.numArgs == 1 && g.numVars == 1 && st.S == [x]
    ensures Call(g, st) == Ok(Continue(State([], g.code, 0, [x],
                                             st.callStack + [SavedFrame([], st.P, st.pc + 3, st.V)])))
  {
    assert StaticArgCount(g.numArgs) == 1 && g.numVars as int % 0x100 == 1;
    assert Zeros(0) == [];
    assert [x][..0] == [] && [x][0..] + [] == [x];
  }

  /** The operand bytes 0 and `k` name function `k`. */
  lemma NamesFunction(st: State, k: UByte)
    requires 0 <= st.pc && st.pc + 2 < |st.P| && st.P[st.pc + 1] == 0 && st.P[st.pc + 2] == k
    ensures PoolIndex(st) == k as int
  {
    assert BigEndian16(0, k) as int == 0 * 0x100 + k as int;
  }

  /** An INVOKESTATIC of function `k`, which takes one argument into its
      one local, with that argument alone on the stack: the callee starts
      on an empty stack and the caller is saved with the return address
      after the call. */
  lemma CallsWithOne(prog: Program, native: NativeTable, code: seq<UByte>, pc: int, V: seq<Value>,
                     x: Value, cs: seq<SavedFrame>, k: UByte, fuel: nat, result: Outcome)
    requires fuel >= 1 && 0 <= pc && pc + 2 < |code|
    requires code[pc] == 0xB8 && code[pc + 1] == 0 && code[pc + 2] == k
    requires k as int < |prog.functions| && prog.functions[k].numArgs == 1 && prog.functions[k].numVars == 1
    requires RunFrom(prog, native, State([], prog.functions[k].code, 0, [x],
                                         cs + [SavedFrame([], code, pc + 3, V)]), fuel - 1) == result
    ensures RunFrom(prog, native, State([x], code, pc, V, cs), fuel) == result
  {
    var st := State([x], code, pc, V, cs);
    NamesFunction(st, k);
    InvokeStaticCalls(prog, native, st);
    EntersWithOne(prog.functions[k], st, x);
    Continues(prog, native, st, State([], prog.functions[k].code, 0, [x], cs + [SavedFrame([], code, pc + 3, V)]), fuel);
  }

  /** The body of `succ`, in whatever program and below whatever callers:
      four iterations take the argument `x` to `x + 1` on the caller's
      stack. */
  lemma SuccRuns(prog: Program, native: NativeTable, x: Int32, cs: seq<SavedFrame>, f: SavedFrame,
                 fuel: nat, result: Outcome)
    requires fuel >= 4 && x < INT_MAX as Int32
    requires RunFrom(prog, native, State(f.S + [Int(x + 1)], f.P, f.pc, f.V, cs), fuel - 4) == result
    ensures RunFrom(prog, native, State([], SUCC, 0, [Int(x)], cs + [f]), fuel) == result
  {
    var frames := cs + [f];
    ReturnsTo(prog, native, SUCC, 5, [Int(x)], x + 1, cs, f, fuel - 3, result);
    var added := State([Int(x), Int(1)], SUCC, 4, [Int(x)], frames);
    assert added.S == [] + [Int(x), Int(1)];
    BinaryStep(prog, native, added, IAdd, [], x, 1);
    assert Wrap(x as int + 1) == x + 1;
    assert [] + [Int(x + 1)] == [Int(x + 1)];
    Continues(prog, native, added, State([Int(x + 1)], SUCC, 5, [Int(x)], frames), fuel - 2);
    var pushed := State([Int(x)], SUCC, 2, [Int(x)], frames);
    BiPushSignExtends(prog, native, pushed, 1);
    assert [Int(x)] + [Int(1)] == [Int(x), Int(1)];
    Continues(prog, native, pushed, added, fuel - 1);
    LoadsArgument(prog, native, SUCC, Int(x), frames, fuel, result);
  }

  /** `main` of `CallProgram`: the call, `succ`'s body, and `main`'s
      RETURN of 11. */
  lemma CallRuns(native: NativeTable, fuel: nat)
    requires fuel >= 6
    ensures RunFrom(CallProgram(), native, State([Int(10)], MAIN, 2, [], []), fuel) == Returned(11)
  {
    var prog := CallProgram();
    ReturnsLast(prog, native, MAIN, 5, [], 11, fuel - 5);
    assert [] + [SavedFrame([], MAIN, 5, [])] == [SavedFrame([], MAIN, 5, [])];
    assert [] + [Int(11)] == [Int(11)];
    SuccRuns(prog, native, 10, [], SavedFrame([], MAIN, 5, []), fuel - 1, Returned(11));
    CallsWithOne(prog, native, MAIN, 2, [], Int(10), [], 1, fuel, Returned(11));
  }

  /** `main` of `NestedProgram`: `relay` is entered with 10, calls `succ`
      with it, and the 11 that `succ` returns is returned by `relay` and
      then by `main`. */
  lemma NestedRuns(native: NativeTable, fuel: nat)
    requires fuel >= 9
    ensures RunFrom(NestedProgram(), native, State([Int(10)], MAIN, 2, [], []), fuel) == Returned(11)
  {
    var prog := NestedProgram();
    var outer := SavedFrame([], MAIN, 5, []);
    var inner := SavedFrame([], RELAY, 5, [Int(10)]);
    ReturnsLast(prog, native, MAIN, 5, [], 11, fuel - 8);
    assert [] + [Int(11)] == [Int(11)];
    ReturnsTo(prog, native, RELAY, 5, [Int(10)], 11, [], outer, fuel - 7, Returned(11));
    assert [] + [outer] == [outer] && [outer] + [inner] == [outer, inner];
    SuccRuns(prog, native, 10, [outer], inner, fuel - 3, Returned(11));
    CallsWithOne(prog, native, RELAY, 2, [Int(10)], Int(10), [outer], 2, fuel - 2, Returned(11));
    LoadsArgument(prog, native, RELAY, Int(10), [outer], fuel - 1, Returned(11));
    CallsWithOne(prog, native, MAIN, 2, [], Int(10), [], 1, fuel, Returned(11));
  }
}

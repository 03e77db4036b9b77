/** The interpreter of c0vm.c as it runs: the local variables `S`, `P`, `pc`,
    `V` and `callStack` of `execute` become the fields of a `Vm`, each case
    of the `switch (P[pc])` a method that updates them step by step as the
    C code does, and the `while (true)` loop the method `Execute`. Every
    method is proved to do what `Semantics.Step` says of the state before
    it. */
module Machine {
  import opened Int32Arith
  import opened Values
  import opened Opcodes
  import opened Semantics

  /** The `frame` record pushed by INVOKESTATIC: the caller's operand stack,
      code and pc, and a reference to its locals array. */
  datatype Frame = Frame(S: seq<Value>, P: seq<UByte>, pc: int, V: array<Value>)

  /** What one iteration of the loop reports when it does not fault. */
  datatype Status = Running | Halted(value: Int32)

  /** The locals arrays that the saved frames refer to. */
  ghost function Arrays(fs: seq<Frame>): set<array<Value>>
  {
    set k | 0 <= k < |fs| :: fs[k].V
  }

  ghost function Snapshot(f: Frame): SavedFrame
    reads f.V
  {
    SavedFrame(f.S, f.P, f.pc, f.V[..])
  }

  /** The call stack's contents, locals read through their arrays. */
  ghost function Saved(fs: seq<Frame>): (r: seq<SavedFrame>)
    reads Arrays(fs)
    ensures |r| == |fs|
  {
    seq(|fs|, k requires 0 <= k < |fs| reads Arrays(fs) => Snapshot(fs[k]))
  }

  lemma SavedPush(fs: seq<Frame>, f: Frame)
    ensures Saved(fs + [f]) == Saved(fs) + [Snapshot(f)]
  {
    var fs' := fs + [f];
    assert forall k :: 0 <= k < |fs| ==> fs'[k] == fs[k];
  }

  lemma ArraysPush(fs: seq<Frame>, f: Frame)
    ensures Arrays(fs + [f]) == Arrays(fs) + {f.V}
  {
    var fs' := fs + [f];
    assert forall k :: 0 <= k < |fs| ==> fs'[k] == fs[k];
    assert fs'[|fs|] == f;
  }

  lemma SavedPop(fs: seq<Frame>)
    requires fs != []
    ensures Saved(fs) == Saved(fs[..|fs| - 1]) + [Snapshot(fs[|fs| - 1])]
  {
    var fs' := fs[..|fs| - 1];
    assert fs == fs' + [fs[|fs| - 1]];
    SavedPush(fs', fs[|fs| - 1]);
  }

  /** The result of a method agrees with the specification's outcome, and
      on `Running` the state it leaves is the specified one. */
  ghost predicate Agrees(r: Res<Status>, spec: Res<Next>, now: State)
  {
    match spec
    case Err(f) => r == Err(f)
    case Ok(Continue(st)) => r == Ok(Running) && now == st
    case Ok(Done(v)) => r == Ok(Halted(v))
  }

  class Vm {
    const prog: Program
    const native: NativeTable

    /** Operand stack; its top is the last element. */
    var S: seq<Value>
    /** Code of the current function. */
    var P: seq<UByte>
    /** Program counter into `P`. */
    var pc: int
    /** Local variables of the current function. */
    var V: array<Value>
    /** Suspended callers; the most recent is the last element. */
    var callStack: seq<Frame>
    /** Every locals array the machine has allocated and may still use. */
    ghost var Repr: set<object>

    /** Each activation owns its locals: the current array and those of the
        saved frames are pairwise distinct. */
    ghost predicate Valid()
      reads this`V, this`Repr, this`callStack
    {
      && V in Repr && Arrays(callStack) <= Repr
      && V !in Arrays(callStack)
      && forall i, j :: 0 <= i < j < |callStack| ==> callStack[i].V != callStack[j].V
    }

    ghost function Abstract(): State
      reads this, V, Arrays(callStack)
    {
      State(S, P, pc, V[..], Saved(callStack))
    }

    /** The variables of `execute` before its loop (c0vm.c:44-52). */
    constructor (prog: Program, native: NativeTable)
      requires |prog.functions| > 0
      ensures Valid() && fresh(Repr) && callStack == []
      ensures this.prog == prog && this.native == native
      ensures Abstract() == Initial(prog)
    {
      this.prog := prog;
      this.native := native;
      S := [];
      P := prog.functions[0].code;
      pc := 0;
      V := new Value[prog.functions[0].numVars as int](_ => Int(0));
      callStack := [];
      Repr := {V};
    }

    // -------------------------------------------------------------------
    // The operand stack

    /** `c0v_pop(S)`. */
    method Pop() returns (r: Res<Value>)
      modifies this`S
      ensures old(S) == [] ==> r == Err(Contract(StackUnderflow)) && S == old(S)
      ensures old(S) != [] ==> r == Ok(old(S)[|old(S)| - 1]) && S == old(S)[..|old(S)| - 1]
    {
      if S == [] {
        return Err(Contract(StackUnderflow));
      }
      r := Ok(S[|S| - 1]);
      S := S[..|S| - 1];
    }

    /** `val2int(c0v_pop(S))`. */
    method PopInt() returns (r: Res<Int32>)
      modifies this`S
      ensures match Semantics.PopInt(old(S))
              case Ok(p) => r == Ok(p.0) && S == p.1
              case Err(f) => r == Err(f)
    {
      var v :- Pop();
      r := IntOf(v);
    }

    /** `val2ptr(c0v_pop(S))`. */
    method PopPtr() returns (r: Res<Pointer>)
      modifies this`S
      ensures match Semantics.PopPtr(old(S))
              case Ok(p) => r == Ok(p.0) && S == p.1
              case Err(f) => r == Err(f)
    {
      var v :- Pop();
      r := PtrOf(v);
    }

    /** `c0v_push(S, v)`. */
    method Push(v: Value)
      modifies this`S
      ensures S == old(S) + [v]
    {
      S := S + [v];
    }

    /** `push_int(S, i)` (c0vm.c:30-32). */
    method PushInt(i: Int32)
      modifies this`S
      ensures S == old(S) + [Int(i)]
    {
      Push(Int(i));
    }

    // -------------------------------------------------------------------
    // One iteration of the loop

    /** One iteration of the loop, seen from the run it belongs to. */
    method Iteration(ghost n: nat) returns (s: Res<Status>)
      requires Valid() && n > 0
      modifies this, V
      ensures Valid() && fresh(Repr - old(Repr))
      ensures match s
              case Err(f) => RunFrom(prog, native, old(Abstract()), n) == Faulted(f)
              case Ok(Halted(v)) => RunFrom(prog, native, old(Abstract()), n) == Returned(v)
              case Ok(Running) => RunFrom(prog, native, old(Abstract()), n) == RunFrom(prog, native, Abstract(), n - 1)
    {
      ghost var st := Abstract();
      s := Step();
      Advance(prog, native, st, s, Abstract(), n);
    }

    /** One iteration of the loop: `switch (P[pc])` (c0vm.c:63-658),
        dispatched family by family as `Semantics.StepOp` is. */
    method Step() returns (r: Res<Status>)
      requires Valid()
      modifies this, V
      ensures Valid() && fresh(Repr - old(Repr))
      ensures Agrees(r, Semantics.Step(prog, native, old(Abstract())), Abstract())
    {
      var byte :- CodeAt(P, pc);
      var op := Decode(byte);
      if IsStackOp(op) {
        r := ExecStack(op);
      } else if IsArithmetic(op) {
        r := ExecArithmetic(op);
      } else if IsConstant(op) {
        r := ExecConstant(op);
      } else if op.VLoad? {
        r := ExecVLoad();
      } else if op.VStore? {
        r := ExecVStore();
      } else if op.AThrow? {
        r := ExecAThrow();
      } else if op.Assert? {
        r := ExecAssert();
      } else if IsControl(op) {
        r := ExecControl(op);
      } else if op.InvokeStatic? {
        r := ExecInvokeStatic();
      } else if op.InvokeNative? {
        r := ExecInvokeNative();
      } else if op.Return? {
        r := ExecReturn();
      } else {
        r := Err(InvalidOpcode(byte));
      }
    }

    method ExecStack(op: Opcode) returns (r: Res<Status>)
      requires Valid() && IsStackOp(op)
      modifies this`S, this`pc
      ensures Agrees(r, StepStack(op, old(Abstract())), Abstract())
    {
      if op.Pop? {
        r := ExecPop();
      } else if op.Dup? {
        r := ExecDup();
      } else {
        r := ExecSwap();
      }
    }

    method ExecArithmetic(op: Opcode) returns (r: Res<Status>)
      requires Valid() && IsArithmetic(op)
      modifies this`S, this`pc
      ensures Agrees(r, StepArithmetic(op, old(Abstract())), Abstract())
    {
      if op.IDiv? || op.IRem? {
        r := ExecDivide(op);
      } else {
        r := ExecBinary(op);
      }
    }

    method ExecConstant(op: Opcode) returns (r: Res<Status>)
      requires Valid() && IsConstant(op)
      modifies this`S, this`pc
      ensures Agrees(r, StepConstant(prog, op, old(Abstract())), Abstract())
    {
      if op.BiPush? {
        r := ExecBiPush();
      } else if op.ILdc? {
        r := ExecILdc();
      } else if op.ALdc? {
        r := ExecALdc();
      } else {
        r := ExecAConstNull();
      }
    }

    method ExecControl(op: Opcode) returns (r: Res<Status>)
      requires Valid() && IsControl(op)
      modifies this`S, this`pc
      ensures Agrees(r, StepControl(op, old(Abstract())), Abstract())
    {
      if op.Nop? {
        r := ExecNop();
      } else if op.IfCmpEq? || op.IfCmpNe? {
        r := ExecCompareValues(op);
      } else if IsIntCompare(op) {
        r := ExecCompareInts(op);
      } else {
        r := ExecGoto();
      }
    }

    method ExecPop() returns (r: Res<Status>)
      requires Valid()
      modifies this`S, this`pc
      ensures Agrees(r, StepPop(old(Abstract())), Abstract())
    {
      pc := pc + 1;
      var v :- Pop();
      r := Ok(Running);
    }

    method ExecDup() returns (r: Res<Status>)
      requires Valid()
      modifies this`S, this`pc
      ensures Agrees(r, StepDup(old(Abstract())), Abstract())
    {
      pc := pc + 1;
      var v :- Pop();
      Push(v);
      Push(v);
      r := Ok(Running);
    }

    method ExecSwap() returns (r: Res<Status>)
      requires Valid()
      modifies this`S, this`pc
      ensures Agrees(r, StepSwap(old(Abstract())), Abstract())
    {
      pc := pc + 1;
      var v1 :- Pop();
      var v2 :- Pop();
      Push(v1);
      Push(v2);
      r := Ok(Running);
    }

    /** RETURN (c0vm.c:100-142). */
    method ExecReturn() returns (r: Res<Status>)
      requires Valid()
      modifies this
      ensures Valid() && Repr == old(Repr)
      ensures Agrees(r, StepReturn(old(Abstract())), Abstract())
    {
      var retval :- PopInt();
      if S != [] {
        return Err(Contract(StackNotEmptyAtReturn));
      }
      if callStack != [] {
        RestoreCaller(retval);
        return Ok(Running);
      }
      return Ok(Halted(retval));
    }

    /** Pops the caller's frame and resumes it with `retval` pushed on its
        operand stack. */
    method RestoreCaller(retval: Int32)
      requires Valid() && callStack != []
      modifies this
      ensures Valid() && Repr == old(Repr)
      ensures var f := old(Abstract()).callStack[|old(callStack)| - 1];
              Abstract() == State(f.S + [Int(retval)], f.P, f.pc, f.V, old(Abstract()).callStack[..|old(callStack)| - 1])
    {
      ghost var before := callStack;
      SavedPop(callStack);
      var f := callStack[|callStack| - 1];
      callStack := callStack[..|callStack| - 1];
      assert forall k :: 0 <= k < |callStack| ==> callStack[k] == before[k];
      S := f.S + [Int(retval)];
      P := f.P;
      pc := f.pc;
      V := f.V;
    }

    method ExecBinary(op: Opcode) returns (r: Res<Status>)
      requires Valid() && IsBinary(op)
      modifies this`S, this`pc
      ensures Agrees(r, StepBinary(op, old(Abstract())), Abstract())
    {
      pc := pc + 1;
      var v1 :- PopInt();
      var v2 :- PopInt();
      var x :- BinaryResult(op, v2, v1);
      PushInt(x);
      r := Ok(Running);
    }

    /** IDIV and IREM (c0vm.c:180-223): the zero test comes before the
        dividend is popped. */
    method ExecDivide(op: Opcode) returns (r: Res<Status>)
      requires Valid() && (op.IDiv? || op.IRem?)
      modifies this`S, this`pc
      ensures Agrees(r, StepDivide(op, old(Abstract())), Abstract())
    {
      pc := pc + 1;
      var v1 :- PopInt();
      if v1 == 0 {
        return Err(Arith(DivisionByZero));
      }
      var v2 :- PopInt();
      if v2 as int == INT_MIN && v1 == -1 {
        return Err(Arith(DivisionOverflow));
      }
      if op.IDiv? {
        PushInt(Quotient(v2, v1));
      } else {
        PushInt(Remainder(v2, v1));
      }
      r := Ok(Running);
    }

    method ExecBiPush() returns (r: Res<Status>)
      requires Valid()
      modifies this`S, this`pc
      ensures Agrees(r, StepBiPush(old(Abstract())), Abstract())
    {
      pc := pc + 1;
      var b :- CodeAt(P, pc);
      PushInt(SignExtend8(b));
      pc := pc + 1;
      r := Ok(Running);
    }

    method ExecILdc() returns (r: Res<Status>)
      requires Valid()
      modifies this`S, this`pc
      ensures Agrees(r, StepILdc(prog, old(Abstract())), Abstract())
    {
      pc := pc + 1;
      var c1 :- CodeAt(P, pc);
      pc := pc + 1;
      var c2 :- CodeAt(P, pc);
      var index := BigEndian16(c1, c2) as int;
      if index >= |prog.intPool| {
        return Err(Contract(IntPoolIndex));
      }
      Push(Int(prog.intPool[index]));
      pc := pc + 1;
      r := Ok(Running);
    }

    method ExecALdc() returns (r: Res<Status>)
      requires Valid()
      modifies this`S, this`pc
      ensures Agrees(r, StepALdc(prog, old(Abstract())), Abstract())
    {
      pc := pc + 1;
      var c1 :- CodeAt(P, pc);
      pc := pc + 1;
      var c2 :- CodeAt(P, pc);
      var index := BigEndian16(c1, c2) as int;
      if index >= prog.stringCount {
        return Err(Contract(StringPoolIndex));
      }
      Push(Ptr(StringAt(index)));
      pc := pc + 1;
      r := Ok(Running);
    }

    method ExecAConstNull() returns (r: Res<Status>)
      requires Valid()
      modifies this`S, this`pc
      ensures Agrees(r, Ok(Continue(old(Abstract()).(S := old(S) + [Ptr(Null)], pc := old(pc) + 1))), Abstract())
    {
      pc := pc + 1;
      Push(Ptr(Null));
      r := Ok(Running);
    }

    method ExecVLoad() returns (r: Res<Status>)
      requires Valid()
      modifies this`S, this`pc
      ensures Agrees(r, StepVLoad(old(Abstract())), Abstract())
    {
      pc := pc + 1;
      var index :- CodeAt(P, pc);
      if index as int >= V.Length {
        return Err(Contract(LocalIndex));
      }
      Push(V[index]);
      pc := pc + 1;
      r := Ok(Running);
    }

    method ExecVStore() returns (r: Res<Status>)
      requires Valid()
      modifies this`S, this`pc, V
      ensures Agrees(r, StepVStore(old(Abstract())), Abstract())
    {
      pc := pc + 1;
      var index :- CodeAt(P, pc);
      var v :- Pop();
      if index as int >= V.Length {
        return Err(Contract(LocalIndex));
      }
      V[index] := v;
      pc := pc + 1;
      r := Ok(Running);
    }

    method ExecAThrow() returns (r: Res<Status>)
      requires Valid()
      modifies this`S, this`pc
      ensures Agrees(r, StepAThrow(old(Abstract())), Abstract())
    {
      pc := pc + 1;
      var e :- PopPtr();
      r := Err(UserError(e));
    }

    method ExecAssert() returns (r: Res<Status>)
      requires Valid()
      modifies this`S, this`pc
      ensures Agrees(r, StepAssert(old(Abstract())), Abstract())
    {
      pc := pc + 1;
      var e :- PopPtr();
      var x :- PopInt();
      if x == 0 {
        return Err(AssertionFailure(e));
      }
      r := Ok(Running);
    }

    method ExecNop() returns (r: Res<Status>)
      requires Valid()
      modifies this`pc
      ensures Agrees(r, Ok(Continue(old(Abstract()).(pc := old(pc) + 1))), Abstract())
    {
      pc := pc + 1;
      r := Ok(Running);
    }

    /** Reads the two offset bytes after a branch opcode, `pc` standing on
        the first of them, and jumps or falls through (c0vm.c:398-407). */
    method Branch(taken: bool) returns (r: Res<Status>)
      requires Valid()
      modifies this`pc
      ensures var st := old(Abstract()).(pc := old(pc) - 1);
              Agrees(r, Jump(st, S, taken), Abstract())
    {
      var c1 :- CodeAt(P, pc);
      pc := pc + 1;
      var c2 :- CodeAt(P, pc);
      var offset := Signed16(c1, c2);
      if taken {
        pc := pc + offset - 2;
      } else {
        pc := pc + 1;
      }
      r := Ok(Running);
    }

    method ExecCompareValues(op: Opcode) returns (r: Res<Status>)
      requires Valid() && (op.IfCmpEq? || op.IfCmpNe?)
      modifies this`S, this`pc
      ensures Agrees(r, StepCompareValues(op, old(Abstract())), Abstract())
    {
      pc := pc + 1;
      var v1 :- Pop();
      var v2 :- Pop();
      r := Branch(if op.IfCmpEq? then v2 == v1 else v2 != v1);
    }

    method ExecCompareInts(op: Opcode) returns (r: Res<Status>)
      requires Valid() && IsIntCompare(op)
      modifies this`S, this`pc
      ensures Agrees(r, StepCompareInts(op, old(Abstract())), Abstract())
    {
      pc := pc + 1;
      var v1 :- PopInt();
      var v2 :- PopInt();
      r := Branch(Compare(op, v2, v1));
    }

    method ExecGoto() returns (r: Res<Status>)
      requires Valid()
      modifies this`pc
      ensures Agrees(r, Jump(old(Abstract()), S, true), Abstract())
    {
      pc := pc + 1;
      r := Branch(true);
    }

    /** INVOKESTATIC (c0vm.c:531-581): reads the function pool index. */
    method ExecInvokeStatic() returns (r: Res<Status>)
      requires Valid()
      modifies this
      ensures Valid() && fresh(Repr - old(Repr))
      ensures Agrees(r, StepInvokeStatic(prog, old(Abstract())), Abstract())
    {
      var c1 :- CodeAt(P, pc + 1);
      var c2 :- CodeAt(P, pc + 2);
      var index := BigEndian16(c1, c2) as int;
      if index >= |prog.functions| {
        pc := pc + 2;
        return Err(Contract(FunctionPoolIndex));
      }
      r := CallFunction(prog.functions[index]);
    }

    /** The rest of INVOKESTATIC, `pc` standing on the opcode: the callee's
        locals array `Vg` is allocated zeroed, the arguments are popped into
        it, and the caller's state is saved in a new frame. Both counts are
        first cut to `uint8_t`. */
    method CallFunction(g: FunctionInfo) returns (r: Res<Status>)
      requires Valid()
      modifies this
      ensures Valid() && fresh(Repr - old(Repr))
      ensures Agrees(r, Call(g, old(Abstract())), Abstract())
    {
      ghost var st := Abstract();
      pc := pc + 2;
      var numArgs := g.numArgs as int % 0x100;
      var numVars := g.numVars as int % 0x100;
      var Vg := new Value[numVars](_ => Int(0));
      ghost var n := StaticArgCount(g.numArgs);
      assert n == if ToInt8(numArgs - 1) < 0 then 0 else ToInt8(numArgs - 1) + 1;
      var ok :- PopArguments(Vg, ToInt8(numArgs - 1));
      pc := pc + 1;
      ghost var caller := SavedFrame(S, P, pc, V[..]);
      assert caller == SavedFrame(st.S[..|st.S| - n], st.P, st.pc + 3, st.V);
      ghost var locals := Vg[..];
      assert locals == st.S[|st.S| - n..] + Zeros(numVars - n);
      assert Saved(callStack) == st.callStack;
      EnterCallee(g.code, Vg);
      assert Abstract() == State([], g.code, 0, locals, st.callStack + [caller]);
      CallContinues(g, st);
      r := Ok(Running);
    }

    /** Saves the caller in a new frame and starts `code` at pc 0 on an empty
        stack with the fresh locals array `Vg`. */
    method EnterCallee(code: seq<UByte>, Vg: array<Value>)
      requires Valid() && Vg != V && Vg !in Arrays(callStack)
      modifies this
      ensures Valid() && Repr == old(Repr) + {Vg}
      ensures Abstract() == State([], code, 0, Vg[..], old(Abstract()).callStack + [SavedFrame(old(S), old(P), old(pc), old(V[..]))])
    {
      SavedPush(callStack, Frame(S, P, pc, V));
      ArraysPush(callStack, Frame(S, P, pc, V));
      callStack := callStack + [Frame(S, P, pc, V)];
      S := [];
      P := code;
      pc := 0;
      V := Vg;
      Repr := Repr + {Vg};
    }

    /** The argument loop of INVOKESTATIC: an `int8_t` counter `i` runs from
        `first` down to 0 and each pass stores a popped value in `Vg[i]`, so
        that the `first + 1` topmost values land in argument order. The loop
        underflows the stack or writes past `Vg` on a malformed call. */
    method PopArguments(Vg: array<Value>, first: int) returns (r: Res<()>)
      requires forall k :: 0 <= k < Vg.Length ==> Vg[k] == Int(0)
      modifies this`S, Vg
      ensures var n := if first < 0 then 0 else first + 1;
              if n > 0 && |old(S)| == 0 then r == Err(Contract(StackUnderflow))
              else if n > Vg.Length then r == Err(Contract(LocalIndex))
              else if |old(S)| < n then r == Err(Contract(StackUnderflow))
              else r == Ok(()) && S == old(S)[..|old(S)| - n]
                   && Vg[..] == old(S)[|old(S)| - n..] + Zeros(Vg.Length - n)
    {
      ghost var S0 := S;
      ghost var n := if first < 0 then 0 else first + 1;
      var i := first;
      while i >= 0
        invariant if first >= 0 then -1 <= i <= first else i == first
        invariant |S0| >= first - i && S == S0[..|S0| - (first - i)]
        invariant i < first ==> first < Vg.Length
        invariant forall k :: i < k <= first && k < Vg.Length ==> Vg[k] == S0[|S0| - n + k]
        invariant forall k :: 0 <= k < Vg.Length && (k <= i || first < k) ==> Vg[k] == Int(0)
        decreases i
      {
        var v :- Pop();
        if i >= Vg.Length {
          return Err(Contract(LocalIndex));
        }
        Vg[i] := v;
        i := i - 1;
      }
      assert Vg[..] == S0[|S0| - n..] + Zeros(Vg.Length - n);
      r := Ok(());
    }

    /** The argument loop of INVOKENATIVE: pass `i` stores the `i`-th popped
        value in `Vg[num_args - 1 - i]`. */
    method PopNativeArguments(Vg: array<Value>) returns (r: Res<()>)
      modifies this`S, Vg
      ensures var n := Vg.Length;
              if |old(S)| < n then r == Err(Contract(StackUnderflow))
              else r == Ok(()) && S == old(S)[..|old(S)| - n] && Vg[..] == old(S)[|old(S)| - n..]
    {
      ghost var S0 := S;
      var n := Vg.Length;
      var i := 0;
      while i < n
        invariant 0 <= i <= n
        invariant |S0| >= i && S == S0[..|S0| - i]
        invariant forall k :: n - i <= k < n ==> Vg[k] == S0[|S0| - n + k]
      {
        var v :- Pop();
        Vg[n - 1 - i] := v;
        i := i + 1;
      }
      assert Vg[..] == S0[|S0| - n..];
      r := Ok(());
    }

    /** INVOKENATIVE (c0vm.c:583-610): the arguments are popped into
        `Vg[num_args - 1 - i]`, so `Vg` lists them in argument order. */
    method ExecInvokeNative() returns (r: Res<Status>)
      requires Valid()
      modifies this`S, this`pc
      ensures Agrees(r, StepInvokeNative(prog, native, old(Abstract())), Abstract())
    {
      pc := pc + 1;
      var c1 :- CodeAt(P, pc);
      pc := pc + 1;
      var c2 :- CodeAt(P, pc);
      var index := BigEndian16(c1, c2) as int;
      if index >= |prog.natives| {
        return Err(Contract(NativePoolIndex));
      }
      var numArgs := prog.natives[index].numArgs as int;
      var tableIndex := prog.natives[index].tableIndex;
      var Vg := new Value[numArgs](_ => Int(0));
      var ok :- PopNativeArguments(Vg);
      Push(native(tableIndex, Vg[..]));
      pc := pc + 1;
      r := Ok(Running);
    }
  }

  /** The state a call that does not fault enters. */
  lemma CallContinues(g: FunctionInfo, st: State)
    requires var n := StaticArgCount(g.numArgs);
             !(n > 0 && |st.S| == 0) && n <= g.numVars as int % 0x100 && n <= |st.S|
    ensures var n := StaticArgCount(g.numArgs);
            Call(g, st) == Ok(Continue(State([], g.code, 0, st.S[|st.S| - n..] + Zeros(g.numVars as int % 0x100 - n),
                                             st.callStack + [SavedFrame(st.S[..|st.S| - n], st.P, st.pc + 3, st.V)])))
  {
  }

  /** How one iteration of the loop moves a bounded run forward. */
  lemma Advance(prog: Program, native: NativeTable, st: State, s: Res<Status>, now: State, n: nat)
    requires n > 0 && Agrees(s, Semantics.Step(prog, native, st), now)
    ensures match s
            case Err(f) => RunFrom(prog, native, st, n) == Faulted(f)
            case Ok(Halted(v)) => RunFrom(prog, native, st, n) == Returned(v)
            case Ok(Running) => RunFrom(prog, native, st, n) == RunFrom(prog, native, now, n - 1)
  {
    Unroll(prog, native, st, n);
  }

  /** `execute(bc0)` (c0vm.c:40-664), stopped after `fuel` iterations of its
      loop when it has neither returned nor faulted by then. */
  method Execute(prog: Program, native: NativeTable, fuel: nat) returns (r: Outcome)
    ensures r == Run(prog, native, fuel)
  {
    if |prog.functions| == 0 {
      return Faulted(Contract(FunctionPoolIndex));
    }
    var vm := new Vm(prog, native);
    var n := fuel;
    while n > 0
      invariant vm.Valid() && vm.prog == prog && vm.native == native
      invariant fresh(vm.Repr)
      invariant RunFrom(prog, native, vm.Abstract(), n) == Run(prog, native, fuel)
      decreases n
    {
      var s := vm.Iteration(n);
      match s
      case Err(f) =>
        return Faulted(f);
      case Ok(Halted(v)) =>
        return Returned(v);
      case Ok(Running) =>
        n := n - 1;
    }
    r := OutOfFuel;
  }
}

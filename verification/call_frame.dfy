/**
 * What the project-8 function-call protocol does on the Hack machine:
 * `function f k` pushes k zeros, `call f n` saves the caller's frame and
 * jumps to f with ARG and LCL repositioned, and `return` hands the return
 * value to the caller and restores its frame (section 8.3.1 of The Elements
 * of Computing Systems describes the convention).
 */
module CallFrame {
  import opened Base
  import opened Text
  import opened HackAsm
  import opened HackMachine
  import opened StackCode
  import opened Segments
  import opened CodeWriter8
  import Code

  // ---------------------------------------------------------------- small pieces

  function AfterSubConst(k: int, m: Machine): Machine
    requires 0 <= k < 0x8000
  {
    var m1 := m.(a := k, aLabel := None);
    m1.(d := Wrap(m1.d - m1.a))
  }

  function AfterStoreD(r: Register, m: Machine): Machine {
    var m1 := m.(a := RegisterAddress(r), aLabel := None);
    m1.(ram := m1.ram[m1.a := m1.d])
  }

  function AfterLoadBelow(k: int, m: Machine): Machine
    requires 0 <= k < 0x8000
  {
    var m1 := m.(a := k, aLabel := None);
    var m2 := m1.(a := Wrap(m1.d - m1.a), aLabel := None);
    m2.(d := Mem(m2, m2.a))
  }

  lemma ExecSubConst(env: map<string, Word>, k: int, rest: seq<Instr>, m: Machine)
    requires 0 <= k < 0x8000
    ensures Exec(env, SubConst(k) + rest, m) == Exec(env, rest, AfterSubConst(k, m))
  {
    var i0, i1 := AConst(k), C(DestD, Form(Code.DMinusA), NoJump);
    var m1 := m.(a := k, aLabel := None);
    Split2(i0, i1, rest);
    StepAConst(env, k, m);
    ExecCons(env, i0, [i1] + rest, m, m1);
    StepDMinusA(env, m1);
    ExecCons(env, i1, rest, m1, AfterSubConst(k, m));
  }

  lemma ExecStoreD(env: map<string, Word>, r: Register, rest: seq<Instr>, m: Machine)
    ensures Exec(env, StoreD(r) + rest, m) == Exec(env, rest, AfterStoreD(r, m))
  {
    var i0, i1 := AReg(r), C(DestM, Form(Code.RegD), NoJump);
    var m1 := m.(a := RegisterAddress(r), aLabel := None);
    Split2(i0, i1, rest);
    StepAReg(env, r, m);
    ExecCons(env, i0, [i1] + rest, m, m1);
    StepMFromD(env, m1);
    ExecCons(env, i1, rest, m1, AfterStoreD(r, m));
  }

  lemma ExecLoadBelow(env: map<string, Word>, k: int, rest: seq<Instr>, m: Machine)
    requires 0 <= k < 0x8000
    ensures Exec(env, LoadBelow(k) + rest, m) == Exec(env, rest, AfterLoadBelow(k, m))
  {
    var i0, i1, i2 := AConst(k), C(DestA, Form(Code.DMinusA), NoJump), C(DestD, Form(Code.RegM), NoJump);
    var m1 := m.(a := k, aLabel := None);
    var m2 := m1.(a := Wrap(m1.d - m1.a), aLabel := None);
    Split3(i0, i1, i2, rest);
    StepAConst(env, k, m);
    ExecCons(env, i0, [i1] + ([i2] + rest), m, m1);
    StepAddressDMinusA(env, m1);
    ExecCons(env, i1, [i2] + rest, m1, m2);
    StepDFromM(env, m2);
    ExecCons(env, i2, rest, m2, AfterLoadBelow(k, m));
  }

  /** `@r; M=D` writes D into register r and nothing else. */
  lemma StoreDEffect(r: Register, m: Machine)
    ensures var m' := AfterStoreD(r, m);
      Reg(m', r) == m.d && m'.d == m.d && Unchanged(m, m', {RegisterAddress(r)})
  {
  }

  // ---------------------------------------------------------------- function

  /** The machine after `ZeroLocals(n)`: n times `@0; D=A; pushD`. */
  function AfterZeroLocals(n: int, m: Machine): Machine
    decreases n
  {
    if n <= 0 then m else AfterZeroLocals(n - 1, AfterPushD(AfterLoadBase(Fixed(0), m)))
  }

  lemma {:induction false} ExecZeroLocals(env: map<string, Word>, n: int, rest: seq<Instr>, m: Machine)
    ensures Exec(env, ZeroLocals(n) + rest, m) == Exec(env, rest, AfterZeroLocals(n, m))
    decreases n
  {
    if n > 0 {
      var m0 := AfterLoadBase(Fixed(0), m);
      var tail := ZeroLocals(n - 1) + rest;
      assert PushConstant(0) == LoadBase(Some(Fixed(0))) + PushD();
      Assoc(PushConstant(0), ZeroLocals(n - 1), rest);
      Assoc(LoadBase(Some(Fixed(0))), PushD(), tail);
      ExecLoadBase(env, Fixed(0), PushD() + tail, m);
      ExecPushD(env, tail, m0);
      ExecZeroLocals(env, n - 1, rest, AfterPushD(m0));
    } else {
      assert ZeroLocals(n) + rest == rest;
    }
  }

  /** k pushes of 0: SP goes up by k, the k new cells hold 0, and nothing else but SP changes. */
  lemma {:induction false} ZeroLocalsEffect(k: nat, m: Machine)
    requires 16 <= Sp(m) && Sp(m) + k < 0x1_0000
    ensures var m' := AfterZeroLocals(k, m);
      Sp(m') == Sp(m) + k
      && (forall x: Word :: Sp(m) <= x < Sp(m) + k ==> Mem(m', x) == 0)
      && (forall x: Word :: x != 0 && !(Sp(m) <= x < Sp(m) + k) ==> Mem(m', x) == Mem(m, x))
    decreases k
  {
    if k > 0 {
      var m0 := AfterLoadBase(Fixed(0), m);
      PushDEffect(m0);
      ZeroLocalsEffect(k - 1, AfterPushD(m0));
    }
  }

  /**
   * `function f k`: the entry label does nothing at run time; then the k
   * locals are pushed as zeros, so SP goes up by exactly k.
   */
  lemma FunctionRun(env: map<string, Word>, f: string, k: int, rest: seq<Instr>, m: Machine)
    requires 0 <= k && 16 <= Sp(m) && Sp(m) + k < 0x1_0000
    ensures var m' := AfterZeroLocals(k, m);
      Exec(env, WriteFunction(f, k) + rest, m) == Exec(env, rest, m')
      && Sp(m') == Sp(m) + k
      && (forall x: Word :: Sp(m) <= x < Sp(m) + k ==> Mem(m', x) == 0)
      && (forall x: Word :: x != 0 && !(Sp(m) <= x < Sp(m) + k) ==> Mem(m', x) == Mem(m, x))
  {
    var echo := Comment("function " + f + " " + IntToString(k));
    Assoc([echo, Label(f)], ZeroLocals(k), rest);
    Split2(echo, Label(f), ZeroLocals(k) + rest);
    StepSkip(env, echo, m);
    ExecCons(env, echo, [Label(f)] + (ZeroLocals(k) + rest), m, m);
    StepSkip(env, Label(f), m);
    ExecCons(env, Label(f), ZeroLocals(k) + rest, m, m);
    ExecZeroLocals(env, k, rest, m);
    ZeroLocalsEffect(k, m);
  }

  // ---------------------------------------------------------------- call: saving the frame

  function AfterPushReturnAddress(env: map<string, Word>, ret: string, m: Machine): Machine {
    var m1 := m.(a := Resolve(env, ret), aLabel := Some(ret));
    AfterPushD(m1.(d := m1.a))
  }

  function AfterSaveRegister(r: Register, m: Machine): Machine {
    AfterPushD(AfterLoadBase(Pointed(r), m))
  }

  function AfterSaveRegisters(rs: seq<Register>, m: Machine): Machine {
    if rs == [] then m else AfterSaveRegisters(rs[1..], AfterSaveRegister(rs[0], m))
  }

  function AfterSaveFrame(env: map<string, Word>, ret: string, m: Machine): Machine {
    AfterSaveRegisters(FrameRegisters, AfterPushReturnAddress(env, ret, m))
  }

  lemma ExecPushReturnAddress(env: map<string, Word>, ret: string, rest: seq<Instr>, m: Machine)
    ensures Exec(env, PushReturnAddress(ret) + rest, m) == Exec(env, rest, AfterPushReturnAddress(env, ret, m))
  {
    var load, copy := ASym(ret), C(DestD, Form(Code.RegA), NoJump);
    var m1 := m.(a := Resolve(env, ret), aLabel := Some(ret));
    Split2(load, copy, PushD() + rest);
    Assoc([load, copy], PushD(), rest);
    StepASym(env, ret, m);
    ExecCons(env, load, [copy] + (PushD() + rest), m, m1);
    StepDFromA(env, m1);
    ExecCons(env, copy, PushD() + rest, m1, m1.(d := m1.a));
    ExecPushD(env, rest, m1.(d := m1.a));
  }

  lemma ExecSaveRegister(env: map<string, Word>, r: Register, rest: seq<Instr>, m: Machine)
    ensures Exec(env, SaveRegister(r) + rest, m) == Exec(env, rest, AfterSaveRegister(r, m))
  {
    Assoc(LoadBase(Some(Pointed(r))), PushD(), rest);
    ExecLoadBase(env, Pointed(r), PushD() + rest, m);
    ExecPushD(env, rest, AfterLoadBase(Pointed(r), m));
  }

  lemma {:induction false} ExecSaveRegisters(env: map<string, Word>, rs: seq<Register>, rest: seq<Instr>, m: Machine)
    ensures Exec(env, SaveRegisters(rs) + rest, m) == Exec(env, rest, AfterSaveRegisters(rs, m))
    decreases |rs|
  {
    if rs != [] {
      Assoc(SaveRegister(rs[0]), SaveRegisters(rs[1..]), rest);
      ExecSaveRegister(env, rs[0], SaveRegisters(rs[1..]) + rest, m);
      ExecSaveRegisters(env, rs[1..], rest, AfterSaveRegister(rs[0], m));
    } else {
      assert SaveRegisters(rs) + rest == rest;
    }
  }

  lemma ExecSaveFrame(env: map<string, Word>, ret: string, rest: seq<Instr>, m: Machine)
    ensures Exec(env, SaveFrame(ret) + rest, m) == Exec(env, rest, AfterSaveFrame(env, ret, m))
  {
    Assoc(PushReturnAddress(ret), SaveRegisters(FrameRegisters), rest);
    ExecPushReturnAddress(env, ret, SaveRegisters(FrameRegisters) + rest, m);
    ExecSaveRegisters(env, FrameRegisters, rest, AfterPushReturnAddress(env, ret, m));
  }

  /**
   * m' is m with `vals` pushed: SP has moved up by |vals|, the cells it
   * passed hold `vals` in order, and every other address except SP is as it was.
   */
  ghost predicate Pushed(m: Machine, m': Machine, vals: seq<Word>) {
    16 <= Sp(m) && Sp(m) + |vals| < 0x1_0000
    && Sp(m') == Sp(m) + |vals|
    && (forall i :: 0 <= i < |vals| ==> Mem(m', Sp(m) + i) == vals[i])
    && (forall x: Word :: x != 0 && !(Sp(m) <= x < Sp(m) + |vals|) ==> Mem(m', x) == Mem(m, x))
  }

  /** One push followed by several is the same as pushing them all. */
  lemma PushedCons(m: Machine, m1: Machine, m2: Machine, v: Word, vals: seq<Word>)
    requires Pushed(m, m1, [v]) && Pushed(m1, m2, vals)
    ensures Pushed(m, m2, [v] + vals)
  {
    var sp := Sp(m);
    forall i | 0 <= i < |[v] + vals| ensures Mem(m2, sp + i) == ([v] + vals)[i] {
      if i > 0 {
        assert Mem(m2, Sp(m1) + (i - 1)) == vals[i - 1];
      }
    }
  }

  lemma SaveRegisterPushed(r: Register, m: Machine)
    requires 16 <= Sp(m) < 0xFFFF
    ensures Pushed(m, AfterSaveRegister(r, m), [Reg(m, r)])
  {
    PushDEffect(AfterLoadBase(Pointed(r), m));
  }

  lemma PushReturnAddressPushed(env: map<string, Word>, ret: string, m: Machine)
    requires 16 <= Sp(m) < 0xFFFF
    ensures Pushed(m, AfterPushReturnAddress(env, ret, m), [Resolve(env, ret)])
  {
    var m1 := m.(a := Resolve(env, ret), aLabel := Some(ret));
    PushDEffect(m1.(d := m1.a));
  }

  /** The frame a call saves: return address, then the caller's LCL, ARG, THIS and THAT. */
  function SavedFrame(retAddress: Word, m: Machine): seq<Word> {
    [retAddress, Reg(m, LCL), Reg(m, ARG), Reg(m, THIS), Reg(m, THAT)]
  }

  /** The values of the registers `rs` in machine m, in order. */
  function RegisterValues(m: Machine, rs: seq<Register>): (vals: seq<Word>)
    ensures |vals| == |rs|
    ensures forall i :: 0 <= i < |rs| ==> vals[i] == Reg(m, rs[i])
  {
    if rs == [] then [] else [Reg(m, rs[0])] + RegisterValues(m, rs[1..])
  }

  /** Saving registers other than SP pushes their values, in order. */
  lemma {:induction false} SaveRegistersEffect(rs: seq<Register>, m: Machine)
    requires SP !in rs
    requires 16 <= Sp(m) && Sp(m) + |rs| < 0x1_0000
    ensures Pushed(m, AfterSaveRegisters(rs, m), RegisterValues(m, rs))
    decreases |rs|
  {
    if rs == [] {
    } else {
      var m1 := AfterSaveRegister(rs[0], m);
      SaveRegisterPushed(rs[0], m);
      SaveRegistersEffect(rs[1..], m1);
      assert RegisterValues(m1, rs[1..]) == RegisterValues(m, rs[1..]) by {
        forall i | 0 <= i < |rs[1..]| ensures Reg(m1, rs[1..][i]) == Reg(m, rs[1..][i]) {
          assert rs[1..][i] in rs;
        }
      }
      PushedCons(m, m1, AfterSaveRegisters(rs, m), Reg(m, rs[0]), RegisterValues(m, rs[1..]));
    }
  }

  /**
   * Saving the frame pushes the return address and the caller's LCL, ARG,
   * THIS and THAT, in that order, onto five consecutive cells.
   */
  lemma SaveFrameEffect(env: map<string, Word>, ret: string, m: Machine)
    requires 16 <= Sp(m) && Sp(m) + 5 < 0x1_0000
    ensures Pushed(m, AfterSaveFrame(env, ret, m), SavedFrame(Resolve(env, ret), m))
  {
    var m1 := AfterPushReturnAddress(env, ret, m);
    PushReturnAddressPushed(env, ret, m);
    SaveRegistersEffect(FrameRegisters, m1);
    FrameRegistersKept(m, m1, Resolve(env, ret));
    PushedCons(m, m1, AfterSaveFrame(env, ret, m), Resolve(env, ret), RegisterValues(m, FrameRegisters));
  }

  /** Pushing one value leaves the four pointer registers alone, so the frame reads them as before. */
  lemma FrameRegistersKept(m: Machine, m1: Machine, v: Word)
    requires Pushed(m, m1, [v])
    ensures RegisterValues(m1, FrameRegisters) == RegisterValues(m, FrameRegisters)
    ensures [v] + RegisterValues(m, FrameRegisters) == SavedFrame(v, m)
  {
    assert Reg(m1, LCL) == Reg(m, LCL) && Reg(m1, ARG) == Reg(m, ARG);
    assert Reg(m1, THIS) == Reg(m, THIS) && Reg(m1, THAT) == Reg(m, THAT);
  }

  // ---------------------------------------------------------------- call: the whole block

  function AfterRepositionArg(n: int, m: Machine): Machine
    requires 0 <= n < 0x8000
  {
    AfterStoreD(ARG, AfterSubConst(n, AfterSubConst(5, AfterLoadBase(Pointed(SP), m))))
  }

  function AfterRepositionLcl(m: Machine): Machine {
    AfterStoreD(LCL, AfterLoadBase(Pointed(SP), m))
  }

  lemma ExecRepositionArg(env: map<string, Word>, n: int, rest: seq<Instr>, m: Machine)
    requires 0 <= n < 0x8000
    ensures Exec(env, RepositionArg(n) + rest, m) == Exec(env, rest, AfterRepositionArg(n, m))
  {
    var m1 := AfterLoadBase(Pointed(SP), m);
    var m2 := AfterSubConst(5, m1);
    var m3 := AfterSubConst(n, m2);
    Assoc4(LoadBase(Some(Pointed(SP))), SubConst(5), SubConst(n), StoreD(ARG), rest);
    ExecLoadBase(env, Pointed(SP), SubConst(5) + (SubConst(n) + (StoreD(ARG) + rest)), m);
    ExecSubConst(env, 5, SubConst(n) + (StoreD(ARG) + rest), m1);
    ExecSubConst(env, n, StoreD(ARG) + rest, m2);
    ExecStoreD(env, ARG, rest, m3);
  }

  lemma ExecRepositionLcl(env: map<string, Word>, rest: seq<Instr>, m: Machine)
    ensures Exec(env, RepositionLcl() + rest, m) == Exec(env, rest, AfterRepositionLcl(m))
  {
    Assoc(LoadBase(Some(Pointed(SP))), StoreD(LCL), rest);
    ExecLoadBase(env, Pointed(SP), StoreD(LCL) + rest, m);
    ExecStoreD(env, LCL, rest, AfterLoadBase(Pointed(SP), m));
  }

  /** `ARG = SP - 5 - n` and `LCL = SP`; only those two registers change. */
  lemma RepositionEffect(n: int, m: Machine)
    requires 0 <= n < 0x8000 && 21 <= Sp(m)
    ensures var m' := AfterRepositionLcl(AfterRepositionArg(n, m));
      Reg(m', ARG) == Wrap(Sp(m) - 5 - n) && Reg(m', LCL) == Sp(m)
      && Unchanged(m, m', {1, 2})
  {
    var m3 := AfterRepositionArg(n, m);
    assert Sp(m3) == Sp(m);
  }

  /** The machine as `call` hands it to f, with A loaded from `@f`. */
  function AfterCall(env: map<string, Word>, f: string, n: int, ret: string, m: Machine): Machine
    requires 0 <= n < 0x8000
  {
    AfterRepositionLcl(AfterRepositionArg(n, AfterSaveFrame(env, ret, m))).(a := Resolve(env, f), aLabel := Some(f))
  }

  /** The code of `call f n` runs straight through and leaves for the address bound to f. */
  lemma CallRun(env: map<string, Word>, f: string, n: int, ret: string, rest: seq<Instr>, m: Machine)
    requires 0 <= n < 0x8000 && f != ret && Label(f) !in rest
    ensures Exec(env, CallCode(f, n, ret) + rest, m) == Left(AfterCall(env, f, n, ret, m), Resolve(env, f))
  {
    var echo := Comment("call " + f + " " + IntToString(n));
    var m1 := AfterSaveFrame(env, ret, m);
    var m2 := AfterRepositionArg(n, m1);
    var m3 := AfterRepositionLcl(m2);
    var tail := [Label(ret)] + rest;
    Assoc5([echo] + SaveFrame(ret), RepositionArg(n), RepositionLcl(), WriteGoto(f), [Label(ret)], rest);
    Assoc([echo], SaveFrame(ret), RepositionArg(n) + (RepositionLcl() + (WriteGoto(f) + tail)));
    StepSkip(env, echo, m);
    ExecCons(env, echo, SaveFrame(ret) + (RepositionArg(n) + (RepositionLcl() + (WriteGoto(f) + tail))), m, m);
    ExecSaveFrame(env, ret, RepositionArg(n) + (RepositionLcl() + (WriteGoto(f) + tail)), m);
    ExecRepositionArg(env, n, RepositionLcl() + (WriteGoto(f) + tail), m1);
    ExecRepositionLcl(env, WriteGoto(f) + tail, m2);
    GotoLeaves(env, f, tail, m3);
  }

  /**
   * What `call f n` leaves for f: the caller's frame saved on top of its
   * stack, LCL pointing just above it (where f's locals will go), ARG
   * pointing at the n arguments below the frame, and nothing else touched.
   */
  lemma CallEffect(env: map<string, Word>, f: string, n: int, ret: string, m: Machine)
    requires 0 <= n < 0x8000 && 16 <= Sp(m) && Sp(m) + 5 < 0x1_0000
    ensures var m' := AfterCall(env, f, n, ret, m); var sp := Sp(m);
      Sp(m') == sp + 5 && Reg(m', LCL) == sp + 5 && Reg(m', ARG) == Wrap(sp - n)
      && (forall i :: 0 <= i < 5 ==> Mem(m', sp + i) == SavedFrame(Resolve(env, ret), m)[i])
      && (forall x: Word :: 2 < x && !(sp <= x < sp + 5) ==> Mem(m', x) == Mem(m, x))
  {
    var m1 := AfterSaveFrame(env, ret, m);
    SaveFrameEffect(env, ret, m);
    RepositionEffect(n, m1);
  }

  // ---------------------------------------------------------------- return

  function AfterFrameToR13(m: Machine): Machine {
    AfterStoreD(R13, AfterLoadBase(Pointed(LCL), m))
  }

  function AfterReturnAddressToR14(m: Machine): Machine {
    AfterStoreD(R14, AfterLoadBelow(5, m))
  }

  function AfterStoreAtArg(m: Machine): Machine {
    var m1 := m.(a := RegisterAddress(ARG), aLabel := None);
    var m2 := m1.(a := Mem(m1, m1.a), aLabel := None);
    m2.(ram := m2.ram[m2.a := m2.d])
  }

  function AfterReturnValue(m: Machine): Machine {
    AfterStoreAtArg(AfterPopToD(m))
  }

  function AfterArgPlusOne(m: Machine): Machine {
    var m1 := m.(a := RegisterAddress(ARG), aLabel := None);
    m1.(d := Wrap(Mem(m1, m1.a) + 1))
  }

  function AfterResetSp(m: Machine): Machine {
    AfterStoreD(SP, AfterArgPlusOne(m))
  }

  function AfterRestore(r: Register, k: int, m: Machine): Machine
    requires 0 <= k < 0x8000
  {
    AfterStoreD(r, AfterLoadBelow(k, AfterLoadBase(Pointed(R13), m)))
  }

  function AfterRestoreAll(m: Machine): Machine {
    AfterRestore(LCL, 4, AfterRestore(ARG, 3, AfterRestore(THIS, 2, AfterRestore(THAT, 1, m))))
  }

  function AfterJumpToR14(m: Machine): Machine {
    var m1 := m.(a := RegisterAddress(R14), aLabel := None);
    m1.(a := Mem(m1, m1.a), aLabel := None)
  }

  /** The machine as `return` leaves it, with A holding the address it jumps to. */
  function AfterReturn(m: Machine): Machine {
    var m2 := AfterReturnAddressToR14(AfterFrameToR13(m));
    var m4 := AfterResetSp(AfterReturnValue(m2));
    AfterJumpToR14(AfterRestoreAll(m4))
  }

  lemma ExecFrameToR13(env: map<string, Word>, rest: seq<Instr>, m: Machine)
    ensures Exec(env, FrameToR13() + rest, m) == Exec(env, rest, AfterFrameToR13(m))
  {
    Assoc(LoadBase(Some(Pointed(LCL))), StoreD(R13), rest);
    ExecLoadBase(env, Pointed(LCL), StoreD(R13) + rest, m);
    ExecStoreD(env, R13, rest, AfterLoadBase(Pointed(LCL), m));
  }

  lemma ExecReturnAddressToR14(env: map<string, Word>, rest: seq<Instr>, m: Machine)
    ensures Exec(env, ReturnAddressToR14() + rest, m) == Exec(env, rest, AfterReturnAddressToR14(m))
  {
    Assoc(LoadBelow(5), StoreD(R14), rest);
    ExecLoadBelow(env, 5, StoreD(R14) + rest, m);
    ExecStoreD(env, R14, rest, AfterLoadBelow(5, m));
  }

  lemma ExecReturnValue(env: map<string, Word>, rest: seq<Instr>, m: Machine)
    ensures Exec(env, ReturnValue() + rest, m) == Exec(env, rest, AfterReturnValue(m))
  {
    var i0, i1, i2 := AReg(ARG), C(DestA, Form(Code.RegM), NoJump), C(DestM, Form(Code.RegD), NoJump);
    var p := AfterPopToD(m);
    var m1 := p.(a := RegisterAddress(ARG), aLabel := None);
    var m2 := m1.(a := Mem(m1, m1.a), aLabel := None);
    Assoc(PopToD(), StoreAtArg(), rest);
    ExecPopToD(env, StoreAtArg() + rest, m);
    Split3(i0, i1, i2, rest);
    StepAReg(env, ARG, p);
    ExecCons(env, i0, [i1] + ([i2] + rest), p, m1);
    StepAFromM(env, m1);
    ExecCons(env, i1, [i2] + rest, m1, m2);
    StepMFromD(env, m2);
    ExecCons(env, i2, rest, m2, AfterReturnValue(m));
  }

  lemma ExecResetSp(env: map<string, Word>, rest: seq<Instr>, m: Machine)
    ensures Exec(env, ResetSp() + rest, m) == Exec(env, rest, AfterResetSp(m))
  {
    var i0, i1 := AReg(ARG), C(DestD, Form(Code.MPlusOne), NoJump);
    var m1 := m.(a := RegisterAddress(ARG), aLabel := None);
    Assoc(ArgPlusOne(), StoreD(SP), rest);
    Split2(i0, i1, StoreD(SP) + rest);
    StepAReg(env, ARG, m);
    ExecCons(env, i0, [i1] + (StoreD(SP) + rest), m, m1);
    StepDFromMPlusOne(env, m1);
    ExecCons(env, i1, StoreD(SP) + rest, m1, AfterArgPlusOne(m));
    ExecStoreD(env, SP, rest, AfterArgPlusOne(m));
  }

  lemma ExecRestore(env: map<string, Word>, r: Register, k: int, rest: seq<Instr>, m: Machine)
    requires 0 <= k < 0x8000
    ensures Exec(env, Restore(r, k) + rest, m) == Exec(env, rest, AfterRestore(r, k, m))
  {
    var m1 := AfterLoadBase(Pointed(R13), m);
    Assoc3(LoadBase(Some(Pointed(R13))), LoadBelow(k), StoreD(r), rest);
    ExecLoadBase(env, Pointed(R13), LoadBelow(k) + (StoreD(r) + rest), m);
    ExecLoadBelow(env, k, StoreD(r) + rest, m1);
    ExecStoreD(env, r, rest, AfterLoadBelow(k, m1));
  }

  lemma ExecRestoreAll(env: map<string, Word>, rest: seq<Instr>, m: Machine)
    ensures Exec(env, RestoreAll() + rest, m) == Exec(env, rest, AfterRestoreAll(m))
  {
    var m1 := AfterRestore(THAT, 1, m);
    var m2 := AfterRestore(THIS, 2, m1);
    var m3 := AfterRestore(ARG, 3, m2);
    Assoc4(Restore(THAT, 1), Restore(THIS, 2), Restore(ARG, 3), Restore(LCL, 4), rest);
    ExecRestore(env, THAT, 1, Restore(THIS, 2) + (Restore(ARG, 3) + (Restore(LCL, 4) + rest)), m);
    ExecRestore(env, THIS, 2, Restore(ARG, 3) + (Restore(LCL, 4) + rest), m1);
    ExecRestore(env, ARG, 3, Restore(LCL, 4) + rest, m2);
    ExecRestore(env, LCL, 4, rest, m3);
  }

  /** `@R14; A=M; 0;JMP` leaves the block for the address held in R14. */
  lemma ExecJumpToR14(env: map<string, Word>, rest: seq<Instr>, m: Machine)
    ensures Exec(env, JumpToR14() + rest, m) == Left(AfterJumpToR14(m), Reg(m, R14))
  {
    var i0, i1, i2 := AReg(R14), C(DestA, Form(Code.RegM), NoJump), C(NoDest, Form(Code.Zero), JMP);
    var m1 := m.(a := RegisterAddress(R14), aLabel := None);
    var m2 := AfterJumpToR14(m);
    Split3(i0, i1, i2, rest);
    StepAReg(env, R14, m);
    ExecCons(env, i0, [i1] + ([i2] + rest), m, m1);
    StepAFromM(env, m1);
    ExecCons(env, i1, [i2] + rest, m1, m2);
    StepJumpAlways(env, m2);
    ExecJumpComputed(env, i2, rest, m2);
  }

  /** The code of `return` runs straight through and leaves for the address it has put in A. */
  lemma ReturnRun(env: map<string, Word>, rest: seq<Instr>, m: Machine)
    ensures Exec(env, WriteReturn() + rest, m) == Left(AfterReturn(m), AfterReturn(m).a)
  {
    var echo := Comment("return");
    var m1 := AfterFrameToR13(m);
    var m2 := AfterReturnAddressToR14(m1);
    var m3 := AfterReturnValue(m2);
    var m4 := AfterResetSp(m3);
    var m5 := AfterRestoreAll(m4);
    var t4 := JumpToR14() + rest;
    var t3 := RestoreAll() + t4;
    var t2 := ResetSp() + t3;
    var t1 := ReturnValue() + t2;
    Assoc5([echo] + FrameToR13() + ReturnAddressToR14(), ReturnValue(), ResetSp(), RestoreAll(), JumpToR14(), rest);
    Assoc3([echo], FrameToR13(), ReturnAddressToR14(), t1);
    StepSkip(env, echo, m);
    ExecCons(env, echo, FrameToR13() + (ReturnAddressToR14() + t1), m, m);
    ExecFrameToR13(env, ReturnAddressToR14() + t1, m);
    ExecReturnAddressToR14(env, t1, m1);
    ExecReturnValue(env, t2, m2);
    ExecResetSp(env, t3, m3);
    ExecRestoreAll(env, t4, m4);
    ExecJumpToR14(env, rest, m5);
  }

  /** R13 takes the frame base (LCL) and R14 the return address stored five cells below it. */
  lemma ReturnInfoRam(m: Machine)
    requires 21 <= Reg(m, LCL)
    ensures var frame := Reg(m, LCL);
      AfterReturnAddressToR14(AfterFrameToR13(m)).ram == m.ram[13 := frame][14 := Mem(m, frame - 5)]
  {
    var m1 := AfterFrameToR13(m);
    assert m1.d == Reg(m, LCL) && m1.ram == m.ram[13 := Reg(m, LCL)];
  }

  /** The popped top of the stack lands at ARG, and SP becomes ARG + 1. */
  lemma ReturnValueRam(m: Machine)
    requires 17 <= Sp(m) && 16 <= Reg(m, ARG) < 0xFFFF
    ensures var arg := Reg(m, ARG);
      AfterResetSp(AfterReturnValue(m)).ram == m.ram[0 := Sp(m) - 1][arg := Mem(m, Sp(m) - 1)][0 := arg + 1]
  {
    var p := AfterPopToD(m);
    PopToDEffect(m);
    assert p.ram == m.ram[0 := Sp(m) - 1];
    var m3 := AfterReturnValue(m);
    assert m3.ram == p.ram[Reg(m, ARG) := Mem(m, Sp(m) - 1)];
  }

  /** `r = RAM[frame - k]` is a single RAM update of r's address. */
  lemma RestoreRam(r: Register, k: int, m: Machine)
    requires 0 <= k < 0x8000 && 16 <= Reg(m, R13) - k
    ensures AfterRestore(r, k, m).ram == m.ram[RegisterAddress(r) := Mem(m, Reg(m, R13) - k)]
  {
  }

  /** Restoring the four pointers is four RAM updates, each reading the frame base still in R13. */
  lemma RestoreAllRam(m: Machine)
    requires 21 <= Reg(m, R13)
    ensures var frame := Reg(m, R13);
      AfterRestoreAll(m).ram == m.ram[4 := Mem(m, frame - 1)][3 := Mem(m, frame - 2)]
        [2 := Mem(m, frame - 3)][1 := Mem(m, frame - 4)]
  {
    var frame := Reg(m, R13);
    var m1 := AfterRestore(THAT, 1, m);
    var m2 := AfterRestore(THIS, 2, m1);
    var m3 := AfterRestore(ARG, 3, m2);
    RestoreRam(THAT, 1, m);
    assert Reg(m1, R13) == frame && Mem(m1, frame - 2) == Mem(m, frame - 2);
    RestoreRam(THIS, 2, m1);
    assert Reg(m2, R13) == frame && Mem(m2, frame - 3) == Mem(m, frame - 3);
    RestoreRam(ARG, 3, m2);
    assert Reg(m3, R13) == frame && Mem(m3, frame - 4) == Mem(m, frame - 4);
    RestoreRam(LCL, 4, m3);
  }

  /** `return` restores THAT, THIS, ARG and LCL from the four cells below the frame base, and writes nothing else. */
  lemma RestoreAllEffect(m: Machine)
    requires 21 <= Reg(m, R13)
    ensures var m' := AfterRestoreAll(m); var frame := Reg(m, R13);
      Reg(m', THAT) == Mem(m, frame - 1) && Reg(m', THIS) == Mem(m, frame - 2)
      && Reg(m', ARG) == Mem(m, frame - 3) && Reg(m', LCL) == Mem(m, frame - 4)
      && Unchanged(m, m', {1, 2, 3, 4})
  {
    RestoreAllRam(m);
  }



  lemma JumpToR14Ram(m: Machine)
    ensures AfterJumpToR14(m).ram == m.ram && AfterJumpToR14(m).a == Mem(m, 14)
  {
  }

  /**
   * The four stages of `return` put together, for any machines related as
   * the stages relate them: bookkeeping in R13/R14, the return value and SP,
   * the restored pointers, and the jump.
   */
  lemma ReturnCompose(m: Machine, m2: Machine, m4: Machine, m5: Machine, m6: Machine)
    requires 21 <= Reg(m, LCL) && 17 <= Sp(m) && 16 <= Reg(m, ARG) <= Reg(m, LCL) - 5
    requires BookkeepingCells(m, m2, Reg(m, LCL), Mem(m, Reg(m, LCL) - 5))
    requires 17 <= Sp(m2) && 16 <= Reg(m2, ARG) < 0xFFFF
    requires ResultCells(m2, m4, Reg(m2, ARG), Mem(m2, Sp(m2) - 1), Reg(m2, ARG) + 1)
    requires 21 <= Reg(m4, R13)
    requires RestoredCells(m4, m5, Mem(m4, Reg(m4, R13) - 4), Mem(m4, Reg(m4, R13) - 3),
      Mem(m4, Reg(m4, R13) - 2), Mem(m4, Reg(m4, R13) - 1))
    requires m6.ram == m5.ram && m6.a == Mem(m5, 14)
    ensures var frame := Reg(m, LCL); var arg := Reg(m, ARG);
      m6.a == Mem(m, frame - 5)
      && Sp(m6) == arg + 1 && Mem(m6, arg) == Mem(m, Sp(m) - 1)
      && Reg(m6, THAT) == Mem(m, frame - 1) && Reg(m6, THIS) == Mem(m, frame - 2)
      && Reg(m6, ARG) == Mem(m, frame - 3) && Reg(m6, LCL) == Mem(m, frame - 4)
      && Reg(m6, R13) == frame && Reg(m6, R14) == Mem(m, frame - 5)
      && Unchanged(m, m6, {0, 1, 2, 3, 4, 13, 14, arg})
  {
    var frame, arg, sp := Reg(m, LCL), Reg(m, ARG), Sp(m);
    assert Sp(m2) == sp && Reg(m2, ARG) == arg && Mem(m2, sp - 1) == Mem(m, sp - 1);
    assert Reg(m4, R13) == frame && Reg(m4, R14) == Mem(m, frame - 5);
  }

  /** After R13 and R14 are written with these values, every other cell reads as before. */
  ghost predicate BookkeepingCells(m: Machine, m': Machine, v13: Word, v14: Word) {
    && Mem(m', 13) == v13 && Mem(m', 14) == v14
    && forall x :: x != 13 && x != 14 ==> Mem(m', x) == Mem(m, x)
  }

  /** After SP and ARG's target are written with these values, every other cell reads as before. */
  ghost predicate ResultCells(m: Machine, m': Machine, arg: Word, v: Word, sp: Word) {
    && Mem(m', 0) == sp && Mem(m', arg) == v
    && forall x :: x != 0 && x != arg ==> Mem(m', x) == Mem(m, x)
  }

  /** After LCL, ARG, THIS and THAT are written with these values, every other cell reads as before. */
  ghost predicate RestoredCells(m: Machine, m': Machine, v1: Word, v2: Word, v3: Word, v4: Word) {
    && Mem(m', 1) == v1 && Mem(m', 2) == v2 && Mem(m', 3) == v3 && Mem(m', 4) == v4
    && forall x :: !(1 <= x <= 4) ==> Mem(m', x) == Mem(m, x)
  }

  /** The bookkeeping stage of `return`, cell by cell. */
  lemma ReturnInfoCells(m: Machine)
    requires 21 <= Reg(m, LCL)
    ensures BookkeepingCells(m, AfterReturnAddressToR14(AfterFrameToR13(m)), Reg(m, LCL), Mem(m, Reg(m, LCL) - 5))
  {
    ReturnInfoRam(m);
  }

  /** The result stage of `return`, cell by cell. */
  lemma ReturnValueCells(m: Machine)
    requires 17 <= Sp(m) && 16 <= Reg(m, ARG) < 0xFFFF
    ensures ResultCells(m, AfterResetSp(AfterReturnValue(m)), Reg(m, ARG), Mem(m, Sp(m) - 1), Reg(m, ARG) + 1)
  {
    ReturnValueRam(m);
  }

  /** The restoring stage of `return`, cell by cell. */
  lemma RestoreAllCells(m: Machine)
    requires 21 <= Reg(m, R13)
    ensures var frame := Reg(m, R13);
      RestoredCells(m, AfterRestoreAll(m), Mem(m, frame - 4), Mem(m, frame - 3), Mem(m, frame - 2), Mem(m, frame - 1))
  {
    RestoreAllRam(m);
  }

  /**
   * What `return` does, for a frame laid out by `call`: the return value
   * (the top of the stack) is stored at ARG, SP is set just above it, THAT,
   * THIS, ARG and LCL get the values saved in the four cells below the frame
   * base, and control goes to the return address saved five cells below it.
   * R13 and R14 are left holding the frame base and the return address;
   * nothing else is written. ARG may be as high as frame - 5 (a call with no
   * arguments), where the return value overwrites the saved return address:
   * that address was read into R14 first.
   */
  lemma ReturnEffect(m: Machine)
    requires 21 <= Reg(m, LCL) && 17 <= Sp(m) && 16 <= Reg(m, ARG) <= Reg(m, LCL) - 5
    ensures var m' := AfterReturn(m); var frame := Reg(m, LCL); var arg := Reg(m, ARG);
      m'.a == Mem(m, frame - 5)
      && Sp(m') == arg + 1 && Mem(m', arg) == Mem(m, Sp(m) - 1)
      && Reg(m', THAT) == Mem(m, frame - 1) && Reg(m', THIS) == Mem(m, frame - 2)
      && Reg(m', ARG) == Mem(m, frame - 3) && Reg(m', LCL) == Mem(m, frame - 4)
      && Reg(m', R13) == frame && Reg(m', R14) == Mem(m, frame - 5)
      && Unchanged(m, m', {0, 1, 2, 3, 4, 13, 14, arg})
  {
    var m2 := AfterReturnAddressToR14(AfterFrameToR13(m));
    var m4 := AfterResetSp(AfterReturnValue(m2));
    var m5 := AfterRestoreAll(m4);
    ReturnInfoCells(m);
    assert Sp(m2) == Sp(m) && Reg(m2, ARG) == Reg(m, ARG);
    ReturnValueCells(m2);
    assert Reg(m4, R13) == Reg(m, LCL);
    RestoreAllCells(m4);
    JumpToR14Ram(m5);
    ReturnCompose(m, m2, m4, m5, AfterReturn(m));
  }

  // ---------------------------------------------------------------- call and return together

  /**
   * The callee's view of a call made with SP = sp and n arguments: LCL just
   * above the saved frame, ARG at the first argument, and the five frame
   * cells holding `frame`.
   */
  ghost predicate CalleeFrame(callee: Machine, sp: int, n: int, frame: seq<Word>) {
    |frame| == 5 && 0 <= n <= sp && sp + 5 < 0x1_0000
    && Reg(callee, LCL) == sp + 5 && Reg(callee, ARG) == sp - n
    && forall i :: 0 <= i < 5 ==> Mem(callee, sp + i) == frame[i]
  }

  /** `call f n` sets up exactly that view, with the caller's frame. */
  lemma CallSetsUpFrame(env: map<string, Word>, f: string, n: int, ret: string, m: Machine)
    requires 0 <= n < 0x8000 && 16 + n <= Sp(m) && Sp(m) + 5 < 0x1_0000
    ensures CalleeFrame(AfterCall(env, f, n, ret, m), Sp(m), n, SavedFrame(Resolve(env, ret), m))
  {
    CallEffect(env, f, n, ret, m);
  }

  /**
   * `return` from a callee that kept the frame its call set up: whatever the
   * callee did in between, the caller gets back the LCL, ARG, THIS and THAT
   * saved in the frame, its n arguments are replaced by the single value the
   * callee left on top of its stack, and control goes to the saved return
   * address.
   */
  lemma ReturnToCaller(callee: Machine, sp: int, n: int, frame: seq<Word>)
    requires 16 + n <= sp && CalleeFrame(callee, sp, n, frame) && 17 <= Sp(callee)
    ensures var m' := AfterReturn(callee);
      m'.a == frame[0]
      && Reg(m', LCL) == frame[1] && Reg(m', ARG) == frame[2]
      && Reg(m', THIS) == frame[3] && Reg(m', THAT) == frame[4]
      && Sp(m') == sp - n + 1
      && Mem(m', sp - n) == Mem(callee, Sp(callee) - 1)
  {
    ReturnEffect(callee);
    FrameReadBack(callee, AfterReturn(callee), sp, n, frame);
  }

  /** What `return` reads from the frame, in terms of the frame the call saved. */
  lemma FrameReadBack(callee: Machine, m': Machine, sp: int, n: int, frame: seq<Word>)
    requires 16 + n <= sp && CalleeFrame(callee, sp, n, frame) && 17 <= Sp(callee)
    requires var lcl := Reg(callee, LCL); var arg := Reg(callee, ARG);
      m'.a == Mem(callee, lcl - 5)
      && Sp(m') == arg + 1 && Mem(m', arg) == Mem(callee, Sp(callee) - 1)
      && Reg(m', THAT) == Mem(callee, lcl - 1) && Reg(m', THIS) == Mem(callee, lcl - 2)
      && Reg(m', ARG) == Mem(callee, lcl - 3) && Reg(m', LCL) == Mem(callee, lcl - 4)
    ensures m'.a == frame[0]
      && Reg(m', LCL) == frame[1] && Reg(m', ARG) == frame[2]
      && Reg(m', THIS) == frame[3] && Reg(m', THAT) == frame[4]
      && Sp(m') == sp - n + 1
      && Mem(m', sp - n) == Mem(callee, Sp(callee) - 1)
  {
    assert Mem(callee, sp) == frame[0] && Mem(callee, sp + 1) == frame[1] && Mem(callee, sp + 2) == frame[2];
    assert Mem(callee, sp + 3) == frame[3] && Mem(callee, sp + 4) == frame[4];
  }

  /**
   * `call f n` followed, once f has run, by f's `return`: the caller's
   * segment pointers come back, its n arguments are replaced by f's result,
   * and control resumes at the return label.
   */
  lemma CallReturnRoundTrip(env: map<string, Word>, f: string, n: int, ret: string, m: Machine, callee: Machine)
    requires 0 <= n < 0x8000 && 16 + n <= Sp(m) && Sp(m) + 5 < 0x1_0000
    requires CalleeFrame(callee, Sp(m), n, SavedFrame(Resolve(env, ret), m)) && 17 <= Sp(callee)
    ensures var m' := AfterReturn(callee);
      m'.a == Resolve(env, ret)
      && Reg(m', LCL) == Reg(m, LCL) && Reg(m', ARG) == Reg(m, ARG)
      && Reg(m', THIS) == Reg(m, THIS) && Reg(m', THAT) == Reg(m, THAT)
      && Sp(m') == Sp(m) - n + 1
      && Mem(m', Sp(m) - n) == Mem(callee, Sp(callee) - 1)
  {
    ReturnToCaller(callee, Sp(m), n, SavedFrame(Resolve(env, ret), m));
  }

  // ---------------------------------------------------------------- bootstrap

  function AfterInitSp(m: Machine): Machine {
    AfterStoreD(SP, AfterLoadBase(Fixed(256), m))
  }

  /** The machine as the bootstrap code hands it to Sys.init. */
  function AfterBootstrap(env: map<string, Word>, ret: string, m: Machine): Machine {
    AfterCall(env, "Sys.init", 0, ret, AfterInitSp(m))
  }

  lemma ReturnLabelLonger(f: string, counter: nat)
    ensures |ReturnLabel(f, counter)| > |f|
  {
  }

  /** The bootstrap code runs `SP = 256` and then leaves for Sys.init through `call Sys.init 0`. */
  lemma BootstrapRun(env: map<string, Word>, w: Writer, rest: seq<Instr>, m: Machine)
    requires Label("Sys.init") !in rest
    ensures var ret := ReturnLabel("Sys.init", w.counter);
      WriteBootstrap(w).0 == w.(counter := w.counter + 1)
      && Exec(env, WriteBootstrap(w).1 + rest, m) == Left(AfterBootstrap(env, ret, m), Resolve(env, "Sys.init"))
  {
    var ret := ReturnLabel("Sys.init", w.counter);
    var echo := Comment("Bootstrap code");
    var call := CallCode("Sys.init", 0, ret);
    assert WriteBootstrap(w).1 == [echo] + InitSp() + call;
    ReturnLabelLonger("Sys.init", w.counter);
    Assoc3([echo], InitSp(), call, rest);
    StepSkip(env, echo, m);
    ExecCons(env, echo, InitSp() + (call + rest), m, m);
    Assoc(LoadBase(Some(Fixed(256))), StoreD(SP), call + rest);
    ExecLoadBase(env, Fixed(256), StoreD(SP) + (call + rest), m);
    ExecStoreD(env, SP, call + rest, AfterLoadBase(Fixed(256), m));
    CallRun(env, "Sys.init", 0, ret, rest, AfterInitSp(m));
  }

  /**
   * Sys.init starts with SP = LCL = 261 and ARG = 256: the bootstrap's
   * frame occupies RAM[256..260], return address first.
   */
  lemma BootstrapEffect(env: map<string, Word>, ret: string, m: Machine)
    ensures var m' := AfterBootstrap(env, ret, m);
      Sp(m') == 261 && Reg(m', LCL) == 261 && Reg(m', ARG) == 256
      && Mem(m', 256) == Resolve(env, ret)
  {
    var m0 := AfterInitSp(m);
    assert Sp(m0) == 256;
    CallEffect(env, "Sys.init", 0, ret, m0);
    assert Mem(AfterBootstrap(env, ret, m), 256 + 0) == SavedFrame(Resolve(env, ret), m0)[0];
  }
}

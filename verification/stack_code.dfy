/**
 * The four stack helpers both VM translators share (`incrementSP`,
 * `decrementSP`, `pushD`, `popToD`), with what each does to the machine.
 *
 * SP is RAM[0]; the stack grows upwards from it.  The facts below assume the
 * stack lies above the sixteen registers (SP >= 16 plus the number of cells
 * read), which keeps the stack cells apart from SP itself.
 */
module StackCode {
  import opened Base
  import opened HackAsm
  import opened HackMachine
  import Code

  function IncrementSP(): seq<Instr> {
    [AReg(SP), C(DestM, Form(Code.MPlusOne), NoJump)]
  }

  function DecrementSP(): seq<Instr> {
    [AReg(SP), C(DestM, Form(Code.MMinusOne), NoJump), C(DestA, Form(Code.RegM), NoJump)]
  }

  function PushD(): seq<Instr> {
    [AReg(SP), C(DestA, Form(Code.RegM), NoJump), C(DestM, Form(Code.RegD), NoJump)] + IncrementSP()
  }

  function PopToD(): seq<Instr> {
    DecrementSP() + [C(DestD, Form(Code.RegM), NoJump)]
  }

  function Sp(m: Machine): Word {
    Reg(m, SP)
  }

  /** Every RAM cell outside `changed` reads as before. */
  ghost predicate Unchanged(m: Machine, m': Machine, changed: set<Word>) {
    forall x :: x !in changed ==> Mem(m', x) == Mem(m, x)
  }

  // The machine after each helper, in the order its instructions act.

  function AfterIncrementSP(m: Machine): Machine {
    m.(a := 0, aLabel := None, ram := m.ram[0 := Wrap(Mem(m, 0) + 1)])
  }

  function AfterDecrementSP(m: Machine): Machine {
    m.(a := Wrap(Mem(m, 0) - 1), aLabel := None, ram := m.ram[0 := Wrap(Mem(m, 0) - 1)])
  }

  /** Write `v` at the cell SP points to, then advance SP: the tail of every push. */
  function StoreAndIncrement(m: Machine, v: Word): Machine {
    AfterIncrementSP(m.(a := Mem(m, 0), aLabel := None, ram := m.ram[Mem(m, 0) := v]))
  }

  function AfterPushD(m: Machine): Machine {
    StoreAndIncrement(m, m.d)
  }

  function AfterPopToD(m: Machine): Machine {
    var m1 := AfterDecrementSP(m);
    m1.(d := Mem(m1, m1.a))
  }

  lemma ExecIncrementSP(env: map<string, Word>, rest: seq<Instr>, m: Machine)
    ensures Exec(env, IncrementSP() + rest, m) == Exec(env, rest, AfterIncrementSP(m))
  {
    var i0, i1 := AReg(SP), C(DestM, Form(Code.MPlusOne), NoJump);
    Split2(i0, i1, rest);
    var m1 := m.(a := 0, aLabel := None);
    StepAReg(env, SP, m);
    ExecCons(env, i0, [i1] + rest, m, m1);
    StepIncM(env, m1);
    ExecCons(env, i1, rest, m1, AfterIncrementSP(m));
  }

  lemma ExecDecrementSP(env: map<string, Word>, rest: seq<Instr>, m: Machine)
    ensures Exec(env, DecrementSP() + rest, m) == Exec(env, rest, AfterDecrementSP(m))
  {
    var i0, i1, i2 := AReg(SP), C(DestM, Form(Code.MMinusOne), NoJump), C(DestA, Form(Code.RegM), NoJump);
    Split3(i0, i1, i2, rest);
    var m1 := m.(a := 0, aLabel := None);
    var m2 := m1.(ram := m.ram[0 := Wrap(Mem(m, 0) - 1)]);
    StepAReg(env, SP, m);
    ExecCons(env, i0, [i1] + ([i2] + rest), m, m1);
    StepDecM(env, m1);
    ExecCons(env, i1, [i2] + rest, m1, m2);
    StepAFromM(env, m2);
    ExecCons(env, i2, rest, m2, AfterDecrementSP(m));
  }

  lemma ExecPushD(env: map<string, Word>, rest: seq<Instr>, m: Machine)
    ensures Exec(env, PushD() + rest, m) == Exec(env, rest, AfterPushD(m))
  {
    var i0, i1, i2 := AReg(SP), C(DestA, Form(Code.RegM), NoJump), C(DestM, Form(Code.RegD), NoJump);
    var tail := IncrementSP() + rest;
    Assoc([i0, i1, i2], IncrementSP(), rest);
    Split3(i0, i1, i2, tail);
    var m1 := m.(a := 0, aLabel := None);
    var m2 := m1.(a := Mem(m, 0));
    var m3 := m2.(ram := m.ram[Mem(m, 0) := m.d]);
    StepAReg(env, SP, m);
    ExecCons(env, i0, [i1] + ([i2] + tail), m, m1);
    StepAFromM(env, m1);
    ExecCons(env, i1, [i2] + tail, m1, m2);
    StepMFromD(env, m2);
    ExecCons(env, i2, tail, m2, m3);
    ExecIncrementSP(env, rest, m3);
  }

  lemma ExecPopToD(env: map<string, Word>, rest: seq<Instr>, m: Machine)
    ensures Exec(env, PopToD() + rest, m) == Exec(env, rest, AfterPopToD(m))
  {
    var i := C(DestD, Form(Code.RegM), NoJump);
    Assoc(DecrementSP(), [i], rest);
    ExecDecrementSP(env, [i] + rest, m);
    StepDFromM(env, AfterDecrementSP(m));
    ExecCons(env, i, rest, AfterDecrementSP(m), AfterPopToD(m));
  }

  /** `incrementSP` advances SP by one and touches no other cell. */
  lemma IncrementSPEffect(m: Machine)
    ensures Sp(AfterIncrementSP(m)) == Wrap(Sp(m) + 1)
    ensures Unchanged(m, AfterIncrementSP(m), {0})
  {
  }

  /** `decrementSP` moves SP down by one and leaves A pointing at the new top cell. */
  lemma DecrementSPEffect(m: Machine)
    ensures Sp(AfterDecrementSP(m)) == Wrap(Sp(m) - 1)
    ensures AfterDecrementSP(m).a == Wrap(Sp(m) - 1)
    ensures Unchanged(m, AfterDecrementSP(m), {0})
  {
  }

  /** `pushD` stores D in the cell SP pointed to and advances SP; no other cell changes. */
  lemma PushDEffect(m: Machine)
    requires 16 <= Sp(m) < 0xFFFF
    ensures Sp(AfterPushD(m)) == Sp(m) + 1
    ensures Mem(AfterPushD(m), Sp(m)) == m.d
    ensures Unchanged(m, AfterPushD(m), {0, Sp(m)})
  {
  }

  /** `popToD` moves SP down by one and loads the cell it now points to into D; RAM is otherwise untouched. */
  lemma PopToDEffect(m: Machine)
    requires Sp(m) >= 17
    ensures Sp(AfterPopToD(m)) == Sp(m) - 1
    ensures AfterPopToD(m).d == Mem(m, Sp(m) - 1)
    ensures AfterPopToD(m).a == Sp(m) - 1
    ensures Unchanged(m, AfterPopToD(m), {0})
  {
  }

  /** Popping right after a push gives back the pushed D and the original SP. */
  lemma PushThenPop(m: Machine)
    requires 16 <= Sp(m) < 0xFFFF
    ensures AfterPopToD(AfterPushD(m)).d == m.d
    ensures Sp(AfterPopToD(AfterPushD(m))) == Sp(m)
  {
  }
}

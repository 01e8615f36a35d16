/**
 * The parts of `writePushPop` the project-7 and project-8 translators share:
 * the segment names, the code that loads a segment's base into D, the
 * indexed push and the indexed pop through R13, and `pointer`.  The two
 * translators differ only in `static`, which each module writes itself.
 *
 * Memory segments follow section 7.3.1 of The Elements of Computing Systems:
 * local, argument, this and that are pointed to by LCL, ARG, THIS and THAT;
 * temp is RAM[5..12]; pointer 0 and 1 are THIS and THAT themselves.
 */
module Segments {
  import opened Base
  import opened Text
  import opened HackAsm
  import opened HackMachine
  import opened StackCode
  import Code

  /** The `command` argument of `writePushPop`. */
  const C_PUSH := 1
  const C_POP := 2

  datatype Segment = Constant | Pointer | Local | Argument | This | That | Temp | Static | Unknown

  function SegmentName(s: Segment): string {
    match s
    case Constant => "constant"
    case Pointer => "pointer"
    case Local => "local"
    case Argument => "argument"
    case This => "this"
    case That => "that"
    case Temp => "temp"
    case Static => "static"
    case Unknown => ""
  }

  /** The segment a name denotes; a name the translator does not test for is `Unknown`. */
  function SegmentOf(name: string): (r: Segment)
    ensures r != Unknown ==> SegmentName(r) == name
  {
    match name
    case "constant" => Constant
    case "pointer" => Pointer
    case "local" => Local
    case "argument" => Argument
    case "this" => This
    case "that" => That
    case "temp" => Temp
    case "static" => Static
    case _ => Unknown
  }

  lemma SegmentOfName(s: Segment)
    requires s != Unknown
    ensures SegmentOf(SegmentName(s)) == s
  {
  }

  /** The echo comment: `// push <segment> <index>` or `// pop <segment> <index>`. */
  function Echo(verb: string, segment: string, index: int): Instr {
    Comment(verb + " " + segment + " " + IntToString(index))
  }

  // ---------------------------------------------------------------- the code

  /** Where an indexed segment's base comes from: a pointer register, or a fixed address. */
  datatype SegmentBase = Pointed(r: Register) | Fixed(k: Word)

  /** The base of the four pointed segments and temp; the other segments have none here. */
  function CommonBase(s: Segment): Option<SegmentBase> {
    match s
    case Local => Some(Pointed(LCL))
    case Argument => Some(Pointed(ARG))
    case This => Some(Pointed(THIS))
    case That => Some(Pointed(THAT))
    case Temp => Some(Fixed(5))
    case _ => None
  }

  /** `@LCL; D=M` and the like, or `@5; D=A`; nothing at all when there is no base. */
  function LoadBase(b: Option<SegmentBase>): seq<Instr> {
    match b
    case None => []
    case Some(Pointed(r)) => [AReg(r), C(DestD, Form(Code.RegM), NoJump)]
    case Some(Fixed(k)) => [AConst(k), C(DestD, Form(Code.RegA), NoJump)]
  }

  /** `@index; A=D+A; D=M`: load the cell at D + index. */
  function LoadIndexed(index: int): seq<Instr> {
    [AConst(index), C(DestA, Form(Code.DPlusA), NoJump), C(DestD, Form(Code.RegM), NoJump)]
  }

  /** Push the cell at D + index. */
  function PushIndexed(index: int): seq<Instr> {
    LoadIndexed(index) + PushD()
  }

  /** `@index; D=D+A; @R13; M=D`: save the target address D + index in R13. */
  function SaveTarget(index: int): seq<Instr> {
    [AConst(index), C(DestD, Form(Code.DPlusA), NoJump), AReg(R13), C(DestM, Form(Code.RegD), NoJump)]
  }

  /** `@R13; A=M; M=D`: store D at the address saved in R13. */
  function StoreThroughR13(): seq<Instr> {
    [AReg(R13), C(DestA, Form(Code.RegM), NoJump), C(DestM, Form(Code.RegD), NoJump)]
  }

  /** Pop into the cell at D + index, by way of R13. */
  function PopIndexed(index: int): seq<Instr> {
    SaveTarget(index) + PopToD() + StoreThroughR13()
  }

  /** `pointer 0` is THIS and `pointer 1` is THAT; any other index names nothing. */
  function PointerRegister(index: int): Option<Register> {
    if index == 0 then Some(THIS) else if index == 1 then Some(THAT) else None
  }

  function PushConstant(index: int): seq<Instr> {
    [AConst(index), C(DestD, Form(Code.RegA), NoJump)] + PushD()
  }

  /** `@THIS; D=M; pushD` (or THAT); no code for another index. */
  function PushPointer(index: int): seq<Instr> {
    match PointerRegister(index)
    case None => []
    case Some(r) => LoadBase(Some(Pointed(r))) + PushD()
  }

  /** `popToD; @THIS; M=D` (or THAT): the register itself is written, R13 is not used. */
  function PopPointer(index: int): seq<Instr> {
    match PointerRegister(index)
    case None => []
    case Some(r) => PopToD() + [AReg(r), C(DestM, Form(Code.RegD), NoJump)]
  }

  // ---------------------------------------------------------------- what the code does

  /** None of the segment pieces declares a label. */
  lemma PiecesLabelFree(b: Option<SegmentBase>, index: int)
    ensures LabelFree(LoadBase(b)) && LabelFree(PushIndexed(index)) && LabelFree(PopIndexed(index))
    ensures LabelFree(PushConstant(index)) && LabelFree(PushPointer(index)) && LabelFree(PopPointer(index))
  {
  }

  function BaseValue(b: SegmentBase, m: Machine): Word {
    match b
    case Pointed(r) => Reg(m, r)
    case Fixed(k) => k
  }

  function AfterLoadBase(b: SegmentBase, m: Machine): Machine {
    match b
    case Pointed(r) =>
      var m1 := m.(a := RegisterAddress(r), aLabel := None);
      m1.(d := Mem(m1, m1.a))
    case Fixed(k) =>
      var m1 := m.(a := k, aLabel := None);
      m1.(d := m1.a)
  }

  function AfterLoadIndexed(index: int, m: Machine): Machine
    requires 0 <= index < 0x8000
  {
    var m1 := m.(a := index, aLabel := None);
    var m2 := m1.(a := Wrap(m1.d + m1.a), aLabel := None);
    m2.(d := Mem(m2, m2.a))
  }

  function AfterPushIndexed(index: int, m: Machine): Machine
    requires 0 <= index < 0x8000
  {
    AfterPushD(AfterLoadIndexed(index, m))
  }

  function AfterSaveTarget(index: int, m: Machine): Machine
    requires 0 <= index < 0x8000
  {
    var m1 := m.(a := index, aLabel := None);
    var m2 := m1.(d := Wrap(m1.d + m1.a));
    var m3 := m2.(a := 13, aLabel := None);
    m3.(ram := m3.ram[m3.a := m3.d])
  }

  function AfterStoreThroughR13(m: Machine): Machine {
    var m1 := m.(a := 13, aLabel := None);
    var m2 := m1.(a := Mem(m1, m1.a), aLabel := None);
    m2.(ram := m2.ram[m2.a := m2.d])
  }

  function AfterPopIndexed(index: int, m: Machine): Machine
    requires 0 <= index < 0x8000
  {
    AfterStoreThroughR13(AfterPopToD(AfterSaveTarget(index, m)))
  }

  function AfterPopPointer(r: Register, m: Machine): Machine {
    var m1 := AfterPopToD(m).(a := RegisterAddress(r), aLabel := None);
    m1.(ram := m1.ram[m1.a := m1.d])
  }

  lemma ExecLoadBase(env: map<string, Word>, b: SegmentBase, rest: seq<Instr>, m: Machine)
    requires b.Fixed? ==> b.k < 0x8000
    ensures Exec(env, LoadBase(Some(b)) + rest, m) == Exec(env, rest, AfterLoadBase(b, m))
  {
    match b
    case Pointed(r) =>
      var i0, i1 := AReg(r), C(DestD, Form(Code.RegM), NoJump);
      var m1 := m.(a := RegisterAddress(r), aLabel := None);
      Split2(i0, i1, rest);
      StepAReg(env, r, m);
      ExecCons(env, i0, [i1] + rest, m, m1);
      StepDFromM(env, m1);
      ExecCons(env, i1, rest, m1, AfterLoadBase(b, m));
    case Fixed(k) =>
      var i0, i1 := AConst(k), C(DestD, Form(Code.RegA), NoJump);
      var m1 := m.(a := k, aLabel := None);
      Split2(i0, i1, rest);
      StepAConst(env, k, m);
      ExecCons(env, i0, [i1] + rest, m, m1);
      StepDFromA(env, m1);
      ExecCons(env, i1, rest, m1, AfterLoadBase(b, m));
  }

  lemma ExecLoadIndexed(env: map<string, Word>, index: int, rest: seq<Instr>, m: Machine)
    requires 0 <= index < 0x8000
    ensures Exec(env, LoadIndexed(index) + rest, m) == Exec(env, rest, AfterLoadIndexed(index, m))
  {
    var i0, i1, i2 := AConst(index), C(DestA, Form(Code.DPlusA), NoJump), C(DestD, Form(Code.RegM), NoJump);
    var m1 := m.(a := index, aLabel := None);
    var m2 := m1.(a := Wrap(m1.d + m1.a), aLabel := None);
    Split3(i0, i1, i2, rest);
    StepAConst(env, index, m);
    ExecCons(env, i0, [i1] + ([i2] + rest), m, m1);
    StepAddressDPlusA(env, m1);
    ExecCons(env, i1, [i2] + rest, m1, m2);
    StepDFromM(env, m2);
    ExecCons(env, i2, rest, m2, AfterLoadIndexed(index, m));
  }

  lemma ExecPushIndexed(env: map<string, Word>, index: int, rest: seq<Instr>, m: Machine)
    requires 0 <= index < 0x8000
    ensures Exec(env, PushIndexed(index) + rest, m) == Exec(env, rest, AfterPushIndexed(index, m))
  {
    Assoc(LoadIndexed(index), PushD(), rest);
    ExecLoadIndexed(env, index, PushD() + rest, m);
    ExecPushD(env, rest, AfterLoadIndexed(index, m));
  }

  lemma ExecSaveTarget(env: map<string, Word>, index: int, rest: seq<Instr>, m: Machine)
    requires 0 <= index < 0x8000
    ensures Exec(env, SaveTarget(index) + rest, m) == Exec(env, rest, AfterSaveTarget(index, m))
  {
    var i0, i1 := AConst(index), C(DestD, Form(Code.DPlusA), NoJump);
    var i2, i3 := AReg(R13), C(DestM, Form(Code.RegD), NoJump);
    var m1 := m.(a := index, aLabel := None);
    var m2 := m1.(d := Wrap(m1.d + m1.a));
    var m3 := m2.(a := 13, aLabel := None);
    Split4(i0, i1, i2, i3, rest);
    StepAConst(env, index, m);
    ExecCons(env, i0, [i1] + ([i2] + ([i3] + rest)), m, m1);
    StepDPlusA(env, m1);
    ExecCons(env, i1, [i2] + ([i3] + rest), m1, m2);
    StepAReg(env, R13, m2);
    ExecCons(env, i2, [i3] + rest, m2, m3);
    StepMFromD(env, m3);
    ExecCons(env, i3, rest, m3, AfterSaveTarget(index, m));
  }

  lemma ExecStoreThroughR13(env: map<string, Word>, rest: seq<Instr>, m: Machine)
    ensures Exec(env, StoreThroughR13() + rest, m) == Exec(env, rest, AfterStoreThroughR13(m))
  {
    var i0, i1, i2 := AReg(R13), C(DestA, Form(Code.RegM), NoJump), C(DestM, Form(Code.RegD), NoJump);
    var m1 := m.(a := 13, aLabel := None);
    var m2 := m1.(a := Mem(m1, m1.a), aLabel := None);
    Split3(i0, i1, i2, rest);
    StepAReg(env, R13, m);
    ExecCons(env, i0, [i1] + ([i2] + rest), m, m1);
    StepAFromM(env, m1);
    ExecCons(env, i1, [i2] + rest, m1, m2);
    StepMFromD(env, m2);
    ExecCons(env, i2, rest, m2, AfterStoreThroughR13(m));
  }

  lemma ExecPopIndexed(env: map<string, Word>, index: int, rest: seq<Instr>, m: Machine)
    requires 0 <= index < 0x8000
    ensures Exec(env, PopIndexed(index) + rest, m) == Exec(env, rest, AfterPopIndexed(index, m))
  {
    var m1 := AfterSaveTarget(index, m);
    Assoc3(SaveTarget(index), PopToD(), StoreThroughR13(), rest);
    ExecSaveTarget(env, index, PopToD() + (StoreThroughR13() + rest), m);
    ExecPopToD(env, StoreThroughR13() + rest, m1);
    ExecStoreThroughR13(env, rest, AfterPopToD(m1));
  }

  lemma ExecPopPointer(env: map<string, Word>, r: Register, rest: seq<Instr>, m: Machine)
    ensures Exec(env, PopToD() + ([AReg(r), C(DestM, Form(Code.RegD), NoJump)] + rest), m)
      == Exec(env, rest, AfterPopPointer(r, m))
  {
    var i0, i1 := AReg(r), C(DestM, Form(Code.RegD), NoJump);
    var m1 := AfterPopToD(m);
    var m2 := m1.(a := RegisterAddress(r), aLabel := None);
    Split2(i0, i1, rest);
    ExecPopToD(env, [i0, i1] + rest, m);
    StepAReg(env, r, m1);
    ExecCons(env, i0, [i1] + rest, m1, m2);
    StepMFromD(env, m2);
    ExecCons(env, i1, rest, m2, AfterPopPointer(r, m));
  }

  // ---------------------------------------------------------------- effects

  /** The cell `base + index` of an indexed segment, with the 16-bit address wrap of the ALU. */
  function Cell(b: SegmentBase, index: int, m: Machine): Word
    requires 0 <= index < 0x8000
  {
    Wrap(BaseValue(b, m) + index)
  }

  /** Loading the base puts exactly the base address in D. */
  lemma LoadBaseEffect(b: SegmentBase, m: Machine)
    ensures AfterLoadBase(b, m).d == BaseValue(b, m)
    ensures AfterLoadBase(b, m).ram == m.ram
  {
  }

  /**
   * An indexed push copies the cell at D + index onto the stack: SP goes up
   * by one and only the old top-of-stack cell and SP change.
   */
  lemma PushIndexedEffect(index: int, m: Machine)
    requires 0 <= index < 0x8000 && 16 <= Sp(m) < 0xFFFF
    ensures var m' := AfterPushIndexed(index, m);
      Sp(m') == Sp(m) + 1
      && Mem(m', Sp(m)) == Mem(m, Wrap(m.d + index))
      && Unchanged(m, m', {0, Sp(m)})
  {
    PushDEffect(AfterLoadIndexed(index, m));
  }

  /**
   * An indexed pop saves the target D + index in R13, pops the top of the
   * stack and stores it there: SP goes down by one (unless the target is SP
   * itself) and only SP, R13 and the target cell change.
   */
  lemma PopIndexedEffect(index: int, m: Machine)
    requires 0 <= index < 0x8000 && Sp(m) >= 17
    ensures var m' := AfterPopIndexed(index, m); var t := Wrap(m.d + index);
      Mem(m', t) == Mem(m, Sp(m) - 1)
      && (t != 0 ==> Sp(m') == Sp(m) - 1)
      && (t != 13 ==> Mem(m', 13) == t)
      && Unchanged(m, m', {0, 13, t})
  {
    var m1 := AfterSaveTarget(index, m);
    assert Sp(m1) == Sp(m);
    PopToDEffect(m1);
  }

  /** Popping into `pointer 0/1` writes THIS/THAT directly: only SP and that register change. */
  lemma PopPointerEffect(r: Register, m: Machine)
    requires Sp(m) >= 17 && (r == THIS || r == THAT)
    ensures var m' := AfterPopPointer(r, m);
      Sp(m') == Sp(m) - 1
      && Reg(m', r) == Mem(m, Sp(m) - 1)
      && Unchanged(m, m', {0, RegisterAddress(r)})
  {
    PopToDEffect(m);
  }

  // ---------------------------------------------------------------- whole bodies

  /** A base the code can load: a fixed base must fit an A-instruction. */
  predicate Loadable(b: Option<SegmentBase>) {
    b.Some? && b.value.Fixed? ==> b.value.k < 0x8000
  }

  /** The state after `LoadBase(b)`: with no base, nothing runs and D keeps its old value. */
  function AfterLoad(b: Option<SegmentBase>, m: Machine): Machine {
    match b
    case None => m
    case Some(x) => AfterLoadBase(x, m)
  }

  /** The cell an indexed push or pop reaches: base + index, or stale D + index when there is no base. */
  function IndexedTarget(b: Option<SegmentBase>, index: int, m: Machine): Word
    requires 0 <= index < 0x8000
  {
    match b
    case None => Wrap(m.d + index)
    case Some(x) => Cell(x, index, m)
  }

  lemma ExecLoad(env: map<string, Word>, b: Option<SegmentBase>, rest: seq<Instr>, m: Machine)
    requires Loadable(b)
    ensures Exec(env, LoadBase(b) + rest, m) == Exec(env, rest, AfterLoad(b, m))
  {
    match b
    case None => assert LoadBase(b) + rest == rest;
    case Some(x) => ExecLoadBase(env, x, rest, m);
  }

  /**
   * `LoadBase(b)` followed by an indexed push copies the target cell onto
   * the stack; SP goes up by one and nothing else but the new cell changes.
   */
  lemma PushFrom(env: map<string, Word>, b: Option<SegmentBase>, index: int, rest: seq<Instr>, m: Machine)
    requires Loadable(b) && 0 <= index < 0x8000 && 16 <= Sp(m) < 0xFFFF
    ensures var m' := AfterPushIndexed(index, AfterLoad(b, m));
      Exec(env, LoadBase(b) + PushIndexed(index) + rest, m) == Exec(env, rest, m')
      && Sp(m') == Sp(m) + 1
      && Mem(m', Sp(m)) == Mem(m, IndexedTarget(b, index, m))
      && Unchanged(m, m', {0, Sp(m)})
  {
    var m1 := AfterLoad(b, m);
    Assoc(LoadBase(b), PushIndexed(index), rest);
    ExecLoad(env, b, PushIndexed(index) + rest, m);
    ExecPushIndexed(env, index, rest, m1);
    assert m1.ram == m.ram && Wrap(m1.d + index) == IndexedTarget(b, index, m);
    PushIndexedEffect(index, m1);
  }

  /**
   * `LoadBase(b)` followed by an indexed pop moves the top of the stack
   * into the target cell through R13.
   */
  lemma PopInto(env: map<string, Word>, b: Option<SegmentBase>, index: int, rest: seq<Instr>, m: Machine)
    requires Loadable(b) && 0 <= index < 0x8000 && Sp(m) >= 17
    ensures var m' := AfterPopIndexed(index, AfterLoad(b, m)); var t := IndexedTarget(b, index, m);
      Exec(env, LoadBase(b) + PopIndexed(index) + rest, m) == Exec(env, rest, m')
      && Mem(m', t) == Mem(m, Sp(m) - 1)
      && (t != 0 ==> Sp(m') == Sp(m) - 1)
      && (t != 13 ==> Mem(m', 13) == t)
      && Unchanged(m, m', {0, 13, t})
  {
    var m1 := AfterLoad(b, m);
    Assoc(LoadBase(b), PopIndexed(index), rest);
    ExecLoad(env, b, PopIndexed(index) + rest, m);
    ExecPopIndexed(env, index, rest, m1);
    PopFromEffect(b, index, m);
  }

  lemma PopFromEffect(b: Option<SegmentBase>, index: int, m: Machine)
    requires 0 <= index < 0x8000 && Sp(m) >= 17
    ensures var m' := AfterPopIndexed(index, AfterLoad(b, m)); var t := IndexedTarget(b, index, m);
      Mem(m', t) == Mem(m, Sp(m) - 1)
      && (t != 0 ==> Sp(m') == Sp(m) - 1)
      && (t != 13 ==> Mem(m', 13) == t)
      && Unchanged(m, m', {0, 13, t})
  {
    var m1 := AfterLoad(b, m);
    assert m1.ram == m.ram && Wrap(m1.d + index) == IndexedTarget(b, index, m);
    PopIndexedEffect(index, m1);
  }

  /** `push constant i` pushes i itself. */
  lemma PushConstantRun(env: map<string, Word>, index: int, rest: seq<Instr>, m: Machine)
    requires 0 <= index < 0x8000 && 16 <= Sp(m) < 0xFFFF
    ensures var m' := AfterPushD(AfterLoadBase(Fixed(index), m));
      Exec(env, PushConstant(index) + rest, m) == Exec(env, rest, m')
      && Sp(m') == Sp(m) + 1
      && Mem(m', Sp(m)) == index
      && Unchanged(m, m', {0, Sp(m)})
  {
    var m1 := AfterLoadBase(Fixed(index), m);
    assert PushConstant(index) == LoadBase(Some(Fixed(index))) + PushD();
    Assoc(LoadBase(Some(Fixed(index))), PushD(), rest);
    ExecLoadBase(env, Fixed(index), PushD() + rest, m);
    ExecPushD(env, rest, m1);
    PushDEffect(m1);
  }

  /** `push pointer 0/1` pushes THIS/THAT. */
  lemma PushPointerRun(env: map<string, Word>, r: Register, rest: seq<Instr>, m: Machine)
    requires 16 <= Sp(m) < 0xFFFF
    ensures var m' := AfterPushD(AfterLoadBase(Pointed(r), m));
      Exec(env, LoadBase(Some(Pointed(r))) + PushD() + rest, m) == Exec(env, rest, m')
      && Sp(m') == Sp(m) + 1
      && Mem(m', Sp(m)) == Reg(m, r)
      && Unchanged(m, m', {0, Sp(m)})
  {
    var m1 := AfterLoadBase(Pointed(r), m);
    Assoc(LoadBase(Some(Pointed(r))), PushD(), rest);
    ExecLoadBase(env, Pointed(r), PushD() + rest, m);
    ExecPushD(env, rest, m1);
    PushDEffect(m1);
  }
}

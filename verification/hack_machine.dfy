/**
 * A small interpreter for the Hack instructions the VM translators emit,
 * following the CPU of chapter 5 of The Elements of Computing Systems: A and
 * D registers, 16-bit words, a RAM, and a jump that goes to the address in A.
 *
 * Code is run as one block of instructions.  A symbol loaded into A is
 * remembered, so that a taken jump to a label declared later in the same
 * block continues after that label; any other taken jump leaves the block.
 * The addresses of symbols come from an environment, as an assembler would
 * bind them.
 */
module HackMachine {
  import opened Base
  import opened HackAsm
  import Code

  /** A 16-bit word, as the unsigned number its bits spell. */
  type Word = x: int | 0 <= x < 0x1_0000

  /** Reduce the sum or difference of two words modulo 2^16, as the 16-bit ALU does. */
  function Wrap(x: int): Word
    requires -0x1_0000 <= x < 0x2_0000
  {
    if x < 0 then x + 0x1_0000 else if x >= 0x1_0000 then x - 0x1_0000 else x
  }

  /** The CPU registers, the RAM, and the symbol A was last loaded from, if any. */
  datatype Machine = Machine(a: Word, d: Word, ram: map<Word, Word>, aLabel: Option<string>)

  datatype Outcome =
    | Done(final: Machine)             // control ran off the end of the block
    | Left(at: Machine, target: Word)  // a taken jump to an address outside the block
    | Fault                            // an `@n` with n negative or too large for an A-instruction

  /** RAM contents; cells never written read as 0. */
  function Mem(m: Machine, addr: Word): Word {
    if addr in m.ram then m.ram[addr] else 0
  }

  function Reg(m: Machine, r: Register): Word {
    Mem(m, RegisterAddress(r))
  }

  /** A word whose sign bit is set: a negative number in two's complement. */
  predicate Negative(v: Word) {
    v >= 0x8000
  }

  /** Bitwise operations on the 16 bits of a word. */
  function Not16(x: Word): Word {
    0xFFFF - x
  }

  function And16(x: Word, y: Word): Word {
    ((x as bv16) & (y as bv16)) as int
  }

  function Or16(x: Word, y: Word): Word {
    ((x as bv16) | (y as bv16)) as int
  }

  /** The ALU: what each of the 28 computations yields from A, D and M. */
  function EvalForm(f: Code.CompForm, a: Word, d: Word, mv: Word): Word {
    match f
    case Zero => 0
    case One => 1
    case MinusOne => 0xFFFF
    case RegD => d
    case RegA => a
    case NotD => Not16(d)
    case NotA => Not16(a)
    case NegD => Wrap(0 - d)
    case NegA => Wrap(0 - a)
    case DPlusOne => Wrap(d + 1)
    case APlusOne => Wrap(a + 1)
    case DMinusOne => Wrap(d - 1)
    case AMinusOne => Wrap(a - 1)
    case DPlusA => Wrap(d + a)
    case DMinusA => Wrap(d - a)
    case AMinusD => Wrap(a - d)
    case DAndA => And16(d, a)
    case DOrA => Or16(d, a)
    case RegM => mv
    case NotM => Not16(mv)
    case NegM => Wrap(0 - mv)
    case MPlusOne => Wrap(mv + 1)
    case MMinusOne => Wrap(mv - 1)
    case DPlusM => Wrap(d + mv)
    case DMinusM => Wrap(d - mv)
    case MMinusD => Wrap(mv - d)
    case DAndM => And16(d, mv)
    case DOrM => Or16(d, mv)
  }

  /** A commuted spelling computes what its canonical form computes. */
  function EvalComp(c: Comp, a: Word, d: Word, mv: Word): Word {
    EvalForm(Canonical(c), a, d, mv)
  }

  /** The jump condition on the computed value, read as a two's-complement number. */
  predicate Jumps(j: Jump, v: Word) {
    match j
    case NoJump => false
    case JGT => v != 0 && !Negative(v)
    case JEQ => v == 0
    case JLT => Negative(v)
    case JNE => v != 0
    case JMP => true
  }

  function Resolve(env: map<string, Word>, s: string): Word {
    if s in env then env[s] else 0
  }

  /** Store the computed value into the destination register. */
  function Assign(m: Machine, dest: Dest, v: Word): Machine {
    match dest
    case NoDest => m
    case DestA => m.(a := v, aLabel := None)
    case DestD => m.(d := v)
    case DestM => m.(ram := m.ram[m.a := v])
  }

  /** The state after one instruction, ignoring any jump; `None` for an unencodable constant. */
  function Step(env: map<string, Word>, i: Instr, m: Machine): Option<Machine> {
    match i
    case Comment(_) => Some(m)
    case Label(_) => Some(m)
    case AConst(v) => if 0 <= v < 0x8000 then Some(m.(a := v, aLabel := None)) else None
    case AReg(r) => Some(m.(a := RegisterAddress(r), aLabel := None))
    case ASym(s) => Some(m.(a := Resolve(env, s), aLabel := Some(s)))
    case C(dest, comp, _) => Some(Assign(m, dest, EvalComp(comp, m.a, m.d, Mem(m, m.a))))
  }

  /** Whether the instruction, run in state `m`, takes its jump. */
  predicate Taken(i: Instr, m: Machine) {
    i.C? && Jumps(i.jump, EvalComp(i.comp, m.a, m.d, Mem(m, m.a)))
  }

  /**
   * Position of the last declaration of label `l`: the assembler binds a
   * label to its last declaration, so a jump to it lands there.
   */
  function LabelIndex(code: seq<Instr>, l: string): (r: Option<nat>)
    ensures r.Some? ==> r.value < |code| && code[r.value] == Label(l)
    ensures r.Some? ==> forall k :: r.value < k < |code| ==> code[k] != Label(l)
    ensures r.None? <==> Label(l) !in code
  {
    if code == [] then None
    else match LabelIndex(code[1..], l)
      case Some(k) => Some(k + 1)
      case None => if code[0] == Label(l) then Some(0) else None
  }

  function Exec(env: map<string, Word>, code: seq<Instr>, m: Machine): Outcome
    decreases |code|
  {
    if code == [] then Done(m)
    else
      var i := code[0];
      match Step(env, i, m)
      case None => Fault
      case Some(m') =>
        if !Taken(i, m) then Exec(env, code[1..], m')
        else if m.aLabel.None? then Left(m', m.a)
        else match LabelIndex(code[1..], m.aLabel.value)
          case None => Left(m', m.a)
          case Some(k) => Exec(env, code[1..][k + 1..], m')
  }

  /** An instruction that does not jump passes control to the rest of the code. */
  lemma ExecCons(env: map<string, Word>, i: Instr, rest: seq<Instr>, m: Machine, m': Machine)
    requires !Taken(i, m) && Step(env, i, m) == Some(m')
    ensures Exec(env, [i] + rest, m) == Exec(env, rest, m')
  {
    assert ([i] + rest)[0] == i;
    assert ([i] + rest)[1..] == rest;
  }

  // What each instruction form the translators emit does, one lemma per
  // form, so that a chain of steps need not re-evaluate the whole ALU table.

  lemma StepSkip(env: map<string, Word>, i: Instr, m: Machine)
    requires i.Comment? || i.Label?
    ensures !Taken(i, m) && Step(env, i, m) == Some(m)
  {
  }

  lemma StepAReg(env: map<string, Word>, r: Register, m: Machine)
    ensures !Taken(AReg(r), m) && Step(env, AReg(r), m) == Some(m.(a := RegisterAddress(r), aLabel := None))
  {
  }

  lemma StepAConst(env: map<string, Word>, v: int, m: Machine)
    requires 0 <= v < 0x8000
    ensures !Taken(AConst(v), m) && Step(env, AConst(v), m) == Some(m.(a := v, aLabel := None))
  {
  }

  lemma StepASym(env: map<string, Word>, s: string, m: Machine)
    ensures !Taken(ASym(s), m) && Step(env, ASym(s), m) == Some(m.(a := Resolve(env, s), aLabel := Some(s)))
  {
  }

  /** `M=<c>` for a computation reading M and D. */
  lemma StepToM(env: map<string, Word>, c: Comp, m: Machine)
    ensures !Taken(C(DestM, c, NoJump), m)
    ensures Step(env, C(DestM, c, NoJump), m) == Some(m.(ram := m.ram[m.a := EvalComp(c, m.a, m.d, Mem(m, m.a))]))
  {
  }

  /** `M=M+1` */
  lemma StepIncM(env: map<string, Word>, m: Machine)
    ensures !Taken(C(DestM, Form(Code.MPlusOne), NoJump), m)
    ensures Step(env, C(DestM, Form(Code.MPlusOne), NoJump), m) == Some(m.(ram := m.ram[m.a := Wrap(Mem(m, m.a) + 1)]))
  {
  }

  /** `M=M-1` */
  lemma StepDecM(env: map<string, Word>, m: Machine)
    ensures !Taken(C(DestM, Form(Code.MMinusOne), NoJump), m)
    ensures Step(env, C(DestM, Form(Code.MMinusOne), NoJump), m) == Some(m.(ram := m.ram[m.a := Wrap(Mem(m, m.a) - 1)]))
  {
  }

  /** `A=M` */
  lemma StepAFromM(env: map<string, Word>, m: Machine)
    ensures !Taken(C(DestA, Form(Code.RegM), NoJump), m)
    ensures Step(env, C(DestA, Form(Code.RegM), NoJump), m) == Some(m.(a := Mem(m, m.a), aLabel := None))
  {
  }

  /** `M=D` */
  lemma StepMFromD(env: map<string, Word>, m: Machine)
    ensures !Taken(C(DestM, Form(Code.RegD), NoJump), m)
    ensures Step(env, C(DestM, Form(Code.RegD), NoJump), m) == Some(m.(ram := m.ram[m.a := m.d]))
  {
  }

  /** `D=M` */
  lemma StepDFromM(env: map<string, Word>, m: Machine)
    ensures !Taken(C(DestD, Form(Code.RegM), NoJump), m)
    ensures Step(env, C(DestD, Form(Code.RegM), NoJump), m) == Some(m.(d := Mem(m, m.a)))
  {
  }

  /** `D=A` */
  lemma StepDFromA(env: map<string, Word>, m: Machine)
    ensures !Taken(C(DestD, Form(Code.RegA), NoJump), m)
    ensures Step(env, C(DestD, Form(Code.RegA), NoJump), m) == Some(m.(d := m.a))
  {
  }

  /** `A=D+A` */
  lemma StepAddressDPlusA(env: map<string, Word>, m: Machine)
    ensures !Taken(C(DestA, Form(Code.DPlusA), NoJump), m)
    ensures Step(env, C(DestA, Form(Code.DPlusA), NoJump), m) == Some(m.(a := Wrap(m.d + m.a), aLabel := None))
  {
  }

  /** `D=D+A` */
  lemma StepDPlusA(env: map<string, Word>, m: Machine)
    ensures !Taken(C(DestD, Form(Code.DPlusA), NoJump), m)
    ensures Step(env, C(DestD, Form(Code.DPlusA), NoJump), m) == Some(m.(d := Wrap(m.d + m.a)))
  {
  }

  /** `D=D-A` */
  lemma StepDMinusA(env: map<string, Word>, m: Machine)
    ensures !Taken(C(DestD, Form(Code.DMinusA), NoJump), m)
    ensures Step(env, C(DestD, Form(Code.DMinusA), NoJump), m) == Some(m.(d := Wrap(m.d - m.a)))
  {
  }

  /** `A=D-A` */
  lemma StepAddressDMinusA(env: map<string, Word>, m: Machine)
    ensures !Taken(C(DestA, Form(Code.DMinusA), NoJump), m)
    ensures Step(env, C(DestA, Form(Code.DMinusA), NoJump), m) == Some(m.(a := Wrap(m.d - m.a), aLabel := None))
  {
  }

  /** `D=M+1` */
  lemma StepDFromMPlusOne(env: map<string, Word>, m: Machine)
    ensures !Taken(C(DestD, Form(Code.MPlusOne), NoJump), m)
    ensures Step(env, C(DestD, Form(Code.MPlusOne), NoJump), m) == Some(m.(d := Wrap(Mem(m, m.a) + 1)))
  {
  }

  /** `D=M-D` */
  lemma StepDFromMMinusD(env: map<string, Word>, m: Machine)
    ensures !Taken(C(DestD, Form(Code.MMinusD), NoJump), m)
    ensures Step(env, C(DestD, Form(Code.MMinusD), NoJump), m) == Some(m.(d := Wrap(Mem(m, m.a) - m.d)))
  {
  }

  /** `M=0` */
  lemma StepStoreZero(env: map<string, Word>, m: Machine)
    ensures !Taken(C(DestM, Form(Code.Zero), NoJump), m)
    ensures Step(env, C(DestM, Form(Code.Zero), NoJump), m) == Some(m.(ram := m.ram[m.a := 0]))
  {
  }

  /** `M=-1` */
  lemma StepStoreTrue(env: map<string, Word>, m: Machine)
    ensures !Taken(C(DestM, Form(Code.MinusOne), NoJump), m)
    ensures Step(env, C(DestM, Form(Code.MinusOne), NoJump), m) == Some(m.(ram := m.ram[m.a := 0xFFFF]))
  {
  }

  /** `D;J` tests D and changes nothing. */
  lemma StepJumpOnD(env: map<string, Word>, j: Jump, m: Machine)
    ensures Step(env, C(NoDest, Form(Code.RegD), j), m) == Some(m)
    ensures Taken(C(NoDest, Form(Code.RegD), j), m) <==> Jumps(j, m.d)
  {
  }

  /** `0;JMP` always jumps and changes nothing. */
  lemma StepJumpAlways(env: map<string, Word>, m: Machine)
    ensures Step(env, C(NoDest, Form(Code.Zero), JMP), m) == Some(m)
    ensures Taken(C(NoDest, Form(Code.Zero), JMP), m)
  {
  }

  lemma Split2<T>(x: T, y: T, rest: seq<T>)
    ensures [x, y] + rest == [x] + ([y] + rest)
  {
  }

  lemma Split3<T>(x: T, y: T, z: T, rest: seq<T>)
    ensures [x, y, z] + rest == [x] + ([y] + ([z] + rest))
  {
  }

  lemma Split4<T>(w: T, x: T, y: T, z: T, rest: seq<T>)
    ensures [w, x, y, z] + rest == [w] + ([x] + ([y] + ([z] + rest)))
  {
  }

  lemma Assoc<T>(a: seq<T>, b: seq<T>, c: seq<T>)
    ensures (a + b) + c == a + (b + c)
  {
  }

  lemma Assoc3<T>(a: seq<T>, b: seq<T>, c: seq<T>, r: seq<T>)
    ensures a + b + c + r == a + (b + (c + r))
  {
    Assoc(a + b, c, r);
    Assoc(a, b, c + r);
  }

  lemma Assoc4<T>(a: seq<T>, b: seq<T>, c: seq<T>, d: seq<T>, r: seq<T>)
    ensures a + b + c + d + r == a + (b + (c + (d + r)))
  {
    Assoc(a + b + c, d, r);
    Assoc3(a, b, c, d + r);
  }

  lemma Assoc5<T>(a: seq<T>, b: seq<T>, c: seq<T>, d: seq<T>, e: seq<T>, r: seq<T>)
    ensures a + b + c + d + e + r == a + (b + (c + (d + (e + r))))
  {
    Assoc(a + b + c + d, e, r);
    Assoc4(a, b, c, d, e + r);
  }

  /**
   * A taken jump whose target label was just loaded into A, and whose last
   * declaration in `mid + [Label(l)] + rest` is the one shown, continues after it.
   */
  lemma ExecJumpForward(env: map<string, Word>, i: Instr, mid: seq<Instr>, l: string, rest: seq<Instr>, m: Machine, m': Machine)
    requires Taken(i, m) && m.aLabel == Some(l) && Step(env, i, m) == Some(m')
    requires Label(l) !in rest
    ensures Exec(env, [i] + (mid + ([Label(l)] + rest)), m) == Exec(env, rest, m')
  {
    var tail := mid + ([Label(l)] + rest);
    LabelIndexAfter(mid, l, rest);
    assert tail[|mid| + 1..] == rest;
    ExecTaken(env, i, tail, l, |mid|, m, m');
  }

  /** A taken jump to a label declared at position k of the code after it continues past the label. */
  lemma ExecTaken(env: map<string, Word>, i: Instr, tail: seq<Instr>, l: string, k: nat, m: Machine, m': Machine)
    requires Taken(i, m) && m.aLabel == Some(l) && Step(env, i, m) == Some(m')
    requires LabelIndex(tail, l) == Some(k)
    ensures Exec(env, [i] + tail, m) == Exec(env, tail[k + 1..], m')
  {
    assert ([i] + tail)[0] == i;
    assert ([i] + tail)[1..] == tail;
  }

  /** `@l; 0;JMP` with `l` last declared further on continues after that declaration. */
  lemma ExecGotoForward(env: map<string, Word>, l: string, mid: seq<Instr>, rest: seq<Instr>, m: Machine)
    requires Label(l) !in rest
    ensures Exec(env, [ASym(l)] + ([C(NoDest, Form(Code.Zero), JMP)] + (mid + ([Label(l)] + rest))), m)
      == Exec(env, rest, m.(a := Resolve(env, l), aLabel := Some(l)))
  {
    var load, jmp := ASym(l), C(NoDest, Form(Code.Zero), JMP);
    var m1 := m.(a := Resolve(env, l), aLabel := Some(l));
    StepASym(env, l, m);
    ExecCons(env, load, [jmp] + (mid + ([Label(l)] + rest)), m, m1);
    StepJumpAlways(env, m1);
    ExecJumpForward(env, jmp, mid, l, rest, m1, m1);
  }

  lemma {:induction false} LabelIndexAfter(mid: seq<Instr>, l: string, rest: seq<Instr>)
    requires Label(l) !in rest
    ensures LabelIndex(mid + ([Label(l)] + rest), l) == Some(|mid|)
  {
    if mid == [] {
      assert mid + ([Label(l)] + rest) == [Label(l)] + rest;
      assert ([Label(l)] + rest)[1..] == rest;
    } else {
      assert (mid + ([Label(l)] + rest))[1..] == mid[1..] + ([Label(l)] + rest);
      LabelIndexAfter(mid[1..], l, rest);
    }
  }

  /** An `@n` that is not a 15-bit constant stops the machine. */
  lemma ExecBadConstant(env: map<string, Word>, v: int, rest: seq<Instr>, m: Machine)
    requires v < 0 || v >= 0x8000
    ensures Exec(env, [AConst(v)] + rest, m) == Fault
  {
    assert ([AConst(v)] + rest)[0] == AConst(v);
  }

  /** A taken jump to a symbol not declared in the rest of the code leaves the block. */
  lemma ExecJumpOut(env: map<string, Word>, i: Instr, rest: seq<Instr>, m: Machine)
    requires Taken(i, m) && m.aLabel.Some? && Label(m.aLabel.value) !in rest
    ensures Exec(env, [i] + rest, m) == Left(Step(env, i, m).value, m.a)
  {
    assert ([i] + rest)[0] == i;
    assert ([i] + rest)[1..] == rest;
  }

  /** A taken jump with no symbol in A (an address computed at run time) leaves the block. */
  lemma ExecJumpComputed(env: map<string, Word>, i: Instr, rest: seq<Instr>, m: Machine)
    requires Taken(i, m) && m.aLabel.None?
    ensures Exec(env, [i] + rest, m) == Left(Step(env, i, m).value, m.a)
  {
    assert ([i] + rest)[0] == i;
  }
}

/**
 * `writeArithmetic`, which the project-7 and project-8 translators implement
 * identically: the nine stack-arithmetic commands of section 7.2.2 of The
 * Elements of Computing Systems, each translated to a block of Hack code.
 *
 * A comparison mints two labels, TRUE<n> and END<n>, from the label counter
 * and advances the counter; no other arithmetic command touches it.
 */
module Arithmetic {
  import opened Base
  import opened Text
  import opened HackAsm
  import opened HackMachine
  import opened StackCode
  import Code

  datatype Op = Add | Sub | Neg | Eq | Gt | Lt | And | Or | Not

  function OpName(op: Op): string {
    match op
    case Add => "add"
    case Sub => "sub"
    case Neg => "neg"
    case Eq => "eq"
    case Gt => "gt"
    case Lt => "lt"
    case And => "and"
    case Or => "or"
    case Not => "not"
  }

  /** The command names the translator recognises; anything else is `None`. */
  function OpOf(command: string): (r: Option<Op>)
    ensures r.Some? ==> OpName(r.value) == command
  {
    match command
    case "add" => Some(Add)
    case "sub" => Some(Sub)
    case "neg" => Some(Neg)
    case "eq" => Some(Eq)
    case "gt" => Some(Gt)
    case "lt" => Some(Lt)
    case "and" => Some(And)
    case "or" => Some(Or)
    case "not" => Some(Not)
    case _ => None
  }

  /** Every command name is recognised as itself. */
  lemma OpOfName(op: Op)
    ensures OpOf(OpName(op)) == Some(op)
  {
  }

  predicate IsComparison(op: Op) {
    op == Eq || op == Gt || op == Lt
  }

  predicate IsUnary(op: Op) {
    op == Neg || op == Not
  }

  // ---------------------------------------------------------------- minted labels

  function TrueLabel(n: nat): string {
    "TRUE" + NatToString(n)
  }

  function EndLabel(n: nat): string {
    "END" + NatToString(n)
  }

  /** The counter is recoverable from a minted label: its trailing digits. */
  lemma TrueLabelSuffix(n: nat)
    ensures DigitSuffix(TrueLabel(n)) == NatToString(n)
  {
    DigitSuffixAppend("TRUE", NatToString(n));
  }

  lemma EndLabelSuffix(n: nat)
    ensures DigitSuffix(EndLabel(n)) == NatToString(n)
  {
    DigitSuffixAppend("END", NatToString(n));
  }

  /**
   * A comparison declares two distinct labels that both carry the counter
   * and consumes it; every other command declares nothing.
   */
  lemma ArithmeticMints(counter: nat, command: string)
    ensures var e := WriteArithmetic(counter, command);
      NoDup(Declared(e.code))
      && (e.counter == counter || e.counter == counter + 1)
      && (Declared(e.code) != [] ==> e.counter == counter + 1)
      && forall x :: x in Declared(e.code) ==> LabelNumber(x) == counter
  {
    WriteArithmeticLabels(counter, command);
    TrueEndNumbers(counter);
    assert TrueLabel(counter)[0] == 'T' && EndLabel(counter)[0] == 'E';
  }

  /** The counter a minted label carries: the value of its trailing digits. */
  function LabelNumber(l: string): nat {
    DigitsValue(DigitSuffix(l))
  }

  /** A name with a non-digit last character, followed by the counter: the counter reads back. */
  lemma MintedNumber(p: string, n: nat)
    requires p != [] && !IsDigit(p[|p| - 1])
    ensures LabelNumber(p + NatToString(n)) == n
  {
    DigitSuffixAppend(p, NatToString(n));
    NatToStringValue(n);
  }

  lemma TrueEndNumbers(n: nat)
    ensures forall x :: x in [TrueLabel(n), EndLabel(n)] ==> LabelNumber(x) == n
  {
    MintedNumber("TRUE", n);
    MintedNumber("END", n);
  }

  // ---------------------------------------------------------------- the code

  /** `popToD; decrementSP; M=M<op>D; incrementSP`: add, sub, and, or. */
  function Binary(c: Comp): seq<Instr> {
    PopToD() + DecrementSP() + [C(DestM, c, NoJump)] + IncrementSP()
  }

  /** `decrementSP; M=<op>M; incrementSP`: neg, not. */
  function Unary(c: Comp): seq<Instr> {
    DecrementSP() + [C(DestM, c, NoJump)] + IncrementSP()
  }

  /**
   * A comparison is written with two labels: `t` for the true path and `e`
   * for the join point.  The translator uses TRUE<n> and END<n>.
   */

  /** Pop y into D, point A at x, and compute D = x - y; then load the true label. */
  function CompareHead(t: string): seq<Instr> {
    PopToD() + DecrementSP() + [C(DestD, Form(Code.MMinusD), NoJump), ASym(t)]
  }

  /** `@SP; A=M; M=-1` or `M=0`: a truth value into the cell SP points to. */
  function StoreTruth(b: bool): seq<Instr> {
    [AReg(SP), C(DestA, Form(Code.RegM), NoJump), C(DestM, Form(if b then Code.MinusOne else Code.Zero), NoJump)]
  }

  /** The fall-through path: store 0 (false) and jump to the join point. */
  function FalseBranch(e: string): seq<Instr> {
    StoreTruth(false) + [ASym(e), C(NoDest, Form(Code.Zero), JMP)]
  }

  /** The branch target: store -1 (true). */
  function TrueBranch(t: string): seq<Instr> {
    [Label(t)] + StoreTruth(true)
  }

  /** Everything after the head: the test of D, both branches, the join point, and `incrementSP`. */
  function CompareTail(j: Jump, t: string, e: string): seq<Instr> {
    [C(NoDest, Form(Code.RegD), j)] + FalseBranch(e) + TrueBranch(t) + [Label(e)] + IncrementSP()
  }

  function Compare(j: Jump, n: nat): seq<Instr> {
    CompareHead(TrueLabel(n)) + CompareTail(j, TrueLabel(n), EndLabel(n))
  }

  /** The jump a comparison tests D = x - y with. */
  function CompareJump(op: Op): Jump
    requires IsComparison(op)
  {
    match op
    case Eq => JEQ
    case Gt => JGT
    case Lt => JLT
  }

  /** The computation the other commands store into the cell of the result. */
  function StoreComp(op: Op): Comp
    requires !IsComparison(op)
  {
    match op
    case Add => MPlusD
    case Sub => Form(Code.MMinusD)
    case And => MAndD
    case Or => MOrD
    case Neg => Form(Code.NegM)
    case Not => Form(Code.NotM)
  }

  function Body(op: Op, n: nat): seq<Instr> {
    if IsComparison(op) then Compare(CompareJump(op), n)
    else if IsUnary(op) then Unary(StoreComp(op))
    else Binary(StoreComp(op))
  }

  datatype Emitted = Emitted(code: seq<Instr>, counter: nat)

  /**
   * `writeArithmetic(command)` with label counter `counter`: the echo comment,
   * then the command's block; an unrecognised command gets the comment only.
   */
  function WriteArithmetic(counter: nat, command: string): (r: Emitted)
    ensures r.code != [] && r.code[0] == Comment(command)
  {
    match OpOf(command)
    case None => Emitted([Comment(command)], counter)
    case Some(op) =>
      Emitted([Comment(command)] + Body(op, counter), if IsComparison(op) then counter + 1 else counter)
  }

  /**
   * The label counter is consumed exactly by the comparisons: eq, gt and lt
   * declare TRUE<n> and END<n> for the current counter n and advance it by
   * one; every other command declares no label and leaves it unchanged.
   */
  lemma WriteArithmeticLabels(counter: nat, command: string)
    ensures var r := WriteArithmetic(counter, command);
      if OpOf(command).Some? && IsComparison(OpOf(command).value) then
        r.counter == counter + 1 && Declared(r.code) == [TrueLabel(counter), EndLabel(counter)]
      else
        r.counter == counter && Declared(r.code) == []
  {
    var r := WriteArithmetic(counter, command);
    DeclaredNone([Comment(command)]);
    match OpOf(command)
    case None =>
    case Some(op) =>
      DeclaredAppend([Comment(command)], Body(op, counter));
      BodyDeclared(op, counter);
  }

  lemma BodyDeclared(op: Op, n: nat)
    ensures Declared(Body(op, n)) == if IsComparison(op) then [TrueLabel(n), EndLabel(n)] else []
  {
    if IsComparison(op) {
      CompareDeclared(CompareJump(op), n);
    } else if IsUnary(op) {
      DeclaredNone(Unary(StoreComp(op)));
    } else {
      DeclaredNone(Binary(StoreComp(op)));
    }
  }

  lemma CompareDeclared(j: Jump, n: nat)
    ensures Declared(Compare(j, n)) == [TrueLabel(n), EndLabel(n)]
  {
    DeclaredNone(CompareHead(TrueLabel(n)));
    DeclaredAppend(CompareHead(TrueLabel(n)), CompareTail(j, TrueLabel(n), EndLabel(n)));
    CompareTailDeclared(j, TrueLabel(n), EndLabel(n));
  }

  lemma CompareTailDeclared(j: Jump, t: string, e: string)
    ensures Declared(CompareTail(j, t, e)) == [t, e]
  {
    var p1 := [C(NoDest, Form(Code.RegD), j)] + FalseBranch(e);
    var p2 := p1 + TrueBranch(t);
    var p3 := p2 + [Label(e)];
    DeclaredNone(p1);
    DeclaredAppend(p1, TrueBranch(t));
    DeclaredNone(StoreTruth(true));
    DeclaredAppend([Label(t)], StoreTruth(true));
    DeclaredAppend(p2, [Label(e)]);
    DeclaredAppend(p3, IncrementSP());
    DeclaredNone(IncrementSP());
  }

  // ---------------------------------------------------------------- what the code computes

  /** A word read as a two's-complement number. */
  function Signed(w: Word): int {
    if w >= 0x8000 then w - 0x1_0000 else w
  }

  /** The VM's truth values: true is -1 (all sixteen bits set), false is 0. */
  function Truth(b: bool): Word {
    if b then 0xFFFF else 0
  }

  /**
   * The value a binary command leaves in place of its operands x and y
   * (y on top of the stack), as section 7.2.2 of the book defines it.
   */
  function VmBinary(op: Op, x: Word, y: Word): Word
    requires !IsUnary(op)
  {
    match op
    case Add => Wrap(x + y)
    case Sub => Wrap(x - y)
    case And => And16(x, y)
    case Or => Or16(x, y)
    case Eq => Truth(x == y)
    case Gt => Truth(Signed(x) > Signed(y))
    case Lt => Truth(Signed(x) < Signed(y))
  }

  function VmUnary(op: Op, y: Word): Word
    requires IsUnary(op)
  {
    match op
    case Neg => Wrap(0 - y)
    case Not => Not16(y)
  }

  /** gt and lt compare by the sign of x - y, which is right while that difference fits in 16 bits. */
  predicate CompareExact(op: Op, x: Word, y: Word) {
    (op == Gt || op == Lt) ==> -0x8000 <= Signed(x) - Signed(y) < 0x8000
  }

  function AfterBinary(c: Comp, m: Machine): Machine {
    var m2 := AfterDecrementSP(AfterPopToD(m));
    AfterIncrementSP(m2.(ram := m2.ram[m2.a := EvalComp(c, m2.a, m2.d, Mem(m2, m2.a))]))
  }

  function AfterUnary(c: Comp, m: Machine): Machine {
    var m2 := AfterDecrementSP(m);
    AfterIncrementSP(m2.(ram := m2.ram[m2.a := EvalComp(c, m2.a, m2.d, Mem(m2, m2.a))]))
  }

  lemma ExecBinary(env: map<string, Word>, c: Comp, rest: seq<Instr>, m: Machine)
    ensures Exec(env, Binary(c) + rest, m) == Exec(env, rest, AfterBinary(c, m))
  {
    var i := C(DestM, c, NoJump);
    Assoc4(PopToD(), DecrementSP(), [i], IncrementSP(), rest);
    var m1 := AfterPopToD(m);
    var m2 := AfterDecrementSP(m1);
    var m3 := m2.(ram := m2.ram[m2.a := EvalComp(c, m2.a, m2.d, Mem(m2, m2.a))]);
    ExecPopToD(env, DecrementSP() + ([i] + (IncrementSP() + rest)), m);
    ExecDecrementSP(env, [i] + (IncrementSP() + rest), m1);
    StepToM(env, c, m2);
    ExecCons(env, i, IncrementSP() + rest, m2, m3);
    ExecIncrementSP(env, rest, m3);
  }

  lemma ExecUnary(env: map<string, Word>, c: Comp, rest: seq<Instr>, m: Machine)
    ensures Exec(env, Unary(c) + rest, m) == Exec(env, rest, AfterUnary(c, m))
  {
    var i := C(DestM, c, NoJump);
    Assoc3(DecrementSP(), [i], IncrementSP(), rest);
    var m2 := AfterDecrementSP(m);
    var m3 := m2.(ram := m2.ram[m2.a := EvalComp(c, m2.a, m2.d, Mem(m2, m2.a))]);
    ExecDecrementSP(env, [i] + (IncrementSP() + rest), m);
    StepToM(env, c, m2);
    ExecCons(env, i, IncrementSP() + rest, m2, m3);
    ExecIncrementSP(env, rest, m3);
  }

  /**
   * A binary block replaces the top two cells x, y by c computed with D = y
   * and M = x, one cell lower: SP goes down by one and no other cell changes.
   */
  lemma BinaryEffect(c: Comp, m: Machine)
    requires Sp(m) >= 18
    ensures var m' := AfterBinary(c, m);
      Sp(m') == Sp(m) - 1
      && Mem(m', Sp(m) - 2) == EvalComp(c, Sp(m) - 2, Mem(m, Sp(m) - 1), Mem(m, Sp(m) - 2))
      && Unchanged(m, m', {0, Sp(m) - 2})
  {
  }

  /** A unary block rewrites the top cell in place: SP is unchanged and no other cell changes. */
  lemma UnaryEffect(c: Comp, m: Machine)
    requires Sp(m) >= 17
    ensures var m' := AfterUnary(c, m);
      Sp(m') == Sp(m)
      && Mem(m', Sp(m) - 1) == EvalComp(c, Sp(m) - 1, m.d, Mem(m, Sp(m) - 1))
      && Unchanged(m, m', {0, Sp(m) - 1})
  {
  }

  /** After the head: D = x - y, SP at x's cell, and A holding the true label. */
  function AfterCompareHead(env: map<string, Word>, t: string, m: Machine): Machine {
    var m2 := AfterDecrementSP(AfterPopToD(m));
    var m3 := m2.(d := Wrap(Mem(m2, m2.a) - m2.d));
    m3.(a := Resolve(env, t), aLabel := Some(t))
  }

  function AfterStoreTruth(m: Machine, b: bool): Machine {
    var m2 := m.(a := Mem(m, 0), aLabel := None);
    m2.(ram := m2.ram[m2.a := Truth(b)])
  }

  /** The whole comparison: the truth of the jump condition on x - y replaces x, then SP advances past it. */
  function AfterCompare(env: map<string, Word>, j: Jump, t: string, m: Machine): Machine {
    var h := AfterCompareHead(env, t, m);
    AfterIncrementSP(AfterStoreTruth(h, Jumps(j, h.d)))
  }

  lemma ExecCompareHead(env: map<string, Word>, t: string, rest: seq<Instr>, m: Machine)
    ensures Exec(env, CompareHead(t) + rest, m) == Exec(env, rest, AfterCompareHead(env, t, m))
  {
    var i0, i1 := C(DestD, Form(Code.MMinusD), NoJump), ASym(t);
    Assoc3(PopToD(), DecrementSP(), [i0, i1], rest);
    Split2(i0, i1, rest);
    var m1 := AfterPopToD(m);
    var m2 := AfterDecrementSP(m1);
    var m3 := m2.(d := Wrap(Mem(m2, m2.a) - m2.d));
    ExecPopToD(env, DecrementSP() + ([i0, i1] + rest), m);
    ExecDecrementSP(env, [i0, i1] + rest, m1);
    StepDFromMMinusD(env, m2);
    ExecCons(env, i0, [i1] + rest, m2, m3);
    StepASym(env, t, m3);
    ExecCons(env, i1, rest, m3, AfterCompareHead(env, t, m));
  }

  lemma ExecStoreTruth(env: map<string, Word>, b: bool, rest: seq<Instr>, m: Machine)
    ensures Exec(env, StoreTruth(b) + rest, m) == Exec(env, rest, AfterStoreTruth(m, b))
  {
    var i0, i1, i2 := AReg(SP), C(DestA, Form(Code.RegM), NoJump), C(DestM, Form(if b then Code.MinusOne else Code.Zero), NoJump);
    Split3(i0, i1, i2, rest);
    var m1 := m.(a := 0, aLabel := None);
    var m2 := m.(a := Mem(m, 0), aLabel := None);
    StepAReg(env, SP, m);
    ExecCons(env, i0, [i1] + ([i2] + rest), m, m1);
    StepAFromM(env, m1);
    ExecCons(env, i1, [i2] + rest, m1, m2);
    if b {
      StepStoreTrue(env, m2);
    } else {
      StepStoreZero(env, m2);
    }
    ExecCons(env, i2, rest, m2, AfterStoreTruth(m, b));
  }

  /** The branch is taken: skip the false path, store -1, and fall into the join point. */
  lemma ExecCompareTaken(env: map<string, Word>, j: Jump, t: string, e: string, rest: seq<Instr>, m: Machine)
    requires m.aLabel == Some(t) && Jumps(j, m.d) && t != e && Label(t) !in rest
    ensures Exec(env, CompareTail(j, t, e) + rest, m) == Exec(env, rest, AfterIncrementSP(AfterStoreTruth(m, true)))
  {
    var i := C(NoDest, Form(Code.RegD), j);
    var after := StoreTruth(true) + ([Label(e)] + (IncrementSP() + rest));
    var m' := AfterStoreTruth(m, true);
    Assoc5([i], FalseBranch(e), TrueBranch(t), [Label(e)], IncrementSP(), rest);
    Assoc([Label(t)], StoreTruth(true), [Label(e)] + (IncrementSP() + rest));
    StepJumpOnD(env, j, m);
    TrueLabelFree(t, e, rest);
    ExecJumpForward(env, i, FalseBranch(e), t, after, m, m);
    ExecStoreTruth(env, true, [Label(e)] + (IncrementSP() + rest), m);
    StepSkip(env, Label(e), m');
    ExecCons(env, Label(e), IncrementSP() + rest, m', m');
    ExecIncrementSP(env, rest, m');
  }

  /** The branch is not taken: store 0 and jump over the true path to the join point. */
  lemma ExecCompareNotTaken(env: map<string, Word>, j: Jump, t: string, e: string, rest: seq<Instr>, m: Machine)
    requires t != e && !Jumps(j, m.d) && Label(e) !in rest
    ensures Exec(env, CompareTail(j, t, e) + rest, m) == Exec(env, rest, AfterIncrementSP(AfterStoreTruth(m, false)))
  {
    var i := C(NoDest, Form(Code.RegD), j);
    var after := TrueBranch(t) + ([Label(e)] + (IncrementSP() + rest));
    Assoc5([i], FalseBranch(e), TrueBranch(t), [Label(e)], IncrementSP(), rest);
    StepJumpOnD(env, j, m);
    ExecCons(env, i, FalseBranch(e) + after, m, m);
    ExecFalseBranch(env, t, e, rest, m);
  }

  lemma ExecFalseBranch(env: map<string, Word>, t: string, e: string, rest: seq<Instr>, m: Machine)
    requires Label(e) !in rest
    ensures Exec(env, FalseBranch(e) + (TrueBranch(t) + ([Label(e)] + (IncrementSP() + rest))), m)
      == Exec(env, rest, AfterIncrementSP(AfterStoreTruth(m, false)))
  {
    var load, jmp := ASym(e), C(NoDest, Form(Code.Zero), JMP);
    var after := TrueBranch(t) + ([Label(e)] + (IncrementSP() + rest));
    var m1 := AfterStoreTruth(m, false);
    Assoc(StoreTruth(false), [load, jmp], after);
    Split2(load, jmp, after);
    ExecStoreTruth(env, false, [load] + ([jmp] + after), m);
    ExecJoin(env, t, e, rest, m1);
  }

  /** `@e; 0;JMP` over the true path: only SP's advance remains. */
  lemma ExecJoin(env: map<string, Word>, t: string, e: string, rest: seq<Instr>, m: Machine)
    requires Label(e) !in rest
    ensures Exec(env, [ASym(e)] + ([C(NoDest, Form(Code.Zero), JMP)] + (TrueBranch(t) + ([Label(e)] + (IncrementSP() + rest)))), m)
      == Exec(env, rest, AfterIncrementSP(m))
  {
    JoinLabelFree(e, rest);
    ExecGotoForward(env, e, TrueBranch(t), IncrementSP() + rest, m);
    ExecIncrementAfterLoad(env, rest, m, m.(a := Resolve(env, e), aLabel := Some(e)));
  }

  /** Past the join point's declaration only `incrementSP` and `rest` remain, neither declaring `e`. */
  lemma JoinLabelFree(e: string, rest: seq<Instr>)
    requires Label(e) !in rest
    ensures Label(e) !in IncrementSP() + rest
  {
    assert IncrementSP() == [AReg(SP), C(DestM, Form(Code.MPlusOne), NoJump)];
  }

  /** Past the true path's declaration `t` is declared nowhere: the join label is another. */
  lemma TrueLabelFree(t: string, e: string, rest: seq<Instr>)
    requires t != e && Label(t) !in rest
    ensures Label(t) !in StoreTruth(true) + ([Label(e)] + (IncrementSP() + rest))
  {
    JoinLabelFree(t, rest);
    assert StoreTruth(true) == [AReg(SP), C(DestA, Form(Code.RegM), NoJump), C(DestM, Form(Code.MinusOne), NoJump)];
  }

  /** `incrementSP` ignores what A held before it. */
  lemma ExecIncrementAfterLoad(env: map<string, Word>, rest: seq<Instr>, m: Machine, m1: Machine)
    requires m1.ram == m.ram && m1.d == m.d
    ensures Exec(env, IncrementSP() + rest, m1) == Exec(env, rest, AfterIncrementSP(m))
  {
    ExecIncrementSP(env, rest, m1);
    assert AfterIncrementSP(m1) == AfterIncrementSP(m);
  }

  lemma ExecCompare(env: map<string, Word>, j: Jump, n: nat, rest: seq<Instr>, m: Machine)
    requires Label(TrueLabel(n)) !in rest && Label(EndLabel(n)) !in rest
    ensures Exec(env, Compare(j, n) + rest, m) == Exec(env, rest, AfterCompare(env, j, TrueLabel(n), m))
  {
    var t, e := TrueLabel(n), EndLabel(n);
    var h := AfterCompareHead(env, t, m);
    assert TrueLabel(n)[0] == 'T' && EndLabel(n)[0] == 'E';
    Assoc(CompareHead(t), CompareTail(j, t, e), rest);
    ExecCompareHead(env, t, CompareTail(j, t, e) + rest, m);
    if Jumps(j, h.d) {
      ExecCompareTaken(env, j, t, e, rest, h);
    } else {
      ExecCompareNotTaken(env, j, t, e, rest, h);
    }
  }

  /**
   * A comparison replaces the top two cells x, y by the truth of the jump
   * condition on x - y (wrapped to 16 bits), one cell lower: SP goes down by
   * one and no other cell changes.
   */
  lemma CompareEffect(env: map<string, Word>, j: Jump, t: string, m: Machine)
    requires Sp(m) >= 18
    ensures var m' := AfterCompare(env, j, t, m);
      Sp(m') == Sp(m) - 1
      && Mem(m', Sp(m) - 2) == Truth(Jumps(j, Wrap(Mem(m, Sp(m) - 2) - Mem(m, Sp(m) - 1))))
      && Unchanged(m, m', {0, Sp(m) - 2})
  {
  }

  // ---------------------------------------------------------------- meaning

  /** add, sub, and, or store the book's value of `x op y` (D holds y, M holds x). */
  lemma StoreCompMeaning(op: Op, a: Word, x: Word, y: Word)
    requires !IsComparison(op) && !IsUnary(op)
    ensures EvalComp(StoreComp(op), a, y, x) == VmBinary(op, x, y)
  {
    match op
    case Add =>
    case Sub =>
    case And => assert (y as bv16) & (x as bv16) == (x as bv16) & (y as bv16);
    case Or => assert (y as bv16) | (x as bv16) == (x as bv16) | (y as bv16);
  }

  /** neg and not store the book's value of `op y`, whatever D holds. */
  lemma UnaryMeaning(op: Op, a: Word, d: Word, y: Word)
    requires IsUnary(op)
    ensures EvalComp(StoreComp(op), a, d, y) == VmUnary(op, y)
  {
  }

  /** eq always, and gt and lt when x - y does not overflow, store the book's truth value. */
  lemma CompareMeaning(op: Op, x: Word, y: Word)
    requires IsComparison(op) && CompareExact(op, x, y)
    ensures Truth(Jumps(CompareJump(op), Wrap(x - y))) == VmBinary(op, x, y)
  {
  }

  /** When x - y overflows the answer is wrong: gt reports 32767 > -1 as false. */
  lemma CompareOverflow()
    ensures !CompareExact(Gt, 0x7FFF, 0xFFFF)
    ensures Truth(Jumps(CompareJump(Gt), Wrap(0x7FFF - 0xFFFF))) == 0
    ensures VmBinary(Gt, 0x7FFF, 0xFFFF) == 0xFFFF
  {
  }

  /** The machine after the block of `op` written with label counter `n`. */
  function AfterOp(env: map<string, Word>, op: Op, n: nat, m: Machine): Machine {
    if IsComparison(op) then AfterCompare(env, CompareJump(op), TrueLabel(n), m)
    else if IsUnary(op) then AfterUnary(StoreComp(op), m)
    else AfterBinary(StoreComp(op), m)
  }

  /** The code written for a command runs straight through its block: no jump leaves it. */
  lemma ExecWriteArithmetic(env: map<string, Word>, counter: nat, op: Op, rest: seq<Instr>, m: Machine)
    requires IsComparison(op) ==> Label(TrueLabel(counter)) !in rest && Label(EndLabel(counter)) !in rest
    ensures Exec(env, WriteArithmetic(counter, OpName(op)).code + rest, m) == Exec(env, rest, AfterOp(env, op, counter, m))
  {
    var echo := Comment(OpName(op));
    var body := Body(op, counter);
    OpOfName(op);
    Assoc([echo], body, rest);
    StepSkip(env, echo, m);
    ExecCons(env, echo, body + rest, m, m);
    if IsComparison(op) {
      ExecCompare(env, CompareJump(op), counter, rest, m);
    } else if IsUnary(op) {
      ExecUnary(env, StoreComp(op), rest, m);
    } else {
      ExecBinary(env, StoreComp(op), rest, m);
    }
  }

  /**
   * What each command does to the stack, with its operands on top: a unary
   * command rewrites the top cell and leaves SP alone; a binary command
   * replaces its two operands by the result and moves SP down by one.  The
   * result is the book's value (for gt and lt, when x - y does not overflow),
   * and no other RAM cell changes.
   */
  lemma ArithmeticStack(env: map<string, Word>, op: Op, n: nat, m: Machine)
    requires Sp(m) >= (if IsUnary(op) then 17 else 18)
    ensures var m' := AfterOp(env, op, n, m);
      if IsUnary(op) then
        Sp(m') == Sp(m)
        && Mem(m', Sp(m) - 1) == VmUnary(op, Mem(m, Sp(m) - 1))
        && Unchanged(m, m', {0, Sp(m) - 1})
      else
        Sp(m') == Sp(m) - 1
        && (CompareExact(op, Mem(m, Sp(m) - 2), Mem(m, Sp(m) - 1)) ==>
              Mem(m', Sp(m) - 2) == VmBinary(op, Mem(m, Sp(m) - 2), Mem(m, Sp(m) - 1)))
        && Unchanged(m, m', {0, Sp(m) - 2})
  {
    var sp := Sp(m);
    if IsComparison(op) {
      CompareEffect(env, CompareJump(op), TrueLabel(n), m);
      if CompareExact(op, Mem(m, sp - 2), Mem(m, sp - 1)) {
        CompareMeaning(op, Mem(m, sp - 2), Mem(m, sp - 1));
      }
    } else if IsUnary(op) {
      UnaryEffect(StoreComp(op), m);
      UnaryMeaning(op, sp - 1, m.d, Mem(m, sp - 1));
    } else {
      BinaryEffect(StoreComp(op), m);
      StoreCompMeaning(op, sp - 2, Mem(m, sp - 2), Mem(m, sp - 1));
    }
  }
}

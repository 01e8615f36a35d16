/**
 * The project-7 `CodeWriter`: `writeArithmetic` (shared with project 8, see
 * the Arithmetic module) and `writePushPop`, whose one difference from
 * project 8 is `static`: here static i is the cell 16 + i, loaded like
 * temp's base, for every file alike.
 */
module CodeWriter7 {
  import opened Base
  import opened Text
  import opened HackAsm
  import opened HackMachine
  import opened StackCode
  import opened Segments
  import Arithmetic
  import Code

  /** Project 7's bases: the common ones, and static at the fixed address 16. */
  function Base7(s: Segment): Option<SegmentBase> {
    if s == Static then Some(Fixed(16)) else CommonBase(s)
  }

  function PushBody(s: Segment, index: int): seq<Instr> {
    match s
    case Constant => PushConstant(index)
    case Pointer => PushPointer(index)
    case _ => LoadBase(Base7(s)) + PushIndexed(index)
  }

  function PopBody(s: Segment, index: int): seq<Instr> {
    if s == Pointer then PopPointer(index) else LoadBase(Base7(s)) + PopIndexed(index)
  }

  /**
   * `writePushPop(command, segment, index)`: the echo comment and the body
   * for C_PUSH and C_POP; any other command writes nothing.
   */
  function WritePushPop(command: int, segment: string, index: int): (r: seq<Instr>)
    ensures r == [] <==> command != C_PUSH && command != C_POP
    ensures command == C_PUSH ==> r[0] == Echo("push", segment, index)
    ensures command == C_POP ==> r[0] == Echo("pop", segment, index)
  {
    if command == C_PUSH then [Echo("push", segment, index)] + PushBody(SegmentOf(segment), index)
    else if command == C_POP then [Echo("pop", segment, index)] + PopBody(SegmentOf(segment), index)
    else []
  }

  /** An index the body can encode: a 15-bit constant, and 0 or 1 for pointer. */
  predicate Encodable(s: Segment, index: int) {
    0 <= index < 0x8000 && (s == Pointer ==> index <= 1)
  }

  /**
   * The RAM cell `segment index` denotes: pointer i is RAM[3 + i], the pointed
   * segments are base + i, temp is 5 + i, static is 16 + i; for a segment
   * the writer does not recognise (and for `pop constant`) the code adds the
   * index to whatever D held.
   */
  function Target(s: Segment, index: int, m: Machine): Word
    requires Encodable(s, index)
  {
    if s == Pointer then 3 + index else IndexedTarget(Base7(s), index, m)
  }

  /** What `push` puts on the stack: the constant itself, or the target cell's contents. */
  function Pushed(s: Segment, index: int, m: Machine): Word
    requires Encodable(s, index)
  {
    if s == Constant then index else Mem(m, Target(s, index, m))
  }

  /** The body runs straight through after the echo comment. */
  lemma ExecAfterEcho(env: map<string, Word>, echo: Instr, body: seq<Instr>, rest: seq<Instr>, m: Machine)
    requires echo.Comment?
    ensures Exec(env, [echo] + body + rest, m) == Exec(env, body + rest, m)
  {
    Assoc([echo], body, rest);
    StepSkip(env, echo, m);
    ExecCons(env, echo, body + rest, m, m);
  }

  function AfterPush(s: Segment, index: int, m: Machine): Machine
    requires Encodable(s, index)
  {
    match s
    case Constant => AfterPushD(AfterLoadBase(Fixed(index), m))
    case Pointer => AfterPushD(AfterLoadBase(Pointed(PointerRegister(index).value), m))
    case _ => AfterPushIndexed(index, AfterLoad(Base7(s), m))
  }

  function AfterPop(s: Segment, index: int, m: Machine): Machine
    requires Encodable(s, index)
  {
    if s == Pointer then AfterPopPointer(PointerRegister(index).value, m)
    else AfterPopIndexed(index, AfterLoad(Base7(s), m))
  }

  lemma PushBodyRun(env: map<string, Word>, s: Segment, index: int, rest: seq<Instr>, m: Machine)
    requires Encodable(s, index) && 16 <= Sp(m) < 0xFFFF
    ensures var m' := AfterPush(s, index, m);
      Exec(env, PushBody(s, index) + rest, m) == Exec(env, rest, m')
      && Sp(m') == Sp(m) + 1
      && Mem(m', Sp(m)) == Pushed(s, index, m)
      && Unchanged(m, m', {0, Sp(m)})
  {
    if s == Constant {
      PushConstantBodyRun(env, index, rest, m);
    } else if s == Pointer {
      PushPointerBodyRun(env, index, rest, m);
    } else {
      PushIndexedRun(env, s, index, rest, m);
    }
  }

  lemma PushConstantBodyRun(env: map<string, Word>, index: int, rest: seq<Instr>, m: Machine)
    requires 0 <= index < 0x8000 && 16 <= Sp(m) < 0xFFFF
    ensures var m' := AfterPush(Constant, index, m);
      Exec(env, PushBody(Constant, index) + rest, m) == Exec(env, rest, m')
      && Sp(m') == Sp(m) + 1
      && Mem(m', Sp(m)) == Pushed(Constant, index, m)
      && Unchanged(m, m', {0, Sp(m)})
  {
    PushConstantRun(env, index, rest, m);
  }

  lemma PushPointerBodyRun(env: map<string, Word>, index: int, rest: seq<Instr>, m: Machine)
    requires 0 <= index <= 1 && 16 <= Sp(m) < 0xFFFF
    ensures var m' := AfterPush(Pointer, index, m);
      Exec(env, PushBody(Pointer, index) + rest, m) == Exec(env, rest, m')
      && Sp(m') == Sp(m) + 1
      && Mem(m', Sp(m)) == Pushed(Pointer, index, m)
      && Unchanged(m, m', {0, Sp(m)})
  {
    PushPointerRun(env, PointerRegister(index).value, rest, m);
  }

  lemma PushIndexedRun(env: map<string, Word>, s: Segment, index: int, rest: seq<Instr>, m: Machine)
    requires s != Constant && s != Pointer && 0 <= index < 0x8000 && 16 <= Sp(m) < 0xFFFF
    ensures var m' := AfterPush(s, index, m);
      Exec(env, PushBody(s, index) + rest, m) == Exec(env, rest, m')
      && Sp(m') == Sp(m) + 1
      && Mem(m', Sp(m)) == Pushed(s, index, m)
      && Unchanged(m, m', {0, Sp(m)})
  {
    PushFrom(env, Base7(s), index, rest, m);
  }

  lemma PopBodyRun(env: map<string, Word>, s: Segment, index: int, rest: seq<Instr>, m: Machine)
    requires Encodable(s, index) && Sp(m) >= 17
    ensures var m' := AfterPop(s, index, m); var t := Target(s, index, m);
      Exec(env, PopBody(s, index) + rest, m) == Exec(env, rest, m')
      && Mem(m', t) == Mem(m, Sp(m) - 1)
      && (t != 0 ==> Sp(m') == Sp(m) - 1)
      && (s == Pointer ==> Mem(m', 13) == Mem(m, 13))
      && (s != Pointer && t != 13 ==> Mem(m', 13) == t)
      && Unchanged(m, m', {0, 13, t})
  {
    if s == Pointer {
      PopPointerRun(env, index, rest, m);
    } else {
      PopInto(env, Base7(s), index, rest, m);
    }
  }

  /** `pop pointer i` writes THIS or THAT directly, leaving R13 alone. */
  lemma PopPointerRun(env: map<string, Word>, index: int, rest: seq<Instr>, m: Machine)
    requires Encodable(Pointer, index) && Sp(m) >= 17
    ensures var m' := AfterPop(Pointer, index, m); var t := Target(Pointer, index, m);
      Exec(env, PopBody(Pointer, index) + rest, m) == Exec(env, rest, m')
      && Mem(m', t) == Mem(m, Sp(m) - 1)
      && (t != 0 ==> Sp(m') == Sp(m) - 1)
      && Mem(m', 13) == Mem(m, 13)
      && Unchanged(m, m', {0, 13, t})
  {
    var r := PointerRegister(index).value;
    Assoc(PopToD(), [AReg(r), C(DestM, Form(Code.RegD), NoJump)], rest);
    ExecPopPointer(env, r, rest, m);
    PopPointerEffect(r, m);
  }

  /**
   * `push segment index` pushes the value the segment holds at the index:
   * SP goes up by one, the old top cell gets the value, and no other RAM
   * cell changes.
   */
  lemma PushEffect(env: map<string, Word>, segment: string, index: int, rest: seq<Instr>, m: Machine)
    requires Encodable(SegmentOf(segment), index) && 16 <= Sp(m) < 0xFFFF
    ensures exists m' ::
      (Exec(env, WritePushPop(C_PUSH, segment, index) + rest, m) == Exec(env, rest, m')
       && Sp(m') == Sp(m) + 1
       && Mem(m', Sp(m)) == Pushed(SegmentOf(segment), index, m)
       && Unchanged(m, m', {0, Sp(m)}))
  {
    var s := SegmentOf(segment);
    ExecAfterEcho(env, Echo("push", segment, index), PushBody(s, index), rest, m);
    PushBodyRun(env, s, index, rest, m);
    var m' := AfterPush(s, index, m);
    assert Exec(env, WritePushPop(C_PUSH, segment, index) + rest, m) == Exec(env, rest, m');
  }

  /**
   * `pop segment index` moves the top of the stack into the target cell: SP
   * goes down by one (unless the target is SP itself); pointer writes THIS
   * or THAT directly, every other segment saves the target address in R13
   * first; nothing else changes.
   */
  lemma PopEffect(env: map<string, Word>, segment: string, index: int, rest: seq<Instr>, m: Machine)
    requires Encodable(SegmentOf(segment), index) && Sp(m) >= 17
    ensures var s := SegmentOf(segment); var t := Target(s, index, m);
      exists m' ::
        (Exec(env, WritePushPop(C_POP, segment, index) + rest, m) == Exec(env, rest, m')
         && Mem(m', t) == Mem(m, Sp(m) - 1)
         && (t != 0 ==> Sp(m') == Sp(m) - 1)
         && (s == Pointer ==> Mem(m', 13) == Mem(m, 13))
         && (s != Pointer && t != 13 ==> Mem(m', 13) == t)
         && Unchanged(m, m', {0, 13, t}))
  {
    var s := SegmentOf(segment);
    ExecAfterEcho(env, Echo("pop", segment, index), PopBody(s, index), rest, m);
    PopBodyRun(env, s, index, rest, m);
    var m' := AfterPop(s, index, m);
    assert Exec(env, WritePushPop(C_POP, segment, index) + rest, m) == Exec(env, rest, m');
  }

  /** `push static i` reads RAM[16 + i] in every file: project 7 has one static area. */
  lemma StaticIsSixteenPlus(index: int, m: Machine)
    requires 0 <= index < 0x8000
    ensures Target(Static, index, m) == 16 + index
  {
  }

  /** A pointer index other than 0 or 1 writes the echo comment and nothing else. */
  lemma PointerOutOfRange(command: int, index: int)
    requires command == C_PUSH || command == C_POP
    requires PointerRegister(index).None?
    ensures |WritePushPop(command, "pointer", index)| == 1
  {
  }

  lemma BodiesLabelFree(s: Segment, index: int)
    ensures LabelFree(PushBody(s, index)) && LabelFree(PopBody(s, index))
  {
    PiecesLabelFree(Base7(s), index);
    LabelFreeAppend(LoadBase(Base7(s)), PushIndexed(index));
    LabelFreeAppend(LoadBase(Base7(s)), PopIndexed(index));
  }

  /** `writePushPop` declares no label. */
  lemma PushPopDeclaresNothing(command: int, segment: string, index: int)
    ensures Declared(WritePushPop(command, segment, index)) == []
  {
    var s := SegmentOf(segment);
    BodiesLabelFree(s, index);
    if command == C_PUSH {
      LabelFreeAppend([Echo("push", segment, index)], PushBody(s, index));
    } else if command == C_POP {
      LabelFreeAppend([Echo("pop", segment, index)], PopBody(s, index));
    }
    DeclaredNone(WritePushPop(command, segment, index));
  }

  /** One call the project-7 driver makes on its CodeWriter. */
  datatype Call =
    | ArithmeticCall(command: string)
    | PushPopCall(kind: int, segment: string, index: int)

  function Write(counter: nat, call: Call): Arithmetic.Emitted {
    match call
    case ArithmeticCall(c) => Arithmetic.WriteArithmetic(counter, c)
    case PushPopCall(k, s, i) => Arithmetic.Emitted(WritePushPop(k, s, i), counter)
  }

  /** A whole translation: the calls in order, the label counter threaded through. */
  function Translate(counter: nat, calls: seq<Call>): Arithmetic.Emitted
    decreases |calls|
  {
    if calls == [] then Arithmetic.Emitted([], counter)
    else
      var e := Write(counter, calls[0]);
      var r := Translate(e.counter, calls[1..]);
      Arithmetic.Emitted(e.code + r.code, r.counter)
  }

  /** One call declares either nothing or the two labels minted from the counter, consuming it. */
  lemma WriteLabels(counter: nat, call: Call)
    ensures var e := Write(counter, call);
      NoDup(Declared(e.code))
      && (e.counter == counter || e.counter == counter + 1)
      && (Declared(e.code) != [] ==> e.counter == counter + 1)
      && forall x :: x in Declared(e.code) ==> Arithmetic.LabelNumber(x) == counter
  {
    match call
    case ArithmeticCall(c) => Arithmetic.ArithmeticMints(counter, c);
    case PushPopCall(k, s, i) => PushPopDeclaresNothing(k, s, i);
  }

  /**
   * Every label a translation declares was minted by one comparison from
   * the running counter, the counter only grows, and no label is declared
   * twice.
   */
  lemma {:induction false} TranslateLabels(counter: nat, calls: seq<Call>)
    ensures var r := Translate(counter, calls);
      counter <= r.counter
      && NoDup(Declared(r.code))
      && forall x :: x in Declared(r.code) ==> counter <= Arithmetic.LabelNumber(x) < r.counter
    decreases |calls|
  {
    if calls != [] {
      var e := Write(counter, calls[0]);
      var r := Translate(e.counter, calls[1..]);
      WriteLabels(counter, calls[0]);
      TranslateLabels(e.counter, calls[1..]);
      DeclaredAppend(e.code, r.code);
      NoDupAppend(Declared(e.code), Declared(r.code));
    }
  }
}

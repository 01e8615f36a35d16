/**
 * The project-8 `CodeWriter`: everything of project 7, plus program flow
 * (`label`, `goto`, `if-goto`), the function-call protocol (`function`,
 * `call`, `return`), the bootstrap, and `static` variables named after the
 * current file.
 *
 * The writer's state is the label counter and the current file name; each
 * `write*` method is a function from that state and the command's
 * arguments to the new state and the emitted instructions.
 */
module CodeWriter8 {
  import opened Base
  import opened Text
  import opened HackAsm
  import opened HackMachine
  import opened StackCode
  import opened Segments
  import Arithmetic
  import CodeWriter7
  import Code

  /** `labelCounter` and `currentFileName`, which is null until `setFileName` runs. */
  datatype Writer = Writer(counter: nat, file: Option<string>)

  /** The state the constructor leaves: counter 0, no file name. */
  const Fresh: Writer := Writer(0, None)

  // ---------------------------------------------------------------- setFileName

  /** Java's `lastIndexOf`: the index, or -1. */
  function JavaIndex(r: Option<nat>): int {
    if r.None? then -1 else r.value
  }

  /**
   * `setFileName(path)`: the text after the last '/' (after the last '\'
   * when there is no '/') up to the last '.'.  `substring` throws when that
   * '.' lies before the start, as in "./Main" or "dir.v/Main".
   */
  function FileNameOf(path: string): (r: Result<string>)
    ensures r.Ok? ==> '/' !in r.value
    ensures r.Ok? && '/' !in path ==> '\\' !in r.value
  {
    var slash0 := JavaIndex(LastIndexOfChar(path, '/'));
    var dot := JavaIndex(LastIndexOfChar(path, '.'));
    var slash := if slash0 == -1 then JavaIndex(LastIndexOfChar(path, '\\')) else slash0;
    if dot == -1 then Ok(path[slash + 1..])
    else if slash + 1 <= dot then Ok(path[slash + 1..dot])
    else Err(IndexOutOfBounds(slash + 1, dot))
  }

  function SetFileName(w: Writer, path: string): Result<Writer> {
    match FileNameOf(path)
    case Ok(name) => Ok(w.(file := Some(name)))
    case Err(e) => Err(e)
  }

  /** `dir/Name.ext` gives `Name`, dots inside the name included. */
  lemma FileNameOfPath(dir: string, name: string, ext: string)
    requires '/' !in name && '/' !in ext && '.' !in ext
    ensures FileNameOf(dir + "/" + name + "." + ext) == Ok(name)
  {
    var path := dir + "/" + name + "." + ext;
    var slash := |dir|;
    var dot := |dir| + 1 + |name|;
    assert path[dot + 1..] == ext;
    LastIndexOfCharAt(path, '.', dot);
    assert path[slash + 1..] == name + "." + ext;
    LastIndexOfCharAt(path, '/', slash);
    assert path[slash + 1..dot] == name;
  }

  /** A path without an extension keeps everything after the last separator. */
  lemma FileNameOfBare(dir: string, name: string)
    requires '/' !in name && '.' !in name && '.' !in dir
    ensures FileNameOf(dir + "/" + name) == Ok(name)
  {
    var path := dir + "/" + name;
    assert path[|dir| + 1..] == name;
    LastIndexOfCharAt(path, '/', |dir|);
    LastIndexOfCharBefore(path, '.', 0);
  }

  /** With no '/', a Windows path is split at its last '\'. */
  lemma FileNameOfWindowsPath(dir: string, name: string, ext: string)
    requires '/' !in dir && '/' !in name && '/' !in ext
    requires '\\' !in name && '\\' !in ext && '.' !in ext
    ensures FileNameOf(dir + "\\" + name + "." + ext) == Ok(name)
  {
    var path := dir + "\\" + name + "." + ext;
    var slash := |dir|;
    var dot := |dir| + 1 + |name|;
    assert path[dot + 1..] == ext;
    LastIndexOfCharAt(path, '.', dot);
    assert path[slash + 1..] == name + "." + ext;
    LastIndexOfCharAt(path, '\\', slash);
    LastIndexOfCharBefore(path, '/', 0);
    assert path[slash + 1..dot] == name;
  }

  /** A '.' in a directory name, with none in the file name, makes `substring` throw. */
  lemma FileNameOfDottedDirectory(dir: string, name: string)
    requires '.' in dir && '/' !in name && '.' !in name
    ensures FileNameOf(dir + "/" + name).Err?
  {
    var path := dir + "/" + name;
    assert path[|dir| + 1..] == name;
    LastIndexOfCharAt(path, '/', |dir|);
    assert path[|dir|..] == "/" + name;
    LastIndexOfCharBefore(path, '.', |dir|);
    var k :| 0 <= k < |dir| && dir[k] == '.';
    assert path[k] == '.';
  }

  // ---------------------------------------------------------------- static

  /** The file name as string concatenation renders it: a null name prints as "null". */
  function FileText(file: Option<string>): string {
    if file.None? then "null" else file.value
  }

  /** `static i` is the assembler symbol `<file>.<i>`. */
  function StaticName(file: Option<string>, index: int): string {
    FileText(file) + "." + IntToString(index)
  }

  /**
   * Two static references share a symbol only when they name the same
   * file and the same index: each file's statics are its own.
   */
  lemma StaticNameInjective(f: Option<string>, i: int, g: Option<string>, j: int)
    requires StaticName(f, i) == StaticName(g, j)
    ensures FileText(f) == FileText(g) && i == j
  {
    IntToStringNoChar(i, '.');
    IntToStringNoChar(j, '.');
    SplitAtLast(FileText(f), IntToString(i), FileText(g), IntToString(j), '.');
    IntToStringInjective(i, j);
  }

  /** `@<file>.<i>; D=M` then push. */
  function PushStatic(name: string): seq<Instr> {
    [ASym(name), C(DestD, Form(Code.RegM), NoJump)] + PushD()
  }

  /** Pop to D, then `@<file>.<i>; M=D`. */
  function PopStatic(name: string): seq<Instr> {
    PopToD() + [ASym(name), C(DestM, Form(Code.RegD), NoJump)]
  }

  // ---------------------------------------------------------------- writePushPop

  function PushBody(file: Option<string>, s: Segment, index: int): seq<Instr> {
    match s
    case Constant => PushConstant(index)
    case Pointer => PushPointer(index)
    case Static => PushStatic(StaticName(file, index))
    case _ => LoadBase(CommonBase(s)) + PushIndexed(index)
  }

  function PopBody(file: Option<string>, s: Segment, index: int): seq<Instr> {
    match s
    case Pointer => PopPointer(index)
    case Static => PopStatic(StaticName(file, index))
    case _ => LoadBase(CommonBase(s)) + PopIndexed(index)
  }

  /** `writePushPop(command, segment, index)` in the current file. */
  function WritePushPop(w: Writer, command: int, segment: string, index: int): (r: seq<Instr>)
    ensures r == [] <==> command != C_PUSH && command != C_POP
    ensures command == C_PUSH ==> r[0] == Echo("push", segment, index)
    ensures command == C_POP ==> r[0] == Echo("pop", segment, index)
  {
    if command == C_PUSH then [Echo("push", segment, index)] + PushBody(w.file, SegmentOf(segment), index)
    else if command == C_POP then [Echo("pop", segment, index)] + PopBody(w.file, SegmentOf(segment), index)
    else []
  }

  /** Outside `static`, project 8 writes exactly what project 7 writes. */
  lemma SameAsProject7(w: Writer, command: int, segment: string, index: int)
    requires SegmentOf(segment) != Static
    ensures WritePushPop(w, command, segment, index) == CodeWriter7.WritePushPop(command, segment, index)
  {
    var s := SegmentOf(segment);
    assert CodeWriter7.Base7(s) == CommonBase(s);
    assert PushBody(w.file, s, index) == CodeWriter7.PushBody(s, index);
    assert PopBody(w.file, s, index) == CodeWriter7.PopBody(s, index);
  }

  /** The value `push` copies: the static symbol's cell, or what project 7 pushes. */
  function Pushed(env: map<string, Word>, file: Option<string>, s: Segment, index: int, m: Machine): Word
    requires CodeWriter7.Encodable(s, index)
  {
    if s == Static then Mem(m, Resolve(env, StaticName(file, index)))
    else CodeWriter7.Pushed(s, index, m)
  }

  /** The cell `pop` writes: the static symbol's cell, or project 7's target. */
  function Target(env: map<string, Word>, file: Option<string>, s: Segment, index: int, m: Machine): Word
    requires CodeWriter7.Encodable(s, index)
  {
    if s == Static then Resolve(env, StaticName(file, index))
    else CodeWriter7.Target(s, index, m)
  }

  function AfterPushStatic(env: map<string, Word>, name: string, m: Machine): Machine {
    var m1 := m.(a := Resolve(env, name), aLabel := Some(name));
    AfterPushD(m1.(d := Mem(m1, m1.a)))
  }

  function AfterPopStatic(env: map<string, Word>, name: string, m: Machine): Machine {
    var m1 := AfterPopToD(m).(a := Resolve(env, name), aLabel := Some(name));
    m1.(ram := m1.ram[m1.a := m1.d])
  }

  lemma PushStaticRun(env: map<string, Word>, name: string, rest: seq<Instr>, m: Machine)
    requires 16 <= Sp(m) < 0xFFFF
    ensures var m' := AfterPushStatic(env, name, m);
      Exec(env, PushStatic(name) + rest, m) == Exec(env, rest, m')
      && Sp(m') == Sp(m) + 1
      && Mem(m', Sp(m)) == Mem(m, Resolve(env, name))
      && Unchanged(m, m', {0, Sp(m)})
  {
    var load, read := ASym(name), C(DestD, Form(Code.RegM), NoJump);
    var m1 := m.(a := Resolve(env, name), aLabel := Some(name));
    var m2 := m1.(d := Mem(m1, m1.a));
    Split2(load, read, PushD() + rest);
    Assoc([load, read], PushD(), rest);
    StepASym(env, name, m);
    ExecCons(env, load, [read] + (PushD() + rest), m, m1);
    StepDFromM(env, m1);
    ExecCons(env, read, PushD() + rest, m1, m2);
    ExecPushD(env, rest, m2);
    PushDEffect(m2);
  }

  lemma PopStaticRun(env: map<string, Word>, name: string, rest: seq<Instr>, m: Machine)
    requires Sp(m) >= 17
    ensures var m' := AfterPopStatic(env, name, m); var t := Resolve(env, name);
      Exec(env, PopStatic(name) + rest, m) == Exec(env, rest, m')
      && Mem(m', t) == Mem(m, Sp(m) - 1)
      && (t != 0 ==> Sp(m') == Sp(m) - 1)
      && Unchanged(m, m', {0, t})
  {
    var load, store := ASym(name), C(DestM, Form(Code.RegD), NoJump);
    var m1 := AfterPopToD(m);
    var m2 := m1.(a := Resolve(env, name), aLabel := Some(name));
    Assoc(PopToD(), [load, store], rest);
    Split2(load, store, rest);
    ExecPopToD(env, [load, store] + rest, m);
    StepASym(env, name, m1);
    ExecCons(env, load, [store] + rest, m1, m2);
    StepMFromD(env, m2);
    ExecCons(env, store, rest, m2, m2.(ram := m2.ram[m2.a := m2.d]));
    PopToDEffect(m);
  }

  /**
   * `push segment index` in project 8: SP goes up by one, the old top cell
   * receives the segment's value (for static, the cell of the symbol
   * `<file>.<index>`), and no other RAM cell changes.
   */
  lemma PushEffect(env: map<string, Word>, w: Writer, segment: string, index: int, rest: seq<Instr>, m: Machine)
    requires CodeWriter7.Encodable(SegmentOf(segment), index) && 16 <= Sp(m) < 0xFFFF
    ensures exists m' ::
      (Exec(env, WritePushPop(w, C_PUSH, segment, index) + rest, m) == Exec(env, rest, m')
       && Sp(m') == Sp(m) + 1
       && Mem(m', Sp(m)) == Pushed(env, w.file, SegmentOf(segment), index, m)
       && Unchanged(m, m', {0, Sp(m)}))
  {
    var s := SegmentOf(segment);
    if s == Static {
      var name := StaticName(w.file, index);
      CodeWriter7.ExecAfterEcho(env, Echo("push", segment, index), PushStatic(name), rest, m);
      PushStaticRun(env, name, rest, m);
      var m' := AfterPushStatic(env, name, m);
      assert Exec(env, WritePushPop(w, C_PUSH, segment, index) + rest, m) == Exec(env, rest, m');
    } else {
      SameAsProject7(w, C_PUSH, segment, index);
      CodeWriter7.PushEffect(env, segment, index, rest, m);
    }
  }

  /**
   * `pop segment index` in project 8: the top of the stack moves into the
   * target cell and SP goes down by one; static writes the symbol's cell
   * directly, the indexed segments go through R13 as in project 7.
   */
  lemma PopEffect(env: map<string, Word>, w: Writer, segment: string, index: int, rest: seq<Instr>, m: Machine)
    requires CodeWriter7.Encodable(SegmentOf(segment), index) && Sp(m) >= 17
    ensures var s := SegmentOf(segment); var t := Target(env, w.file, s, index, m);
      exists m' ::
        (Exec(env, WritePushPop(w, C_POP, segment, index) + rest, m) == Exec(env, rest, m')
         && Mem(m', t) == Mem(m, Sp(m) - 1)
         && (t != 0 ==> Sp(m') == Sp(m) - 1)
         && (s == Static || s == Pointer ==> Unchanged(m, m', {0, t}))
         && Unchanged(m, m', {0, 13, t}))
  {
    var s := SegmentOf(segment);
    if s == Static {
      var name := StaticName(w.file, index);
      CodeWriter7.ExecAfterEcho(env, Echo("pop", segment, index), PopStatic(name), rest, m);
      PopStaticRun(env, name, rest, m);
      var m' := AfterPopStatic(env, name, m);
      assert Exec(env, WritePushPop(w, C_POP, segment, index) + rest, m) == Exec(env, rest, m');
    } else {
      SameAsProject7(w, C_POP, segment, index);
      CodeWriter7.PopEffect(env, segment, index, rest, m);
      var t := Target(env, w.file, s, index, m);
      var m' :| Exec(env, CodeWriter7.WritePushPop(C_POP, segment, index) + rest, m) == Exec(env, rest, m')
         && Mem(m', t) == Mem(m, Sp(m) - 1)
         && (t != 0 ==> Sp(m') == Sp(m) - 1)
         && (s == Pointer ==> Mem(m', 13) == Mem(m, 13))
         && Unchanged(m, m', {0, 13, t});
      assert s == Pointer ==> Unchanged(m, m', {0, t});
    }
  }

  // ---------------------------------------------------------------- program flow

  /** `label l`: the echo and the declaration `(l)`. */
  function WriteLabel(l: string): (r: seq<Instr>)
    ensures r != [] && r[0] == Comment("label " + l)
  {
    [Comment("label " + l), Label(l)]
  }

  /** `goto l`: the echo, `@l`, `0;JMP`. */
  function WriteGoto(l: string): (r: seq<Instr>)
    ensures r != [] && r[0] == Comment("goto " + l)
  {
    [Comment("goto " + l), ASym(l), C(NoDest, Form(Code.Zero), JMP)]
  }

  /** `if-goto l`: the echo, pop to D, `@l`, `D;JNE`. */
  function WriteIf(l: string): (r: seq<Instr>)
    ensures r != [] && r[0] == Comment("if-goto " + l)
  {
    [Comment("if-goto " + l)] + PopToD() + [ASym(l), C(NoDest, Form(Code.RegD), JNE)]
  }

  /** A label declaration does nothing at run time. */
  lemma LabelRun(env: map<string, Word>, l: string, rest: seq<Instr>, m: Machine)
    ensures Exec(env, WriteLabel(l) + rest, m) == Exec(env, rest, m)
  {
    Split2(Comment("label " + l), Label(l), rest);
    StepSkip(env, Comment("label " + l), m);
    ExecCons(env, Comment("label " + l), [Label(l)] + rest, m, m);
    StepSkip(env, Label(l), m);
    ExecCons(env, Label(l), rest, m, m);
  }

  /**
   * `goto l` followed, further on in the same code, by its last `label l`:
   * control continues right after that label, skipping everything in between.
   */
  lemma GotoRun(env: map<string, Word>, l: string, mid: seq<Instr>, rest: seq<Instr>, m: Machine)
    requires Label(l) !in rest
    ensures Exec(env, WriteGoto(l) + (mid + (WriteLabel(l) + rest)), m)
      == Exec(env, rest, m.(a := Resolve(env, l), aLabel := Some(l)))
  {
    var echo := Comment("goto " + l);
    var mid' := mid + [Comment("label " + l)];
    assert mid + (WriteLabel(l) + rest) == mid' + ([Label(l)] + rest);
    Split3(echo, ASym(l), C(NoDest, Form(Code.Zero), JMP), mid' + ([Label(l)] + rest));
    StepSkip(env, echo, m);
    ExecCons(env, echo, [ASym(l)] + ([C(NoDest, Form(Code.Zero), JMP)] + (mid' + ([Label(l)] + rest))), m, m);
    ExecGotoForward(env, l, mid', rest, m);
  }

  /**
   * Labels are not scoped to their function: when two functions both declare
   * `label l`, a `goto l` before the first declaration skips past the second.
   */
  lemma GotoSharedLabel(env: map<string, Word>, l: string, a: seq<Instr>, b: seq<Instr>, rest: seq<Instr>, m: Machine)
    requires Label(l) !in rest
    ensures Exec(env, WriteGoto(l) + (a + (WriteLabel(l) + (b + (WriteLabel(l) + rest)))), m)
      == Exec(env, rest, m.(a := Resolve(env, l), aLabel := Some(l)))
  {
    var mid := a + WriteLabel(l) + b;
    assert a + (WriteLabel(l) + (b + (WriteLabel(l) + rest))) == mid + (WriteLabel(l) + rest);
    GotoRun(env, l, mid, rest, m);
  }

  /** `goto l` with no later `label l` leaves the code for the address bound to `l`. */
  lemma GotoLeaves(env: map<string, Word>, l: string, rest: seq<Instr>, m: Machine)
    requires Label(l) !in rest
    ensures Exec(env, WriteGoto(l) + rest, m)
      == Left(m.(a := Resolve(env, l), aLabel := Some(l)), Resolve(env, l))
  {
    var echo, load, jmp := Comment("goto " + l), ASym(l), C(NoDest, Form(Code.Zero), JMP);
    var m1 := m.(a := Resolve(env, l), aLabel := Some(l));
    Split3(echo, load, jmp, rest);
    StepSkip(env, echo, m);
    ExecCons(env, echo, [load] + ([jmp] + rest), m, m);
    StepASym(env, l, m);
    ExecCons(env, load, [jmp] + rest, m, m1);
    StepJumpAlways(env, m1);
    ExecJumpOut(env, jmp, rest, m1);
  }

  /** The machine once `if-goto l` has popped the condition and loaded `@l`. */
  function AfterIf(env: map<string, Word>, l: string, m: Machine): Machine {
    AfterPopToD(m).(a := Resolve(env, l), aLabel := Some(l))
  }

  /** Everything of `if-goto l` before the conditional jump. */
  lemma IfPrefixRun(env: map<string, Word>, l: string, rest: seq<Instr>, m: Machine)
    ensures Exec(env, WriteIf(l) + rest, m)
      == Exec(env, [C(NoDest, Form(Code.RegD), JNE)] + rest, AfterIf(env, l, m))
  {
    var echo, load, jump := Comment("if-goto " + l), ASym(l), C(NoDest, Form(Code.RegD), JNE);
    var m1 := AfterPopToD(m);
    Assoc3([echo], PopToD(), [load, jump], rest);
    Split2(load, jump, rest);
    StepSkip(env, echo, m);
    ExecCons(env, echo, PopToD() + ([load, jump] + rest), m, m);
    ExecPopToD(env, [load, jump] + rest, m);
    StepASym(env, l, m1);
    ExecCons(env, load, [jump] + rest, m1, AfterIf(env, l, m));
  }

  /** `if-goto` pops the condition: SP goes down by one and no RAM cell but SP changes. */
  lemma IfEffect(env: map<string, Word>, l: string, m: Machine)
    requires Sp(m) >= 17
    ensures var m' := AfterIf(env, l, m);
      m'.d == Mem(m, Sp(m) - 1) && Sp(m') == Sp(m) - 1 && Unchanged(m, m', {0})
  {
    PopToDEffect(m);
  }

  /**
   * `if-goto l` with its last `label l` further on and a non-zero condition
   * on top of the stack continues after that label.
   */
  lemma IfGotoTaken(env: map<string, Word>, l: string, mid: seq<Instr>, rest: seq<Instr>, m: Machine)
    requires Label(l) !in rest && Sp(m) >= 17 && Mem(m, Sp(m) - 1) != 0
    ensures Exec(env, WriteIf(l) + (mid + (WriteLabel(l) + rest)), m) == Exec(env, rest, AfterIf(env, l, m))
  {
    var jump := C(NoDest, Form(Code.RegD), JNE);
    var m' := AfterIf(env, l, m);
    var mid' := mid + [Comment("label " + l)];
    assert mid + (WriteLabel(l) + rest) == mid' + ([Label(l)] + rest);
    IfPrefixRun(env, l, mid' + ([Label(l)] + rest), m);
    IfEffect(env, l, m);
    StepJumpOnD(env, JNE, m');
    ExecJumpForward(env, jump, mid', l, rest, m', m');
  }

  /** `if-goto l` with a zero condition falls through to the next instruction. */
  lemma IfGotoFalls(env: map<string, Word>, l: string, rest: seq<Instr>, m: Machine)
    requires Sp(m) >= 17 && Mem(m, Sp(m) - 1) == 0
    ensures Exec(env, WriteIf(l) + rest, m) == Exec(env, rest, AfterIf(env, l, m))
  {
    var jump := C(NoDest, Form(Code.RegD), JNE);
    var m' := AfterIf(env, l, m);
    IfPrefixRun(env, l, rest, m);
    IfEffect(env, l, m);
    StepJumpOnD(env, JNE, m');
    ExecCons(env, jump, rest, m', m');
  }

  // ---------------------------------------------------------------- function, call, return

  /** `n` pushes of the constant 0. */
  function ZeroLocals(n: int): seq<Instr>
    decreases n
  {
    if n <= 0 then [] else PushConstant(0) + ZeroLocals(n - 1)
  }

  /** `function f k`: the echo, the entry label `(f)`, and k pushes of 0. */
  function WriteFunction(f: string, locals: int): (r: seq<Instr>)
    ensures r != [] && r[0] == Comment("function " + f + " " + IntToString(locals))
  {
    [Comment("function " + f + " " + IntToString(locals)), Label(f)] + ZeroLocals(locals)
  }

  /** The return label `call` mints: `<f>$ret.<counter>`. */
  function ReturnLabel(f: string, counter: nat): string {
    f + "$ret." + NatToString(counter)
  }

  /** `@r; D=M` then push: save one register of the caller. */
  function SaveRegister(r: Register): seq<Instr> {
    LoadBase(Some(Pointed(r))) + PushD()
  }

  /** `@ret; D=A` then push. */
  function PushReturnAddress(ret: string): seq<Instr> {
    [ASym(ret), C(DestD, Form(Code.RegA), NoJump)] + PushD()
  }

  /** One `SaveRegister` per register, in the order given. */
  function SaveRegisters(rs: seq<Register>): seq<Instr> {
    if rs == [] then [] else SaveRegister(rs[0]) + SaveRegisters(rs[1..])
  }

  /** The registers a call saves after the return address, in the order it pushes them. */
  const FrameRegisters: seq<Register> := [LCL, ARG, THIS, THAT]

  /** The five cells of the caller's frame: return address, LCL, ARG, THIS, THAT. */
  function SaveFrame(ret: string): seq<Instr> {
    PushReturnAddress(ret) + SaveRegisters(FrameRegisters)
  }

  /** `@k; D=D-A`. */
  function SubConst(k: int): seq<Instr> {
    [AConst(k), C(DestD, Form(Code.DMinusA), NoJump)]
  }

  /** `@r; M=D`. */
  function StoreD(r: Register): seq<Instr> {
    [AReg(r), C(DestM, Form(Code.RegD), NoJump)]
  }

  /** `ARG = SP - 5 - n`. */
  function RepositionArg(n: int): seq<Instr> {
    LoadBase(Some(Pointed(SP))) + SubConst(5) + SubConst(n) + StoreD(ARG)
  }

  /** `LCL = SP`. */
  function RepositionLcl(): seq<Instr> {
    LoadBase(Some(Pointed(SP))) + StoreD(LCL)
  }

  /** The block `call f n` emits with return label `ret`. */
  function CallCode(f: string, n: int, ret: string): (r: seq<Instr>)
    ensures r != [] && r[0] == Comment("call " + f + " " + IntToString(n))
  {
    [Comment("call " + f + " " + IntToString(n))] + SaveFrame(ret) + RepositionArg(n) + RepositionLcl()
      + WriteGoto(f) + [Label(ret)]
  }

  /** `writeCall(f, n)`: the block, with the counter consumed for the return label. */
  function WriteCall(w: Writer, f: string, n: int): (Writer, seq<Instr>) {
    (w.(counter := w.counter + 1), CallCode(f, n, ReturnLabel(f, w.counter)))
  }

  /** `R13 = LCL`: the frame base; it stays in D. */
  function FrameToR13(): seq<Instr> {
    LoadBase(Some(Pointed(LCL))) + StoreD(R13)
  }

  /** `@k; A=D-A; D=M`: read the cell k below the address in D. */
  function LoadBelow(k: int): seq<Instr> {
    [AConst(k), C(DestA, Form(Code.DMinusA), NoJump), C(DestD, Form(Code.RegM), NoJump)]
  }

  /** `R14 = RAM[frame - 5]`, the return address, with the frame base in D. */
  function ReturnAddressToR14(): seq<Instr> {
    LoadBelow(5) + StoreD(R14)
  }

  /** `@ARG; A=M; M=D`. */
  function StoreAtArg(): seq<Instr> {
    [AReg(ARG), C(DestA, Form(Code.RegM), NoJump), C(DestM, Form(Code.RegD), NoJump)]
  }

  /** `RAM[ARG] = pop()`. */
  function ReturnValue(): seq<Instr> {
    PopToD() + StoreAtArg()
  }

  /** `@ARG; D=M+1`. */
  function ArgPlusOne(): seq<Instr> {
    [AReg(ARG), C(DestD, Form(Code.MPlusOne), NoJump)]
  }

  /** `SP = ARG + 1`. */
  function ResetSp(): seq<Instr> {
    ArgPlusOne() + StoreD(SP)
  }

  /** `r = RAM[frame - k]`, the frame base read back from R13. */
  function Restore(r: Register, k: int): seq<Instr> {
    LoadBase(Some(Pointed(R13))) + LoadBelow(k) + StoreD(r)
  }

  /** `THAT = RAM[frame-1]; THIS = RAM[frame-2]; ARG = RAM[frame-3]; LCL = RAM[frame-4]`. */
  function RestoreAll(): seq<Instr> {
    Restore(THAT, 1) + Restore(THIS, 2) + Restore(ARG, 3) + Restore(LCL, 4)
  }

  /** `@R14; A=M; 0;JMP`. */
  function JumpToR14(): seq<Instr> {
    [AReg(R14), C(DestA, Form(Code.RegM), NoJump), C(NoDest, Form(Code.Zero), JMP)]
  }

  /** `writeReturn()`. */
  function WriteReturn(): (r: seq<Instr>)
    ensures r != [] && r[0] == Comment("return")
  {
    [Comment("return")] + FrameToR13() + ReturnAddressToR14() + ReturnValue() + ResetSp() + RestoreAll() + JumpToR14()
  }

  /** `SP = 256`. */
  function InitSp(): seq<Instr> {
    LoadBase(Some(Fixed(256))) + StoreD(SP)
  }

  /** `writeBootstrap()`: the echo, `SP = 256`, then `call Sys.init 0`. */
  function WriteBootstrap(w: Writer): (r: (Writer, seq<Instr>))
    ensures r.1 != [] && r.1[0] == Comment("Bootstrap code")
  {
    var (w', call) := WriteCall(w, "Sys.init", 0);
    (w', [Comment("Bootstrap code")] + InitSp() + call)
  }

  // ---------------------------------------------------------------- which labels each block declares

  lemma StackLabelFree()
    ensures LabelFree(PushD()) && LabelFree(PopToD())
  {
  }

  /** `writePushPop` declares no label, in project 8 as in project 7. */
  lemma PushPopDeclaresNothing(w: Writer, command: int, segment: string, index: int)
    ensures Declared(WritePushPop(w, command, segment, index)) == []
  {
    var s := SegmentOf(segment);
    if s == Static {
      var name := StaticName(w.file, index);
      var r := WritePushPop(w, command, segment, index);
      StackLabelFree();
      LabelFreeAppend([ASym(name), C(DestD, Form(Code.RegM), NoJump)], PushD());
      LabelFreeAppend(PopToD(), [ASym(name), C(DestM, Form(Code.RegD), NoJump)]);
      if command == C_PUSH {
        LabelFreeAppend([Echo("push", segment, index)], PushStatic(name));
      } else if command == C_POP {
        LabelFreeAppend([Echo("pop", segment, index)], PopStatic(name));
      }
      DeclaredNone(r);
    } else {
      SameAsProject7(w, command, segment, index);
      CodeWriter7.PushPopDeclaresNothing(command, segment, index);
    }
  }

  lemma {:induction false} ZeroLocalsLabelFree(n: int)
    ensures LabelFree(ZeroLocals(n))
    decreases n
  {
    if n > 0 {
      PiecesLabelFree(None, 0);
      ZeroLocalsLabelFree(n - 1);
      LabelFreeAppend(PushConstant(0), ZeroLocals(n - 1));
    }
  }

  /** `function f k` declares f alone. */
  lemma FunctionDeclares(f: string, k: int)
    ensures Declared(WriteFunction(f, k)) == [f]
  {
    var head := [Comment("function " + f + " " + IntToString(k)), Label(f)];
    ZeroLocalsLabelFree(k);
    DeclaredNone(ZeroLocals(k));
    DeclaredAppend(head, ZeroLocals(k));
  }

  lemma {:induction false} SaveRegistersLabelFree(rs: seq<Register>)
    ensures LabelFree(SaveRegisters(rs))
    decreases |rs|
  {
    if rs != [] {
      StackLabelFree();
      PiecesLabelFree(Some(Pointed(rs[0])), 0);
      LabelFreeAppend(LoadBase(Some(Pointed(rs[0]))), PushD());
      SaveRegistersLabelFree(rs[1..]);
      LabelFreeAppend(SaveRegister(rs[0]), SaveRegisters(rs[1..]));
    }
  }

  /** Everything `call` emits before its return label. */
  lemma CallBodyLabelFree(f: string, n: int, ret: string)
    ensures LabelFree([Comment("call " + f + " " + IntToString(n))] + SaveFrame(ret) + RepositionArg(n)
      + RepositionLcl() + WriteGoto(f))
  {
    var sp := LoadBase(Some(Pointed(SP)));
    StackLabelFree();
    PiecesLabelFree(Some(Pointed(SP)), 0);
    LabelFreeAppend([ASym(ret), C(DestD, Form(Code.RegA), NoJump)], PushD());
    SaveRegistersLabelFree(FrameRegisters);
    LabelFreeAppend(PushReturnAddress(ret), SaveRegisters(FrameRegisters));
    LabelFreeAppend([Comment("call " + f + " " + IntToString(n))], SaveFrame(ret));
    LabelFreeAppend(sp, SubConst(5));
    LabelFreeAppend(sp + SubConst(5), SubConst(n));
    LabelFreeAppend(sp + SubConst(5) + SubConst(n), StoreD(ARG));
    LabelFreeAppend(sp, StoreD(LCL));
    LabelFreeAppend([Comment("call " + f + " " + IntToString(n))] + SaveFrame(ret), RepositionArg(n));
    LabelFreeAppend([Comment("call " + f + " " + IntToString(n))] + SaveFrame(ret) + RepositionArg(n), RepositionLcl());
    LabelFreeAppend([Comment("call " + f + " " + IntToString(n))] + SaveFrame(ret) + RepositionArg(n) + RepositionLcl(), WriteGoto(f));
  }

  /** `call f n` declares its return label alone. */
  lemma CallDeclares(f: string, n: int, ret: string)
    ensures Declared(CallCode(f, n, ret)) == [ret]
  {
    var body := [Comment("call " + f + " " + IntToString(n))] + SaveFrame(ret) + RepositionArg(n) + RepositionLcl() + WriteGoto(f);
    CallBodyLabelFree(f, n, ret);
    DeclaredNone(body);
    DeclaredAppend(body, [Label(ret)]);
  }

  /** `return` declares no label. */
  lemma ReturnDeclaresNothing()
    ensures Declared(WriteReturn()) == []
  {
    var lcl, r13 := LoadBase(Some(Pointed(LCL))), LoadBase(Some(Pointed(R13)));
    StackLabelFree();
    PiecesLabelFree(Some(Pointed(LCL)), 0);
    PiecesLabelFree(Some(Pointed(R13)), 0);
    LabelFreeAppend(lcl, StoreD(R13));
    LabelFreeAppend(LoadBelow(5), StoreD(R14));
    LabelFreeAppend(PopToD(), StoreAtArg());
    LabelFreeAppend(ArgPlusOne(), StoreD(SP));
    forall k | 1 <= k <= 4 ensures LabelFree(Restore(THAT, k)) && LabelFree(Restore(THIS, k))
      && LabelFree(Restore(ARG, k)) && LabelFree(Restore(LCL, k))
    {
      LabelFreeAppend(r13, LoadBelow(k));
      LabelFreeAppend(r13 + LoadBelow(k), StoreD(THAT));
      LabelFreeAppend(r13 + LoadBelow(k), StoreD(THIS));
      LabelFreeAppend(r13 + LoadBelow(k), StoreD(ARG));
      LabelFreeAppend(r13 + LoadBelow(k), StoreD(LCL));
    }
    LabelFreeAppend(Restore(THAT, 1), Restore(THIS, 2));
    LabelFreeAppend(Restore(THAT, 1) + Restore(THIS, 2), Restore(ARG, 3));
    LabelFreeAppend(Restore(THAT, 1) + Restore(THIS, 2) + Restore(ARG, 3), Restore(LCL, 4));
    var p1 := [Comment("return")] + FrameToR13();
    var p2 := p1 + ReturnAddressToR14();
    var p3 := p2 + ReturnValue();
    var p4 := p3 + ResetSp();
    var p5 := p4 + RestoreAll();
    LabelFreeAppend([Comment("return")], FrameToR13());
    LabelFreeAppend(p1, ReturnAddressToR14());
    LabelFreeAppend(p2, ReturnValue());
    LabelFreeAppend(p3, ResetSp());
    LabelFreeAppend(p4, RestoreAll());
    LabelFreeAppend(p5, JumpToR14());
    DeclaredNone(WriteReturn());
  }

  /** The bootstrap declares the return label of its call to Sys.init alone. */
  lemma BootstrapDeclares(w: Writer)
    ensures Declared(WriteBootstrap(w).1) == [ReturnLabel("Sys.init", w.counter)]
  {
    var head := [Comment("Bootstrap code")] + InitSp();
    var call := CallCode("Sys.init", 0, ReturnLabel("Sys.init", w.counter));
    PiecesLabelFree(Some(Fixed(256)), 0);
    LabelFreeAppend(LoadBase(Some(Fixed(256))), StoreD(SP));
    LabelFreeAppend([Comment("Bootstrap code")], InitSp());
    DeclaredNone(head);
    CallDeclares("Sys.init", 0, ReturnLabel("Sys.init", w.counter));
    DeclaredAppend(head, call);
  }

  /** `label`, `goto` and `if-goto` declare the label only for `label`. */
  lemma FlowDeclares(l: string)
    ensures Declared(WriteLabel(l)) == [l] && Declared(WriteGoto(l)) == [] && Declared(WriteIf(l)) == []
  {
    StackLabelFree();
    LabelFreeAppend([Comment("if-goto " + l)], PopToD());
    LabelFreeAppend([Comment("if-goto " + l)] + PopToD(), [ASym(l), C(NoDest, Form(Code.RegD), JNE)]);
    DeclaredNone(WriteGoto(l));
    DeclaredNone(WriteIf(l));
    assert WriteLabel(l)[1..] == [Label(l)] && [Label(l)][1..] == [];
    assert Declared([Label(l)]) == [l];
  }

  // ---------------------------------------------------------------- a sequence of writer calls

  /** One call on the writer, with its arguments. */
  datatype Command =
    | ArithmeticCommand(command: string)
    | PushPopCommand(kind: int, segment: string, index: int)
    | LabelCommand(name: string)
    | GotoCommand(name: string)
    | IfCommand(name: string)
    | FunctionCommand(name: string, locals: int)
    | CallCommand(name: string, args: int)
    | ReturnCommand
    | FileCommand(path: string)
    | BootstrapCommand

  /** The writer's state and output after one call; `setFileName` is the only call that can fail. */
  function Write(w: Writer, c: Command): Result<(Writer, seq<Instr>)> {
    match c
    case ArithmeticCommand(op) =>
      var e := Arithmetic.WriteArithmetic(w.counter, op);
      Ok((w.(counter := e.counter), e.code))
    case PushPopCommand(k, s, i) => Ok((w, WritePushPop(w, k, s, i)))
    case LabelCommand(l) => Ok((w, WriteLabel(l)))
    case GotoCommand(l) => Ok((w, WriteGoto(l)))
    case IfCommand(l) => Ok((w, WriteIf(l)))
    case FunctionCommand(f, k) => Ok((w, WriteFunction(f, k)))
    case CallCommand(f, n) => Ok(WriteCall(w, f, n))
    case ReturnCommand => Ok((w, WriteReturn()))
    case FileCommand(path) =>
      (match SetFileName(w, path)
       case Ok(w') => Ok((w', []))
       case Err(e) => Err(e))
    case BootstrapCommand => Ok(WriteBootstrap(w))
  }

  /** The calls in order, the state threaded through; the first failure ends the run. */
  function Run(w: Writer, cs: seq<Command>): Result<(Writer, seq<Instr>)>
    decreases |cs|
  {
    if cs == [] then Ok((w, []))
    else
      match Write(w, cs[0])
      case Err(e) => Err(e)
      case Ok((w1, code1)) =>
        match Run(w1, cs[1..])
        case Err(e) => Err(e)
        case Ok((w2, code2)) => Ok((w2, code1 + code2))
  }

  /** The calls that consume the label counter: the comparisons, `call`, and the bootstrap (which calls). */
  predicate Consumes(c: Command) {
    (c.ArithmeticCommand? && c.command in ["eq", "gt", "lt"]) || c.CallCommand? || c.BootstrapCommand?
  }

  /** The labels a call makes up from the counter. */
  function Mints(w: Writer, c: Command): seq<string> {
    match c
    case ArithmeticCommand(op) =>
      if op in ["eq", "gt", "lt"] then [Arithmetic.TrueLabel(w.counter), Arithmetic.EndLabel(w.counter)] else []
    case CallCommand(f, _) => [ReturnLabel(f, w.counter)]
    case BootstrapCommand => [ReturnLabel("Sys.init", w.counter)]
    case _ => []
  }

  /** The labels the program itself names: `label l` and `function f k`. */
  function UserLabels(c: Command): seq<string> {
    match c
    case LabelCommand(l) => [l]
    case FunctionCommand(f, _) => [f]
    case _ => []
  }

  /** Only `setFileName` on a path it cannot cut fails. */
  lemma WriteFails(w: Writer, c: Command)
    ensures Write(w, c).Err? <==> c.FileCommand? && FileNameOf(c.path).Err?
  {
  }

  /** The counter a return label was minted from can be read back from it. */
  lemma ReturnLabelNumber(f: string, n: nat)
    ensures Arithmetic.LabelNumber(ReturnLabel(f, n)) == n
  {
    assert ReturnLabel(f, n) == (f + "$ret.") + NatToString(n);
    Arithmetic.MintedNumber(f + "$ret.", n);
  }

  /** The facts `WriteDeclares` states, for one call. */
  ghost predicate DeclaresAsDocumented(w: Writer, c: Command, w': Writer, code: seq<Instr>) {
    Declared(code) == UserLabels(c) + Mints(w, c)
    && w'.counter == (if Consumes(c) then w.counter + 1 else w.counter)
    && (Mints(w, c) != [] <==> Consumes(c))
    && (!c.FileCommand? ==> w'.file == w.file)
  }

  lemma ArithmeticDeclares(w: Writer, op: string)
    ensures var e := Arithmetic.WriteArithmetic(w.counter, op);
      DeclaresAsDocumented(w, ArithmeticCommand(op), w.(counter := e.counter), e.code)
  {
    Arithmetic.WriteArithmeticLabels(w.counter, op);
    assert op in ["eq", "gt", "lt"] <==> Arithmetic.OpOf(op).Some? && Arithmetic.IsComparison(Arithmetic.OpOf(op).value);
  }

  lemma CallCommandDeclares(w: Writer, f: string, n: int)
    ensures DeclaresAsDocumented(w, CallCommand(f, n), WriteCall(w, f, n).0, WriteCall(w, f, n).1)
  {
    CallDeclares(f, n, ReturnLabel(f, w.counter));
  }

  lemma BootstrapCommandDeclares(w: Writer)
    ensures DeclaresAsDocumented(w, BootstrapCommand, WriteBootstrap(w).0, WriteBootstrap(w).1)
  {
    BootstrapDeclares(w);
  }

  lemma StateKeepingDeclares(w: Writer, c: Command)
    requires !c.ArithmeticCommand? && !c.CallCommand? && !c.BootstrapCommand? && !c.FileCommand?
    ensures DeclaresAsDocumented(w, c, w, Write(w, c).value.1)
  {
    match c
    case PushPopCommand(k, s, i) => PushPopDeclaresNothing(w, k, s, i);
    case LabelCommand(l) => FlowDeclares(l);
    case GotoCommand(l) => FlowDeclares(l);
    case IfCommand(l) => FlowDeclares(l);
    case FunctionCommand(f, k) => FunctionDeclares(f, k);
    case ReturnCommand => ReturnDeclaresNothing();
  }

  /**
   * Each call declares the program's own label, if it has one, followed by
   * the labels it mints; it advances the counter by one exactly when it
   * consumes it, and only `setFileName` changes the file name.
   */
  lemma WriteDeclares(w: Writer, c: Command)
    requires Write(w, c).Ok?
    ensures DeclaresAsDocumented(w, c, Write(w, c).value.0, Write(w, c).value.1)
  {
    if c.ArithmeticCommand? {
      ArithmeticDeclares(w, c.command);
    } else if c.CallCommand? {
      CallCommandDeclares(w, c.name, c.args);
    } else if c.BootstrapCommand? {
      BootstrapCommandDeclares(w);
    } else if !c.FileCommand? {
      StateKeepingDeclares(w, c);
    }
  }

  /** Every label a call mints carries the counter it was minted from, and none is minted twice. */
  lemma MintsNumbered(w: Writer, c: Command)
    ensures NoDup(Mints(w, c))
    ensures forall x :: x in Mints(w, c) ==> Arithmetic.LabelNumber(x) == w.counter
  {
    match c
    case ArithmeticCommand(op) =>
      Arithmetic.TrueEndNumbers(w.counter);
      assert Arithmetic.TrueLabel(w.counter)[0] == 'T' && Arithmetic.EndLabel(w.counter)[0] == 'E';
    case CallCommand(f, _) => ReturnLabelNumber(f, w.counter);
    case BootstrapCommand => ReturnLabelNumber("Sys.init", w.counter);
    case _ =>
  }

  /** The labels minted along a run, in order (up to the first failure). */
  function RunMints(w: Writer, cs: seq<Command>): seq<string>
    decreases |cs|
  {
    if cs == [] then []
    else
      match Write(w, cs[0])
      case Err(_) => []
      case Ok((w1, _)) => Mints(w, cs[0]) + RunMints(w1, cs[1..])
  }

  /** The labels the program names, over all its calls. */
  function RunUserLabels(cs: seq<Command>): seq<string>
    decreases |cs|
  {
    if cs == [] then [] else UserLabels(cs[0]) + RunUserLabels(cs[1..])
  }

  /** How many calls consume the counter. */
  function ConsumingCount(cs: seq<Command>): nat
    decreases |cs|
  {
    if cs == [] then 0 else (if Consumes(cs[0]) then 1 else 0) + ConsumingCount(cs[1..])
  }

  /**
   * Over a whole run, the counter advances once per comparison, `call` and
   * bootstrap; every label the output declares is either one the program
   * names or one the writer minted; and the minted labels (TRUE<n>, END<n>,
   * <f>$ret.<n>) are pairwise distinct, each carrying a counter value the run
   * consumed.
   */
  lemma {:induction false} RunLabels(w: Writer, cs: seq<Command>)
    requires Run(w, cs).Ok?
    ensures var (w', code) := Run(w, cs).value;
      w'.counter == w.counter + ConsumingCount(cs)
      && NoDup(RunMints(w, cs))
      && (forall x :: x in RunMints(w, cs) ==> w.counter <= Arithmetic.LabelNumber(x) < w'.counter)
      && (forall x :: x in Declared(code) <==> x in RunUserLabels(cs) || x in RunMints(w, cs))
    decreases |cs|
  {
    if cs != [] {
      var c := cs[0];
      var (w1, code1) := Write(w, c).value;
      var (w2, code2) := Run(w1, cs[1..]).value;
      var mints, later := Mints(w, c), RunMints(w1, cs[1..]);
      WriteDeclares(w, c);
      MintsNumbered(w, c);
      RunLabels(w1, cs[1..]);
      DeclaredAppend(code1, code2);
      assert RunMints(w, cs) == mints + later;
      assert forall x :: x in mints ==> x !in later by {
        forall x | x in mints ensures x !in later {
          assert Arithmetic.LabelNumber(x) == w.counter < w1.counter;
        }
      }
      NoDupAppend(mints, later);
    }
  }
}

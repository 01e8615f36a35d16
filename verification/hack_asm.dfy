/**
 * The Hack assembly the VM translators emit, as typed instructions.
 *
 * The translators write text lines; here each line is an `Instr` and
 * `Render` gives the exact text the translator writes for it.  Only the
 * instruction forms the translators use are representable: the registers
 * they name, single-register destinations, and the computations they spell
 * (including three commuted spellings, `M+D`, `M&D`, `M|D`, that are not
 * among the assembler's 28 mnemonics).
 */
module HackAsm {
  import opened Base
  import opened Text
  import Code
  import SymbolTable

  /** The predefined symbols the translators address by name. */
  datatype Register = SP | LCL | ARG | THIS | THAT | R13 | R14

  function RegisterName(r: Register): string {
    match r
    case SP => "SP"
    case LCL => "LCL"
    case ARG => "ARG"
    case THIS => "THIS"
    case THAT => "THAT"
    case R13 => "R13"
    case R14 => "R14"
  }

  /** RAM address of each register in the standard mapping (section 7.3.1 of the book). */
  function RegisterAddress(r: Register): (n: nat)
    ensures n < 16
  {
    match r
    case SP => 0
    case LCL => 1
    case ARG => 2
    case THIS => 3
    case THAT => 4
    case R13 => 13
    case R14 => 14
  }

  /** The assembler's predefined table binds every register name to the address the interpreter uses. */
  lemma RegisterPredefined(r: Register)
    ensures SymbolTable.GetAddress(SymbolTable.Initial(), RegisterName(r)) == Some(RegisterAddress(r) as int)
  {
    SymbolTable.InitialPointers();
  }

  datatype Dest = NoDest | DestA | DestD | DestM

  function DestText(d: Dest): string {
    match d
    case NoDest => ""
    case DestA => "A"
    case DestD => "D"
    case DestM => "M"
  }

  /** A computation: one of the assembler's forms, or a commuted spelling of one. */
  datatype Comp = Form(form: Code.CompForm) | MPlusD | MAndD | MOrD

  function CompText(c: Comp): string {
    match c
    case Form(f) => Code.Mnemonic(f)
    case MPlusD => "M+D"
    case MAndD => "M&D"
    case MOrD => "M|D"
  }

  /** The canonical form each commuted spelling computes the same value as. */
  function Canonical(c: Comp): Code.CompForm {
    match c
    case Form(f) => f
    case MPlusD => Code.DPlusM
    case MAndD => Code.DAndM
    case MOrD => Code.DOrM
  }

  datatype Jump = NoJump | JGT | JEQ | JLT | JNE | JMP

  function JumpText(j: Jump): string {
    match j
    case NoJump => ""
    case JGT => "JGT"
    case JEQ => "JEQ"
    case JLT => "JLT"
    case JNE => "JNE"
    case JMP => "JMP"
  }

  datatype Instr =
    | Comment(text: string)
    | AConst(value: int)
    | AReg(reg: Register)
    | ASym(symbol: string)
    | Label(name: string)
    | C(dest: Dest, comp: Comp, jump: Jump)

  /** The text line the translator writes for an instruction. */
  function Render(i: Instr): string {
    match i
    case Comment(t) => "// " + t
    case AConst(v) => "@" + IntToString(v)
    case AReg(r) => "@" + RegisterName(r)
    case ASym(s) => "@" + s
    case Label(l) => "(" + l + ")"
    case C(d, c, j) =>
      (if d == NoDest then "" else DestText(d) + "=") + CompText(c)
      + (if j == NoJump then "" else ";" + JumpText(j))
  }

  function Lines(code: seq<Instr>): (r: seq<string>)
    ensures |r| == |code| && forall k :: 0 <= k < |code| ==> r[k] == Render(code[k])
  {
    seq(|code|, k requires 0 <= k < |code| => Render(code[k]))
  }

  /** The names of the labels a block declares, in order. */
  function Declared(code: seq<Instr>): seq<string> {
    if code == [] then []
    else (if code[0].Label? then [code[0].name] else []) + Declared(code[1..])
  }

  lemma {:induction false} DeclaredAppend(p: seq<Instr>, q: seq<Instr>)
    ensures Declared(p + q) == Declared(p) + Declared(q)
  {
    if p == [] {
      assert p + q == q;
    } else {
      assert (p + q)[0] == p[0];
      assert (p + q)[1..] == p[1..] + q;
      DeclaredAppend(p[1..], q);
    }
  }

  /** A block that declares no label. */
  predicate LabelFree(code: seq<Instr>) {
    forall k :: 0 <= k < |code| ==> !code[k].Label?
  }

  lemma LabelFreeAppend(p: seq<Instr>, q: seq<Instr>)
    requires LabelFree(p) && LabelFree(q)
    ensures LabelFree(p + q)
  {
  }

  lemma DeclaredNone(code: seq<Instr>)
    requires LabelFree(code)
    ensures Declared(code) == []
  {
    if code != [] {
      DeclaredNone(code[1..]);
    }
  }

  /** A jump-free instruction: control always falls through to the next one. */
  predicate FallsThrough(i: Instr) {
    !(i.C? && i.jump != NoJump)
  }

  /**
   * The assembler accepts the text of a computation exactly when it is one of
   * its own forms: the commuted spellings the translators emit for `add`,
   * `and` and `or` are rejected with IllegalArgumentException.
   */
  lemma CompTextAccepted(c: Comp)
    ensures Code.Comp(Some(CompText(c))).Ok? <==> c.Form?
  {
    match c
    case Form(f) => Code.ParseMnemonic(f);
    case MPlusD => assert Code.ParseComp("M+D") == None;
    case MAndD => assert Code.ParseComp("M&D") == None;
    case MOrD => assert Code.ParseComp("M|D") == None;
  }

  /** The jump texts are the assembler's own jump mnemonics, with the codes their names promise. */
  lemma JumpTextAccepted(j: Jump)
    ensures j != NoJump ==> JumpText(j) in Code.JumpMnemonics && Code.Jump(Some(JumpText(j))) != "000"
    ensures j == NoJump ==> Code.Jump(Some(JumpText(j))) == "000"
  {
  }

  /** Each destination sets exactly its own register's bit. */
  lemma DestTextBits(d: Dest)
    ensures Code.Dest(Some(DestText(d))) ==
      (match d
       case NoDest => "000"
       case DestA => "100"
       case DestD => "010"
       case DestM => "001")
  {
  }
}

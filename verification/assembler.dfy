/**
 * The Hack assembler's two passes over a file's commands. The first binds
 * every label to the ROM address of the instruction after it; the second
 * turns each A- and C-command into a 16-character word, binding each new
 * variable symbol to the next free RAM address from 16 on. Reading and
 * writing files is left to the caller: a file is its sequence of lines and
 * the output is the sequence of words written, one per line.
 */
module Assembler {
  import opened Base
  import opened Text
  import opened SymbolTable
  import Code
  import AsmParser
  import VmParser

  // ---------------------------------------------------------------- first pass

  predicate IsLabel(c: string) {
    AsmParser.GetInstructionType(c) == AsmParser.LCommand
  }

  /** `c` is the label declaration `(s)`. */
  predicate Defines(c: string, s: string) {
    IsLabel(c) && AsmParser.Symbol(c) == s
  }

  /** The number of instructions (A- and C-commands) among `cmds`: the ROM words they fill. */
  function RomCount(cmds: seq<string>): (n: nat)
    ensures n <= |cmds|
  {
    if cmds == [] then 0
    else RomCount(cmds[..|cmds| - 1]) + (if IsLabel(cmds[|cmds| - 1]) then 0 else 1)
  }

  /** The position of the last declaration of label `s` in `cmds`. */
  function LastLabel(cmds: seq<string>, s: string): (r: Option<nat>)
    ensures r.Some? ==> r.value < |cmds| && Defines(cmds[r.value], s)
    ensures r.Some? ==> forall j :: r.value < j < |cmds| ==> !Defines(cmds[j], s)
    ensures r.None? ==> forall j :: 0 <= j < |cmds| ==> !Defines(cmds[j], s)
  {
    if cmds == [] then None
    else if Defines(cmds[|cmds| - 1], s) then Some(|cmds| - 1)
    else LastLabel(cmds[..|cmds| - 1], s)
  }

  /**
   * `buildSymbolTable`: starting from the predefined symbols, walk the
   * commands with a ROM address that counts A- and C-commands; a label is
   * bound to the address the next instruction gets. Returns the table and the
   * final ROM address.
   */
  function FirstPass(cmds: seq<string>): (r: (Table, nat))
    ensures r.1 == RomCount(cmds)
  {
    if cmds == [] then (Initial(), 0)
    else
      var (t, rom) := FirstPass(cmds[..|cmds| - 1]);
      var c := cmds[|cmds| - 1];
      if IsLabel(c) then (AddEntry(t, AsmParser.Symbol(c), rom), rom) else (t, rom + 1)
  }

  /**
   * After the first pass a label is bound to the number of instructions
   * before its last declaration; every other symbol keeps its predefined
   * binding, or stays unbound.
   */
  lemma {:induction false} LabelAddress(cmds: seq<string>, s: string)
    ensures LastLabel(cmds, s).Some? ==>
      GetAddress(FirstPass(cmds).0, s) == Some(RomCount(cmds[..LastLabel(cmds, s).value]))
    ensures LastLabel(cmds, s).None? ==> GetAddress(FirstPass(cmds).0, s) == GetAddress(Initial(), s)
  {
    if cmds != [] {
      var init := cmds[..|cmds| - 1];
      LabelAddress(init, s);
      if !Defines(cmds[|cmds| - 1], s) && LastLabel(cmds, s).Some? {
        var k := LastLabel(cmds, s).value;
        assert init[..k] == cmds[..k];
      }
    }
  }

  /**
   * A label declared once, after `body`, is bound to the number of
   * instructions in `body`: the ROM address of the first instruction after it.
   */
  lemma LabelAfter(body: seq<string>, s: string, rest: seq<string>)
    requires forall j :: 0 <= j < |rest| ==> !Defines(rest[j], s)
    ensures GetAddress(FirstPass(body + ["(" + s + ")"] + rest).0, s) == Some(RomCount(body))
  {
    var cmds := body + ["(" + s + ")"] + rest;
    DeclaredOnceAt(body, s, rest);
    LabelAddress(cmds, s);
    assert cmds[..|body|] == body;
  }

  lemma DeclaredOnceAt(body: seq<string>, s: string, rest: seq<string>)
    requires forall j :: 0 <= j < |rest| ==> !Defines(rest[j], s)
    ensures LastLabel(body + ["(" + s + ")"] + rest, s) == Some(|body|)
  {
    AsmParser.SymbolRoundTrip(s);
    LastDeclaration(body, "(" + s + ")", s, rest);
  }

  lemma LastDeclaration(body: seq<string>, d: string, s: string, rest: seq<string>)
    requires Defines(d, s)
    requires forall j :: 0 <= j < |rest| ==> !Defines(rest[j], s)
    ensures LastLabel(body + [d] + rest, s) == Some(|body|)
  {
    var cmds := body + [d] + rest;
    assert cmds[|body|] == d;
    NoneDeclaredAfter(body, d, s, rest);
    LastLabelAt(cmds, s, |body|);
  }

  lemma NoneDeclaredAfter(body: seq<string>, d: string, s: string, rest: seq<string>)
    requires forall j :: 0 <= j < |rest| ==> !Defines(rest[j], s)
    ensures forall j :: |body| < j < |body + [d] + rest| ==> !Defines((body + [d] + rest)[j], s)
  {
    var cmds := body + [d] + rest;
    forall j | |body| < j < |cmds| ensures !Defines(cmds[j], s) {
      assert cmds[j] == rest[j - |body| - 1];
    }
  }

  /** A declaration with none after it is the last one. */
  lemma LastLabelAt(cmds: seq<string>, s: string, i: nat)
    requires i < |cmds| && Defines(cmds[i], s)
    requires forall j :: i < j < |cmds| ==> !Defines(cmds[j], s)
    ensures LastLabel(cmds, s) == Some(i)
  {
  }

  predicate NoLabels(cmds: seq<string>) {
    forall j :: 0 <= j < |cmds| ==> !IsLabel(cmds[j])
  }

  /**
   * A label declared after `body`, followed by instructions only and then a
   * declaration of another label, is bound to the number of instructions in `body`.
   */
  lemma LabelBeforeInstructions(body: seq<string>, s: string, tail: seq<string>, d: string)
    requires NoLabels(tail) && !Defines(d, s)
    ensures GetAddress(FirstPass(body + ["(" + s + ")"] + (tail + [d])).0, s) == Some(RomCount(body))
  {
    var rest := tail + [d];
    forall j | 0 <= j < |rest| ensures !Defines(rest[j], s) {
      if j < |tail| {
        assert rest[j] == tail[j];
      }
    }
    LabelAfter(body, s, rest);
  }

  /** A label between two label-free pieces adds nothing to their instructions. */
  lemma RomCountWithLabel(a: seq<string>, d: string, b: seq<string>)
    requires NoLabels(a) && IsLabel(d) && NoLabels(b)
    ensures RomCount(a + [d] + b) == |a| + |b|
  {
    RomCountNoLabels(a);
    RomCountNoLabels(b);
    RomCountAppend(a + [d], b);
    RomCountAppend(a, [d]);
    assert [d][..0] == [];
  }

  /** The instructions of two pieces of a file add up. */
  lemma {:induction false} RomCountAppend(a: seq<string>, b: seq<string>)
    ensures RomCount(a + b) == RomCount(a) + RomCount(b)
    decreases |b|
  {
    if b != [] {
      assert (a + b)[..|a + b| - 1] == a + b[..|b| - 1];
      RomCountAppend(a, b[..|b| - 1]);
    } else {
      assert a + b == a;
    }
  }

  /** Without labels every command is an instruction. */
  lemma {:induction false} RomCountNoLabels(cmds: seq<string>)
    requires NoLabels(cmds)
    ensures RomCount(cmds) == |cmds|
  {
    if cmds != [] {
      RomCountNoLabels(cmds[..|cmds| - 1]);
    }
  }

  // ---------------------------------------------------------------- second pass

  /** The second pass's state: the symbol table and `nextVariableAddress`. */
  datatype State = State(table: Table, nextVariable: int)

  /**
   * What the second pass keeps of the table `base` it started from: every
   * binding of `base` stays; every symbol it added is a variable with its
   * own address in [16, nextVariable).
   */
  predicate Grows(base: Table, st: State) {
    && 16 <= st.nextVariable
    && (forall s :: s in base ==> s in st.table && st.table[s] == base[s])
    && (forall s :: s in st.table && s !in base ==> 16 <= st.table[s] < st.nextVariable)
    && (forall s, u :: s in st.table && u in st.table && s !in base && u !in base && s != u ==>
          st.table[s] != st.table[u])
  }

  /**
   * The address of an A-command: the symbol's value when `parseInt` accepts
   * it; otherwise the symbol's binding, a new variable being bound to
   * `nextVariableAddress` first (which then moves on by one).
   */
  function Resolve(st: State, symbol: string): (r: (State, int))
    ensures ParseInt(symbol).Some? ==> r == (st, ParseInt(symbol).value)
    ensures ParseInt(symbol).None? ==> GetAddress(r.0.table, symbol) == Some(r.1)
    ensures ParseInt(symbol).None? && Contains(st.table, symbol) ==> r.0 == st
    ensures ParseInt(symbol).None? && !Contains(st.table, symbol) ==>
      && r.1 == st.nextVariable && r.0.nextVariable == st.nextVariable + 1
      && forall s :: s != symbol ==> GetAddress(r.0.table, s) == GetAddress(st.table, s)
  {
    match ParseInt(symbol)
    case Some(v) => (st, v)
    case None =>
      var st' :=
        if Contains(st.table, symbol) then st
        else State(AddEntry(st.table, symbol, st.nextVariable), st.nextVariable + 1);
      (st', GetAddress(st'.table, symbol).value)
  }

  /** Resolving a symbol keeps the table growing as `Grows` says. */
  lemma ResolveGrows(base: Table, st: State, symbol: string)
    requires Grows(base, st)
    ensures Grows(base, Resolve(st, symbol).0)
  {
  }

  /** The A-word: `String.format("%16s", Integer.toBinaryString(address)).replace(' ', '0')`. */
  function AWord(address: int): (w: string)
    ensures 0 <= address < 0x1_0000 ==> |w| == 16 && AllBits(w) && BitsValue(w) == address
  {
    Word16Of(address);
    Pad16(IntToBinary(address))
  }

  lemma Word16Of(address: int)
    ensures 0 <= address < 0x1_0000 ==>
      |Pad16(IntToBinary(address))| == 16 && AllBits(Pad16(IntToBinary(address)))
      && BitsValue(Pad16(IntToBinary(address))) == address
  {
    if 0 <= address < 0x1_0000 {
      Word16(address);
    }
  }

  /**
   * The C-word "111" + comp + dest + jump. The parser's `comp` throws first
   * when ';' comes before '=', then the comp table throws on an unknown
   * mnemonic; dest and jump never throw.
   */
  function CWord(c: string): (r: Result<string>)
    ensures r.Err? <==>
      AsmParser.Comp(c).Err? || Code.Comp(Some(AsmParser.Comp(c).value)).Err?
    ensures r.Ok? ==> |r.value| == 16 && AllBits(r.value) && r.value[..3] == "111"
    ensures r.Ok? ==>
      && r.value[3..10] == Code.Comp(Some(AsmParser.Comp(c).value)).value
      && r.value[10..13] == Code.Dest(Some(AsmParser.Dest(c)))
      && r.value[13..] == Code.Jump(Some(AsmParser.Jump(c)))
  {
    match AsmParser.Comp(c)
    case Err(e) => Err(e)
    case Ok(m) =>
      match Code.Comp(Some(m))
      case Err(e) => Err(e)
      case Ok(comp) =>
        Code.CompShape(Some(m));
        var dest, jump := Code.Dest(Some(AsmParser.Dest(c))), Code.Jump(Some(AsmParser.Jump(c)));
        CWordFields(comp, dest, jump);
        Ok("111" + comp + dest + jump)
  }

  /** The four fields of a C-word sit at bits 0-2, 3-9, 10-12 and 13-15. */
  lemma CWordFields(comp: string, dest: string, jump: string)
    requires |comp| == 7 && |dest| == 3 && |jump| == 3 && AllBits(comp) && AllBits(dest) && AllBits(jump)
    ensures var w := "111" + comp + dest + jump;
      && |w| == 16 && AllBits(w) && w[..3] == "111"
      && w[3..10] == comp && w[10..13] == dest && w[13..] == jump
  {
    var w := "111" + comp + dest + jump;
    assert forall i :: 0 <= i < 3 ==> w[i] == '1';
    assert forall i :: 3 <= i < 10 ==> w[i] == comp[i - 3];
    assert forall i :: 10 <= i < 13 ==> w[i] == dest[i - 10];
    assert forall i :: 13 <= i < 16 ==> w[i] == jump[i - 13];
  }

  /** A C-command written from its fields assembles to the fields' codes. */
  lemma CWordOfFields(dest: string, comp: string, jump: string)
    requires AsmParser.FieldText(dest) && AsmParser.FieldText(comp) && AsmParser.FieldText(jump)
    requires Code.Comp(Some(comp)).Ok?
    ensures CWord(AsmParser.CText(dest, comp, jump)) ==
      Ok("111" + Code.Comp(Some(comp)).value + Code.Dest(Some(dest)) + Code.Jump(Some(jump)))
  {
    AsmParser.CTextRoundTrip(dest, comp, jump);
  }

  /** A command that fails to assemble: a C-command whose word throws. */
  predicate Faulty(c: string) {
    AsmParser.GetInstructionType(c) == AsmParser.CCommand && CWord(c).Err?
  }

  /** Some command of `cmds` is faulty. */
  predicate HasFault(cmds: seq<string>) {
    exists j :: 0 <= j < |cmds| && Faulty(cmds[j])
  }

  lemma HasFaultSnoc(cmds: seq<string>)
    requires cmds != []
    ensures HasFault(cmds) <==> HasFault(cmds[..|cmds| - 1]) || Faulty(cmds[|cmds| - 1])
  {
    var init := cmds[..|cmds| - 1];
    if HasFault(cmds) && !Faulty(cmds[|cmds| - 1]) {
      var j :| 0 <= j < |cmds| && Faulty(cmds[j]);
      assert init[j] == cmds[j];
    }
    if HasFault(init) {
      var j :| 0 <= j < |init| && Faulty(init[j]);
      assert cmds[j] == init[j];
    }
  }

  /** One command of the second pass: its word (none for a label) and the state after it. */
  function Instruction(st: State, c: string): (r: Result<(State, seq<string>)>)
    ensures r.Err? <==> Faulty(c)
    ensures r.Ok? ==> |r.value.1| == (if IsLabel(c) then 0 else 1)
    ensures AsmParser.GetInstructionType(c) != AsmParser.ACommand && r.Ok? ==> r.value.0 == st
  {
    match AsmParser.GetInstructionType(c)
    case ACommand =>
      var (st', address) := Resolve(st, AsmParser.Symbol(c));
      Ok((st', [AWord(address)]))
    case CCommand =>
      (match CWord(c)
       case Err(e) => Err(e)
       case Ok(w) => Ok((st, [w])))
    case LCommand => Ok((st, []))
  }

  /** Every command keeps the table growing as `Grows` says. */
  lemma InstructionGrows(base: Table, st: State, c: string)
    requires Grows(base, st) && Instruction(st, c).Ok?
    ensures Grows(base, Instruction(st, c).value.0)
  {
    if AsmParser.GetInstructionType(c) == AsmParser.ACommand {
      ResolveGrows(base, st, AsmParser.Symbol(c));
    }
  }

  /**
   * `assembleCode`: the commands in order, starting at variable address 16,
   * each writing its word. The first faulty command's exception ends the pass.
   */
  function SecondPass(base: Table, cmds: seq<string>): (r: Result<(State, seq<string>)>)
    ensures r.Err? <==> HasFault(cmds)
    ensures r.Ok? ==> |r.value.1| == RomCount(cmds) && Grows(base, r.value.0)
  {
    if cmds == [] then Ok((State(base, 16), []))
    else
      var init := cmds[..|cmds| - 1];
      var c := cmds[|cmds| - 1];
      HasFaultSnoc(cmds);
      match SecondPass(base, init)
      case Err(e) => Err(e)
      case Ok((st, out)) =>
        match Instruction(st, c)
        case Err(e) => Err(e)
        case Ok((st', w)) =>
          InstructionGrows(base, st, c);
          Ok((st', out + w))
  }

  /**
   * The word a command assembles to whatever came before it: a C-word, or
   * the A-word of a number or of a symbol the starting table binds. A new
   * variable's word depends on the variables before it, so it has none.
   */
  function FixedWord(base: Table, c: string): Option<string> {
    match AsmParser.GetInstructionType(c)
    case LCommand => None
    case CCommand => if CWord(c).Ok? then Some(CWord(c).value) else None
    case ACommand =>
      var s := AsmParser.Symbol(c);
      if ParseInt(s).Some? then Some(AWord(ParseInt(s).value))
      else if s in base then Some(AWord(base[s]))
      else None
  }

  /** The word of command `j` lands at ROM address `RomCount(cmds[..j])`. */
  lemma {:induction false} WordAt(base: Table, cmds: seq<string>, j: nat)
    requires j < |cmds|
    ensures SecondPass(base, cmds).Ok? && FixedWord(base, cmds[j]).Some? ==>
      && RomCount(cmds[..j]) < |SecondPass(base, cmds).value.1|
      && SecondPass(base, cmds).value.1[RomCount(cmds[..j])] == FixedWord(base, cmds[j]).value
  {
    if SecondPass(base, cmds).Ok? && FixedWord(base, cmds[j]).Some? {
      WordAtOk(base, cmds, j);
    }
  }

  lemma {:induction false} WordAtOk(base: Table, cmds: seq<string>, j: nat)
    requires SecondPass(base, cmds).Ok? && j < |cmds| && FixedWord(base, cmds[j]).Some?
    ensures RomCount(cmds[..j]) < |SecondPass(base, cmds).value.1|
    ensures SecondPass(base, cmds).value.1[RomCount(cmds[..j])] == FixedWord(base, cmds[j]).value
  {
    var init := cmds[..|cmds| - 1];
    SecondPassSnoc(base, cmds);
    var (st, out) := SecondPass(base, init).value;
    if j == |cmds| - 1 {
      assert init == cmds[..j];
      InstructionFixed(base, st, cmds[j]);
    } else {
      assert init[j] == cmds[j];
      WordAtOk(base, init, j);
      assert init[..j] == cmds[..j];
      RomCountPrefix(init, j);
      WordInPrefix(SecondPass(base, cmds).value.1, out, RomCount(cmds[..j]));
    }
  }

  /**
   * The word of every instruction, a variable's included: command `j` writes,
   * at ROM address `RomCount(cmds[..j])`, the word it assembles to in the
   * state the commands before it left.
   */
  lemma WordOfInstruction(base: Table, cmds: seq<string>, j: nat)
    requires j < |cmds|
    ensures SecondPass(base, cmds).Ok? && !IsLabel(cmds[j]) ==>
      && SecondPass(base, cmds[..j]).Ok?
      && var st := SecondPass(base, cmds[..j]).value.0;
      && Instruction(st, cmds[j]).Ok?
      && RomCount(cmds[..j]) < |SecondPass(base, cmds).value.1|
      && [SecondPass(base, cmds).value.1[RomCount(cmds[..j])]] == Instruction(st, cmds[j]).value.1
  {
    if SecondPass(base, cmds).Ok? && !IsLabel(cmds[j]) {
      WordOfInstructionOk(base, cmds, j);
    }
  }

  lemma WordOfInstructionOk(base: Table, cmds: seq<string>, j: nat)
    requires j < |cmds| && SecondPass(base, cmds).Ok? && !IsLabel(cmds[j])
    ensures SecondPass(base, cmds[..j]).Ok?
    ensures var st := SecondPass(base, cmds[..j]).value.0;
      && Instruction(st, cmds[j]).Ok?
      && RomCount(cmds[..j]) < |SecondPass(base, cmds).value.1|
      && [SecondPass(base, cmds).value.1[RomCount(cmds[..j])]] == Instruction(st, cmds[j]).value.1
  {
    var next := cmds[..j + 1];
    SecondPassPrefix(base, cmds, j + 1);
    assert next[..|next| - 1] == cmds[..j] && next[|next| - 1] == cmds[j];
    LastWord(base, next);
    WordInPrefix(SecondPass(base, cmds).value.1, SecondPass(base, next).value.1, RomCount(cmds[..j]));
  }

  /** The last command of a pass, if an instruction, writes the last word. */
  lemma LastWord(base: Table, cmds: seq<string>)
    requires cmds != [] && SecondPass(base, cmds).Ok? && !IsLabel(cmds[|cmds| - 1])
    ensures var init := cmds[..|cmds| - 1];
      && SecondPass(base, init).Ok?
      && var st := SecondPass(base, init).value.0;
      && Instruction(st, cmds[|cmds| - 1]).Ok?
      && RomCount(init) < |SecondPass(base, cmds).value.1|
      && [SecondPass(base, cmds).value.1[RomCount(init)]] == Instruction(st, cmds[|cmds| - 1]).value.1
  {
    SecondPassSnoc(base, cmds);
  }

  /**
   * `@x` for a variable `x` writes the A-word of x's binding in the table the
   * commands before it built; a variable not bound yet takes
   * `nextVariableAddress`, an address no other variable holds.
   */
  lemma VariableWord(base: Table, cmds: seq<string>, j: nat)
    requires j < |cmds| && AsmParser.GetInstructionType(cmds[j]) == AsmParser.ACommand
    requires ParseInt(AsmParser.Symbol(cmds[j])).None?
    ensures SecondPass(base, cmds).Ok? ==>
      && SecondPass(base, cmds[..j]).Ok?
      && var st := SecondPass(base, cmds[..j]).value.0;
      && var x := AsmParser.Symbol(cmds[j]);
      && RomCount(cmds[..j]) < |SecondPass(base, cmds).value.1|
      && SecondPass(base, cmds).value.1[RomCount(cmds[..j])] ==
           AWord(if Contains(st.table, x) then st.table[x] else st.nextVariable)
      && (!Contains(st.table, x) ==>
            forall s :: s in st.table && s !in base ==> st.table[s] != st.nextVariable)
  {
    if SecondPass(base, cmds).Ok? {
      WordOfInstruction(base, cmds, j);
      SecondPassPrefixGrows(base, cmds, j);
    }
  }

  lemma SecondPassPrefixGrows(base: Table, cmds: seq<string>, j: nat)
    requires j <= |cmds| && SecondPass(base, cmds).Ok?
    ensures SecondPass(base, cmds[..j]).Ok? && Grows(base, SecondPass(base, cmds[..j]).value.0)
  {
    SecondPassPrefix(base, cmds, j);
  }

  /** The pass over a prefix succeeds whenever the whole pass does, and writes the first words. */
  lemma {:induction false} SecondPassPrefix(base: Table, cmds: seq<string>, i: nat)
    requires i <= |cmds| && SecondPass(base, cmds).Ok?
    ensures SecondPass(base, cmds[..i]).Ok?
    ensures var out := SecondPass(base, cmds[..i]).value.1;
      |out| <= |SecondPass(base, cmds).value.1| && SecondPass(base, cmds).value.1[..|out|] == out
    decreases |cmds|
  {
    if i == |cmds| {
      assert cmds[..i] == cmds;
    } else {
      var init := cmds[..|cmds| - 1];
      SecondPassInit(base, cmds);
      SecondPassPrefix(base, init, i);
      assert init[..i] == cmds[..i];
      PrefixOfPrefix(SecondPass(base, cmds).value.1, SecondPass(base, init).value.1,
        SecondPass(base, cmds[..i]).value.1);
    }
  }

  /** The pass over all but the last command succeeds too, and its words come first. */
  lemma SecondPassInit(base: Table, cmds: seq<string>)
    requires cmds != [] && SecondPass(base, cmds).Ok?
    ensures SecondPass(base, cmds[..|cmds| - 1]).Ok?
    ensures var out := SecondPass(base, cmds[..|cmds| - 1]).value.1;
      |out| <= |SecondPass(base, cmds).value.1| && SecondPass(base, cmds).value.1[..|out|] == out
  {
    SecondPassSnoc(base, cmds);
  }

  lemma PrefixOfPrefix<T>(whole: seq<T>, mid: seq<T>, out: seq<T>)
    requires |mid| <= |whole| && whole[..|mid|] == mid
    requires |out| <= |mid| && mid[..|out|] == out
    ensures |out| <= |whole| && whole[..|out|] == out
  {
    assert whole[..|out|] == whole[..|mid|][..|out|];
  }

  lemma WordInPrefix(whole: seq<string>, out: seq<string>, k: nat)
    requires k < |out| <= |whole| && whole[..|out|] == out
    ensures whole[k] == out[k]
  {
    assert whole[..|out|][k] == whole[k];
  }

  /** The second pass over a non-empty list: the pass over all but the last command, then the last. */
  lemma SecondPassSnoc(base: Table, cmds: seq<string>)
    requires cmds != [] && SecondPass(base, cmds).Ok?
    ensures var init := cmds[..|cmds| - 1];
      && SecondPass(base, init).Ok? && Grows(base, SecondPass(base, init).value.0)
      && |SecondPass(base, init).value.1| == RomCount(init)
      && var (st, out) := SecondPass(base, init).value;
      Instruction(st, cmds[|cmds| - 1]).Ok?
      && SecondPass(base, cmds).value.1 == out + Instruction(st, cmds[|cmds| - 1]).value.1
      && |out| <= |SecondPass(base, cmds).value.1| && SecondPass(base, cmds).value.1[..|out|] == out
  {
  }

  /** Past a table that grew from `base`, a command with a fixed word assembles to it. */
  lemma InstructionFixed(base: Table, st: State, c: string)
    requires Grows(base, st) && Instruction(st, c).Ok? && FixedWord(base, c).Some?
    ensures Instruction(st, c).value.1 == [FixedWord(base, c).value]
  {
  }

  /** A prefix holds no more instructions than the whole. */
  lemma {:induction false} RomCountPrefix(cmds: seq<string>, j: nat)
    requires j <= |cmds|
    ensures RomCount(cmds[..j]) <= RomCount(cmds)
    decreases |cmds|
  {
    if j < |cmds| {
      assert cmds[..|cmds| - 1][..j] == cmds[..j];
      RomCountPrefix(cmds[..|cmds| - 1], j);
    } else {
      assert cmds[..j] == cmds;
    }
  }

  // ---------------------------------------------------------------- both passes

  /**
   * `assemble` without the files: each pass opens the file afresh, the
   * second starts from the table the first built, and the output is the
   * words written.
   */
  function Assemble(lines: seq<string>): (r: Result<seq<string>>)
    ensures r.Ok? ==> |r.value| == RomCount(VmParser.Commands(lines))
  {
    AsmParser.DrainNew(lines);
    var labels := FirstPass(AsmParser.Drain(AsmParser.New(lines))).0;
    match SecondPass(labels, AsmParser.Drain(AsmParser.New(lines)))
    case Err(e) => Err(e)
    case Ok((_, out)) => Ok(out)
  }

  /**
   * `@s` for a label `s` assembles to the A-word of the label's ROM address:
   * the number of instructions before the label's last declaration.
   */
  lemma JumpTarget(lines: seq<string>, j: nat, k: nat)
    requires var cmds := VmParser.Commands(lines);
      && j < |cmds| && AsmParser.GetInstructionType(cmds[j]) == AsmParser.ACommand
      && ParseInt(AsmParser.Symbol(cmds[j])).None?
      && LastLabel(cmds, AsmParser.Symbol(cmds[j])) == Some(k)
    ensures var cmds := VmParser.Commands(lines);
      Assemble(lines).Ok? ==>
      && RomCount(cmds[..j]) < |Assemble(lines).value|
      && Assemble(lines).value[RomCount(cmds[..j])] == AWord(RomCount(cmds[..k]))
  {
    var cmds := VmParser.Commands(lines);
    AsmParser.DrainNew(lines);
    var s := AsmParser.Symbol(cmds[j]);
    LabelAddress(cmds, s);
    WordAt(FirstPass(cmds).0, cmds, j);
  }

  // ---------------------------------------------------------------- the assembler's tests

  /** The symbol test program: two labels, EQUAL jumped to before it is declared. */
  const SymbolProgram: seq<string> := SymbolHead + ["(EQUAL)"] + SymbolTail + ["(END)"]

  /** The twelve instructions before `(EQUAL)`. */
  const SymbolHead: seq<string> :=
    ["@R0", "D=M", "@R1", "D=D-M", "@EQUAL", "D;JEQ", "@R0", "D=M", "@R2", "M=D", "@END", "0;JMP"]

  /** The four instructions between `(EQUAL)` and `(END)`. */
  const SymbolTail: seq<string> := ["@R1", "D=M", "@R2", "M=D"]

  lemma SymbolHeadHasNoLabels()
    ensures NoLabels(SymbolHead)
  {
  }

  lemma SymbolTailHasNoLabels()
    ensures NoLabels(SymbolTail)
  {
  }

  /** In the symbol test EQUAL is bound to 12, the address `@EQUAL` assembles to. */
  lemma SymbolProgramEqual()
    ensures GetAddress(FirstPass(SymbolProgram).0, "EQUAL") == Some(12)
  {
    SymbolHeadHasNoLabels();
    SymbolTailHasNoLabels();
    RomCountNoLabels(SymbolHead);
    assert AsmParser.Symbol("(END)") == "END" by {
      AsmParser.SymbolRoundTrip("END");
    }
    LabelBeforeInstructions(SymbolHead, "EQUAL", SymbolTail, "(END)");
    assert "(" + "EQUAL" + ")" == "(EQUAL)";
    assert SymbolProgram == SymbolHead + ["(EQUAL)"] + (SymbolTail + ["(END)"]);
  }

  /** In the symbol test END is bound to 16, the address `@END` assembles to. */
  lemma SymbolProgramEnd()
    ensures GetAddress(FirstPass(SymbolProgram).0, "END") == Some(16)
  {
    SymbolHeadHasNoLabels();
    SymbolTailHasNoLabels();
    var body := SymbolHead + ["(EQUAL)"] + SymbolTail;
    LabelAfter(body, "END", []);
    assert "(" + "END" + ")" == "(END)";
    assert SymbolProgram == body + ["(END)"] + [];
    assert IsLabel("(EQUAL)");
    RomCountWithLabel(SymbolHead, "(EQUAL)", SymbolTail);
    assert |SymbolHead| + |SymbolTail| == 16;
  }

  /** The A-words of the symbol test's jump targets: `@EQUAL` is 12 ... */
  lemma AWordTwelve()
    ensures AWord(12) == "0000000000001100"
  {
    assert NatToBinary(3) == "11";
    assert NatToBinary(6) == "110";
    AWordOfBits(12, NatToBinary(6) + "0", "000000000000");
  }

  /** ... and `@END` is 16. */
  lemma AWordSixteen()
    ensures AWord(16) == "0000000000010000"
  {
    assert NatToBinary(2) == "10";
    assert NatToBinary(4) == "100";
    assert NatToBinary(8) == "1000";
    AWordOfBits(16, NatToBinary(8) + "0", "00000000000");
  }

  /** An address whose binary rendering is short is padded with zeros to sixteen characters. */
  lemma AWordOfBits(address: int, bits: string, zeros: string)
    requires 0 <= address < 0x1_0000 && NatToBinary(address) == bits && |bits| < 16
    requires |zeros| == 16 - |bits| && forall i :: 0 <= i < |zeros| ==> zeros[i] == '0'
    ensures AWord(address) == zeros + bits
  {
    assert Zeros(16 - |bits|) == zeros;
  }

  /** The A-word of address 2, as the simple test expects. */
  lemma AWordTwo()
    ensures AWord(2) == "0000000000000010"
  {
    assert IntToBinary(2) == "10";
    assert Zeros(14) == "00000000000000";
  }

  /** The A-word of address 3, the simple test's `@3`. */
  lemma AWordThree()
    ensures AWord(3) == "0000000000000011"
  {
    assert NatToBinary(1) == "1";
    assert NatToBinary(3) == "11";
    AWordOfBits(3, "11", "00000000000000");
  }

  /** The A-words of addresses 0 and 1, the symbol test's `@R0` and `@R1`. */
  lemma AWordZeroOne()
    ensures AWord(0) == "0000000000000000" && AWord(1) == "0000000000000001"
  {
    AWordOfBits(0, "0", "000000000000000");
    AWordOfBits(1, "1", "000000000000000");
  }

  // ---------------------------------------------------------------- the symbol test, end to end

  /** The words the symbol test expects for the twelve instructions before `(EQUAL)` ... */
  const SymbolHeadWords: seq<string> := [
    "0000000000000000", "1111110000010000", "0000000000000001", "1111010011010000",
    "0000000000001100", "1110001100000010", "0000000000000000", "1111110000010000",
    "0000000000000010", "1110001100001000", "0000000000010000", "1110101010000111"]

  /** ... and for the four between `(EQUAL)` and `(END)`. */
  const SymbolTailWords: seq<string> := [
    "0000000000000001", "1111110000010000", "0000000000000010", "1110001100001000"]

  /** The table the first pass builds for the symbol test: the predefined symbols, EQUAL and END. */
  function SymbolLabels(): Table {
    AddEntry(AddEntry(Initial(), "EQUAL", 12), "END", 16)
  }

  /** Instructions bind nothing in the first pass: the table stays and the ROM address moves on. */
  lemma {:induction false} FirstPassNoLabels(a: seq<string>, b: seq<string>)
    requires NoLabels(b)
    ensures FirstPass(a + b) == (FirstPass(a).0, FirstPass(a).1 + |b|)
    decreases |b|
  {
    if b == [] {
      assert a + b == a;
    } else {
      var n := |b| - 1;
      assert (a + b)[..|a + b| - 1] == a + b[..n] && (a + b)[|a + b| - 1] == b[n];
      assert forall j :: 0 <= j < n ==> b[..n][j] == b[j];
      FirstPassNoLabels(a, b[..n]);
    }
  }

  /** A label declaration binds its label to the number of instructions before it. */
  lemma FirstPassLabel(a: seq<string>, s: string)
    ensures FirstPass(a + ["(" + s + ")"]) == (AddEntry(FirstPass(a).0, s, FirstPass(a).1), FirstPass(a).1)
  {
    AsmParser.SymbolRoundTrip(s);
    var c := a + ["(" + s + ")"];
    assert c[..|c| - 1] == a;
  }

  /** The symbol test's first pass binds exactly EQUAL to 12 and END to 16. */
  lemma SymbolFirstPass(head: seq<string>, tail: seq<string>)
    requires head == SymbolHead && tail == SymbolTail
    ensures FirstPass(head + ["(" + "EQUAL" + ")"] + tail + ["(" + "END" + ")"]).0 == SymbolLabels()
  {
    SymbolHeadHasNoLabels();
    SymbolTailHasNoLabels();
    FirstPassNoLabels([], head);
    assert [] + head == head;
    FirstPassLabel(head, "EQUAL");
    var withEqual := head + ["(" + "EQUAL" + ")"];
    FirstPassNoLabels(withEqual, tail);
    FirstPassLabel(withEqual + tail, "END");
  }

  /** The symbol test's program, with its two label lines written out from their names. */
  lemma SymbolProgramPieces(head: seq<string>, tail: seq<string>)
    requires head == SymbolHead && tail == SymbolTail
    ensures SymbolProgram == head + ["(" + "EQUAL" + ")"] + tail + ["(" + "END" + ")"]
  {
    assert "(" + "EQUAL" + ")" == "(EQUAL)" && "(" + "END" + ")" == "(END)";
  }

  /** Each of `cmds` writes the matching one of `words` and leaves the state `st` as it is. */
  predicate SteadyWords(st: State, cmds: seq<string>, words: seq<string>) {
    |words| == |cmds| && forall j :: 0 <= j < |cmds| ==> Steady(st, cmds[j], words[j])
  }

  /** Command `c` writes the word `w` and leaves the state `st` as it is. */
  predicate Steady(st: State, c: string, w: string) {
    Instruction(st, c) == Ok((st, [w]))
  }

  /**
   * Commands that each write one word and leave the initial state as it is,
   * run after a pass that left that state: their words follow its output.
   */
  lemma {:induction false} SteadyRun(
    base: Table, pre: seq<string>, out: seq<string>, cmds: seq<string>, words: seq<string>)
    requires SecondPass(base, pre) == Ok((State(base, 16), out))
    requires SteadyWords(State(base, 16), cmds, words)
    ensures SecondPass(base, pre + cmds) == Ok((State(base, 16), out + words))
    decreases |cmds|
  {
    if cmds == [] {
      assert pre + cmds == pre && out + words == out;
    } else {
      var n := |cmds| - 1;
      SteadyPrefix(State(base, 16), cmds, words);
      SteadyRun(base, pre, out, cmds[..n], words[..n]);
      SteadyStep(base, pre + cmds[..n], out + words[..n], cmds[n], words[n]);
      SnocSplit(pre, cmds);
      SnocSplit(out, words);
    }
  }

  lemma SnocSplit<T>(a: seq<T>, b: seq<T>)
    requires b != []
    ensures a + b == (a + b[..|b| - 1]) + [b[|b| - 1]]
  {
  }

  lemma SteadyPrefix(st: State, cmds: seq<string>, words: seq<string>)
    requires SteadyWords(st, cmds, words) && cmds != []
    ensures SteadyWords(st, cmds[..|cmds| - 1], words[..|cmds| - 1])
    ensures Instruction(st, cmds[|cmds| - 1]) == Ok((st, [words[|cmds| - 1]]))
  {
    var n := |cmds| - 1;
    assert forall j :: 0 <= j < n ==> cmds[..n][j] == cmds[j] && words[..n][j] == words[j];
  }

  /** One more command that writes `w` and leaves the initial state as it is. */
  lemma SteadyStep(base: Table, pre: seq<string>, out: seq<string>, c: string, w: string)
    requires SecondPass(base, pre) == Ok((State(base, 16), out))
    requires Instruction(State(base, 16), c) == Ok((State(base, 16), [w]))
    ensures SecondPass(base, pre + [c]) == Ok((State(base, 16), out + [w]))
  {
    var all := pre + [c];
    assert all[..|all| - 1] == pre && all[|all| - 1] == c;
  }

  /** A label declaration in the second pass writes nothing and changes nothing. */
  lemma SteadyLabel(base: Table, pre: seq<string>, out: seq<string>, s: string)
    requires SecondPass(base, pre) == Ok((State(base, 16), out))
    ensures SecondPass(base, pre + ["(" + s + ")"]) == Ok((State(base, 16), out))
  {
    AsmParser.SymbolRoundTrip(s);
    var all := pre + ["(" + s + ")"];
    assert all[..|all| - 1] == pre;
    assert out + [] == out;
  }

  /** `@s` for a symbol the table binds writes the A-word of its address and changes nothing. */
  lemma SteadySymbol(st: State, c: string, w: string, s: string, address: int)
    requires ParseInt(s).None? && GetAddress(st.table, s) == Some(address)
    requires c == "@" + s && w == AWord(address)
    ensures Steady(st, c, w)
  {
    AsmParser.SymbolRoundTrip(s);
  }

  /** `@n` for a number n writes the A-word of n and changes nothing. */
  lemma SteadyNumber(st: State, c: string, w: string, s: string, value: int)
    requires ParseInt(s) == Some(value) && c == "@" + s && w == AWord(value)
    ensures Steady(st, c, w)
  {
    AsmParser.SymbolRoundTrip(s);
  }

  /** A C-command written from its fields writes their codes and changes nothing. */
  lemma SteadyFields(st: State, c: string, w: string, dest: string, comp: string, jump: string, code: string)
    requires AsmParser.FieldText(dest) && AsmParser.FieldText(comp) && AsmParser.FieldText(jump)
    requires comp != [] && Code.Comp(Some(comp)) == Ok(code)
    requires c == AsmParser.CText(dest, comp, jump)
    requires w == "111" + code + Code.Dest(Some(dest)) + Code.Jump(Some(jump))
    ensures Steady(st, c, w)
  {
    AsmParser.CTextRoundTrip(dest, comp, jump);
    CWordOfFields(dest, comp, jump);
  }

  /** Four commands, each writing one word and changing nothing. */
  lemma SteadyFour(st: State, c0: string, c1: string, c2: string, c3: string,
                   w0: string, w1: string, w2: string, w3: string)
    requires Steady(st, c0, w0) && Steady(st, c1, w1) && Steady(st, c2, w2) && Steady(st, c3, w3)
    ensures SteadyWords(st, [c0, c1, c2, c3], [w0, w1, w2, w3])
  {
    var cs, ws := [c0, c1, c2, c3], [w0, w1, w2, w3];
    forall j | 0 <= j < 4 ensures Steady(st, cs[j], ws[j]) {
      if j == 0 {
        assert cs[j] == c0 && ws[j] == w0;
      } else if j == 1 {
        assert cs[j] == c1 && ws[j] == w1;
      } else if j == 2 {
        assert cs[j] == c2 && ws[j] == w2;
      } else {
        assert cs[j] == c3 && ws[j] == w3;
      }
    }
  }

  /** Two runs of such commands, one after the other. */
  lemma SteadyAppend(st: State, a: seq<string>, aw: seq<string>, b: seq<string>, bw: seq<string>)
    requires SteadyWords(st, a, aw) && SteadyWords(st, b, bw)
    ensures SteadyWords(st, a + b, aw + bw)
  {
    forall j | 0 <= j < |a + b| ensures Steady(st, (a + b)[j], (aw + bw)[j]) {
      if j >= |a| {
        assert (a + b)[j] == b[j - |a|] && (aw + bw)[j] == bw[j - |a|];
      }
    }
  }

  /** The symbol test's A-commands against the table its first pass built: `@R0` ... */
  lemma SteadyR0(st: State, c: string, w: string)
    requires st.table == SymbolLabels() && c == "@R0" && w == "0000000000000000"
    ensures Steady(st, c, w)
  {
    R0Address();
    AWordZeroOne();
    assert c == "@" + "R0";
    SteadySymbol(st, c, w, "R0", 0);
  }

  /** R0 is a symbol, bound to 0. */
  lemma R0Address()
    ensures ParseInt("R0").None? && GetAddress(SymbolLabels(), "R0") == Some(0)
  {
  }

  /** ... `@R1` ... */
  lemma SteadyR1(st: State, c: string, w: string)
    requires st.table == SymbolLabels() && c == "@R1" && w == "0000000000000001"
    ensures Steady(st, c, w)
  {
    R1Address();
    AWordZeroOne();
    assert c == "@" + "R1";
    SteadySymbol(st, c, w, "R1", 1);
  }

  /** R1 is a symbol, bound to 1. */
  lemma R1Address()
    ensures ParseInt("R1").None? && GetAddress(SymbolLabels(), "R1") == Some(1)
  {
  }

  /** ... `@R2` ... */
  lemma SteadyR2(st: State, c: string, w: string)
    requires st.table == SymbolLabels() && c == "@R2" && w == "0000000000000010"
    ensures Steady(st, c, w)
  {
    R2Address();
    AWordTwo();
    assert c == "@" + "R2";
    SteadySymbol(st, c, w, "R2", 2);
  }

  /** R2 is a symbol, bound to 2. */
  lemma R2Address()
    ensures ParseInt("R2").None? && GetAddress(SymbolLabels(), "R2") == Some(2)
  {
  }

  /** ... `@EQUAL` ... */
  lemma SteadyEqual(st: State, c: string, w: string)
    requires st.table == SymbolLabels() && c == "@EQUAL" && w == "0000000000001100"
    ensures Steady(st, c, w)
  {
    EqualAddress();
    AWordTwelve();
    assert c == "@" + "EQUAL";
    SteadySymbol(st, c, w, "EQUAL", 12);
  }

  /** EQUAL is a symbol, bound to 12. */
  lemma EqualAddress()
    ensures ParseInt("EQUAL").None? && GetAddress(SymbolLabels(), "EQUAL") == Some(12)
  {
  }

  /** ... and `@END`. */
  lemma SteadyEnd(st: State, c: string, w: string)
    requires st.table == SymbolLabels() && c == "@END" && w == "0000000000010000"
    ensures Steady(st, c, w)
  {
    EndAddress();
    AWordSixteen();
    assert c == "@" + "END";
    SteadySymbol(st, c, w, "END", 16);
  }

  /** END is a symbol, bound to 16. */
  lemma EndAddress()
    ensures ParseInt("END").None? && GetAddress(SymbolLabels(), "END") == Some(16)
  {
  }

  /** The symbol test's C-commands: `D=M` ... */
  lemma SteadyLoad(st: State, c: string, w: string)
    requires c == "D=M" && w == "1111110000010000"
    ensures Steady(st, c, w)
  {
    Code.CompExampleRegM();
    LoadText(c);
    LoadWord(w);
    SteadyFields(st, c, w, "D", "M", "", "1110000");
  }

  /** `D=M` is written from its fields ... */
  lemma LoadText(c: string)
    requires c == "D=M"
    ensures AsmParser.FieldText("D") && AsmParser.FieldText("M") && AsmParser.FieldText("")
    ensures c == AsmParser.CText("D", "M", "")
  {
  }

  /** ... and `1111110000010000` from their codes. */
  lemma LoadWord(w: string)
    requires w == "1111110000010000"
    ensures w == "111" + "1110000" + Code.Dest(Some("D")) + Code.Jump(Some(""))
  {
    assert Code.Dest(Some("D")) == "010" && Code.Jump(Some("")) == "000";
  }

  /** ... `D=D-M` ... */
  lemma SteadySubtract(st: State, c: string, w: string)
    requires c == "D=D-M" && w == "1111010011010000"
    ensures Steady(st, c, w)
  {
    Code.CompExampleDMinusM();
    SubtractText(c);
    SubtractWord(w);
    SteadyFields(st, c, w, "D", "D-M", "", "1010011");
  }

  /** `D=D-M` is written from its fields ... */
  lemma SubtractText(c: string)
    requires c == "D=D-M"
    ensures AsmParser.FieldText("D") && AsmParser.FieldText("D-M") && AsmParser.FieldText("")
    ensures c == AsmParser.CText("D", "D-M", "")
  {
  }

  /** ... and `1111010011010000` from their codes. */
  lemma SubtractWord(w: string)
    requires w == "1111010011010000"
    ensures w == "111" + "1010011" + Code.Dest(Some("D")) + Code.Jump(Some(""))
  {
    assert Code.Dest(Some("D")) == "010" && Code.Jump(Some("")) == "000";
  }

  /** ... `D;JEQ` ... */
  lemma SteadyJumpEqual(st: State, c: string, w: string)
    requires c == "D;JEQ" && w == "1110001100000010"
    ensures Steady(st, c, w)
  {
    Code.CompExampleD();
    JumpEqualText(c);
    JumpEqualWord(w);
    SteadyFields(st, c, w, "", "D", "JEQ", "0001100");
  }

  /** `D;JEQ` is written from its fields ... */
  lemma JumpEqualText(c: string)
    requires c == "D;JEQ"
    ensures AsmParser.FieldText("") && AsmParser.FieldText("D") && AsmParser.FieldText("JEQ")
    ensures c == AsmParser.CText("", "D", "JEQ")
  {
  }

  /** ... and `1110001100000010` from their codes. */
  lemma JumpEqualWord(w: string)
    requires w == "1110001100000010"
    ensures w == "111" + "0001100" + Code.Dest(Some("")) + Code.Jump(Some("JEQ"))
  {
    assert Code.Dest(Some("")) == "000" && Code.Jump(Some("JEQ")) == "010";
  }

  /** ... `M=D` ... */
  lemma SteadyStore(st: State, c: string, w: string)
    requires c == "M=D" && w == "1110001100001000"
    ensures Steady(st, c, w)
  {
    Code.CompExampleD();
    StoreText(c);
    StoreWord(w);
    SteadyFields(st, c, w, "M", "D", "", "0001100");
  }

  /** `M=D` is written from its fields ... */
  lemma StoreText(c: string)
    requires c == "M=D"
    ensures AsmParser.FieldText("M") && AsmParser.FieldText("D") && AsmParser.FieldText("")
    ensures c == AsmParser.CText("M", "D", "")
  {
  }

  /** ... and `1110001100001000` from their codes. */
  lemma StoreWord(w: string)
    requires w == "1110001100001000"
    ensures w == "111" + "0001100" + Code.Dest(Some("M")) + Code.Jump(Some(""))
  {
    assert Code.Dest(Some("M")) == "001" && Code.Jump(Some("")) == "000";
  }

  /** ... and `0;JMP`. */
  lemma SteadyJump(st: State, c: string, w: string)
    requires c == "0;JMP" && w == "1110101010000111"
    ensures Steady(st, c, w)
  {
    Code.CompExampleZero();
    JumpText(c);
    JumpWord(w);
    SteadyFields(st, c, w, "", "0", "JMP", "0101010");
  }

  /** `0;JMP` is written from its fields ... */
  lemma JumpText(c: string)
    requires c == "0;JMP"
    ensures AsmParser.FieldText("") && AsmParser.FieldText("0") && AsmParser.FieldText("JMP")
    ensures c == AsmParser.CText("", "0", "JMP")
  {
  }

  /** ... and `1110101010000111` from their codes. */
  lemma JumpWord(w: string)
    requires w == "1110101010000111"
    ensures w == "111" + "0101010" + Code.Dest(Some("")) + Code.Jump(Some("JMP"))
  {
    assert Code.Dest(Some("")) == "000" && Code.Jump(Some("JMP")) == "111";
  }

  /** The first four instructions of the symbol test ... */
  lemma SteadyHeadFirst(st: State, c: seq<string>, w: seq<string>)
    requires st.table == SymbolLabels()
    requires c == ["@R0", "D=M", "@R1", "D=D-M"]
    requires w == ["0000000000000000", "1111110000010000", "0000000000000001", "1111010011010000"]
    ensures SteadyWords(st, c, w)
  {
    SteadyR0(st, "@R0", "0000000000000000");
    SteadyLoad(st, "D=M", "1111110000010000");
    SteadyR1(st, "@R1", "0000000000000001");
    SteadySubtract(st, "D=D-M", "1111010011010000");
    SteadyFour(st, "@R0", "D=M", "@R1", "D=D-M",
      "0000000000000000", "1111110000010000", "0000000000000001", "1111010011010000");
  }

  /** ... the next four ... */
  lemma SteadyHeadMiddle(st: State, c: seq<string>, w: seq<string>)
    requires st.table == SymbolLabels()
    requires c == ["@EQUAL", "D;JEQ", "@R0", "D=M"]
    requires w == ["0000000000001100", "1110001100000010", "0000000000000000", "1111110000010000"]
    ensures SteadyWords(st, c, w)
  {
    SteadyEqual(st, "@EQUAL", "0000000000001100");
    SteadyJumpEqual(st, "D;JEQ", "1110001100000010");
    SteadyR0(st, "@R0", "0000000000000000");
    SteadyLoad(st, "D=M", "1111110000010000");
    SteadyFour(st, "@EQUAL", "D;JEQ", "@R0", "D=M",
      "0000000000001100", "1110001100000010", "0000000000000000", "1111110000010000");
  }

  /** ... the last four before `(EQUAL)` ... */
  lemma SteadyHeadLast(st: State, c: seq<string>, w: seq<string>)
    requires st.table == SymbolLabels()
    requires c == ["@R2", "M=D", "@END", "0;JMP"]
    requires w == ["0000000000000010", "1110001100001000", "0000000000010000", "1110101010000111"]
    ensures SteadyWords(st, c, w)
  {
    SteadyR2(st, "@R2", "0000000000000010");
    SteadyStore(st, "M=D", "1110001100001000");
    SteadyEnd(st, "@END", "0000000000010000");
    SteadyJump(st, "0;JMP", "1110101010000111");
    SteadyFour(st, "@R2", "M=D", "@END", "0;JMP",
      "0000000000000010", "1110001100001000", "0000000000010000", "1110101010000111");
  }

  /** ... and the four between `(EQUAL)` and `(END)`. */
  lemma SteadyTail(st: State, c: seq<string>, w: seq<string>)
    requires st.table == SymbolLabels()
    requires c == SymbolTail
    requires w == SymbolTailWords
    ensures SteadyWords(st, c, w)
  {
    SteadyR1(st, "@R1", "0000000000000001");
    SteadyLoad(st, "D=M", "1111110000010000");
    SteadyR2(st, "@R2", "0000000000000010");
    SteadyStore(st, "M=D", "1110001100001000");
    SteadyFour(st, "@R1", "D=M", "@R2", "M=D",
      "0000000000000001", "1111110000010000", "0000000000000010", "1110001100001000");
  }

  /** Every instruction before `(EQUAL)` writes its expected word. */
  lemma SteadyHead(st: State, head: seq<string>, words: seq<string>)
    requires st.table == SymbolLabels() && head == SymbolHead && words == SymbolHeadWords
    ensures SteadyWords(st, head, words)
  {
    SteadyHeadFirst(st, head[..4], words[..4]);
    SteadyHeadMiddle(st, head[4..8], words[4..8]);
    SteadyHeadLast(st, head[8..], words[8..]);
    SteadyAppend(st, head[..4], words[..4], head[4..8], words[4..8]);
    SteadyAppend(st, head[..4] + head[4..8], words[..4] + words[4..8], head[8..], words[8..]);
    ThreeSlices(head, 4, 8);
    ThreeSlices(words, 4, 8);
  }

  lemma ThreeSlices<T>(s: seq<T>, i: nat, j: nat)
    requires i <= j <= |s|
    ensures s == s[..i] + s[i..j] + s[j..]
  {
  }

  /** The symbol test's second pass writes the sixteen expected words. */
  lemma SymbolSecondPass(base: Table, head: seq<string>, tail: seq<string>)
    requires base == SymbolLabels() && head == SymbolHead && tail == SymbolTail
    ensures SecondPass(base, head + ["(" + "EQUAL" + ")"] + tail + ["(" + "END" + ")"]) ==
      Ok((State(base, 16), SymbolHeadWords + SymbolTailWords))
  {
    SteadyHead(State(base, 16), head, SymbolHeadWords);
    SteadyTail(State(base, 16), tail, SymbolTailWords);
    assert SecondPass(base, []) == Ok((State(base, 16), []));
    SteadyRun(base, [], [], head, SymbolHeadWords);
    assert [] + head == head && [] + SymbolHeadWords == SymbolHeadWords;
    SteadyLabel(base, head, SymbolHeadWords, "EQUAL");
    var withEqual := head + ["(" + "EQUAL" + ")"];
    SteadyRun(base, withEqual, SymbolHeadWords, tail, SymbolTailWords);
    SteadyLabel(base, withEqual + tail, SymbolHeadWords + SymbolTailWords, "END");
  }

  /** Every line of the symbol test is a clean command line. */
  lemma SymbolProgramClean()
    ensures forall j :: 0 <= j < |SymbolProgram| ==>
      VmParser.IsCommandLine(SymbolProgram[j]) && VmParser.NoComment(SymbolProgram[j])
  {
    var lines := ["@R0", "D=M", "@R1", "D=D-M", "@EQUAL", "D;JEQ", "@R2", "M=D", "@END", "0;JMP",
                  "(EQUAL)", "(END)"];
    forall k | 0 <= k < |lines|
      ensures VmParser.IsCommandLine(lines[k]) && VmParser.NoComment(lines[k])
    {
      assert k in {0, 1, 2, 3, 4, 5, 6, 7, 8, 9, 10, 11};
      VmParser.NoSlashNoComment(lines[k]);
    }
    forall j | 0 <= j < |SymbolProgram|
      ensures VmParser.IsCommandLine(SymbolProgram[j]) && VmParser.NoComment(SymbolProgram[j])
    {
      assert SymbolProgram[j] in lines;
    }
  }

  /** The comment line the symbol test's file starts with is dropped, and every other line kept. */
  lemma SymbolTestCommands(comment: string)
    ensures VmParser.Commands(["//" + comment] + SymbolProgram) == SymbolProgram
  {
    VmParser.CommandsAppend(["//" + comment], SymbolProgram);
    VmParser.CommandsOne("//" + comment);
    VmParser.CommentOnly(comment);
    SymbolProgramClean();
    VmParser.CommandsOfCommandLines(SymbolProgram);
  }

  /** A file whose commands both passes take to `out` assembles to `out`. */
  lemma AssembleOfPasses(lines: seq<string>, cmds: seq<string>, st: State, out: seq<string>)
    requires VmParser.Commands(lines) == cmds
    requires SecondPass(FirstPass(cmds).0, cmds) == Ok((st, out))
    ensures Assemble(lines) == Ok(out)
  {
    AsmParser.DrainNew(lines);
  }

  /**
   * The symbol test end to end: its file, a comment line followed by the
   * program, assembles to the sixteen words the test expects.
   */
  lemma SymbolTestAssembles(comment: string)
    ensures Assemble(["//" + comment] + SymbolProgram) == Ok(SymbolHeadWords + SymbolTailWords)
  {
    var head, tail := SymbolHead, SymbolTail;
    SymbolTestCommands(comment);
    SymbolProgramPieces(head, tail);
    SymbolFirstPass(head, tail);
    SymbolSecondPass(SymbolLabels(), head, tail);
    AssembleOfPasses(["//" + comment] + SymbolProgram, SymbolProgram,
      State(SymbolLabels(), 16), SymbolHeadWords + SymbolTailWords);
  }

  /** The simple test program: numbers only, no labels and no variables. */
  const SimpleProgram: seq<string> := ["@2", "D=A", "@3", "D=D+A", "@0", "M=D"]

  /** The six words the simple test expects. */
  const SimpleWords: seq<string> := [
    "0000000000000010", "1110110000010000", "0000000000000011",
    "1110000010010000", "0000000000000000", "1110001100001000"]

  /** The simple test's A-commands: `@2` ... */
  lemma SteadyTwo(st: State, c: string, w: string)
    requires c == "@2" && w == "0000000000000010"
    ensures Steady(st, c, w)
  {
    assert ParseInt("2") == Some(2) && c == "@" + "2";
    AWordTwo();
    SteadyNumber(st, c, w, "2", 2);
  }

  /** ... `@3` ... */
  lemma SteadyThree(st: State, c: string, w: string)
    requires c == "@3" && w == "0000000000000011"
    ensures Steady(st, c, w)
  {
    assert ParseInt("3") == Some(3) && c == "@" + "3";
    AWordThree();
    SteadyNumber(st, c, w, "3", 3);
  }

  /** ... and `@0`. */
  lemma SteadyZero(st: State, c: string, w: string)
    requires c == "@0" && w == "0000000000000000"
    ensures Steady(st, c, w)
  {
    assert ParseInt("0") == Some(0) && c == "@" + "0";
    AWordZeroOne();
    SteadyNumber(st, c, w, "0", 0);
  }

  /** The simple test's C-commands: `D=A` ... */
  lemma SteadyLoadA(st: State, c: string, w: string)
    requires c == "D=A" && w == "1110110000010000"
    ensures Steady(st, c, w)
  {
    Code.CompExampleA();
    LoadAText(c);
    LoadAWord(w);
    SteadyFields(st, c, w, "D", "A", "", "0110000");
  }

  lemma LoadAText(c: string)
    requires c == "D=A"
    ensures AsmParser.FieldText("D") && AsmParser.FieldText("A") && AsmParser.FieldText("")
    ensures c == AsmParser.CText("D", "A", "")
  {
  }

  lemma LoadAWord(w: string)
    requires w == "1110110000010000"
    ensures w == "111" + "0110000" + Code.Dest(Some("D")) + Code.Jump(Some(""))
  {
    assert Code.Dest(Some("D")) == "010" && Code.Jump(Some("")) == "000";
  }

  /** ... and `D=D+A`. */
  lemma SteadyAddA(st: State, c: string, w: string)
    requires c == "D=D+A" && w == "1110000010010000"
    ensures Steady(st, c, w)
  {
    Code.CompExampleDPlusA();
    AddAText(c);
    AddAWord(w);
    SteadyFields(st, c, w, "D", "D+A", "", "0000010");
  }

  lemma AddAText(c: string)
    requires c == "D=D+A"
    ensures AsmParser.FieldText("D") && AsmParser.FieldText("D+A") && AsmParser.FieldText("")
    ensures c == AsmParser.CText("D", "D+A", "")
  {
  }

  lemma AddAWord(w: string)
    requires w == "1110000010010000"
    ensures w == "111" + "0000010" + Code.Dest(Some("D")) + Code.Jump(Some(""))
  {
    assert Code.Dest(Some("D")) == "010" && Code.Jump(Some("")) == "000";
  }

  /** Two commands, each writing one word and changing nothing. */
  lemma SteadyPair(st: State, c0: string, c1: string, w0: string, w1: string)
    requires Steady(st, c0, w0) && Steady(st, c1, w1)
    ensures SteadyWords(st, [c0, c1], [w0, w1])
  {
    var cs, ws := [c0, c1], [w0, w1];
    forall j | 0 <= j < 2 ensures Steady(st, cs[j], ws[j]) {
      if j == 0 {
        assert cs[j] == c0 && ws[j] == w0;
      } else {
        assert cs[j] == c1 && ws[j] == w1;
      }
    }
  }

  /** The simple test's first four commands ... */
  lemma SimpleFirstFour(st: State, c: seq<string>, w: seq<string>)
    requires c == ["@2", "D=A", "@3", "D=D+A"]
    requires w == ["0000000000000010", "1110110000010000", "0000000000000011", "1110000010010000"]
    ensures SteadyWords(st, c, w)
  {
    SteadyTwo(st, "@2", "0000000000000010");
    SteadyLoadA(st, "D=A", "1110110000010000");
    SteadyThree(st, "@3", "0000000000000011");
    SteadyAddA(st, "D=D+A", "1110000010010000");
    SteadyFour(st, "@2", "D=A", "@3", "D=D+A",
      "0000000000000010", "1110110000010000", "0000000000000011", "1110000010010000");
  }

  /** ... and its last two. */
  lemma SimpleLastTwo(st: State, c: seq<string>, w: seq<string>)
    requires c == ["@0", "M=D"] && w == ["0000000000000000", "1110001100001000"]
    ensures SteadyWords(st, c, w)
  {
    SteadyZero(st, "@0", "0000000000000000");
    SteadyStore(st, "M=D", "1110001100001000");
    SteadyPair(st, "@0", "M=D", "0000000000000000", "1110001100001000");
  }

  /** Every command of the simple test writes its expected word. */
  lemma SimpleSteady(st: State, cmds: seq<string>, words: seq<string>)
    requires cmds == SimpleProgram && words == SimpleWords
    ensures SteadyWords(st, cmds, words)
  {
    SimpleFirstFour(st, cmds[..4], words[..4]);
    SimpleLastTwo(st, cmds[4..], words[4..]);
    SteadyAppend(st, cmds[..4], words[..4], cmds[4..], words[4..]);
    assert cmds == cmds[..4] + cmds[4..] && words == words[..4] + words[4..];
  }

  /** The simple test's two passes: no label is bound, and the six expected words are written. */
  lemma SimplePasses(cmds: seq<string>)
    requires cmds == SimpleProgram
    ensures FirstPass(cmds).0 == Initial()
    ensures SecondPass(Initial(), cmds) == Ok((State(Initial(), 16), SimpleWords))
  {
    assert NoLabels(cmds) by {
      forall j | 0 <= j < |cmds| ensures !IsLabel(cmds[j]) {
        assert cmds[j] in SimpleProgram;
      }
    }
    FirstPassNoLabels([], cmds);
    assert [] + cmds == cmds;
    SimpleSteady(State(Initial(), 16), cmds, SimpleWords);
    assert SecondPass(Initial(), []) == Ok((State(Initial(), 16), []));
    SteadyRun(Initial(), [], [], cmds, SimpleWords);
    assert [] + SimpleWords == SimpleWords;
  }

  /** The comment line the simple test's file starts with is dropped, and every other line kept. */
  lemma SimpleTestCommands(comment: string)
    ensures VmParser.Commands(["//" + comment] + SimpleProgram) == SimpleProgram
  {
    VmParser.CommandsAppend(["//" + comment], SimpleProgram);
    VmParser.CommandsOne("//" + comment);
    VmParser.CommentOnly(comment);
    SimpleProgramClean();
    VmParser.CommandsOfCommandLines(SimpleProgram);
  }

  /** Every line of the simple test is a clean command line. */
  lemma SimpleProgramClean()
    ensures forall j :: 0 <= j < |SimpleProgram| ==>
      VmParser.IsCommandLine(SimpleProgram[j]) && VmParser.NoComment(SimpleProgram[j])
  {
    forall j | 0 <= j < |SimpleProgram|
      ensures VmParser.IsCommandLine(SimpleProgram[j]) && VmParser.NoComment(SimpleProgram[j])
    {
      assert j in {0, 1, 2, 3, 4, 5};
      VmParser.NoSlashNoComment(SimpleProgram[j]);
    }
  }

  /**
   * The simple test end to end: its file, a comment line followed by the
   * program, assembles to the six words the test expects.
   */
  lemma SimpleTestAssembles(comment: string)
    ensures Assemble(["//" + comment] + SimpleProgram) == Ok(SimpleWords)
  {
    var cmds := SimpleProgram;
    SimpleTestCommands(comment);
    SimplePasses(cmds);
    AssembleOfPasses(["//" + comment] + cmds, cmds, State(Initial(), 16), SimpleWords);
  }
}

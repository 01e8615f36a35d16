/**
 * The assembler's parser: it cleans lines (cut at `//`, then trim), keeps a
 * one-command look-ahead, and splits the current command into its fields.
 * Java's `null` is `None`, a thrown exception is `Err`.
 */
module AsmParser {
  import opened Base
  import opened Text
  import VmParser

  // ---------------------------------------------------------------- lines

  /**
   * `readNextCommand`'s cleaning of one line: cut at the first `//` (the
   * search is `VmParser.IndexOfComment`, equal to `indexOf("//")` by
   * `VmParser.IndexOfCommentIsIndexOf`), then trim.
   */
  function CleanLine(line: string): (r: string)
    ensures Trimmed(r)
  {
    match VmParser.IndexOfComment(line)
    case None => Trim(line)
    case Some(j) => Trim(line[..j])
  }

  /** Blanks in front of a string do not change what `trim()` returns. */
  lemma {:induction false} TrimBlankPrefix(u: string, a: nat)
    requires a <= |u| && forall i :: 0 <= i < a ==> IsBlank(u[i])
    ensures LeadingBlank(u) == a + LeadingBlank(u[a..])
    ensures Trim(u) == Trim(u[a..])
    decreases a
  {
    if a > 0 {
      assert u[1..][a - 1..] == u[a..];
      TrimBlankPrefix(u[1..], a - 1);
    }
    var k := LeadingBlank(u[a..]);
    assert u[a..][k..] == u[a + k..];
  }

  /** `trim()` keeps the slice between its blank ends. */
  lemma TrimBounds(line: string)
    ensures var a, t := LeadingBlank(line), Trim(line);
      && a + |t| <= |line| && t == line[a..a + |t|]
      && (forall i :: 0 <= i < a ==> IsBlank(line[i]))
      && (forall i :: a + |t| <= i < |line| ==> IsBlank(line[i]))
  {
    VmParser.TrimIsSlice(line);
    LeadingBlanks(line);
    var a := LeadingBlank(line);
    var u := line[a..];
    assert Trim(line) == u[..|u| - TrailingBlank(u)];
    TrailingBlanks(u);
    BlanksAfterSlice(line, a, u, TrailingBlank(u));
  }

  /** Blanks at the end of a suffix of `line` are blanks at the end of `line`. */
  lemma BlanksAfterSlice(line: string, a: nat, u: string, k: nat)
    requires a <= |line| && u == line[a..] && k <= |u|
    requires forall i :: |u| - k <= i < |u| ==> IsBlank(u[i])
    ensures forall i :: a + |u| - k <= i < |line| ==> IsBlank(line[i])
  {
    assert forall i :: a + |u| - k <= i < |line| ==> line[i] == u[i - a];
  }

  /**
   * The assembler cuts the comment before trimming; the VM parsers trim,
   * cut, and trim again. Both clean every line alike.
   */
  lemma CleansLikeVmParser(line: string)
    ensures CleanLine(line) == VmParser.CleanLine(line)
  {
    match VmParser.IndexOfComment(line)
    case None => CleanUncommented(line);
    case Some(j) => CleanCommented(line, j);
  }

  lemma CleanUncommented(line: string)
    requires VmParser.NoComment(line)
    ensures CleanLine(line) == VmParser.CleanLine(line)
  {
    var t := Trim(line);
    VmParser.TrimIsSlice(line);
    VmParser.NoCommentSlice(line, LeadingBlank(line), LeadingBlank(line) + |t|);
    assert VmParser.IndexOfComment(t).None?;
  }

  lemma CleanCommented(line: string, j: nat)
    requires VmParser.IndexOfComment(line) == Some(j)
    ensures CleanLine(line) == VmParser.CleanLine(line)
  {
    AsmCleanCommented(line, j);
    VmCleanCommented(line, j);
  }

  /** The assembler's cleaning of a commented line, in terms of the trimmed line. */
  lemma AsmCleanCommented(line: string, j: nat)
    requires VmParser.IndexOfComment(line) == Some(j)
    ensures LeadingBlank(line) <= j <= LeadingBlank(line) + |Trim(line)|
    ensures CleanLine(line) == Trim(Trim(line)[..j - LeadingBlank(line)])
  {
    CommentInsideTrim(line, j);
    CleanCutAt(line, j);
    TrimCut(line, j);
  }

  /** The VM parsers' cleaning of a commented line, in the same terms. */
  lemma VmCleanCommented(line: string, j: nat)
    requires VmParser.IndexOfComment(line) == Some(j)
    ensures LeadingBlank(line) <= j <= LeadingBlank(line) + |Trim(line)|
    ensures VmParser.CleanLine(line) == Trim(Trim(line)[..j - LeadingBlank(line)])
  {
    CommentInsideTrim(line, j);
    VmParser.CleanCutAt(line, j - LeadingBlank(line));
  }

  /** With the marker at `j`, cleaning trims the text before it. */
  lemma CleanCutAt(line: string, j: nat)
    requires VmParser.IndexOfComment(line) == Some(j)
    ensures j <= |line| && CleanLine(line) == Trim(line[..j])
  {
  }

  /** The comment marker survives trimming, shifted by the leading blanks. */
  lemma CommentInsideTrim(line: string, j: nat)
    requires VmParser.IndexOfComment(line) == Some(j)
    ensures var a, t := LeadingBlank(line), Trim(line);
      a <= j && j + 2 <= a + |t| && VmParser.IndexOfComment(t) == Some(j - a)
  {
    TrimBounds(line);
    CommentInTrimmedSlice(line, LeadingBlank(line), Trim(line), j);
  }

  lemma CommentInTrimmedSlice(line: string, a: nat, t: string, j: nat)
    requires VmParser.IndexOfComment(line) == Some(j) && a + |t| <= |line| && t == line[a..a + |t|]
    requires forall i :: 0 <= i < a ==> IsBlank(line[i])
    requires forall i :: a + |t| <= i < |line| ==> IsBlank(line[i])
    ensures a <= j && j + 2 <= a + |t| && VmParser.IndexOfComment(t) == Some(j - a)
  {
    CommentBetweenBlanks(line, a, a + |t|, j);
  }

  /** A comment marker lies inside any slice outside which every character is blank. */
  lemma CommentBetweenBlanks(line: string, a: nat, b: nat, j: nat)
    requires VmParser.IndexOfComment(line) == Some(j) && a <= b <= |line|
    requires forall i :: 0 <= i < a ==> IsBlank(line[i])
    requires forall i :: b <= i < |line| ==> IsBlank(line[i])
    ensures a <= j && j + 2 <= b && VmParser.IndexOfComment(line[a..b]) == Some(j - a)
  {
    assert !IsBlank(line[j]) && !IsBlank(line[j + 1]);
    VmParser.CommentInSlice(line, a, b, j);
  }

  /** Cutting before or after dropping the leading blanks trims alike. */
  lemma TrimCut(line: string, j: nat)
    requires LeadingBlank(line) <= j <= LeadingBlank(line) + |Trim(line)|
    ensures Trim(line[..j]) == Trim(Trim(line)[..j - LeadingBlank(line)])
  {
    CutTrimmed(line, j);
    TrimCutBlanks(line, j);
  }

  /** Cutting the trimmed line is cutting the line and dropping its leading blanks. */
  lemma CutTrimmed(line: string, j: nat)
    requires LeadingBlank(line) <= j <= LeadingBlank(line) + |Trim(line)|
    ensures Trim(line)[..j - LeadingBlank(line)] == line[..j][LeadingBlank(line)..]
  {
    VmParser.TrimIsSlice(line);
  }

  /** The leading blanks of a line are leading blanks of every cut of it past them. */
  lemma TrimCutBlanks(line: string, j: nat)
    requires LeadingBlank(line) <= j <= |line|
    ensures Trim(line[..j]) == Trim(line[..j][LeadingBlank(line)..])
  {
    LeadingBlanks(line);
    BlanksBeforeCut(line, LeadingBlank(line), j);
    TrimBlankPrefix(line[..j], LeadingBlank(line));
  }

  /** The blanks in front of `s` stay in front when `s` is cut. */
  lemma BlanksBeforeCut(s: string, a: nat, j: nat)
    requires a <= j <= |s| && forall i :: 0 <= i < a ==> IsBlank(s[i])
    ensures forall i :: 0 <= i < a ==> IsBlank(s[..j][i])
  {
  }

  /** The cleaned line keeps no comment. */
  lemma CleanLineNoComment(line: string)
    ensures VmParser.NoComment(CleanLine(line))
  {
    CleansLikeVmParser(line);
    VmParser.CleanLineNoComment(line);
  }

  // ---------------------------------------------------------------- the parser

  /**
   * The parser's fields: the lines not read yet, `currentCommand`, and the
   * look-ahead `nextCommand`.
   */
  datatype Parser = Parser(unread: seq<string>, currentCommand: Option<string>, nextCommand: Option<string>)

  /** The fields hold clean commands, and the look-ahead is null only at the end of the file. */
  predicate Consistent(p: Parser) {
    && (p.currentCommand.Some? ==> VmParser.IsCommandLine(p.currentCommand.value))
    && (p.nextCommand.Some? ==> VmParser.IsCommandLine(p.nextCommand.value))
    && (p.nextCommand.None? ==> p.unread == [])
  }

  /** What every parser the constructor and `advance` return satisfies. */
  predicate Valid(p: Parser) {
    Consistent(p) && (p.currentCommand.None? ==> p.nextCommand.None?)
  }

  function Present(o: Option<string>): seq<string> {
    if o.Some? then [o.value] else []
  }

  /** The commands not yet handled: the current one, the look-ahead, then the unread ones. */
  function Remaining(p: Parser): seq<string> {
    Present(p.currentCommand) + Ahead(p)
  }

  /** The commands after the current one: the look-ahead, then the unread ones. */
  function Ahead(p: Parser): seq<string> {
    Present(p.nextCommand) + VmParser.Commands(p.unread)
  }

  /** `readNextCommand`: the next line that cleans to something non-empty, or null at the end. */
  function ReadNextCommand(unread: seq<string>): (r: (Option<string>, seq<string>))
    ensures r.0.Some? ==> VmParser.IsCommandLine(r.0.value)
    ensures r.0.None? ==> r.1 == []
    ensures r.0.Some? ==> |r.1| < |unread|
    ensures VmParser.Commands(unread) == Present(r.0) + VmParser.Commands(r.1)
  {
    if unread == [] then (None, [])
    else
      var c := CleanLine(unread[0]);
      CleansLikeVmParser(unread[0]);
      if c != [] then (Some(c), unread[1..]) else ReadNextCommand(unread[1..])
  }

  /** `advance`: the look-ahead becomes current and the next command is read. */
  function Advance(p: Parser): (q: Parser)
    requires Consistent(p)
    ensures Valid(q) && q.currentCommand == p.nextCommand
    ensures Remaining(q) == Ahead(p)
    ensures Valid(p) && p.currentCommand.None? ==> q == p
  {
    var (next, rest) := ReadNextCommand(p.unread);
    Parser(rest, p.nextCommand, next)
  }

  /** The constructor: read one command ahead, then advance onto it. */
  function New(lines: seq<string>): (p: Parser)
    ensures Valid(p)
    ensures Remaining(p) == VmParser.Commands(lines)
  {
    var (next, rest) := ReadNextCommand(lines);
    Advance(Parser(rest, None, next))
  }

  /** `hasMoreCommands`: a current command is present. */
  function HasMoreCommands(p: Parser): (r: bool)
    requires Valid(p)
    ensures r <==> Remaining(p) != []
  {
    p.currentCommand.Some?
  }

  /**
   * Each pass's loop `while (hasMoreCommands()) { ...; advance(); }`: the
   * commands it handles, in order, are exactly the remaining ones.
   */
  function Drain(p: Parser): (r: seq<string>)
    requires Valid(p)
    ensures r == Remaining(p)
    decreases |Remaining(p)|
  {
    if HasMoreCommands(p) then [p.currentCommand.value] + Drain(Advance(p))
    else []
  }

  lemma DrainNew(lines: seq<string>)
    ensures Drain(New(lines)) == VmParser.Commands(lines)
  {
    var p := New(lines);
    assert Drain(p) == Remaining(p);
  }

  // ---------------------------------------------------------------- one command

  /** The three answers of `instructionType`. */
  datatype InstructionType = ACommand | CCommand | LCommand

  /** The string `instructionType` returns. */
  function TypeName(t: InstructionType): string {
    match t
    case ACommand => "A_COMMAND"
    case CCommand => "C_COMMAND"
    case LCommand => "L_COMMAND"
  }

  /** `instructionType`: `@…` is an A-command, `(…)` a label, anything else a C-command. */
  function GetInstructionType(command: string): (r: InstructionType)
    ensures r == ACommand <==> |command| >= 1 && command[0] == '@'
    ensures r == LCommand <==> |command| >= 2 && command[0] == '(' && command[|command| - 1] == ')'
  {
    if |command| >= 1 && command[0] == '@' then ACommand
    else if |command| >= 1 && command[0] == '(' && command[|command| - 1] == ')' then LCommand
    else CCommand
  }

  /** `symbol`: what follows the `@`, what lies between the parentheses, "" for a C-command. */
  function Symbol(command: string): (r: string)
    ensures GetInstructionType(command) == ACommand ==> command == "@" + r
    ensures GetInstructionType(command) == LCommand ==> command == "(" + r + ")"
    ensures GetInstructionType(command) == CCommand ==> r == []
  {
    match GetInstructionType(command)
    case ACommand => command[1..]
    case LCommand => command[1..|command| - 1]
    case CCommand => []
  }

  /** `dest`: the text before the first '=', "" when there is none or this is no C-command. */
  function Dest(command: string): (r: string)
    ensures GetInstructionType(command) == CCommand && '=' in command ==>
      |r| < |command| && command[|r|] == '=' && command[..|r|] == r && '=' !in r
    ensures GetInstructionType(command) != CCommand || '=' !in command ==> r == []
  {
    if GetInstructionType(command) != CCommand then []
    else match IndexOfChar(command, '=')
      case None => []
      case Some(e) => command[..e]
  }

  /**
   * `comp`: the text between the first '=' (or the start) and the first ';'
   * (or the end). When the first ';' comes before the first '=', Java's
   * `substring` throws StringIndexOutOfBoundsException.
   */
  function Comp(command: string): (r: Result<string>)
    ensures GetInstructionType(command) != CCommand ==> r == Ok([])
    ensures r.Err? <==>
      (&& GetInstructionType(command) == CCommand
       && IndexOfChar(command, '=').Some? && IndexOfChar(command, ';').Some?
       && IndexOfChar(command, ';').value < IndexOfChar(command, '=').value + 1)
  {
    if GetInstructionType(command) != CCommand then Ok([])
    else
      var e := IndexOfChar(command, '=');
      var s := IndexOfChar(command, ';');
      if e.None? then
        if s.None? then Ok(command) else Ok(command[..s.value])
      else if s.None? then Ok(command[e.value + 1..])
      else if s.value < e.value + 1 then Err(IndexOutOfBounds(e.value + 1, s.value))
      else Ok(command[e.value + 1..s.value])
  }

  /** `jump`: the text after the first ';', "" when there is none or this is no C-command. */
  function Jump(command: string): (r: string)
    ensures GetInstructionType(command) == CCommand && ';' in command ==>
      && |r| < |command| && command[|command| - |r| - 1] == ';' && command[|command| - |r|..] == r
      && ';' !in command[..|command| - |r| - 1]
    ensures GetInstructionType(command) != CCommand || ';' !in command ==> r == []
  {
    if GetInstructionType(command) != CCommand then []
    else match IndexOfChar(command, ';')
      case None => []
      case Some(s) => command[s + 1..]
  }

  // ---------------------------------------------------------------- round trips

  /** Text that can stand in a field of a C-command: none of the characters the parser looks for. */
  predicate FieldText(s: string) {
    forall i :: 0 <= i < |s| ==> s[i] != '=' && s[i] != ';' && s[i] != '@' && s[i] != '('
  }

  /** A C-command written out as `dest=comp;jump`, each separator only when its field is there. */
  function CText(dest: string, comp: string, jump: string): string {
    (if dest == [] then [] else dest + "=") + comp + (if jump == [] then [] else ";" + jump)
  }

  /** A C-command built from its fields splits back into the same fields. */
  lemma CTextRoundTrip(dest: string, comp: string, jump: string)
    requires FieldText(dest) && FieldText(comp) && FieldText(jump) && comp != []
    ensures var c := CText(dest, comp, jump);
      && GetInstructionType(c) == CCommand
      && Dest(c) == dest && Comp(c) == Ok(comp) && Jump(c) == jump
  {
    var c := CText(dest, comp, jump);
    var pre := if dest == [] then [] else dest + "=";
    CTextIsC(dest, comp, jump);
    CTextEquals(dest, comp, jump);
    CTextSemicolon(dest, comp, jump);
    if jump != [] {
      var s := |pre| + |comp|;
      assert c[s + 1..] == jump;
      assert c[|pre|..s] == comp;
    } else {
      assert c[|pre|..] == comp;
    }
  }

  /** Such a text starts with neither '@' nor '(': it is a C-command. */
  lemma CTextIsC(dest: string, comp: string, jump: string)
    requires FieldText(dest) && FieldText(comp) && comp != []
    ensures GetInstructionType(CText(dest, comp, jump)) == CCommand
  {
    var c := CText(dest, comp, jump);
    if dest == [] {
      assert c[0] == comp[0];
    } else {
      assert c[0] == dest[0];
    }
  }

  /** Its first '=' is the one after `dest`. */
  lemma CTextEquals(dest: string, comp: string, jump: string)
    requires FieldText(dest) && FieldText(comp) && FieldText(jump)
    ensures IndexOfChar(CText(dest, comp, jump), '=') == (if dest == [] then None else Some(|dest|))
  {
    var c := CText(dest, comp, jump);
    if dest != [] {
      assert c[|dest|] == '=';
      assert c[..|dest|] == dest;
    } else {
      assert '=' !in c;
    }
  }

  /** Its first ';' is the one before `jump`. */
  lemma CTextSemicolon(dest: string, comp: string, jump: string)
    requires FieldText(dest) && FieldText(comp)
    ensures var pre := if dest == [] then [] else dest + "=";
      IndexOfChar(CText(dest, comp, jump), ';') == (if jump == [] then None else Some(|pre| + |comp|))
  {
    var c := CText(dest, comp, jump);
    var pre := if dest == [] then [] else dest + "=";
    var s := |pre| + |comp|;
    assert c[..s] == pre + comp;
    assert ';' !in pre + comp;
    if jump != [] {
      assert c[s] == ';';
    }
  }

  /** `@symbol` gives its symbol back, and `(label)` its label. */
  lemma SymbolRoundTrip(s: string)
    ensures GetInstructionType("@" + s) == ACommand && Symbol("@" + s) == s
    ensures GetInstructionType("(" + s + ")") == LCommand && Symbol("(" + s + ")") == s
  {
    assert ("(" + s + ")")[1..|s| + 1] == s;
  }

  /** The parser's field tests for `@100` and `(LOOP)`. */
  lemma SymbolExamples()
    ensures GetInstructionType("@100") == ACommand && Symbol("@100") == "100"
    ensures GetInstructionType("(LOOP)") == LCommand && Symbol("(LOOP)") == "LOOP"
  {
    SymbolRoundTrip("100");
    SymbolRoundTrip("LOOP");
  }

  /** The parser's field test for `D=A`. */
  lemma AssignExample()
    ensures GetInstructionType("D=A") == CCommand
    ensures Dest("D=A") == "D" && Comp("D=A") == Ok("A") && Jump("D=A") == ""
  {
    CTextRoundTrip("D", "A", "");
    assert CText("D", "A", "") == "D=A";
  }

  /** The parser's field test for `M=D`. */
  lemma StoreExample()
    ensures Dest("M=D") == "M" && Comp("M=D") == Ok("D") && Jump("M=D") == ""
  {
    CTextRoundTrip("M", "D", "");
    assert CText("M", "D", "") == "M=D";
  }

  /** The parser's field test for `D;JGT`. */
  lemma JumpExample()
    ensures Dest("D;JGT") == "" && Comp("D;JGT") == Ok("D") && Jump("D;JGT") == "JGT"
  {
    CTextRoundTrip("", "D", "JGT");
    assert CText("", "D", "JGT") == "D;JGT";
  }

  /** A ';' before the '=' makes `comp` throw. */
  lemma CompThrows()
    ensures Comp("0;JMP=D") == Err(IndexOutOfBounds(6, 1))
  {
    assert IndexOfChar("0;JMP=D", ';') == Some(1);
    assert IndexOfChar("0;JMP=D", '=') == Some(5);
  }
}

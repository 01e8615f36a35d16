# nand2tetris toolchain core, modelled in Dafny

This project models the core of a Java implementation of the nand2tetris
tool chain. It covers three parts:

- **The VM translator** of projects 7 and 8. Its `CodeWriter` turns stack-machine
  commands (`push`, `pop`, arithmetic, program flow, `function`, `call`,
  `return`, the bootstrap) into Hack assembly. Its `Parser` reads a `.vm` file
  line by line, strips `//` comments and blanks, and classifies each command.
- **The Hack assembler** of project 6. Its `Parser` works one command ahead.
  `Code` maps the dest, comp and jump mnemonics to bits. `SymbolTable` starts
  with the predefined symbols. `Hack` makes a first pass that binds labels to
  ROM addresses and a second pass that writes one 16-character binary word per
  A- or C-instruction, giving new variables RAM addresses from 16 upwards.
- **A small Hack machine** (module `HackMachine`) that the writers' output is
  run on. It is needed to state what the emitted code *does*: net SP effects,
  which RAM cells change, where control goes. It is not part of the Java code.
  A jump to a label continues after the label's last declaration, because
  that is the one the assembler binds the label to.

Each Java method is a pure function in the model:

- A file is its sequence of lines.
- Output is a sequence of typed instructions (`HackAsm.Instr`); `HackAsm.Render`
  gives the exact text line the Java writes for each one.
- The writer's state (label counter, current file name) is threaded through
  explicitly.
- Java `null` becomes `None`, and a thrown runtime exception becomes `Err`.

Layout, one module per file:

| file | module | Java counterpart |
|---|---|---|
| `base.dfy` | `Base` | result and option types |
| `text.dfy` | `Text` | the `String` and `Integer` library methods the code relies on |
| `vm_parser.dfy` | `VmParser` | line cleaning and classification shared by both VM parsers |
| `vm_parser7.dfy` | `VmParser7` | project 7 parser |
| `vm_parser8.dfy` | `VmParser8` | project 8 parser |
| `hack_asm.dfy` | `HackAsm` | the instructions the writers emit |
| `hack_machine.dfy` | `HackMachine` | the machine that runs them |
| `stack_code.dfy` | `StackCode` | `incrementSP`, `decrementSP`, `pushD`, `popToD` |
| `segments.dfy` | `Segments` | the segment pieces of `writePushPop` |
| `arithmetic.dfy` | `Arithmetic` | `writeArithmetic`, the same in both projects |
| `code_writer7.dfy` | `CodeWriter7` | project 7 writer |
| `code_writer8.dfy` | `CodeWriter8` | project 8 writer |
| `call_frame.dfy` | `CallFrame` | the function-call protocol run on the machine |
| `code.dfy` | `Code` | the assembler's `Code` |
| `symbol_table.dfy` | `SymbolTable` | the assembler's `SymbolTable` |
| `asm_parser.dfy` | `AsmParser` | the assembler's `Parser` |
| `assembler.dfy` | `Assembler` | `Hack`'s two passes |

Four behaviours of the code as written are worth knowing. The model keeps
all four rather than correcting them.

- **The translator and the assembler disagree on three mnemonics.** Both
  writers emit `M=M+D`, `M=M&D` and `M=M|D` for `add`, `and` and `or`. This
  repository's `Code.comp` rejects the comps `M+D`, `M&D` and `M|D` with
  IllegalArgumentException; see `HackAsm.CompTextAccepted`.
- **`gt` and `lt` can give the wrong answer.** They compare by the sign of the
  16-bit difference x - y, so they are wrong when that difference overflows.
  `Arithmetic.CompareOverflow` shows `32767 gt -1` evaluating to false.
- **Long A-words for out-of-range addresses.** An A-command whose address is
  negative or at least 65536 gives a word longer than 16 characters, because
  `String.format("%16s", ...)` pads but never cuts.
- **Labels are not scoped to their function.** The project 8 writer emits
  `label l` as a bare `(l)`, without the function-name prefix. When two
  functions both declare `label LOOP`, the assembler keeps the last binding,
  so every `goto LOOP` and `if-goto LOOP` lands in the later function. See
  `CodeWriter8.GotoSharedLabel`.

## Model

| member | source | states |
|---|---|---|
| Text.Trim | projects/8/vm/src/vm/parser/Parser.java:63 | `trim()` leaves no blank (a character up to U+0020) at either end and never lengthens the string |
| Text.TrimIdempotent | projects/8/vm/src/vm/parser/Parser.java:63-66 | trimming an already trimmed line changes nothing |
| Text.IndexOf | projects/6/asm/parser/Parser.java:28 | `indexOf(p)` is the first position where p occurs, with no occurrence before it; `None` (Java's -1) means p occurs nowhere |
| Text.IndexOfChar | projects/6/asm/parser/Parser.java:77 | `indexOf(c)` is the first position holding c; `None` exactly when c is absent |
| Text.LastIndexOfChar | projects/8/vm/src/vm/codewriter/CodeWriter.java:290-294 | `lastIndexOf(c)` is the last position holding c; `None` exactly when c is absent |
| Text.TokensAreTokens | projects/8/vm/src/vm/parser/Parser.java:84 | the pieces `split("\\s+")` yields from a trimmed command are non-empty and hold no whitespace |
| Text.TokensOfUnwords | projects/8/vm/src/vm/parser/Parser.java:84 | splitting words joined by single spaces gives back exactly those words |
| Text.ParseInt | projects/8/vm/src/vm/parser/Parser.java:130 | `Integer.parseInt` accepts only values in the int range; an unsigned digit string reads as its decimal value |
| Text.ParseIntOfIntToString | projects/8/vm/src/vm/parser/Parser.java:130 | reading back the decimal rendering of any int gives that int |
| Text.IntToString | projects/8/vm/src/vm/codewriter/CodeWriter.java:118 | an int renders with a leading '-' exactly when it is negative |
| Text.IntToStringInjective | projects/8/vm/src/vm/codewriter/CodeWriter.java:172 | distinct ints render as distinct strings, so distinct static indices give distinct symbols |
| Text.NatToStringInjective | projects/8/vm/src/vm/codewriter/CodeWriter.java:53-55 | distinct counter values give distinct label suffixes |
| Text.IntToBinary | projects/6/asm/src/asm/hack/Hack.java:92 | `Integer.toBinaryString` is the plain binary of a non-negative int and the 32-bit two's complement of a negative one |
| Text.NatToBinaryValue | projects/6/asm/src/asm/hack/Hack.java:92 | the binary rendering reads back as the number it came from |
| Text.Pad16 | projects/6/asm/src/asm/hack/Hack.java:92 | `%16s` with spaces turned to '0' pads a short bit string to exactly 16 and leaves a longer one as it is |
| Text.Word16 | projects/6/asm/src/asm/hack/Hack.java:92 | every value below 65536 becomes a 16-bit string whose value is that number |
| VmParser.IndexOfComment | projects/8/vm/src/vm/parser/Parser.java:64 | the position of the first `//`, with none before it; `None` exactly when the line holds no `//` |
| VmParser.IndexOfCommentIsIndexOf | projects/8/vm/src/vm/parser/Parser.java:64 | the comment search agrees with `indexOf("//")` on every line |
| VmParser.CleanLine | projects/8/vm/src/vm/parser/Parser.java:63-67 | trim, cut at the first `//`, trim again: the result has no blank at either end |
| VmParser.CleanLineNoComment | projects/8/vm/src/vm/parser/Parser.java:63-67 | a cleaned line holds no `//` |
| VmParser.CleanLineFixes | projects/8/vm/src/vm/parser/Parser.java:63-67 | a trimmed line without `//` is left as it is |
| VmParser.CleanLineIdempotent | projects/8/vm/src/vm/parser/Parser.java:63-67 | cleaning twice is cleaning once |
| VmParser.CommentDropped | projects/8/vm/src/vm/parser/Parser.java:63-67 | a command followed by ` //comment` cleans to the command alone |
| VmParser.CommentOnly | projects/8/vm/src/vm/parser/Parser.java:63-69 | a line that starts with `//` cleans to the empty string and is skipped |
| VmParser.Commands | projects/8/vm/src/vm/parser/Parser.java:51-74 | a file holds at most one command per line |
| VmParser.CommandsOne | projects/8/vm/src/vm/parser/Parser.java:63-72 | one line gives its cleaned text as a command, or nothing when that text is empty |
| VmParser.CommandsAppend | projects/8/vm/src/vm/parser/Parser.java:54-73 | lines are handled one at a time: the commands of two parts of a file, one after the other |
| VmParser.NoiseCommands | projects/8/vm/src/vm/parser/Parser.java:57-72 | comment-only and empty lines give no command; a trailing comment is cut off |
| VmParser.CommandsOfCommandLines | projects/8/vm/src/vm/parser/Parser.java:57-72 | a file whose every line is a command without a comment gives exactly its lines as commands |
| VmParser.ReadNext | projects/7/vm/src/vm/parser/Parser.java:33-54 | the read loop returns the first command of the remaining lines and consumes the lines up to it; at end of file it returns `None` and there were no commands left |
| VmParser.Parts | projects/8/vm/src/vm/parser/Parser.java:84 | `split("\\s+")` of a command line has at least one word, and every word is non-empty and free of whitespace |
| VmParser.CommandType | projects/8/vm/src/vm/parser/Parser.java:79-104 | C_PUSH exactly for first word `push`, C_POP exactly for `pop`, C_ARITHMETIC exactly for the nine arithmetic words, -1 for no command and for anything else |
| VmParser.Arg1 | projects/8/vm/src/vm/parser/Parser.java:110-121 | the first word for an arithmetic command; otherwise the second word, which is null exactly when there is none |
| VmParser.Arg2 | projects/8/vm/src/vm/parser/Parser.java:127-134 | -1 with fewer than three words; otherwise the third word as an int, or NumberFormatException exactly when `parseInt` rejects it |
| VmParser.UnwordsCommandLine | projects/8/vm/src/vm/parser/Parser.java:84 | plain words joined by single spaces form a clean command line that splits back into the same words |
| VmParser.PushPopRoundTrip | projects/8/vm/src/vm/parser/Parser.java:79-134 | `push/pop segment index` parses back to its command type, segment and index |
| VmParser.ArithmeticRoundTrip | projects/8/vm/src/vm/parser/Parser.java:79-134 | each arithmetic word is C_ARITHMETIC, is its own arg1, and has arg2 -1 |
| VmParser.FlowUnclassified | projects/8/vm/src/vm/parser/Parser.java:79-96 | `label`, `goto` and `if-goto` commands are typed -1: this parser has no type for them |
| VmParser.FunctionUnclassified | projects/8/vm/src/vm/parser/Parser.java:79-134 | `function f k` and `call f n` are typed -1, though arg1 and arg2 still read the name and the count |
| VmParser.ReturnUnclassified | projects/8/vm/src/vm/parser/Parser.java:79-121 | `return` is typed -1 and has no arg1 |
| VmParser7.Advance | projects/7/vm/src/vm/parser/Parser.java:33-54 | `advance` returns true exactly when a command became current, and that command is the next one of the file; otherwise the command is null and the file held no more commands |
| VmParser7.New | projects/7/vm/src/vm/parser/Parser.java:23-27 | the constructor advances once, so the current command and the unread lines hold exactly the file's commands |
| VmParser7.Drain | projects/7/vm/src/vm/VMTranslator.java:53-65 | the driver loop (handle the current command, then stop when `advance` returns false) sees exactly the remaining commands in order |
| VmParser7.DrainNew | projects/7/vm/src/vm/parser/Parser.java:23-54 | from a fresh parser the loop sees exactly the file's commands |
| VmParser7.EmptyFile | projects/7/vm/src/vm/parser/Parser.java:37-40 | a file without commands leaves the parser at a null command |
| VmParser8.ReadNextLine | projects/8/vm/src/vm/parser/Parser.java:51-74 | the next command goes into `currentLine`; at end of file `currentLine` is null and `hasMoreLines` false; the current command is untouched |
| VmParser8.New | projects/8/vm/src/vm/parser/Parser.java:24-29 | the constructor has no current command and reads the first command ahead |
| VmParser8.HasMoreLines | projects/8/vm/src/vm/parser/Parser.java:34-36 | `hasMoreLines` is true exactly while a command is still to be handed out |
| VmParser8.Advance | projects/8/vm/src/vm/parser/Parser.java:41-46 | the look-ahead becomes the current command and the rest stays pending; past the end nothing changes |
| VmParser8.Drain | projects/8/vm/src/vm/parser/Parser.java:34-46 | the loop `while (hasMoreLines()) advance()` sees exactly the pending commands in order |
| VmParser8.DrainNew | projects/8/vm/src/vm/parser/Parser.java:24-74 | from a fresh parser that loop sees exactly the file's commands |
| HackAsm.CompTextAccepted | projects/6/asm/code/Code.java:34-76 | the assembler accepts a comp the writers emit exactly when it is one of its own forms: `M+D`, `M&D` and `M|D` are rejected |
| HackAsm.JumpTextAccepted | projects/6/asm/code/Code.java:83-98 | the writers' jump texts are assembler jump mnemonics with non-zero codes |
| HackAsm.DestTextBits | projects/6/asm/code/Code.java:12-27 | each destination the writers use sets exactly its register's bit |
| HackAsm.RegisterPredefined | projects/6/asm/src/asm/symbol/SymbolTable.java:25-37 | every register the writers name (SP, LCL, ARG, THIS, THAT, R13, R14) is predefined at the address the machine uses |
| StackCode.IncrementSPEffect | projects/8/vm/src/vm/codewriter/CodeWriter.java:259-262 | `incrementSP` adds one to SP (modulo 2^16) and changes no other cell |
| StackCode.DecrementSPEffect | projects/8/vm/src/vm/codewriter/CodeWriter.java:265-269 | `decrementSP` subtracts one from SP (modulo 2^16), points A at the new top, and changes no other cell |
| StackCode.PushDEffect | projects/8/vm/src/vm/codewriter/CodeWriter.java:272-277 | `pushD` stores D at the old top and raises SP by one; nothing else changes |
| StackCode.PopToDEffect | projects/8/vm/src/vm/codewriter/CodeWriter.java:280-283 | `popToD` lowers SP by one and loads the popped cell into D |
| StackCode.PushThenPop | projects/8/vm/src/vm/codewriter/CodeWriter.java:272-283 | `pushD` followed by `popToD` restores SP and returns the pushed value in D |
| Segments.SegmentOf | projects/8/vm/src/vm/codewriter/CodeWriter.java:120-176 | the segment names the writer tests for, each recognised as itself |
| Segments.SegmentOfName | projects/8/vm/src/vm/codewriter/CodeWriter.java:120-176 | every known segment's name is recognised as that segment |
| Segments.LoadBaseEffect | projects/7/vm/src/vm/codewriter/CodeWriter.java:144-173 | loading a segment base puts its base address (the pointer's contents, or 5 or 16) in D and writes no RAM |
| Segments.PushIndexedEffect | projects/7/vm/src/vm/codewriter/CodeWriter.java:174-177 | an indexed push copies the cell at base + index onto the stack; only SP and the old top cell change |
| Segments.PopIndexedEffect | projects/7/vm/src/vm/codewriter/CodeWriter.java:224-237 | an indexed pop saves base + index in R13, then stores the popped value there; only SP, R13 and the target change |
| Segments.PopPointerEffect | projects/7/vm/src/vm/codewriter/CodeWriter.java:183-196 | `pop pointer 0/1` writes THIS/THAT directly without R13; only SP and that register change |
| Segments.PushFrom | projects/7/vm/src/vm/codewriter/CodeWriter.java:143-177 | loading the base and pushing copies the target cell; a name the writer does not know uses whatever D held |
| Segments.PopInto | projects/7/vm/src/vm/codewriter/CodeWriter.java:198-237 | loading the base and popping moves the top of the stack into the target cell through R13 |
| Segments.PushConstantRun | projects/7/vm/src/vm/codewriter/CodeWriter.java:119-125 | `push constant i` pushes i itself |
| Segments.PushPointerRun | projects/7/vm/src/vm/codewriter/CodeWriter.java:127-141 | `push pointer 0/1` pushes THIS/THAT |
| Arithmetic.OpOf | projects/8/vm/src/vm/codewriter/CodeWriter.java:34-109 | the nine command names the writer tests for; any other name has no block |
| Arithmetic.OpOfName | projects/8/vm/src/vm/codewriter/CodeWriter.java:34-109 | every command's name is recognised as that command |
| Arithmetic.MintedNumber | projects/8/vm/src/vm/codewriter/CodeWriter.java:53-54 | the counter a minted label was made from reads back from its trailing digits |
| Arithmetic.WriteArithmetic | projects/8/vm/src/vm/codewriter/CodeWriter.java:30-32 | the first line written is the echo comment `// <command>` |
| Arithmetic.WriteArithmeticLabels | projects/8/vm/src/vm/codewriter/CodeWriter.java:51-91 | eq, gt and lt declare exactly `TRUE<n>` and `END<n>` for the current counter n and advance it by one; every other command declares nothing and keeps the counter |
| Arithmetic.ArithmeticMints | projects/8/vm/src/vm/codewriter/CodeWriter.java:51-55 | one command declares no label twice, and every label it declares carries the counter |
| Arithmetic.BinaryEffect | projects/8/vm/src/vm/codewriter/CodeWriter.java:36-45 | a binary block replaces the top two cells by their combination one cell lower; SP goes down by one and nothing else changes |
| Arithmetic.UnaryEffect | projects/8/vm/src/vm/codewriter/CodeWriter.java:46-50 | a unary block rewrites the top cell in place; SP and every other cell are unchanged |
| Arithmetic.CompareEffect | projects/8/vm/src/vm/codewriter/CodeWriter.java:57-91 | a comparison replaces the two operands by the truth value of its jump condition on x - y; SP goes down by one and nothing else changes |
| Arithmetic.StoreCompMeaning | projects/8/vm/src/vm/codewriter/CodeWriter.java:38-103 | add, sub, and and or store the VM value of x op y |
| Arithmetic.UnaryMeaning | projects/8/vm/src/vm/codewriter/CodeWriter.java:46-108 | neg and not store the VM value of op y |
| Arithmetic.CompareMeaning | projects/8/vm/src/vm/codewriter/CodeWriter.java:64-87 | eq always stores the VM truth value (-1 or 0); gt and lt do so when x - y does not overflow |
| Arithmetic.CompareOverflow | projects/8/vm/src/vm/codewriter/CodeWriter.java:64-73 | when x - y overflows, gt gives the wrong answer: 32767 gt -1 is false |
| Arithmetic.ExecWriteArithmetic | projects/8/vm/src/vm/codewriter/CodeWriter.java:30-110 | the code written for each command runs straight through, with no jump leaving the block, provided the code after it does not declare the comparison's own TRUE<n>/END<n> labels again |
| Arithmetic.ArithmeticStack | projects/8/vm/src/vm/codewriter/CodeWriter.java:30-110 | net effect per command: unary keeps SP and rewrites the top cell; binary lowers SP by one and leaves the VM result; no other cell changes |
| CodeWriter7.WritePushPop | projects/7/vm/src/vm/codewriter/CodeWriter.java:114-239 | writes nothing for a command other than C_PUSH and C_POP, otherwise starts with `// push/pop segment index` |
| CodeWriter7.PushBodyRun | projects/7/vm/src/vm/codewriter/CodeWriter.java:115-177 | the push body raises SP by one, stores the pushed value in the old top cell, and changes nothing else |
| CodeWriter7.PopBodyRun | projects/7/vm/src/vm/codewriter/CodeWriter.java:179-238 | the pop body moves the top of the stack into the target and lowers SP; pointer leaves R13 alone, the other segments leave the target address in R13 |
| CodeWriter7.PushEffect | projects/7/vm/src/vm/codewriter/CodeWriter.java:115-177 | `push segment index` raises SP by one and puts the segment's value on top; no other RAM cell changes |
| CodeWriter7.PopEffect | projects/7/vm/src/vm/codewriter/CodeWriter.java:179-238 | `pop segment index` stores the top of the stack in the target and lowers SP; only SP, R13 and the target change, and pointer does not touch R13 |
| CodeWriter7.StaticIsSixteenPlus | projects/7/vm/src/vm/codewriter/CodeWriter.java:169-171 | project 7's `static i` is the RAM cell 16 + i |
| CodeWriter7.PointerOutOfRange | projects/7/vm/src/vm/codewriter/CodeWriter.java:127-140 | a pointer index other than 0 or 1 writes the echo comment and nothing more |
| CodeWriter7.PushPopDeclaresNothing | projects/7/vm/src/vm/codewriter/CodeWriter.java:114-239 | `writePushPop` declares no label |
| CodeWriter7.WriteLabels | projects/7/vm/src/vm/codewriter/CodeWriter.java:51-55 | one writer call declares either nothing or two distinct labels carrying the counter, which it then advances |
| CodeWriter7.TranslateLabels | projects/7/vm/src/vm/codewriter/CodeWriter.java:51-55 | over a whole translation the counter only grows, no label is declared twice, and each declared label carries a counter value the run consumed |
| CodeWriter8.FileNameOf | projects/8/vm/src/vm/codewriter/CodeWriter.java:288-302 | `setFileName` keeps the text after the last separator; the name contains no '/' (nor '\' when the path has no '/') |
| CodeWriter8.FileNameOfPath | projects/8/vm/src/vm/codewriter/CodeWriter.java:288-302 | `dir/Name.ext` gives `Name` |
| CodeWriter8.FileNameOfBare | projects/8/vm/src/vm/codewriter/CodeWriter.java:297-298 | a path with no '.' keeps everything after the last '/' |
| CodeWriter8.FileNameOfWindowsPath | projects/8/vm/src/vm/codewriter/CodeWriter.java:293-295 | with no '/', the path is split at its last '\' |
| CodeWriter8.FileNameOfDottedDirectory | projects/8/vm/src/vm/codewriter/CodeWriter.java:299-301 | a '.' in the directory but none in the file name makes `substring` throw |
| CodeWriter8.StaticNameInjective | projects/8/vm/src/vm/codewriter/CodeWriter.java:172 | two `static` references share the symbol `<file>.<i>` only when the file and the index agree |
| CodeWriter8.WritePushPop | projects/8/vm/src/vm/codewriter/CodeWriter.java:115-245 | writes nothing for a command other than C_PUSH and C_POP, otherwise starts with the echo comment |
| CodeWriter8.SameAsProject7 | projects/8/vm/src/vm/codewriter/CodeWriter.java:115-245 | for every segment but static, project 8 writes exactly what project 7 writes |
| CodeWriter8.PushStaticRun | projects/8/vm/src/vm/codewriter/CodeWriter.java:170-175 | `push static i` pushes the cell bound to `<file>.<i>`; only SP and the new top change |
| CodeWriter8.PopStaticRun | projects/8/vm/src/vm/codewriter/CodeWriter.java:222-227 | `pop static i` stores the top of the stack in the cell of `<file>.<i>` without R13 |
| CodeWriter8.PushEffect | projects/8/vm/src/vm/codewriter/CodeWriter.java:115-181 | `push segment index` raises SP by one and puts the segment's value (for static, the symbol's cell) on top; nothing else changes |
| CodeWriter8.PopEffect | projects/8/vm/src/vm/codewriter/CodeWriter.java:182-244 | `pop` stores the top of the stack in the target and lowers SP; static and pointer write directly, the others go through R13 |
| CodeWriter8.WriteLabel | projects/8/vm/src/vm/codewriter/CodeWriter.java:307-310 | the first line is the echo `// label l` |
| CodeWriter8.WriteGoto | projects/8/vm/src/vm/codewriter/CodeWriter.java:315-319 | the first line is the echo `// goto l` |
| CodeWriter8.WriteIf | projects/8/vm/src/vm/codewriter/CodeWriter.java:324-329 | the first line is the echo `// if-goto l` |
| CodeWriter8.LabelRun | projects/8/vm/src/vm/codewriter/CodeWriter.java:307-310 | a label declaration does nothing at run time |
| CodeWriter8.GotoRun | projects/8/vm/src/vm/codewriter/CodeWriter.java:315-319 | `goto l` with its last `label l` further on continues right after that label |
| CodeWriter8.GotoSharedLabel | projects/8/vm/src/vm/codewriter/CodeWriter.java:307-310 | with `label l` declared twice after `goto l`, as two functions sharing a label name do, control continues after the second declaration |
| CodeWriter8.GotoLeaves | projects/8/vm/src/vm/codewriter/CodeWriter.java:315-319 | `goto l` with no later `label l` leaves for the address bound to l |
| CodeWriter8.IfEffect | projects/8/vm/src/vm/codewriter/CodeWriter.java:324-328 | `if-goto` pops the condition into D and lowers SP; no other cell changes |
| CodeWriter8.IfGotoTaken | projects/8/vm/src/vm/codewriter/CodeWriter.java:324-329 | a non-zero condition jumps to the label's last declaration further on |
| CodeWriter8.IfGotoFalls | projects/8/vm/src/vm/codewriter/CodeWriter.java:324-329 | a zero condition falls through |
| CodeWriter8.WriteFunction | projects/8/vm/src/vm/codewriter/CodeWriter.java:334-346 | the first line is the echo `// function f k` |
| CodeWriter8.CallCode | projects/8/vm/src/vm/codewriter/CodeWriter.java:351-401 | the first line is the echo `// call f n` |
| CodeWriter8.WriteReturn | projects/8/vm/src/vm/codewriter/CodeWriter.java:406-474 | the first line is the echo `// return` |
| CodeWriter8.WriteBootstrap | projects/8/vm/src/vm/codewriter/CodeWriter.java:479-490 | the first line is `// Bootstrap code` |
| CodeWriter8.PushPopDeclaresNothing | projects/8/vm/src/vm/codewriter/CodeWriter.java:115-245 | `writePushPop` declares no label |
| CodeWriter8.FunctionDeclares | projects/8/vm/src/vm/codewriter/CodeWriter.java:334-346 | `function f k` declares f alone |
| CodeWriter8.CallDeclares | projects/8/vm/src/vm/codewriter/CodeWriter.java:351-401 | `call f n` declares its return label alone |
| CodeWriter8.ReturnDeclaresNothing | projects/8/vm/src/vm/codewriter/CodeWriter.java:406-474 | `return` declares no label |
| CodeWriter8.BootstrapDeclares | projects/8/vm/src/vm/codewriter/CodeWriter.java:479-490 | the bootstrap declares `Sys.init$ret.<n>` alone |
| CodeWriter8.FlowDeclares | projects/8/vm/src/vm/codewriter/CodeWriter.java:307-329 | only `label` declares its label; `goto` and `if-goto` declare nothing |
| CodeWriter8.WriteFails | projects/8/vm/src/vm/codewriter/CodeWriter.java:288-302 | of all writer calls, only `setFileName` on a path it cannot cut throws |
| CodeWriter8.ReturnLabelNumber | projects/8/vm/src/vm/codewriter/CodeWriter.java:354 | the counter reads back from `<f>$ret.<n>` |
| CodeWriter8.WriteDeclares | projects/8/vm/src/vm/codewriter/CodeWriter.java:22-490 | each call declares the program's own label (if any) then the labels it mints; it advances the counter exactly when it mints; only `setFileName` changes the file name |
| CodeWriter8.MintsNumbered | projects/8/vm/src/vm/codewriter/CodeWriter.java:53-55 | the labels one call mints are distinct and carry the counter |
| CodeWriter8.RunLabels | projects/8/vm/src/vm/codewriter/CodeWriter.java:53-55 | over a run, the counter advances once per comparison, call and bootstrap; every declared label is the program's own or minted; no TRUE/END/`$ret` label is minted twice |
| CallFrame.FunctionRun | projects/8/vm/src/vm/codewriter/CodeWriter.java:334-346 | `function f k` raises SP by exactly k with k zeros pushed; nothing else changes |
| CallFrame.SaveFrameEffect | projects/8/vm/src/vm/codewriter/CodeWriter.java:357-377 | a call pushes the return address, LCL, ARG, THIS and THAT in that order |
| CallFrame.RepositionEffect | projects/8/vm/src/vm/codewriter/CodeWriter.java:379-393 | ARG becomes SP - 5 - n and LCL becomes SP |
| CallFrame.CallRun | projects/8/vm/src/vm/codewriter/CodeWriter.java:351-401 | the call code runs straight through and leaves for the address bound to f |
| CallFrame.CallEffect | projects/8/vm/src/vm/codewriter/CodeWriter.java:351-401 | after `call f n`: SP = LCL = old SP + 5, ARG = old SP - n, the five frame cells hold the saved values, nothing else changes |
| CallFrame.RestoreAllEffect | projects/8/vm/src/vm/codewriter/CodeWriter.java:434-468 | THAT, THIS, ARG, LCL are restored from frame-1 … frame-4 |
| CallFrame.ReturnRun | projects/8/vm/src/vm/codewriter/CodeWriter.java:406-474 | the return code runs straight through and leaves by the computed jump |
| CallFrame.ReturnEffect | projects/8/vm/src/vm/codewriter/CodeWriter.java:406-474 | `return` puts the top of the stack at ARG[0], sets SP = ARG + 1, restores the caller's registers, and jumps to the address saved at frame - 5 |
| CallFrame.CallSetsUpFrame | projects/8/vm/src/vm/codewriter/CodeWriter.java:351-401 | `call` sets up the callee's frame view: LCL, ARG and the five saved cells |
| CallFrame.ReturnToCaller | projects/8/vm/src/vm/codewriter/CodeWriter.java:406-474 | `return` from a callee that kept that frame restores the saved registers, replaces the n arguments by the result, and resumes at the saved address |
| CallFrame.CallReturnRoundTrip | projects/8/vm/src/vm/codewriter/CodeWriter.java:351-474 | call then return: the caller's LCL, ARG, THIS and THAT come back, SP = old SP - n + 1 with the result on top, and control resumes at the return label |
| CallFrame.BootstrapRun | projects/8/vm/src/vm/codewriter/CodeWriter.java:479-490 | the bootstrap sets SP = 256, consumes one counter value and leaves for Sys.init |
| CallFrame.BootstrapEffect | projects/8/vm/src/vm/codewriter/CodeWriter.java:479-490 | Sys.init starts with SP = LCL = 261 and ARG = 256, and the return address saved at 256 |
| Code.Dest | projects/6/asm/code/Code.java:12-27 | three bits; null or empty gives "000"; each bit is set exactly when its letter A, D, M occurs |
| Code.DestLetterOrder | projects/6/asm/code/Code.java:17-26 | dest mnemonics with the same letters encode alike |
| Code.DestExamples | projects/6/asm/src/asm/code/CodeTest.java:36-55 | the dest codes the tests expect |
| Code.ParseMnemonic | projects/6/asm/code/Code.java:40-73 | each of the 28 table entries is recognised as itself |
| Code.ParseCompDomain | projects/6/asm/code/Code.java:40-75 | a comp is recognised exactly when it is one of the table's mnemonics |
| Code.CompCodeRange | projects/6/asm/code/Code.java:40-73 | every comp code fits 7 bits, and its a-bit is set exactly when the mnemonic uses M |
| Code.Comp | projects/6/asm/code/Code.java:34-76 | succeeds exactly for a mnemonic in the table; null, empty and unknown mnemonics throw IllegalArgumentException |
| Code.CompShape | projects/6/asm/code/Code.java:34-76 | a comp code is seven bits whose first bit is set exactly when the mnemonic holds M |
| Code.DecodeCompCode | projects/6/asm/code/Code.java:40-73 | the comp code reads back as the form it encodes |
| Code.CompInjective | projects/6/asm/code/Code.java:40-73 | distinct mnemonics have distinct codes |
| Code.CompMTwin | projects/6/asm/code/Code.java:40-73 | replacing A by M in a mnemonic keeps it valid and sets only the a-bit |
| Code.CompRejects | projects/6/asm/code/Code.java:35-36 | null, empty, `M+D` and unknown mnemonics throw |
| Code.CompExampleZero | projects/6/asm/src/asm/code/CodeTest.java:57-103 | comp `0` is 0101010 |
| Code.CompExampleDPlusOne | projects/6/asm/src/asm/code/CodeTest.java:57-103 | comp `D+1` is 0011111 |
| Code.CompExampleRegM | projects/6/asm/src/asm/code/CodeTest.java:57-103 | comp `M` is 1110000 |
| Code.CompExampleDOrM | projects/6/asm/src/asm/code/CodeTest.java:57-103 | comp `D|M` is 1010101 |
| Code.CompExampleD | projects/6/asm/code/Code.java:44 | comp `D` is 0001100 |
| Code.CompExampleDMinusM | projects/6/asm/code/Code.java:69 | comp `D-M` is 1010011 |
| Code.CompExampleA | projects/6/asm/code/Code.java:45 | comp `A` is 0110000 |
| Code.CompExampleDPlusA | projects/6/asm/code/Code.java:54 | comp `D+A` is 0000010 |
| Code.Jump | projects/6/asm/code/Code.java:83-98 | three bits, non-zero exactly for the seven jump mnemonics |
| Code.JumpBitsMeaning | projects/6/asm/code/Code.java:88-96 | j1, j2, j3 are set exactly for the mnemonics that jump on negative, zero, positive |
| Code.JumpInjective | projects/6/asm/code/Code.java:88-96 | distinct jump mnemonics have distinct codes |
| Code.JumpExamples | projects/6/asm/src/asm/code/CodeTest.java:105-127 | the jump codes the tests expect, "000" for null, empty and unknown |
| SymbolTable.AddEntry | projects/6/asm/src/asm/symbol/SymbolTable.java:44-46 | binds the symbol to the address, replacing any earlier binding; every other symbol keeps its binding |
| SymbolTable.GetAddress | projects/6/asm/src/asm/symbol/SymbolTable.java:62-64 | null exactly for a symbol the table does not contain |
| SymbolTable.InitialDomain | projects/6/asm/src/asm/symbol/SymbolTable.java:25-37 | the fresh table holds exactly the 23 predefined symbols |
| SymbolTable.InitialContents | projects/6/asm/src/asm/symbol/SymbolTable.java:27-31 | R0 = 0, R15 = 15, SCREEN = 16384, KBD = 24576 |
| SymbolTable.InitialPointers | projects/6/asm/src/asm/symbol/SymbolTable.java:27-36 | SP, LCL, ARG, THIS, THAT = 0..4; R13 = 13, R14 = 14 |
| SymbolTable.TestScenario | projects/6/asm/src/asm/symbol/SymbolTableTest.java:54-110 | added entries read back, and re-adding overwrites |
| SymbolTable.TestMembership | projects/6/asm/src/asm/symbol/SymbolTableTest.java:34-96 | predefined and added symbols are contained |
| SymbolTable.TestAbsent | projects/6/asm/src/asm/symbol/SymbolTableTest.java:77-110 | unknown symbols are absent, with a null address |
| AsmParser.CleanLine | projects/6/asm/parser/Parser.java:28-34 | cut at the first `//`, then trim: no blank at either end |
| AsmParser.CleansLikeVmParser | projects/6/asm/parser/Parser.java:28-34 | cutting then trimming cleans every line exactly as the VM parsers' trim, cut, trim |
| AsmParser.CleanLineNoComment | projects/6/asm/parser/Parser.java:28-34 | a cleaned line holds no `//` |
| AsmParser.ReadNextCommand | projects/6/asm/parser/Parser.java:23-42 | the look-ahead becomes the next command and the lines up to it are consumed; null at end of file |
| AsmParser.Advance | projects/6/asm/parser/Parser.java:44-47 | the look-ahead becomes current; the commands after it stay pending; past the end nothing changes |
| AsmParser.New | projects/6/asm/parser/Parser.java:10-16 | the constructor reads ahead and advances, so the parser holds exactly the file's commands |
| AsmParser.HasMoreCommands | projects/6/asm/parser/Parser.java:18-20 | true exactly while a command remains |
| AsmParser.Drain | projects/6/asm/src/asm/hack/Hack.java:50-59 | each pass's loop handles exactly the remaining commands in order |
| AsmParser.DrainNew | projects/6/asm/parser/Parser.java:10-47 | from a fresh parser the loop handles exactly the file's commands |
| AsmParser.GetInstructionType | projects/6/asm/parser/Parser.java:54-62 | A exactly for a leading '@'; L exactly for `(…)`; C otherwise |
| AsmParser.Symbol | projects/6/asm/parser/Parser.java:64-71 | the command is `@` + symbol or `(` + symbol + `)`; empty for a C-command |
| AsmParser.Dest | projects/6/asm/parser/Parser.java:73-82 | the text before the first '='; empty without '=' or for a non-C command |
| AsmParser.Comp | projects/6/asm/parser/Parser.java:84-104 | throws exactly when the first ';' comes before the first '=' in a C-command; empty for A and L commands |
| AsmParser.Jump | projects/6/asm/parser/Parser.java:106-115 | the text after the first ';'; empty without ';' or for a non-C command |
| AsmParser.CTextRoundTrip | projects/6/asm/parser/Parser.java:73-115 | `dest=comp;jump` splits back into the same three fields |
| AsmParser.SymbolRoundTrip | projects/6/asm/parser/Parser.java:64-71 | `@s` and `(s)` give back s |
| AsmParser.SymbolExamples | projects/6/asm/src/asm/parser/ParserTest.java:62-72 | `@100` is an A-command with symbol 100; `(LOOP)` is a label |
| AsmParser.AssignExample | projects/6/asm/src/asm/parser/ParserTest.java:74-88 | `D=A` splits into D, A and no jump |
| AsmParser.StoreExample | projects/6/asm/src/asm/parser/ParserTest.java:95-109 | `M=D` splits into M, D and no jump |
| AsmParser.JumpExample | projects/6/asm/parser/Parser.java:84-115 | `D;JGT` splits into no dest, D and JGT |
| AsmParser.CompThrows | projects/6/asm/parser/Parser.java:100-101 | a ';' before the '=' makes `comp` throw |
| Assembler.RomCount | projects/6/asm/src/asm/hack/Hack.java:48-57 | at most one ROM word per command |
| Assembler.RomCountAppend | projects/6/asm/src/asm/hack/Hack.java:50-59 | the instructions of two parts of a file add up |
| Assembler.RomCountNoLabels | projects/6/asm/src/asm/hack/Hack.java:54-57 | without labels, every command takes a ROM word |
| Assembler.LastLabel | projects/6/asm/src/asm/hack/Hack.java:51-53 | the last declaration of a label, with none after it; `None` when there is none |
| Assembler.FirstPass | projects/6/asm/src/asm/hack/Hack.java:46-60 | the final ROM address is the number of instructions |
| Assembler.LabelAddress | projects/6/asm/src/asm/hack/Hack.java:46-60 | a label is bound to the number of instructions before its last declaration; other symbols keep their predefined binding |
| Assembler.LabelAfter | projects/6/asm/src/asm/hack/Hack.java:46-60 | a label declared once after `body` is bound to the ROM address right after `body` |
| Assembler.LabelBeforeInstructions | projects/6/asm/src/asm/hack/Hack.java:46-60 | a label followed by instructions and another label is bound to the instructions before it |
| Assembler.Resolve | projects/6/asm/src/asm/hack/Hack.java:75-89 | a numeric symbol is its value; a known symbol is its binding; an unknown one is bound to `nextVariableAddress`, which then moves on by one, and nothing else changes |
| Assembler.ResolveGrows | projects/6/asm/src/asm/hack/Hack.java:83-88 | resolving keeps the earlier bindings and gives each new variable its own address from 16 on |
| Assembler.AWord | projects/6/asm/src/asm/hack/Hack.java:92 | an address in 0..65535 becomes a 16-bit word whose value is the address |
| Assembler.CWord | projects/6/asm/src/asm/hack/Hack.java:93-100 | throws exactly when the parser's comp or the comp table throws; otherwise 16 bits: "111", comp, dest, jump |
| Assembler.CWordOfFields | projects/6/asm/src/asm/hack/Hack.java:96-100 | a C-command written from its fields assembles to "111" + their codes |
| Assembler.Instruction | projects/6/asm/src/asm/hack/Hack.java:70-109 | a label writes nothing and an instruction one word; only a faulty C-command throws; only A-commands change the state |
| Assembler.InstructionGrows | projects/6/asm/src/asm/hack/Hack.java:70-109 | each command keeps the earlier bindings and gives new variables fresh addresses |
| Assembler.SecondPass | projects/6/asm/src/asm/hack/Hack.java:65-113 | throws exactly when some command is faulty; otherwise one word per instruction, with variables from 16 on |
| Assembler.SecondPassPrefix | projects/6/asm/src/asm/hack/Hack.java:65-113 | when the pass over a file throws no exception, neither does the pass over any prefix of it, and the prefix's words are the first words of the output |
| Assembler.WordOfInstruction | projects/6/asm/src/asm/hack/Hack.java:70-109 | when the pass throws no exception, the word at output position RomCount(cmds[..j]) is the word instruction j writes in the state the commands before it left |
| Assembler.WordAt | projects/6/asm/src/asm/hack/Hack.java:70-109 | for a C-command, a numeric A-command or an A-command naming a predefined symbol or label, that word is the command's fixed word, whatever came before |
| Assembler.VariableWord | projects/6/asm/src/asm/hack/Hack.java:75-92 | for `@x` with x not a number, that word is the A-word of x's binding when the table already holds x, and otherwise of `nextVariableAddress`, an address no earlier variable holds |
| Assembler.Assemble | projects/6/asm/src/asm/hack/Hack.java:35-41 | the output has one word per instruction of the file |
| Assembler.JumpTarget | projects/6/asm/src/asm/hack/Hack.java:35-41 | when assembly throws no exception, `@label` assembles to the A-word of the label's ROM address |
| Assembler.SymbolProgramEqual | projects/6/asm/src/asm/hack/HackTest.java:97 | in the symbol test, EQUAL is bound to 12 |
| Assembler.SymbolProgramEnd | projects/6/asm/src/asm/hack/HackTest.java:103 | in the symbol test, END is bound to 16 |
| Assembler.AWordTwelve | projects/6/asm/src/asm/hack/HackTest.java:97 | `@EQUAL` assembles to 0000000000001100 |
| Assembler.AWordSixteen | projects/6/asm/src/asm/hack/HackTest.java:103 | `@END` assembles to 0000000000010000 |
| Assembler.AWordTwo | projects/6/asm/src/asm/hack/HackTest.java:101 | `@R2` assembles to 0000000000000010 |
| Assembler.AWordZeroOne | projects/6/asm/src/asm/hack/HackTest.java:93-95 | `@R0` and `@R1` assemble to 0000000000000000 and 0000000000000001 |
| Assembler.FirstPassNoLabels | projects/6/asm/src/asm/hack/Hack.java:54-57 | instructions leave the first pass's table as it is and move the ROM address on by one each |
| Assembler.FirstPassLabel | projects/6/asm/src/asm/hack/Hack.java:51-53 | a label declaration binds the label to the current ROM address, which stays |
| Assembler.SymbolFirstPass | projects/6/asm/src/asm/hack/HackTest.java:141-162 | the symbol test's first pass leaves the predefined table plus EQUAL = 12 and END = 16 |
| Assembler.SymbolSecondPass | projects/6/asm/src/asm/hack/HackTest.java:92-109 | the symbol test's second pass writes the sixteen expected words and allocates no variable |
| Assembler.SymbolTestCommands | projects/6/asm/src/asm/hack/HackTest.java:141-162 | the test file's leading comment line is dropped and its eighteen other lines are the commands |
| Assembler.AssembleOfPasses | projects/6/asm/src/asm/hack/Hack.java:35-41 | assembling a file gives the words the second pass writes over its commands with the first pass's labels |
| Assembler.SymbolTestAssembles | projects/6/asm/src/asm/hack/HackTest.java:92-162 | the symbol test's file, whatever its comment line says, assembles to exactly the sixteen lines the test expects |
| Assembler.AWordThree | projects/6/asm/src/asm/hack/HackTest.java:57 | `@3` assembles to 0000000000000011 |
| Assembler.SimplePasses | projects/6/asm/src/asm/hack/HackTest.java:54-61 | the simple test binds no label and its second pass writes the six expected words |
| Assembler.SimpleTestCommands | projects/6/asm/src/asm/hack/HackTest.java:125-136 | the simple test file's leading comment line is dropped and its six other lines are the commands |
| Assembler.SimpleTestAssembles | projects/6/asm/src/asm/hack/HackTest.java:40-72 | the simple test's file, whatever its comment line says, assembles to exactly the six lines the test expects |

## Left out

- File I/O: a file is its list of lines, output is the list of lines written, and `close` is not modelled.
- `readLine`'s splitting of a byte stream into lines is not modelled.
- The drivers `VMTranslator.main` and `Hack.main` are left out. `Hack.assemble` is modelled without its file arguments (`Assembler.Assemble`).
- The project 8 driver is not modelled. It refers to command types (`C_LABEL` …) that the project 8 parser does not define, and it never calls `writeBootstrap`. The project 8 writer is instead modelled as a sequence of calls (`CodeWriter8.Run`) without inventing that dispatch.
- The tests are not modelled as programs. Their expected values appear as example lemmas.
- The Hack machine models only what the emitted code uses: A, D, RAM and jumps.
  - The screen, the keyboard and ROM addressing are not modelled.
  - A jump leaving a block is recorded as an outcome, not followed.
- VmParser.Arg1: requires a current command. With a null command Java throws NullPointerException; that path is not modelled.
- VmParser.Arg2: requires a current command, for the same reason.
- VmParser.CommandType: requires the command to be a cleaned line. The parsers only ever store cleaned lines.
- Assembler.Resolve: `nextVariableAddress` is an unbounded integer. Java's `int` would wrap after 2^31 variables.
- CodeWriter8.RunLabels: the label counter is an unbounded `nat`. Java's `int` would wrap after 2^31 labels.
- Assembler.AWord: states the 16-bit shape only for addresses 0..65535. For other addresses `Pad16` leaves the longer binary string uncut, and `Text.IntToBinary` models that case.
- Arithmetic.ArithmeticStack: states the VM result for gt and lt only when x - y does not overflow 16 bits. The code compares by the sign of the wrapped difference (`Arithmetic.CompareOverflow`).
- CodeWriter7.PushEffect: requires a segment index the emitted `@index` can hold (0..32767, or 0 and 1 for pointer). Larger or negative indices make the Hack A-instruction invalid; the machine reports those as a fault.
- CodeWriter7.PopEffect: requires an index the emitted `@index` can hold, for the same reason.
- CodeWriter8.PushEffect: requires an index the emitted `@index` can hold, for the same reason.
- CodeWriter8.PopEffect: requires an index the emitted `@index` can hold, for the same reason.
- The project 7 parser's `currentLine` field is not kept: nothing reads it after `advance`.
- The `Hack` object keeps its symbol table and variable counter across repeated `assemble` calls. Only a single call is modelled.
- When `assembleCode` throws, the model returns only `Err`. The output file is not modelled on that path. In Java, `FileWriter` has already truncated the file, and the words go through a `BufferedWriter` that is never closed on that path. So the file is left empty, or holds only the buffer-loads flushed before the exception.
- Text.ParseInt: accepts the ASCII digits 0-9 only. Java's `Integer.parseInt` also accepts the other Unicode decimal digits (`Character.digit`), so for `@１２` (full-width digits) `Assembler.Resolve` allocates a variable where Java gives address 12, and for `push constant １２` `VmParser.Arg2` fails where Java gives 12.

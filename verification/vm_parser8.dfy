/**
 * The project 8 VM parser: a reader with one line of look-ahead. The
 * constructor reads the first command into `currentLine`; `advance` makes
 * it the current command and reads the next one; `hasMoreLines` turns false
 * once a read runs into the end of the file.
 */
module VmParser8 {
  import opened Base
  import opened Text
  import opened VmParser

  /**
   * The parser's fields: the lines not read yet, `currentCommand`, the
   * look-ahead `currentLine`, and the `hasMoreLines` flag.
   */
  datatype Parser = Parser(
    unread: seq<string>,
    currentCommand: Option<string>,
    currentLine: Option<string>,
    hasMoreLines: bool)

  /** What every reachable parser satisfies. */
  predicate Valid(p: Parser) {
    && (p.currentCommand.Some? ==> IsCommandLine(p.currentCommand.value))
    && (p.currentLine.Some? ==> IsCommandLine(p.currentLine.value))
    && (p.hasMoreLines <==> p.currentLine.Some?)
    && (p.currentLine.None? ==> p.unread == [])
  }

  /** The commands still to be handed out: the look-ahead line, then the unread ones. */
  function Pending(p: Parser): seq<string> {
    (if p.currentLine.Some? then [p.currentLine.value] else []) + Commands(p.unread)
  }

  /**
   * `readNextLine`: the next non-empty cleaned line goes to `currentLine`;
   * at the end of the file `currentLine` is null and `hasMoreLines` false.
   */
  function ReadNextLine(p: Parser): (q: Parser)
    ensures q.currentCommand == p.currentCommand
    ensures q.currentLine.Some? ==> IsCommandLine(q.currentLine.value)
    ensures q.currentLine.None? ==> q.unread == [] && !q.hasMoreLines
    ensures q.currentLine.Some? ==> q.hasMoreLines == p.hasMoreLines
    ensures Pending(q) == Commands(p.unread)
  {
    var (line, rest) := ReadNext(p.unread);
    if line.None? then p.(unread := [], currentLine := None, hasMoreLines := false)
    else p.(unread := rest, currentLine := line)
  }

  /** The constructor: no current command yet, the first command read ahead. */
  function New(lines: seq<string>): (p: Parser)
    ensures Valid(p) && p.currentCommand.None?
    ensures Pending(p) == Commands(lines)
  {
    ReadNextLine(Parser(lines, None, None, true))
  }

  /** `hasMoreLines`: true exactly while a command is still to come. */
  function HasMoreLines(p: Parser): (r: bool)
    requires Valid(p)
    ensures r <==> Pending(p) != []
  {
    p.hasMoreLines
  }

  /**
   * `advance`: the look-ahead line becomes the current command and the next
   * one is read. Past the end nothing changes: the last command stays current.
   */
  function Advance(p: Parser): (q: Parser)
    requires Valid(p)
    ensures Valid(q)
    ensures Pending(p) != [] ==> q.currentCommand == Some(Pending(p)[0]) && Pending(q) == Pending(p)[1..]
    ensures Pending(p) == [] ==> q == p
  {
    var p' := if p.currentLine.Some? && p.currentLine.value != [] then p.(currentCommand := p.currentLine) else p;
    ReadNextLine(p')
  }

  /**
   * The translator's loop `while (hasMoreLines()) { advance(); ... }`: the
   * current commands it sees, in order, are exactly the pending ones.
   */
  function Drain(p: Parser): (r: seq<string>)
    requires Valid(p)
    ensures r == Pending(p)
    decreases |Pending(p)|
  {
    if HasMoreLines(p) then
      var q := Advance(p);
      [q.currentCommand.value] + Drain(q)
    else []
  }

  lemma DrainNew(lines: seq<string>)
    ensures Drain(New(lines)) == Commands(lines)
  {
    var p := New(lines);
    assert Drain(p) == Pending(p);
  }

}

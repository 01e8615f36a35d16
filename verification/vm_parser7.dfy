/**
 * The project 7 VM parser: no look-ahead. The constructor already advances
 * to the first command; `advance` reads the next one and answers whether
 * there was one, leaving the current command null once the file is used up.
 * (The class also keeps the raw `currentLine`, which nothing reads.)
 */
module VmParser7 {
  import opened Base
  import opened VmParser

  /** The parser's fields that matter: the lines not read yet and `currentCommand`. */
  datatype Parser = Parser(unread: seq<string>, currentCommand: Option<string>)

  /** What every reachable parser satisfies. */
  predicate Valid(p: Parser) {
    p.currentCommand.Some? ==> IsCommandLine(p.currentCommand.value)
  }

  /** The commands not yet handled: the current one, then the unread ones. */
  function Remaining(p: Parser): seq<string> {
    (if p.currentCommand.Some? then [p.currentCommand.value] else []) + Commands(p.unread)
  }

  /**
   * `advance`: the next non-empty cleaned line becomes the current command and
   * the answer is true; at the end of the file the command is null and the
   * answer false.
   */
  function Advance(p: Parser): (r: (Parser, bool))
    ensures Valid(r.0)
    ensures r.1 <==> r.0.currentCommand.Some?
    ensures r.1 ==> |r.0.unread| < |p.unread| && Commands(p.unread) == Remaining(r.0)
    ensures !r.1 ==> Commands(p.unread) == [] && r.0 == Parser([], None)
  {
    var (line, rest) := ReadNext(p.unread);
    if line.None? then (Parser([], None), false)
    else (Parser(rest, line), true)
  }

  /** The constructor: open the file and advance once. */
  function New(lines: seq<string>): (p: Parser)
    ensures Valid(p)
    ensures Remaining(p) == Commands(lines)
  {
    Advance(Parser(lines, None)).0
  }

  /**
   * The translator's loop `while (true) { ...; if (!advance()) break; }`: it
   * handles the current command (none at all for a file without commands),
   * then advances until `advance` says false. The commands it handles, in
   * order, are exactly the remaining ones.
   */
  function Drain(p: Parser): (r: seq<string>)
    requires Valid(p)
    ensures r == Remaining(p)
    decreases |p.unread|
  {
    var here := if p.currentCommand.Some? then [p.currentCommand.value] else [];
    var (q, more) := Advance(p);
    here + (if more then Drain(q) else [])
  }

  lemma DrainNew(lines: seq<string>)
    ensures Drain(New(lines)) == Commands(lines)
  {
    var p := New(lines);
    assert Drain(p) == Remaining(p);
  }

  /** A file without commands: the loop handles nothing, and the parser sits at a null command. */
  lemma EmptyFile(lines: seq<string>)
    requires Commands(lines) == []
    ensures New(lines) == Parser([], None) && Drain(New(lines)) == []
  {
  }
}

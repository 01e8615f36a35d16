/**
 * What the two VM parsers share: how a physical line of a `.vm` file is
 * cleaned into a command, which lines carry commands at all, and the
 * per-command queries `commandType`, `arg1` and `arg2`, which the two
 * parser classes spell out identically.
 *
 * A file is given as the sequence of lines `BufferedReader.readLine` returns;
 * Java's `null` is `None`, a thrown exception is `Err`.
 */
module VmParser {
  import opened Base
  import opened Text

  // ---------------------------------------------------------------- lines

  /** A `//` starts at index `k` of `s`. */
  predicate SlashesAt(s: string, k: int) {
    0 <= k && k + 1 < |s| && s[k] == '/' && s[k + 1] == '/'
  }

  /** No `//` occurs anywhere in `s`. */
  predicate NoComment(s: string) {
    forall k :: 0 <= k < |s| ==> !SlashesAt(s, k)
  }

  /**
   * What the parsers keep as a command: non-empty and trimmed, so that its
   * words are what Java's split finds. (It holds no comment either:
   * `CleanLineNoComment`.)
   */
  predicate IsCommandLine(s: string) {
    s != [] && Trimmed(s)
  }

  /** The first `//` in `s` at or after index `i`. */
  function FindComment(s: string, i: nat): (r: Option<nat>)
    requires i <= |s|
    ensures r.Some? ==> i <= r.value && SlashesAt(s, r.value)
    ensures forall k :: i <= k < (if r.Some? then r.value else |s|) ==> !SlashesAt(s, k)
    decreases |s| - i
  {
    if i + 1 >= |s| then None
    else if s[i] == '/' && s[i + 1] == '/' then Some(i)
    else FindComment(s, i + 1)
  }

  /** `s.indexOf("//")`: where the comment starts, `None` for Java's -1. */
  function IndexOfComment(s: string): (r: Option<nat>)
    ensures r.Some? ==> SlashesAt(s, r.value) && forall k :: 0 <= k < r.value ==> !SlashesAt(s, k)
    ensures r.None? <==> NoComment(s)
  {
    FindComment(s, 0)
  }

  /** A `//` with none before it is the one `indexOf` finds. */
  lemma CommentFirst(s: string, i: nat)
    requires SlashesAt(s, i) && forall k :: 0 <= k < i ==> !SlashesAt(s, k)
    ensures IndexOfComment(s) == Some(i)
  {
  }

  /** The first `//` of `s` is the first one of any slice that holds it. */
  lemma CommentInSlice(s: string, a: nat, b: nat, j: nat)
    requires IndexOfComment(s) == Some(j) && a <= j && j + 2 <= b <= |s|
    ensures IndexOfComment(s[a..b]) == Some(j - a)
  {
    var t := s[a..b];
    forall k | 0 <= k < j - a ensures !SlashesAt(t, k) {
      assert !SlashesAt(s, a + k);
    }
    assert t[j - a] == s[j] && t[j - a + 1] == s[j + 1];
    CommentFirst(t, j - a);
  }

  /** The comment search is Java's general `indexOf` with the pattern "//". */
  lemma IndexOfCommentIsIndexOf(s: string)
    ensures IndexOfComment(s) == IndexOf(s, "//")
  {
    forall k | 0 <= k <= |s| ensures OccursAt(s, "//", k) <==> SlashesAt(s, k) {
      if k + 2 <= |s| {
        assert s[k..k + 2] == [s[k], s[k + 1]];
      }
    }
  }

  /** A string without a '/' has no comment marker. */
  lemma NoSlashNoComment(s: string)
    requires '/' !in s
    ensures NoComment(s)
  {
    forall k | 0 <= k < |s| ensures !SlashesAt(s, k) {
      assert s[k] in s;
    }
  }

  /** A slice of a comment-free string is comment-free. */
  lemma NoCommentSlice(s: string, a: nat, b: nat)
    requires a <= b <= |s| && NoComment(s)
    ensures NoComment(s[a..b])
  {
    forall k | 0 <= k < b - a ensures !SlashesAt(s[a..b], k) {
      assert !SlashesAt(s, a + k);
    }
  }

  /** `trim()` keeps a contiguous piece of its argument. */
  lemma TrimIsSlice(s: string)
    ensures LeadingBlank(s) + |Trim(s)| <= |s|
    ensures Trim(s) == s[LeadingBlank(s)..LeadingBlank(s) + |Trim(s)|]
  {
  }

  /**
   * `readNextLine`'s cleaning of one line: trim it, cut it at the first
   * `//`, trim what is left. A blank or comment-only line cleans to "".
   */
  function CleanLine(line: string): (r: string)
    ensures Trimmed(r)
  {
    var t := Trim(line);
    match IndexOfComment(t)
    case None => t
    case Some(i) => Trim(t[..i])
  }

  /** With the marker at `i` of the trimmed line, cleaning trims the text before it. */
  lemma CleanCutAt(line: string, i: nat)
    requires IndexOfComment(Trim(line)) == Some(i)
    ensures i <= |Trim(line)| && CleanLine(line) == Trim(Trim(line)[..i])
  {
  }

  /** What cleaning leaves holds no `//`. */
  lemma CleanLineNoComment(line: string)
    ensures NoComment(CleanLine(line))
  {
    var t := Trim(line);
    match IndexOfComment(t)
    case None =>
    case Some(i) =>
      assert NoComment(t[..i]) by {
        forall k | 0 <= k < i ensures !SlashesAt(t[..i], k) {
          assert !SlashesAt(t, k);
        }
      }
      TrimIsSlice(t[..i]);
      NoCommentSlice(t[..i], LeadingBlank(t[..i]), LeadingBlank(t[..i]) + |Trim(t[..i])|);
  }

  /** Cleaning leaves an already clean line alone, so cleaning twice is cleaning once. */
  lemma CleanLineFixes(s: string)
    requires Trimmed(s) && NoComment(s)
    ensures CleanLine(s) == s
  {
    TrimOfTrimmed(s);
  }

  lemma CleanLineIdempotent(line: string)
    ensures CleanLine(CleanLine(line)) == CleanLine(line)
  {
    CleanLineNoComment(line);
    CleanLineFixes(CleanLine(line));
  }

  /** A comment after a command, set off by a space, is dropped and the command kept whole. */
  lemma CommentDropped(c: string, comment: string)
    requires IsCommandLine(c) && NoComment(c)
    ensures CleanLine(c + " //" + comment) == c
  {
    var t := Trim(c + " //" + comment);
    CommentTrimmed(c, comment);
    CommentFound(c, t);
    assert t[..|c| + 1] == c + " ";
    TrimSpaceAfter(c);
  }

  /** Trimming a commented command line keeps the command and the marker. */
  lemma CommentTrimmed(c: string, comment: string)
    requires IsCommandLine(c)
    ensures var t := Trim(c + " //" + comment);
      |t| >= |c| + 3 && t[..|c| + 3] == c + " //"
  {
    var s := c + " //" + comment;
    var n := |c|;
    assert LeadingBlank(s) == 0 by {
      assert s[0] == c[0];
    }
    assert TrailingBlank(s) <= |comment| by {
      TrailingBlanks(s);
      assert s[n + 2] == '/';
    }
    assert Trim(s) == s[..|s| - TrailingBlank(s)];
  }

  /** The first `//` of such a line is the marker, since the command holds none. */
  lemma CommentFound(c: string, t: string)
    requires IsCommandLine(c) && NoComment(c)
    requires |t| >= |c| + 3 && t[..|c| + 3] == c + " //"
    ensures IndexOfComment(t) == Some(|c| + 1)
  {
    var n := |c|;
    assert t[n] == ' ' && t[n + 1] == '/' && t[n + 2] == '/';
    forall k | 0 <= k < n + 1 ensures !SlashesAt(t, k) {
      if k + 1 < n {
        assert !SlashesAt(c, k);
      }
    }
    CommentFirst(t, n + 1);
  }

  /** A line that starts with `//` is all comment. */
  lemma CommentOnly(comment: string)
    ensures CleanLine("//" + comment) == []
  {
    var s := "//" + comment;
    assert LeadingBlank(s) == 0 by {
      assert s[0] == '/';
    }
    assert TrailingBlank(s) <= |comment| by {
      TrailingBlanks(s);
      assert s[1] == '/';
    }
    var t := Trim(s);
    assert t == s[..|s| - TrailingBlank(s)];
    assert t[0] == '/' && t[1] == '/';
    CommentFirst(t, 0);
    assert t[..0] == [];
  }

  lemma TrimSpaceAfter(c: string)
    requires c != [] && Trimmed(c)
    ensures Trim(c + " ") == c
  {
    var n := |c|;
    assert LeadingBlank(c + " ") == 0 by {
      assert (c + " ")[0] == c[0];
    }
    assert TrailingBlank(c + " ") == 1 by {
      assert (c + " ")[n - 1] == c[n - 1];
    }
  }

  /** The commands a file holds: its lines, cleaned, with the empty ones dropped. */
  function Commands(lines: seq<string>): (r: seq<string>)
    ensures |r| <= |lines|
  {
    if lines == [] then []
    else
      var c := CleanLine(lines[0]);
      (if c == [] then [] else [c]) + Commands(lines[1..])
  }

  /** One line holds one command or none. */
  lemma CommandsOne(line: string)
    ensures Commands([line]) == if CleanLine(line) == [] then [] else [CleanLine(line)]
  {
    assert [line][1..] == [];
  }

  /** Lines are cleaned one at a time: the commands of two pieces of a file, one after the other. */
  lemma {:induction false} CommandsAppend(a: seq<string>, b: seq<string>)
    ensures Commands(a + b) == Commands(a) + Commands(b)
  {
    if a == [] {
      assert a + b == b;
    } else {
      assert (a + b)[0] == a[0] && (a + b)[1..] == a[1..] + b;
      CommandsAppend(a[1..], b);
      var c := CleanLine(a[0]);
      var head: seq<string> := if c == [] then [] else [c];
      assert Commands(a + b) == head + Commands(a[1..] + b);
    }
  }

  /** A file of clean command lines holds exactly those lines as its commands. */
  lemma {:induction false} CommandsOfCommandLines(lines: seq<string>)
    requires forall j :: 0 <= j < |lines| ==> IsCommandLine(lines[j]) && NoComment(lines[j])
    ensures Commands(lines) == lines
  {
    if lines != [] {
      CleanLineFixes(lines[0]);
      assert forall j :: 0 <= j < |lines[1..]| ==> lines[1..][j] == lines[j + 1];
      CommandsOfCommandLines(lines[1..]);
      assert lines == [lines[0]] + lines[1..];
    }
  }

  /** Comment-only and empty lines hold no command, and a trailing comment is cut off. */
  lemma NoiseCommands(c1: string, c2: string, comment: string)
    requires IsCommandLine(c1) && NoComment(c1) && IsCommandLine(c2) && NoComment(c2)
    ensures Commands(["//" + comment, "", c1, c2 + " //" + comment]) == [c1, c2]
  {
    CommentOnly(comment);
    EmptyLine();
    CleanLineFixes(c1);
    CommentDropped(c2, comment);
    CommandsOfCleaned("//" + comment, "", c1, c2 + " //" + comment, c2);
  }

  lemma EmptyLine()
    ensures CleanLine("") == []
  {
  }

  /** Two noise lines, a clean command and a line cleaning to `c2` hold the two commands. */
  lemma CommandsOfCleaned(a: string, b: string, c: string, d: string, c2: string)
    requires CleanLine(a) == [] && CleanLine(b) == [] && CleanLine(c) == c != [] && CleanLine(d) == c2 != []
    ensures Commands([a, b, c, d]) == [c, c2]
  {
    CommandsOne(a);
    CommandsOne(b);
    CommandsOne(c);
    CommandsOne(d);
    FourLines(a, b, c, d);
    assert Commands([a]) + Commands([b]) + Commands([c]) + Commands([d]) == [c, c2];
  }

  lemma FourLines(a: string, b: string, c: string, d: string)
    ensures Commands([a, b, c, d]) == Commands([a]) + Commands([b]) + Commands([c]) + Commands([d])
  {
    assert [a, b, c, d] == [a] + [b] + [c] + [d];
    CommandsAppend([a] + [b] + [c], [d]);
    CommandsAppend([a] + [b], [c]);
    CommandsAppend([a], [b]);
  }
  /**
   * The search loop of `readNextLine` / `advance`: read lines until one cleans
   * to something non-empty; `None` (and nothing left) when the file ends first.
   */
  function ReadNext(lines: seq<string>): (r: (Option<string>, seq<string>))
    ensures r.0.Some? ==> IsCommandLine(r.0.value) && |r.1| < |lines|
    ensures r.0.Some? ==> Commands(lines) == [r.0.value] + Commands(r.1)
    ensures r.0.None? ==> Commands(lines) == [] && r.1 == []
  {
    if lines == [] then (None, [])
    else
      var c := CleanLine(lines[0]);
      if c != [] then (Some(c), lines[1..]) else ReadNext(lines[1..])
  }

  // ---------------------------------------------------------------- one command

  const CArithmetic: int := 0
  const CPush: int := 1
  const CPop: int := 2
  /** What `commandType` answers for no command and for every word it does not know. */
  const CUnknown: int := -1

  /** `isArithmeticCommand`: the nine stack-arithmetic words. */
  const ArithmeticWords: seq<string> := ["add", "sub", "neg", "eq", "gt", "lt", "and", "or", "not"]

  /** `split("\\s+")` of a command line: its words, at least one. */
  function Parts(c: string): (r: seq<string>)
    requires IsCommandLine(c)
    ensures |r| >= 1 && forall i :: 0 <= i < |r| ==> IsToken(r[i])
  {
    DropSpaceNoop(c);
    TokensAreTokens(c);
    Tokens(c)
  }

  /**
   * `commandType`: push, pop or arithmetic by the first word; `CUnknown` when
   * there is no command yet (or any more) and for every other first word.
   */
  function CommandType(command: Option<string>): (r: int)
    requires command.Some? ==> IsCommandLine(command.value)
    ensures r in {CArithmetic, CPush, CPop, CUnknown}
    ensures command.None? ==> r == CUnknown
    ensures command.Some? ==>
      var w := Parts(command.value)[0];
      && (r == CPush <==> w == "push")
      && (r == CPop <==> w == "pop")
      && (r == CArithmetic <==> w in ArithmeticWords)
  {
    if command.None? then CUnknown
    else
      var w := Parts(command.value)[0];
      if w == "push" then CPush
      else if w == "pop" then CPop
      else if w in ArithmeticWords then CArithmetic
      else CUnknown
  }

  /**
   * `arg1`: the command word itself for arithmetic, otherwise the second word,
   * or `None` (Java's null) when there is none. Java dereferences a null
   * command here, so one must be present.
   */
  function Arg1(command: Option<string>): (r: Option<string>)
    requires command.Some? && IsCommandLine(command.value)
    ensures r.Some? ==> IsToken(r.value)
    ensures CommandType(command) == CArithmetic ==> r == Some(Parts(command.value)[0])
    ensures CommandType(command) != CArithmetic ==>
      (r.Some? <==> |Parts(command.value)| >= 2) && (r.Some? ==> r.value == Parts(command.value)[1])
  {
    var parts := Parts(command.value);
    if CommandType(command) == CArithmetic then Some(parts[0])
    else if |parts| >= 2 then Some(parts[1])
    else None
  }

  /**
   * `arg2`: the third word read as a Java int, -1 when there is no third word;
   * a third word that is not an int throws NumberFormatException.
   */
  function Arg2(command: Option<string>): (r: Result<int>)
    requires command.Some? && IsCommandLine(command.value)
    ensures |Parts(command.value)| < 3 ==> r == Ok(-1)
    ensures |Parts(command.value)| >= 3 ==>
      var w := Parts(command.value)[2];
      && (r.Ok? <==> ParseInt(w).Some?)
      && (r.Ok? ==> r.value == ParseInt(w).value && IntMin <= r.value <= IntMax)
      && (r.Err? ==> r.failure == NumberFormat(w))
  {
    var parts := Parts(command.value);
    if |parts| >= 3 then
      match ParseInt(parts[2])
      case Some(v) => Ok(v)
      case None => Err(NumberFormat(parts[2]))
    else Ok(-1)
  }

  // ---------------------------------------------------------------- round trips

  /** A word of printable characters other than '/': what a VM command's operands look like. */
  predicate PlainWord(w: string) {
    w != [] && forall i :: 0 <= i < |w| ==> !IsBlank(w[i]) && w[i] != '/'
  }

  /** Plain words joined by single spaces form a command line that splits back into them. */
  lemma UnwordsCommandLine(ws: seq<string>)
    requires |ws| >= 1 && forall i :: 0 <= i < |ws| ==> PlainWord(ws[i])
    ensures IsCommandLine(Unwords(ws)) && NoComment(Unwords(ws)) && Parts(Unwords(ws)) == ws
  {
    UnwordsShape(ws);
    NoSlashNoComment(Unwords(ws));
    assert forall i :: 0 <= i < |ws| ==> IsToken(ws[i]);
    TokensOfUnwords(ws);
  }

  /** The joined string starts and ends with a printable character and holds no '/'. */
  lemma {:induction false} UnwordsShape(ws: seq<string>)
    requires |ws| >= 1 && forall i :: 0 <= i < |ws| ==> PlainWord(ws[i])
    ensures var u := Unwords(ws); u != [] && !IsBlank(u[0]) && !IsBlank(u[|u| - 1]) && '/' !in u
    decreases |ws|
  {
    assert PlainWord(ws[0]);
    if |ws| == 1 {
      assert Unwords(ws) == ws[0];
    } else {
      var tail := ws[1..];
      assert forall i :: 0 <= i < |tail| ==> PlainWord(tail[i]) by {
        forall i | 0 <= i < |tail| ensures PlainWord(tail[i]) {
          assert tail[i] == ws[i + 1];
        }
      }
      UnwordsShape(tail);
      UnwordsCons(ws);
      var u := Unwords(ws);
      assert u[0] == ws[0][0];
      assert u[|u| - 1] == Unwords(tail)[|Unwords(tail)| - 1];
    }
  }

  /** Java's rendering of an int is a plain word. */
  lemma IntToStringPlain(i: int)
    ensures PlainWord(IntToString(i))
  {
    var s := IntToString(i);
    var d := if i < 0 then NatToString(-i) else NatToString(i);
    assert s == (if i < 0 then "-" + d else d);
    assert forall k :: 0 <= k < |s| ==> s[k] == '-' || IsDigit(s[k]);
  }

  /** `push`/`pop segment index` written with single spaces parses back into its three parts. */
  lemma PushPopRoundTrip(kind: string, segment: string, index: int)
    requires kind == "push" || kind == "pop"
    requires PlainWord(segment)
    requires IntMin <= index <= IntMax
    ensures var c := Unwords([kind, segment, IntToString(index)]);
      && IsCommandLine(c)
      && CommandType(Some(c)) == (if kind == "push" then CPush else CPop)
      && Arg1(Some(c)) == Some(segment)
      && Arg2(Some(c)) == Ok(index)
  {
    IntToStringPlain(index);
    UnwordsCommandLine([kind, segment, IntToString(index)]);
    ParseIntOfIntToString(index);
  }

  /** An arithmetic word on its own is classified as arithmetic and is its own first argument. */
  lemma ArithmeticRoundTrip(op: string)
    requires op in ArithmeticWords
    ensures IsCommandLine(op) && CommandType(Some(op)) == CArithmetic && Arg1(Some(op)) == Some(op)
    ensures Arg2(Some(op)) == Ok(-1)
  {
    assert Unwords([op]) == op;
    UnwordsCommandLine([op]);
  }

  /** The flow and function words, which this `commandType` does not know. */
  const FlowWords: seq<string> := ["label", "goto", "if-goto", "function", "call", "return"]

  /**
   * A flow command with its label is classified `CUnknown`; `arg1` still picks
   * out the label and `arg2` finds no number.
   */
  lemma FlowUnclassified(kind: string, name: string)
    requires kind in FlowWords[..3]
    requires PlainWord(name)
    ensures var c := Unwords([kind, name]);
      && IsCommandLine(c)
      && CommandType(Some(c)) == CUnknown
      && Arg1(Some(c)) == Some(name)
      && Arg2(Some(c)) == Ok(-1)
  {
    UnwordsCommandLine([kind, name]);
  }

  /**
   * `function f k` and `call f n` are classified `CUnknown`; `arg1` and `arg2`
   * still read the name and the count.
   */
  lemma FunctionUnclassified(kind: string, name: string, n: int)
    requires kind == "function" || kind == "call"
    requires PlainWord(name)
    requires IntMin <= n <= IntMax
    ensures var c := Unwords([kind, name, IntToString(n)]);
      && IsCommandLine(c)
      && CommandType(Some(c)) == CUnknown
      && Arg1(Some(c)) == Some(name)
      && Arg2(Some(c)) == Ok(n)
  {
    IntToStringPlain(n);
    UnwordsCommandLine([kind, name, IntToString(n)]);
    ParseIntOfIntToString(n);
  }

  /** `return` is classified `CUnknown` and has no first argument. */
  lemma ReturnUnclassified()
    ensures IsCommandLine("return") && CommandType(Some("return")) == CUnknown
    ensures Arg1(Some("return")) == None && Arg2(Some("return")) == Ok(-1)
  {
    assert Unwords(["return"]) == "return";
    UnwordsCommandLine(["return"]);
  }
}

/**
 * The handful of `java.lang.String` / `Integer` operations the translators and
 * the assembler rely on, over `string == seq<char>`: trimming, first/last
 * occurrence search, whitespace splitting, decimal and binary rendering, and
 * `Integer.parseInt`.
 */
module Text {
  import opened Base

  // ---------------------------------------------------------------- whitespace

  /** The class `\s` of Java's regular expressions: space, \t, \n, \u000B, \f, \r. */
  predicate IsSpace(c: char) {
    c == ' ' || c == '\t' || c == '\n' || c == '\U{B}' || c == '\U{C}' || c == '\r'
  }

  /** What `String.trim()` strips from either end: every character up to U+0020. */
  predicate IsBlank(c: char) {
    c <= ' '
  }

  predicate NoSpace(s: string) {
    forall i :: 0 <= i < |s| ==> !IsSpace(s[i])
  }

  /** Neither end of `s` is a character `trim()` strips. */
  predicate Trimmed(s: string) {
    s == [] || (!IsBlank(s[0]) && !IsBlank(s[|s| - 1]))
  }

  /** The number of `\s` characters at the start of `s`. */
  function LeadingSpace(s: string): (k: nat)
    ensures k <= |s|
    ensures forall i :: 0 <= i < k ==> IsSpace(s[i])
    ensures k == |s| || !IsSpace(s[k])
  {
    if |s| > 0 && IsSpace(s[0]) then
      var k := LeadingSpace(s[1..]);
      assert forall i :: 1 <= i < k + 1 ==> s[i] == s[1..][i - 1];
      k + 1
    else 0
  }

  /** The number of blank characters at the start of `s`. */
  function LeadingBlank(s: string): (k: nat)
    ensures k <= |s|
    ensures k == |s| || !IsBlank(s[k])
  {
    if |s| > 0 && IsBlank(s[0]) then LeadingBlank(s[1..]) + 1 else 0
  }

  /** Every character before `LeadingBlank(s)` is blank. */
  lemma {:induction false} LeadingBlanks(s: string)
    ensures forall i :: 0 <= i < LeadingBlank(s) ==> IsBlank(s[i])
    decreases |s|
  {
    if |s| > 0 && IsBlank(s[0]) {
      LeadingBlanks(s[1..]);
      assert forall i :: 1 <= i < LeadingBlank(s) ==> s[i] == s[1..][i - 1];
    }
  }

  /** The number of blank characters at the end of `s`. */
  function TrailingBlank(s: string): (k: nat)
    ensures k <= |s|
    ensures k == |s| || !IsBlank(s[|s| - k - 1])
  {
    if |s| > 0 && IsBlank(s[|s| - 1]) then TrailingBlank(s[..|s| - 1]) + 1 else 0
  }

  /** Every character from `|s| - TrailingBlank(s)` on is blank. */
  lemma {:induction false} TrailingBlanks(s: string)
    ensures forall i :: |s| - TrailingBlank(s) <= i < |s| ==> IsBlank(s[i])
    decreases |s|
  {
    if |s| > 0 && IsBlank(s[|s| - 1]) {
      TrailingBlanks(s[..|s| - 1]);
      assert forall i :: |s| - TrailingBlank(s) <= i < |s| - 1 ==> s[i] == s[..|s| - 1][i];
    }
  }

  /** `s` without the `\s` characters it starts with. */
  function DropSpace(s: string): (r: string)
    ensures r == [] || !IsSpace(r[0])
  {
    s[LeadingSpace(s)..]
  }

  lemma DropSpaceNoop(s: string)
    requires s != [] && !IsSpace(s[0])
    ensures DropSpace(s) == s
  {
    assert LeadingSpace(s) == 0;
  }

  /** `s` without its leading blanks. */
  function TrimLeft(s: string): (r: string)
    ensures r == [] || !IsBlank(r[0])
  {
    s[LeadingBlank(s)..]
  }

  /** `s` without its trailing blanks. */
  function TrimRight(s: string): (r: string)
    ensures r == [] || !IsBlank(r[|r| - 1])
  {
    s[..|s| - TrailingBlank(s)]
  }

  /** `String.trim()`. */
  function Trim(s: string): (r: string)
    ensures Trimmed(r) && |r| <= |s|
  {
    TrimRight(TrimLeft(s))
  }

  /** Trimming a string with no blank at its ends changes nothing. */
  lemma TrimOfTrimmed(s: string)
    requires Trimmed(s)
    ensures Trim(s) == s
  {
    if s != [] {
      TrimLeftNoop(s);
      TrimRightNoop(s);
    }
  }

  lemma TrimLeftNoop(s: string)
    requires s != [] && !IsBlank(s[0])
    ensures TrimLeft(s) == s
  {
    assert LeadingBlank(s) == 0;
  }

  lemma TrimRightNoop(s: string)
    requires s != [] && !IsBlank(s[|s| - 1])
    ensures TrimRight(s) == s
  {
    assert TrailingBlank(s) == 0;
  }

  /** `trim()` is idempotent. */
  lemma TrimIdempotent(s: string)
    ensures Trim(Trim(s)) == Trim(s)
  {
    TrimOfTrimmed(Trim(s));
  }

  // ---------------------------------------------------------------- search

  /** `p` occurs in `s` starting at index `i`. */
  predicate OccursAt(s: string, p: string, i: int) {
    0 <= i && i + |p| <= |s| && s[i..i + |p|] == p
  }

  function FindFrom(s: string, p: string, i: nat): (r: Option<nat>)
    requires i <= |s|
    ensures r.Some? ==> i <= r.value && OccursAt(s, p, r.value)
    ensures r.Some? ==> forall k :: i <= k < r.value ==> !OccursAt(s, p, k)
    ensures r.None? ==> forall k :: i <= k <= |s| ==> !OccursAt(s, p, k)
    decreases |s| - i
  {
    if OccursAt(s, p, i) then Some(i)
    else if i == |s| then None
    else FindFrom(s, p, i + 1)
  }

  /** `s.indexOf(p)`: the first index at which `p` occurs, `None` for Java's -1. */
  function IndexOf(s: string, p: string): (r: Option<nat>)
    ensures r.Some? ==> OccursAt(s, p, r.value) && forall k :: 0 <= k < r.value ==> !OccursAt(s, p, k)
    ensures r.None? ==> forall k :: 0 <= k <= |s| ==> !OccursAt(s, p, k)
  {
    FindFrom(s, p, 0)
  }

  /** `s.indexOf(c)` for a single character. */
  function IndexOfChar(s: string, c: char): (r: Option<nat>)
    ensures r.Some? ==> r.value < |s| && s[r.value] == c && c !in s[..r.value]
    ensures r.None? ==> c !in s
  {
    var r := IndexOf(s, [c]);
    if r.Some? then
      assert s[r.value..r.value + 1] == [c];
      assert forall k :: 0 <= k < r.value ==> s[k] != c by {
        forall k | 0 <= k < r.value ensures s[k] != c {
          assert !OccursAt(s, [c], k);
          assert s[k..k + 1] == [s[k]];
        }
      }
      r
    else
      assert forall k :: 0 <= k < |s| ==> s[k] != c by {
        forall k | 0 <= k < |s| ensures s[k] != c {
          assert !OccursAt(s, [c], k);
          assert s[k..k + 1] == [s[k]];
        }
      }
      r
  }

  /** `s.lastIndexOf(c)`: the last index holding `c`, `None` for Java's -1. */
  function LastIndexOfChar(s: string, c: char): (r: Option<nat>)
    ensures r.Some? ==> r.value < |s| && s[r.value] == c && c !in s[r.value + 1..]
    ensures r.None? ==> c !in s
  {
    if s == [] then None
    else if s[|s| - 1] == c then Some(|s| - 1)
    else
      var r := LastIndexOfChar(s[..|s| - 1], c);
      if r.Some? then
        assert s[r.value + 1..] == s[..|s| - 1][r.value + 1..] + [s[|s| - 1]];
        r
      else
        assert s == s[..|s| - 1] + [s[|s| - 1]];
        r
  }

  /** A `c` at index `k` with none after it is the last one. */
  lemma LastIndexOfCharAt(s: string, c: char, k: nat)
    requires k < |s| && s[k] == c && c !in s[k + 1..]
    ensures LastIndexOfChar(s, c) == Some(k)
  {
    assert s[k] in s;
  }

  /** With no `c` from index `k` on, the last `c` (if any) lies before `k`. */
  lemma LastIndexOfCharBefore(s: string, c: char, k: nat)
    requires k <= |s| && c !in s[k..]
    ensures LastIndexOfChar(s, c).None? || LastIndexOfChar(s, c).value < k
  {
  }

  // ---------------------------------------------------------------- splitting

  /** The longest whitespace-free prefix of `s`. */
  function Word(s: string): (w: string)
    ensures |w| <= |s| && w == s[..|w|] && NoSpace(w)
    ensures |w| == |s| || IsSpace(s[|w|])
    ensures s != [] && !IsSpace(s[0]) ==> |w| > 0
  {
    if s == [] || IsSpace(s[0]) then [] else [s[0]] + Word(s[1..])
  }

  /**
   * The maximal `\s`-free runs of `s`, in order. For a non-empty line that
   * does not start with `\s` (a trimmed one, say) this is exactly Java's
   * `line.split("\\s+")`.
   */
  function Tokens(s: string): seq<string>
    decreases |s|
  {
    var t := DropSpace(s);
    if t == [] then []
    else
      var w := Word(t);
      [w] + Tokens(t[|w|..])
  }

  /** A token: a non-empty run without whitespace. */
  predicate IsToken(w: string) {
    w != [] && NoSpace(w)
  }

  /** Every piece `Tokens` returns is a token: no empty strings, no whitespace. */
  lemma {:induction false} TokensAreTokens(s: string)
    ensures forall i :: 0 <= i < |Tokens(s)| ==> IsToken(Tokens(s)[i])
    decreases |s|
  {
    var t := DropSpace(s);
    if t != [] {
      var w := Word(t);
      var rest := Tokens(t[|w|..]);
      TokensAreTokens(t[|w|..]);
      assert Tokens(s) == [w] + rest;
      forall i | 0 <= i < |Tokens(s)| ensures IsToken(Tokens(s)[i]) {
        if i == 0 {
          assert IsToken(w);
        } else {
          assert Tokens(s)[i] == rest[i - 1];
        }
      }
    }
  }

  /** A word followed by whitespace (or nothing) is split off as the first token. */
  lemma TokensCons(w: string, rest: string)
    requires IsToken(w)
    requires rest == [] || IsSpace(rest[0])
    ensures Tokens(w + rest) == [w] + Tokens(rest)
  {
    DropSpaceNoop(w + rest);
    WordOfJoined(w, rest);
    assert (w + rest)[|w|..] == rest;
  }

  /** Words joined by single spaces. */
  function Unwords(ws: seq<string>): string {
    if ws == [] then [] else if |ws| == 1 then ws[0] else ws[0] + " " + Unwords(ws[1..])
  }

  lemma {:induction false} WordOfJoined(w: string, rest: string)
    requires NoSpace(w)
    requires rest == [] || IsSpace(rest[0])
    ensures Word(w + rest) == w
    decreases |w|
  {
    if w == [] {
      assert w + rest == rest;
    } else {
      assert (w + rest)[1..] == w[1..] + rest;
      WordOfJoined(w[1..], rest);
    }
  }

  /** Splitting re-finds the words that `Unwords` joined: the partner of `Tokens`. */
  lemma {:induction false} TokensOfUnwords(ws: seq<string>)
    requires forall i :: 0 <= i < |ws| ==> IsToken(ws[i])
    ensures Tokens(Unwords(ws)) == ws
    decreases |ws|
  {
    if ws == [] {
    } else if |ws| == 1 {
      TokensOfOne(ws[0]);
    } else {
      var u := Unwords(ws[1..]);
      var tail := ws[1..];
      assert forall i :: 0 <= i < |tail| ==> IsToken(tail[i]) by {
        forall i | 0 <= i < |tail| ensures IsToken(tail[i]) {
          assert tail[i] == ws[i + 1];
        }
      }
      TokensOfUnwords(tail);
      UnwordsCons(ws);
      TokensCons(ws[0], " " + u);
      TokensSkipSpace(u);
      assert [ws[0]] + tail == ws;
    }
  }

  lemma TokensOfOne(w: string)
    requires IsToken(w)
    ensures Tokens(w) == [w]
  {
    TokensCons(w, []);
    assert w + [] == w;
  }

  lemma UnwordsCons(ws: seq<string>)
    requires |ws| > 1
    ensures Unwords(ws) == ws[0] + (" " + Unwords(ws[1..]))
  {
  }

  lemma TokensSkipSpace(u: string)
    ensures Tokens(" " + u) == Tokens(u)
  {
    assert (" " + u)[1..] == u;
  }

  // ---------------------------------------------------------------- decimal

  predicate IsDigit(c: char) {
    '0' <= c <= '9'
  }

  predicate AllDigits(s: string) {
    forall i :: 0 <= i < |s| ==> IsDigit(s[i])
  }

  function DigitChar(d: nat): (c: char)
    requires d < 10
    ensures IsDigit(c) && c as int - '0' as int == d
  {
    ('0' as int + d) as char
  }

  /** The value of a string of decimal digits (0 for the empty string). */
  function DigitsValue(s: string): nat
    requires AllDigits(s)
  {
    if s == [] then 0 else DigitsValue(s[..|s| - 1]) * 10 + (s[|s| - 1] as int - '0' as int)
  }

  /** Java's decimal rendering of a non-negative int: no sign, no leading zeros. */
  function NatToString(n: nat): (r: string)
    ensures |r| >= 1 && AllDigits(r)
    ensures r[0] == '0' ==> r == "0"
    decreases n
  {
    if n < 10 then [DigitChar(n)] else NatToString(n / 10) + [DigitChar(n % 10)]
  }

  /** Rendering then reading back gives the number again. */
  lemma {:induction false} NatToStringValue(n: nat)
    ensures DigitsValue(NatToString(n)) == n
    decreases n
  {
    if n >= 10 {
      var s := NatToString(n);
      assert s[..|s| - 1] == NatToString(n / 10);
      NatToStringValue(n / 10);
    }
  }

  /** Distinct numbers render differently, so counters make distinct label names. */
  lemma NatToStringInjective(a: nat, b: nat)
    ensures NatToString(a) == NatToString(b) ==> a == b
  {
    NatToStringValue(a);
    NatToStringValue(b);
  }

  /** The longest all-digit suffix of `s`. */
  function DigitSuffix(s: string): (r: string)
    ensures |r| <= |s| && r == s[|s| - |r|..] && AllDigits(r)
  {
    if s != [] && IsDigit(s[|s| - 1]) then
      var r := DigitSuffix(s[..|s| - 1]);
      assert s[|s| - |r| - 1..] == s[..|s| - 1][|s| - 1 - |r|..] + [s[|s| - 1]];
      r + [s[|s| - 1]]
    else []
  }

  /** A digit string glued after a non-digit is recovered as the digit suffix. */
  lemma {:induction false} DigitSuffixAppend(p: string, q: string)
    requires AllDigits(q)
    requires p != [] && !IsDigit(p[|p| - 1])
    ensures DigitSuffix(p + q) == q
    decreases |q|
  {
    if q == [] {
      assert p + q == p;
    } else {
      var q' := q[..|q| - 1];
      assert (p + q)[..|p + q| - 1] == p + q';
      DigitSuffixAppend(p, q');
      assert q == q' + [q[|q| - 1]];
    }
  }

  // ---------------------------------------------------------------- Integer.parseInt

  const IntMin: int := -0x8000_0000
  const IntMax: int := 0x7FFF_FFFF

  /**
   * `Integer.parseInt(s)` on ASCII input: an optional '+' or '-', then at least
   * one decimal digit, and a value inside the 32-bit int range; anything else
   * is the NumberFormatException, `None`.
   */
  function ParseInt(s: string): (r: Option<int>)
    ensures r.Some? ==> |s| > 0 && IntMin <= r.value <= IntMax
    ensures r.Some? && s[0] != '-' && s[0] != '+' ==> AllDigits(s) && r.value == DigitsValue(s)
    ensures r.Some? && s[0] != '-' ==> r.value >= 0
  {
    if |s| == 0 then None
    else if s[0] == '-' || s[0] == '+' then
      if |s| == 1 || !AllDigits(s[1..]) then None
      else
        var v: int := if s[0] == '-' then 0 - DigitsValue(s[1..]) else DigitsValue(s[1..]);
        if IntMin <= v <= IntMax then Some(v) else None
    else if AllDigits(s) && DigitsValue(s) <= IntMax then Some(DigitsValue(s))
    else None
  }

  /** Java reads back what it printed: `parseInt(String.valueOf(n)) == n`. */
  lemma ParseIntOfNatToString(n: nat)
    requires n <= IntMax
    ensures ParseInt(NatToString(n)) == Some(n)
  {
    NatToStringValue(n);
  }

  /** Java's decimal rendering of an int: a '-' before the magnitude when negative. */
  function IntToString(i: int): (r: string)
    ensures |r| >= 1
    ensures r[0] == '-' <==> i < 0
  {
    if i < 0 then "-" + NatToString(-i) else NatToString(i)
  }

  /** `parseInt(String.valueOf(i)) == i` for every int, negative ones included. */
  lemma ParseIntOfIntToString(i: int)
    requires IntMin <= i <= IntMax
    ensures ParseInt(IntToString(i)) == Some(i)
  {
    if i < 0 {
      NatToStringValue(-i);
      ParseNegative("-" + NatToString(-i), NatToString(-i));
    } else {
      NatToStringValue(i);
      ParseDigits(NatToString(i));
    }
  }

  /** A minus sign and digits whose value fits read as the negated value. */
  lemma ParseNegative(s: string, d: string)
    requires d != [] && AllDigits(d) && s == "-" + d && IntMin <= 0 - DigitsValue(d) as int
    ensures ParseInt(s) == Some(0 - DigitsValue(d) as int)
  {
    assert s[1..] == d;
  }

  /** Digits whose value fits read as that value. */
  lemma ParseDigits(s: string)
    requires s != [] && AllDigits(s) && DigitsValue(s) <= IntMax
    ensures ParseInt(s) == Some(DigitsValue(s))
  {
    assert IsDigit(s[0]);
  }

  /** Distinct ints render differently. */
  lemma IntToStringInjective(a: int, b: int)
    requires IntToString(a) == IntToString(b)
    ensures a == b
  {
    if a < 0 {
      assert IntToString(a)[1..] == NatToString(-a);
      assert IntToString(b)[1..] == NatToString(-b);
      NatToStringInjective(-a, -b);
    } else {
      NatToStringInjective(a, b);
    }
  }

  /** Java's rendering of an int holds only a sign and digits. */
  lemma IntToStringNoChar(i: int, c: char)
    requires c != '-' && !IsDigit(c)
    ensures c !in IntToString(i)
  {
    if i < 0 {
      assert IntToString(i) == "-" + NatToString(-i);
    }
  }

  /**
   * Two strings that each end in a separator followed by a separator-free
   * tail split at the same place: both heads and both tails agree.
   */
  lemma SplitAtLast(a: string, b: string, c: string, d: string, sep: char)
    requires sep !in b && sep !in d
    requires a + [sep] + b == c + [sep] + d
    ensures a == c && b == d
  {
    var s := a + [sep] + b;
    var t := c + [sep] + d;
    assert |b| == |d| by {
      assert s[|a|] == sep && t[|c|] == sep;
    }
    assert a == s[..|a|] && c == t[..|c|];
    assert b == s[|a| + 1..] && d == t[|c| + 1..];
  }

  // ---------------------------------------------------------------- binary

  predicate IsBit(c: char) {
    c == '0' || c == '1'
  }

  predicate AllBits(s: string) {
    forall i :: 0 <= i < |s| ==> IsBit(s[i])
  }

  function BitsValue(s: string): nat
    requires AllBits(s)
  {
    if s == [] then 0 else BitsValue(s[..|s| - 1]) * 2 + (if s[|s| - 1] == '1' then 1 else 0)
  }

  function Pow2(k: nat): (p: nat)
    ensures p >= 1
  {
    if k == 0 then 1 else 2 * Pow2(k - 1)
  }

  lemma Pow2Sixteen()
    ensures Pow2(16) == 0x1_0000
  {
    assert Pow2(4) == 16;
    assert Pow2(8) == 256;
    assert Pow2(12) == 4096;
  }

  /** `Integer.toBinaryString` of a non-negative value: no leading zeros. */
  function NatToBinary(n: nat): (r: string)
    ensures |r| >= 1 && AllBits(r)
    ensures r[0] == '0' ==> r == "0"
    decreases n
  {
    if n < 2 then (if n == 0 then "0" else "1")
    else NatToBinary(n / 2) + (if n % 2 == 0 then "0" else "1")
  }

  lemma {:induction false} NatToBinaryValue(n: nat)
    ensures BitsValue(NatToBinary(n)) == n
    decreases n
  {
    if n >= 2 {
      var s := NatToBinary(n);
      assert s[..|s| - 1] == NatToBinary(n / 2);
      NatToBinaryValue(n / 2);
    }
  }

  lemma {:induction false} NatToBinaryLength(n: nat, k: nat)
    requires n < Pow2(k)
    ensures |NatToBinary(n)| <= k || (n == 0 && k == 0)
    decreases n
  {
    if n >= 2 {
      NatToBinaryLength(n / 2, k - 1);
    }
  }

  /**
   * `Integer.toBinaryString(i)`: the 32-bit pattern of `i` without leading
   * zeros, so a negative int prints as its two's complement. Only the low 32
   * bits of `i` matter, which is what a Java int holds of an unbounded counter.
   */
  function IntToBinary(i: int): (r: string)
    ensures 0 <= i < 0x1_0000_0000 ==> r == NatToBinary(i)
    ensures IntMin <= i < 0 ==> r == NatToBinary(i + 0x1_0000_0000)
  {
    NatToBinary(i % 0x1_0000_0000)
  }

  function Zeros(k: nat): (z: string)
    ensures |z| == k && AllBits(z)
    ensures forall i :: 0 <= i < k ==> z[i] == '0'
  {
    if k == 0 then [] else "0" + Zeros(k - 1)
  }

  /** `String.format("%16s", s).replace(' ', '0')` for a string of bits: pad on the left, never cut. */
  function Pad16(s: string): (r: string)
    ensures |s| <= 16 ==> |r| == 16
    ensures |s| > 16 ==> r == s
  {
    if |s| < 16 then Zeros(16 - |s|) + s else s
  }

  lemma {:induction false} BitsValueZerosPrefix(k: nat, s: string)
    requires AllBits(s)
    ensures AllBits(Zeros(k) + s) && BitsValue(Zeros(k) + s) == BitsValue(s)
    decreases |s|
  {
    var z := Zeros(k) + s;
    assert AllBits(z);
    if s == [] {
      assert z == Zeros(k);
      ZerosValue(k);
    } else {
      assert z[..|z| - 1] == Zeros(k) + s[..|s| - 1];
      BitsValueZerosPrefix(k, s[..|s| - 1]);
    }
  }

  lemma {:induction false} ZerosValue(k: nat)
    ensures BitsValue(Zeros(k)) == 0
    decreases k
  {
    if k > 0 {
      assert Zeros(k)[..k - 1] == Zeros(k - 1);
      ZerosValue(k - 1);
    }
  }

  /**
   * The assembler's A-word for an address `n < 2^16`: exactly sixteen 0/1
   * characters whose binary value is `n`.
   */
  lemma Word16(n: nat)
    requires n < 0x1_0000
    ensures |Pad16(NatToBinary(n))| == 16 && AllBits(Pad16(NatToBinary(n)))
    ensures BitsValue(Pad16(NatToBinary(n))) == n
  {
    Pow2Sixteen();
    NatToBinaryLength(n, 16);
    NatToBinaryValue(n);
    BitsValueZerosPrefix(16 - |NatToBinary(n)|, NatToBinary(n));
  }

  // ---------------------------------------------------------------- fixed-width binary

  /** The `w` low bits of `v`, most significant first: a field of a machine word. */
  function FixedBits(v: nat, w: nat): (r: string)
    ensures |r| == w && AllBits(r)
  {
    if w == 0 then [] else FixedBits(v / 2, w - 1) + (if v % 2 == 0 then "0" else "1")
  }

  /** Reading a field back gives the value it was written from. */
  lemma {:induction false} FixedBitsValue(v: nat, w: nat)
    requires v < Pow2(w)
    ensures BitsValue(FixedBits(v, w)) == v
  {
    if w > 0 {
      var r := FixedBits(v, w);
      assert r[..w - 1] == FixedBits(v / 2, w - 1);
      FixedBitsValue(v / 2, w - 1);
    }
  }

  /** Distinct values of a width get distinct fields. */
  lemma FixedBitsInjective(x: nat, y: nat, w: nat)
    requires x < Pow2(w) && y < Pow2(w)
    requires FixedBits(x, w) == FixedBits(y, w)
    ensures x == y
  {
    FixedBitsValue(x, w);
    FixedBitsValue(y, w);
  }

  /** The leading bit of a field is set exactly when the value reaches the top half of the range. */
  lemma {:induction false} FixedBitsLeading(v: nat, w: nat)
    requires 0 < w && v < Pow2(w)
    ensures FixedBits(v, w)[0] == '1' <==> v >= Pow2(w - 1)
  {
    if w > 1 {
      FixedBitsLeading(v / 2, w - 1);
      assert FixedBits(v, w)[0] == FixedBits(v / 2, w - 1)[0];
    }
  }

  /** Adding the top power of two sets the leading bit and leaves the others alone. */
  lemma {:induction false} FixedBitsSetLeading(v: nat, w: nat)
    requires 0 < w && v < Pow2(w - 1)
    ensures FixedBits(v + Pow2(w - 1), w) == "1" + FixedBits(v, w)[1..]
  {
    if w > 1 {
      var p := Pow2(w - 2);
      assert Pow2(w - 1) == 2 * p;
      assert (v + 2 * p) / 2 == v / 2 + p && (v + 2 * p) % 2 == v % 2;
      FixedBitsSetLeading(v / 2, w - 1);
      var bit := if v % 2 == 0 then "0" else "1";
      assert FixedBits(v, w)[1..] == FixedBits(v / 2, w - 1)[1..] + bit;
    }
  }
}

/**
 Character classes and the few string operations of Go's standard library that
 the commit parser relies on: `strings.TrimSpace`, `strings.Split`/`SplitN` on
 a newline, `strings.Join` with a newline, and `strings.ToLower` on ASCII text.
 */
module Text {

  /** `unicode.IsSpace`: the ASCII controls \t \n \v \f \r, the space, U+0085,
      U+00A0 and the remaining code points with the Unicode White_Space property. */
  predicate IsSpace(c: char) {
    var n := c as int;
    || (0x09 <= n <= 0x0D)
    || n == 0x20 || n == 0x85 || n == 0xA0 || n == 0x1680
    || (0x2000 <= n <= 0x200A)
    || n == 0x2028 || n == 0x2029 || n == 0x202F || n == 0x205F || n == 0x3000
  }

  /** The regular-expression class `\w`, which in Go is ASCII only: [0-9A-Za-z_]. */
  predicate IsWordChar(c: char) {
    ('a' <= c <= 'z') || ('A' <= c <= 'Z') || ('0' <= c <= '9') || c == '_'
  }

  /** The class `[\w-]` used for scopes and footer tokens. */
  predicate IsTokenChar(c: char) {
    IsWordChar(c) || c == '-'
  }

  predicate NotNewline(c: char) {
    c != '\n'
  }

  predicate All(s: string, p: char -> bool) {
    forall i :: 0 <= i < |s| ==> p(s[i])
  }

  /** Length of the longest prefix of `s` whose characters all satisfy `p`. */
  function Span(s: string, p: char -> bool): (n: nat)
    ensures n <= |s|
    ensures forall i :: 0 <= i < n ==> p(s[i])
    ensures n < |s| ==> !p(s[n])
  {
    if |s| > 0 && p(s[0]) then 1 + Span(s[1..], p) else 0
  }

  /** The maximal run is determined by where `p` first fails. */
  lemma SpanOfPrefix(a: string, b: string, p: char -> bool)
    requires All(a, p)
    requires |b| == 0 || !p(b[0])
    ensures Span(a + b, p) == |a|
  {
    assert forall i :: 0 <= i < |a| ==> (a + b)[i] == a[i];
    if |b| > 0 {
      assert (a + b)[|a|] == b[0];
    }
  }

  // ----- strings.TrimSpace -----

  function TrimLeft(s: string): (r: string)
    ensures |r| <= |s| && r == s[|s| - |r|..]
    ensures forall i :: 0 <= i < |s| - |r| ==> IsSpace(s[i])
    ensures |r| > 0 ==> !IsSpace(r[0])
  {
    s[Span(s, IsSpace)..]
  }

  function TrimRight(s: string): (r: string)
    ensures |r| <= |s| && r == s[..|r|]
    ensures forall i :: |r| <= i < |s| ==> IsSpace(s[i])
    ensures |r| > 0 ==> !IsSpace(r[|r| - 1])
  {
    if |s| > 0 && IsSpace(s[|s| - 1]) then TrimRight(s[..|s| - 1]) else s
  }

  function TrimSpace(s: string): (r: string)
    ensures |r| > 0 ==> !IsSpace(r[0]) && !IsSpace(r[|r| - 1])
  {
    TrimRight(TrimLeft(s))
  }

  /** `r` is `s` with all leading and trailing white space removed: `s` is
      `r` surrounded by white space only, and `r` neither starts nor ends with
      white space. */
  ghost predicate IsTrimOf(s: string, r: string) {
    exists front, back :: All(front, IsSpace) && All(back, IsSpace) && s == front + r + back
      && (|r| > 0 ==> !IsSpace(r[0]) && !IsSpace(r[|r| - 1]))
  }

  lemma TrimLeftOf(x: string, y: string)
    requires All(x, IsSpace)
    requires |y| == 0 || !IsSpace(y[0])
    ensures TrimLeft(x + y) == y
  {
    SpanOfPrefix(x, y, IsSpace);
  }

  lemma {:induction false} TrimRightOf(x: string, y: string)
    requires All(y, IsSpace)
    requires |x| == 0 || !IsSpace(x[|x| - 1])
    ensures TrimRight(x + y) == x
    decreases |y|
  {
    if |y| == 0 {
      assert x + y == x;
    } else {
      var y' := y[..|y| - 1];
      assert (x + y)[..|x + y| - 1] == x + y';
      TrimRightOf(x, y');
    }
  }

  /** TrimSpace removes exactly the surrounding white space. */
  lemma TrimSpaceIsATrim(s: string)
    ensures IsTrimOf(s, TrimSpace(s))
  {
    var l := TrimLeft(s);
    var t := TrimSpace(s);
    var front, back := s[..|s| - |l|], l[|t|..];
    assert l == t + back;
    assert s == front + t + back;
    assert All(front, IsSpace);
    assert All(back, IsSpace);
  }

  lemma TrimOfSurrounded(front: string, r: string, back: string)
    requires All(front, IsSpace) && All(back, IsSpace)
    requires |r| > 0 && !IsSpace(r[0]) && !IsSpace(r[|r| - 1])
    ensures TrimSpace(front + r + back) == r
  {
    assert front + r + back == front + (r + back);
    TrimLeftOf(front, r + back);
    TrimRightOf(r, back);
  }

  lemma TrimOfSpaces(front: string, back: string)
    requires All(front, IsSpace) && All(back, IsSpace)
    ensures TrimSpace(front + back) == ""
  {
    var s := front + back;
    forall k | 0 <= k < |s| ensures IsSpace(s[k]) {
      if k < |front| {
        assert s[k] == front[k];
      } else {
        assert s[k] == back[k - |front|];
      }
    }
    assert s + "" == s;
    TrimLeftOf(s, "");
  }

  /** White space on both sides of a text that neither starts nor ends with
      white space is exactly what TrimSpace removes. */
  lemma TrimOfParts(front: string, r: string, back: string)
    requires All(front, IsSpace) && All(back, IsSpace)
    requires |r| > 0 ==> !IsSpace(r[0]) && !IsSpace(r[|r| - 1])
    ensures TrimSpace(front + r + back) == r
  {
    if |r| > 0 {
      TrimOfSurrounded(front, r, back);
    } else {
      assert front + r + back == front + back;
      TrimOfSpaces(front, back);
    }
  }

  /** Any trim of `s` is the one TrimSpace computes. */
  lemma TrimIsUnique(s: string, r: string)
    requires IsTrimOf(s, r)
    ensures r == TrimSpace(s)
  {
    var front, back :| All(front, IsSpace) && All(back, IsSpace) && s == front + r + back
      && (|r| > 0 ==> !IsSpace(r[0]) && !IsSpace(r[|r| - 1]));
    TrimOfParts(front, r, back);
  }

  /** The trimmed text is empty exactly when every character is white space. */
  lemma TrimSpaceEmptyIff(s: string)
    ensures TrimSpace(s) == "" <==> All(s, IsSpace)
  {
    if All(s, IsSpace) {
      assert s == s + "";
      TrimLeftOf(s, "");
    }
  }

  // ----- strings.Join and strings.Split with a newline separator -----

  /** Each element prefixed with a newline, concatenated. */
  function JoinPrefixed(lines: seq<string>): string {
    if |lines| == 0 then "" else "\n" + lines[0] + JoinPrefixed(lines[1..])
  }

  /** `strings.Join(lines, "\n")`. */
  function Join(lines: seq<string>): string {
    if |lines| == 0 then "" else lines[0] + JoinPrefixed(lines[1..])
  }

  lemma JoinPrefixedOfNonEmpty(lines: seq<string>)
    requires |lines| > 0
    ensures JoinPrefixed(lines) == "\n" + Join(lines)
  {
    var head, tail := lines[0], JoinPrefixed(lines[1..]);
    assert Join(lines) == head + tail;
    assert JoinPrefixed(lines) == "\n" + head + tail;
    ConcatAssoc("\n", head, tail);
  }

  lemma ConcatAssoc(a: string, b: string, c: string)
    ensures a + (b + c) == (a + b) + c
  {
  }

  predicate NoNewlines(lines: seq<string>) {
    forall i :: 0 <= i < |lines| ==> '\n' !in lines[i]
  }

  lemma JoinCons(line: string, rest: seq<string>)
    requires |rest| > 0
    ensures Join([line] + rest) == line + "\n" + Join(rest)
  {
    assert ([line] + rest)[1..] == rest;
    JoinPrefixedOfNonEmpty(rest);
  }

  /** `strings.SplitN(s, "\n", 2)`: the text before the first newline and the
      text after it ("" when there is no newline). */
  function SplitFirstLine(s: string): (r: (string, string))
    ensures '\n' !in r.0
    ensures '\n' in s ==> s == r.0 + "\n" + r.1
    ensures '\n' !in s ==> r.0 == s && r.1 == ""
  {
    var n := Span(s, NotNewline);
    assert '\n' !in s[..n];
    if n == |s| then
      assert s[..n] == s;
      (s, "")
    else
      assert s == s[..n] + "\n" + s[n + 1..];
      (s[..n], s[n + 1..])
  }

  /** `strings.Split(s, "\n")`: never empty, and the pieces joined back give `s`. */
  function Lines(s: string): (r: seq<string>)
    ensures |r| >= 1
    ensures NoNewlines(r)
    ensures Join(r) == s
    decreases |s|
  {
    var (line, rest) := SplitFirstLine(s);
    if '\n' in s then
      var tail := Lines(rest);
      JoinCons(line, tail);
      [line] + tail
    else
      [s]
  }

  lemma NewlineFree(a: string)
    requires '\n' !in a
    ensures All(a, NotNewline)
  {
    forall i | 0 <= i < |a| ensures NotNewline(a[i]) {
      assert a[i] in a;
    }
  }

  /** A newline-free string is one line. */
  lemma LinesOfLine(a: string)
    requires '\n' !in a
    ensures Lines(a) == [a]
  {
    NewlineFree(a);
    assert a == a + "";
    SpanOfPrefix(a, "", NotNewline);
  }

  /** A newline-free line, a newline, then the rest: the line comes first. */
  lemma LinesOfCons(a: string, rest: string)
    requires '\n' !in a
    ensures Lines(a + "\n" + rest) == [a] + Lines(rest)
  {
    var s := a + "\n" + rest;
    NewlineFree(a);
    assert s == a + ("\n" + rest);
    SpanOfPrefix(a, "\n" + rest, NotNewline);
    assert s[|a| + 1..] == rest;
    assert s[..|a|] == a;
  }

  /** Splitting a newline-free list of lines after joining it gives the list back. */
  lemma {:induction false} LinesOfJoin(lines: seq<string>)
    requires |lines| >= 1
    requires NoNewlines(lines)
    ensures Lines(Join(lines)) == lines
  {
    var a := lines[0];
    assert '\n' !in a;
    if |lines| == 1 {
      assert Join(lines) == a + "";
      assert a + "" == a;
      LinesOfLine(a);
    } else {
      var rest := lines[1..];
      assert [a] + rest == lines;
      JoinCons(a, rest);
      LinesOfCons(a, Join(rest));
      LinesOfJoin(rest);
    }
  }

  // ----- strings.ToLower, on the ASCII letters -----

  function LowerChar(c: char): char {
    if 'A' <= c <= 'Z' then (c as int + 32) as char else c
  }

  /** `strings.ToLower` on ASCII letters. */
  function ToLower(s: string): string {
    seq(|s|, i requires 0 <= i < |s| => LowerChar(s[i]))
  }

  /** Every capital is lowered, no capital is left, and every other character
      is kept. */
  lemma ToLowerLowers(s: string)
    ensures |ToLower(s)| == |s|
    ensures forall i :: 0 <= i < |s| ==> !('A' <= ToLower(s)[i] <= 'Z')
    ensures forall i :: 0 <= i < |s| && !('A' <= s[i] <= 'Z') ==> ToLower(s)[i] == s[i]
    ensures forall i :: 0 <= i < |s| && 'A' <= s[i] <= 'Z' ==> ToLower(s)[i] as int == s[i] as int + 32
  {
  }
}

/**
 The two footer patterns of commit.go:
   block identifier (line 20):  ^((?:BREAKING-CHANGE|BREAKING CHANGE)|[\w-]+)(: | #)
   footer line      (line 21):  ^(?P<token>[\w-]+|BREAKING CHANGE|BREAKING-CHANGE)(?P<separator>: | #)(?P<value>.*)$
 and the normalisation of footer tokens (commit.go:98-103).
 A `[\w-]+` token can only be the maximal `[\w-]` run at the start of the line,
 because neither `:` nor a space is in the class; the only other token the
 patterns allow is the literal `BREAKING CHANGE` (`BREAKING-CHANGE` is already a
 `[\w-]+` run). So each line has at most one token, and both patterns are
 decided by `TokenLength`.
 */
module FooterPattern {
  import opened Wrappers
  import opened Text

  const BreakingChange: string := "BREAKING CHANGE"
  const BreakingChangeHyphen: string := "BREAKING-CHANGE"
  const Closes: string := "Closes"

  predicate IsSeparator(s: string) {
    s == ": " || s == " #"
  }

  /** A token of the patterns' first group. */
  predicate IsToken(t: string) {
    t == BreakingChangeHyphen || t == BreakingChange || (|t| > 0 && All(t, IsTokenChar))
  }

  /** The line starts with a token of length `k` followed by a separator. */
  predicate TokenEndsAt(line: string, k: nat) {
    k + 2 <= |line| && IsToken(line[..k]) && IsSeparator(line[k..k + 2])
  }

  /** The block-identifier pattern, as a language: some token at the start of
      the line is followed by a separator. */
  ghost predicate IsBlockIdentifier(line: string) {
    exists k: nat :: TokenEndsAt(line, k)
  }

  /** The length of the token that opens `line`, or 0 when the line does not
      start with a token followed by a separator. */
  function TokenLength(line: string): (n: nat)
    ensures n > 0 ==> TokenEndsAt(line, n)
  {
    var run := Span(line, IsTokenChar);
    if run > 0 && run + 2 <= |line| && IsSeparator(line[run..run + 2]) then
      run
    else if |line| >= 17 && line[..15] == BreakingChange && IsSeparator(line[15..17]) then
      15
    else
      0
  }

  /** The block-identifier pattern matches `line` (commit.go:70). */
  predicate OpensFooterBlock(line: string) {
    TokenLength(line) > 0
  }

  lemma HyphenTokenIsRun()
    ensures All(BreakingChangeHyphen, IsTokenChar)
  {
    var s := BreakingChangeHyphen;
    assert forall i :: 0 <= i < |s| ==> s[i] in "BREAKINGCHANGE-";
  }

  lemma BreakingChangeChars()
    ensures forall i :: 0 <= i < 8 ==> IsTokenChar(BreakingChange[i])
    ensures BreakingChange[8] == ' ' && BreakingChange[9] == 'C'
  {
  }

  /** A line opening with `BREAKING CHANGE` and a separator: the `[\w-]` run
      stops at the space, so the literal alternative supplies the token. */
  lemma SpacedTokenLength(line: string)
    requires 17 <= |line| && line[..15] == BreakingChange && IsSeparator(line[15..17])
    ensures TokenLength(line) == 15
  {
    BreakingChangeChars();
    assert forall i :: 0 <= i < 15 ==> line[i] == BreakingChange[i];
    var word := line[..8];
    assert All(word, IsTokenChar);
    assert line == word + line[8..];
    SpanOfPrefix(word, line[8..], IsTokenChar);
    assert line[8..10] == [' ', 'C'];
  }

  /** A line opening with a `[\w-]` token and a separator: the run is the
      token. */
  lemma RunTokenLength(line: string, k: nat)
    requires TokenEndsAt(line, k) && line[..k] != BreakingChange
    ensures TokenLength(line) == k
  {
    var token := line[..k];
    if token == BreakingChangeHyphen {
      HyphenTokenIsRun();
    }
    assert All(token, IsTokenChar);
    assert line == token + line[k..];
    assert line[k] == ':' || line[k] == ' ';
    SpanOfPrefix(token, line[k..], IsTokenChar);
  }

  /** At most one token opens a line, and TokenLength finds it: the scanner
      decides the block-identifier pattern. */
  lemma TokenLengthIsTheToken(line: string, k: nat)
    requires TokenEndsAt(line, k)
    ensures TokenLength(line) == k
  {
    if line[..k] == BreakingChange {
      SpacedTokenLength(line);
    } else {
      RunTokenLength(line, k);
    }
  }

  lemma OpensFooterBlockIff(line: string)
    ensures OpensFooterBlock(line) <==> IsBlockIdentifier(line)
  {
    if OpensFooterBlock(line) {
      assert TokenEndsAt(line, TokenLength(line));
    }
    if IsBlockIdentifier(line) {
      var k: nat :| TokenEndsAt(line, k);
      TokenLengthIsTheToken(line, k);
    }
  }

  /** The captures of the footer-line pattern. */
  datatype FooterMatch = FooterMatch(token: string, separator: string, value: string)

  /** The footer-line pattern, as a language: `line` is a token, a separator and
      a value with no newline (`.*` stops at a newline and `$` is end of text). */
  predicate IsFooterLine(line: string, m: FooterMatch) {
    && IsToken(m.token)
    && IsSeparator(m.separator)
    && '\n' !in m.value
    && line == m.token + m.separator + m.value
  }

  /** Match the footer-line pattern against `line` (commit.go:88). */
  function MatchFooterLine(line: string): (r: Option<FooterMatch>)
    ensures r.Some? ==> IsFooterLine(line, r.value)
  {
    var n := TokenLength(line);
    if n > 0 && '\n' !in line[n + 2..] then
      assert line == line[..n] + line[n..n + 2] + line[n + 2..];
      Some(FooterMatch(line[..n], line[n..n + 2], line[n + 2..]))
    else
      None
  }

  /** The footer-line scanner and the pattern's language agree: a line matches
      with captures `m` exactly when MatchFooterLine returns `m`. */
  lemma MatchFooterLineIff(line: string, m: FooterMatch)
    ensures MatchFooterLine(line) == Some(m) <==> IsFooterLine(line, m)
  {
    if IsFooterLine(line, m) {
      var k := |m.token|;
      assert line[..k] == m.token;
      assert line[k..k + 2] == m.separator;
      assert line[k + 2..] == m.value;
      TokenLengthIsTheToken(line, k);
    }
  }

  /** On a line without a newline, which is every line the parser looks at, the
      block-identifier pattern and the footer-line pattern accept the same lines.
      So the line that opens the footer block is always a footer line. */
  lemma PatternsAgree(line: string)
    requires '\n' !in line
    ensures IsBlockIdentifier(line) <==> MatchFooterLine(line).Some?
  {
    OpensFooterBlockIff(line);
  }

  // ----- token normalisation -----

  predicate IsClosesAlias(lower: string) {
    lower == "fix" || lower == "fixes" || lower == "close" || lower == "closes"
  }

  /** commit.go:98-103: compared case-insensitively, `breaking-change` becomes
      `BREAKING CHANGE` and `fix`, `fixes`, `close`, `closes` become `Closes`;
      every other token is kept as written. */
  function NormalizeToken(token: string): (r: string)
    ensures r == token || r == BreakingChange || r == Closes
    ensures |token| > 0 ==> |r| > 0
  {
    var lower := ToLower(token);
    if lower == "breaking-change" then BreakingChange
    else if IsClosesAlias(lower) then Closes
    else token
  }

  /** `a` and `b` are equal up to ASCII letter case. */
  predicate EqualsIgnoringCase(a: string, b: string) {
    |a| == |b| && forall i :: 0 <= i < |a| ==> LowerChar(a[i]) == LowerChar(b[i])
  }

  lemma LowerIsLiteral(t: string, lower: string)
    requires forall i :: 0 <= i < |lower| ==> LowerChar(lower[i]) == lower[i]
    ensures ToLower(t) == lower <==> EqualsIgnoringCase(t, lower)
  {
    if EqualsIgnoringCase(t, lower) {
      assert forall i :: 0 <= i < |t| ==> ToLower(t)[i] == lower[i];
    }
  }

  predicate IsClosesAliasIgnoringCase(t: string) {
    || EqualsIgnoringCase(t, "fix") || EqualsIgnoringCase(t, "fixes")
    || EqualsIgnoringCase(t, "close") || EqualsIgnoringCase(t, "closes")
  }

  /** Both spellings of the breaking-change token are stored under
      `BREAKING CHANGE`. */
  lemma BreakingChangeSpellings()
    ensures NormalizeToken(BreakingChangeHyphen) == BreakingChange
    ensures NormalizeToken(BreakingChange) == BreakingChange
  {
    var t := BreakingChangeHyphen;
    assert forall i :: 0 <= i < |t| ==> LowerChar(t[i]) == "breaking-change"[i];
    LowerIsLiteral(t, "breaking-change");
  }

  /** The three outcomes of normalisation, each stated by case-insensitive
      comparison with the aliases. */
  lemma NormalizeTokenCases(t: string)
    ensures NormalizeToken(t) == BreakingChange <==> EqualsIgnoringCase(t, "breaking-change") || t == BreakingChange
    ensures NormalizeToken(t) == Closes <==> IsClosesAliasIgnoringCase(t)
    ensures !EqualsIgnoringCase(t, "breaking-change") && !IsClosesAliasIgnoringCase(t) ==> NormalizeToken(t) == t
  {
    LowerIsLiteral(t, "breaking-change");
    LowerIsLiteral(t, "fix");
    LowerIsLiteral(t, "fixes");
    LowerIsLiteral(t, "close");
    LowerIsLiteral(t, "closes");
    if t == Closes {
      assert LowerChar('C') == 'c';
      assert EqualsIgnoringCase(t, "closes");
    }
  }

  /** Normalising twice is normalising once. */
  lemma NormalizeTokenIdempotent(t: string)
    ensures NormalizeToken(NormalizeToken(t)) == NormalizeToken(t)
  {
    NormalizeTokenCases(t);
    var r := NormalizeToken(t);
    NormalizeTokenCases(r);
    if r == Closes {
      assert LowerChar('C') == 'c';
      assert EqualsIgnoringCase(r, "closes");
    }
  }
}

/**
 Cases from the repository's tests (commit_test.go), stated as lemmas about
 the model. Each case first proves the facts about its literal text in a small
 lemma, then applies a general lemma about lines of that shape.
 */
module Examples {
  import opened Wrappers
  import opened Text
  import opened HeaderPattern
  import opened FooterPattern
  import opened FooterFold
  import opened ConvCommit

  /** commit_test.go:205-206: the empty message and a message of three
      spaces are both empty-message errors. */
  lemma EmptyMessages(m: string)
    requires m == "" || m == "   "
    ensures Parse(m) == Failure(EmptyMessage)
  {
    assert forall i :: 0 <= i < |m| ==> m[i] == ' ';
    assert All(m, IsSpace);
  }

  /** A one-line message that does not start or end with white space is its
      own header line. */
  lemma OneLineHeader(m: string)
    requires |m| > 0 && !IsSpace(m[0]) && !IsSpace(m[|m| - 1]) && '\n' !in m
    ensures HeaderLine(m) == m
    ensures !All(m, IsSpace)
  {
    TrimOfSurrounded("", m, "");
    assert "" + m + "" == m;
  }

  /** A line that opens with a run of `k` word characters followed by
      anything but `(`, `!` or `:` does not match the header pattern. */
  lemma WordThenOther(line: string, k: nat)
    requires 0 < k < |line|
    requires forall i :: 0 <= i < k ==> IsWordChar(line[i])
    requires !IsWordChar(line[k]) && line[k] != '(' && line[k] != '!' && line[k] != ':'
    ensures ParseHeader(line).None?
  {
    var word, rest := line[..k], line[k..];
    assert line == word + rest;
    SpanOfPrefix(word, rest, IsWordChar);
  }

  /** A one-line message whose line the header pattern rejects is a
      malformed-header error. */
  lemma MalformedOneLiner(m: string)
    requires |m| > 0 && !IsSpace(m[0]) && !IsSpace(m[|m| - 1]) && '\n' !in m
    requires ParseHeader(m).None?
    ensures Parse(m) == Failure(MalformedHeader)
  {
    OneLineHeader(m);
  }

  /** A line of lower-case letters and spaces, opening with a four-letter
      word, is a malformed-header error. */
  lemma FourLetterWordThenSpace(m: string)
    requires 4 < |m| && m[4] == ' ' && m[|m| - 1] != ' '
    requires forall i :: 0 <= i < |m| ==> m[i] == ' ' || 'a' <= m[i] <= 'z'
    requires forall i :: 0 <= i < 4 ==> m[i] != ' '
    ensures Parse(m) == Failure(MalformedHeader)
  {
    LettersAndSpacesLine(m);
    LettersThenSpace(m);
    MalformedOneLiner(m);
  }

  /** Letters and spaces, not starting or ending with a space, make a line
      with no surrounding white space. */
  lemma LettersAndSpacesLine(m: string)
    requires 0 < |m| && m[0] != ' ' && m[|m| - 1] != ' '
    requires forall i :: 0 <= i < |m| ==> m[i] == ' ' || 'a' <= m[i] <= 'z'
    ensures !IsSpace(m[0]) && !IsSpace(m[|m| - 1]) && '\n' !in m
  {
    assert forall i :: 0 <= i < |m| ==> m[i] != '\n';
  }

  /** Four letters and a space do not open a header. */
  lemma LettersThenSpace(m: string)
    requires 4 < |m| && m[4] == ' '
    requires forall i :: 0 <= i < 4 ==> 'a' <= m[i] <= 'z'
    ensures ParseHeader(m).None?
  {
    WordThenOther(m, 4);
  }

  /** commit_test.go:207: a header with no colon. */
  lemma NoColonInHeader(m: string)
    requires m == "feat a new feature"
    ensures Parse(m) == Failure(MalformedHeader)
  {
    assert forall i :: 0 <= i < |m| ==> m[i] == ' ' || 'a' <= m[i] <= 'z';
    FourLetterWordThenSpace(m);
  }

  /** commit_test.go:208: free text. */
  lemma RandomText(m: string)
    requires m == "this is not a commit message"
    ensures Parse(m) == Failure(MalformedHeader)
  {
    assert forall i :: 0 <= i < |m| ==> m[i] == ' ' || 'a' <= m[i] <= 'z';
    FourLetterWordThenSpace(m);
  }

  // ----- footer lines -----

  lemma FooterLineOf(token: string, separator: string, value: string)
    requires IsToken(token) && IsSeparator(separator) && '\n' !in value
    ensures MatchFooterLine(token + separator + value) == Some(FooterMatch(token, separator, value))
  {
    MatchFooterLineIff(token + separator + value, FooterMatch(token, separator, value));
  }

  /** A line that starts with a `[\w-]` run not beginning with `B`, followed
      by something other than a separator, is not a footer line. */
  lemma NotFooterLine(word: string, rest: string)
    requires |word| > 0 && All(word, IsTokenChar) && word[0] != 'B'
    requires |rest| >= 2 && !IsTokenChar(rest[0]) && !IsSeparator(rest[..2])
    ensures MatchFooterLine(word + rest).None?
  {
    var line := word + rest;
    SpanOfPrefix(word, rest, IsTokenChar);
    assert line[|word|..|word| + 2] == rest[..2];
    assert line[0] == word[0];
    assert |line| >= 15 ==> line[..15][0] != BreakingChange[0];
  }

  /** A token whose lower-case form is one of the aliases of `Closes`. */
  lemma AliasToken(t: string, lower: string)
    requires IsClosesAlias(lower) && |t| == |lower|
    requires forall i :: 0 <= i < |t| ==> LowerChar(t[i]) == lower[i] && LowerChar(lower[i]) == lower[i]
    ensures NormalizeToken(t) == Closes
  {
    LowerIsLiteral(t, lower);
  }

  lemma ClosesTokens()
    ensures IsToken("Closes") && IsToken("Fixes") && IsToken("close")
    ensures NormalizeToken("Closes") == Closes
    ensures NormalizeToken("Fixes") == Closes
    ensures NormalizeToken("close") == Closes
  {
    assert forall i :: 0 <= i < 6 ==> IsTokenChar("Closes"[i]);
    assert forall i :: 0 <= i < 5 ==> IsTokenChar("Fixes"[i]);
    assert forall i :: 0 <= i < 5 ==> IsTokenChar("close"[i]);
    AliasToken("Closes", "closes");
    AliasToken("Fixes", "fixes");
    AliasToken("close", "close");
  }

  lemma StepOnFooterLine(st: FooterState, line: string, m: FooterMatch, key: string)
    requires MatchFooterLine(line) == Some(m) && NormalizeToken(m.token) == key
    ensures Step(st, line) == FooterState(st.footer[key := Get(st.footer, key) + [m.value]], key)
  {
  }

  lemma ClosesLines(block: seq<string>)
    requires block == ["Closes: #101", "Fixes #102", "close #103"]
    ensures MatchFooterLine(block[0]) == Some(FooterMatch("Closes", ": ", "#101"))
    ensures MatchFooterLine(block[1]) == Some(FooterMatch("Fixes", " #", "102"))
    ensures MatchFooterLine(block[2]) == Some(FooterMatch("close", " #", "103"))
  {
    ClosesTokens();
    var t1, t2, t3 := "Closes", "Fixes", "close";
    var v1, v2, v3 := "#101", "102", "103";
    assert block[0] == t1 + ": " + v1;
    assert block[1] == t2 + " #" + v2;
    assert block[2] == t3 + " #" + v3;
    FooterLineOf(t1, ": ", v1);
    FooterLineOf(t2, " #", v2);
    FooterLineOf(t3, " #", v3);
  }

  lemma FoldCons(st: FooterState, x: string, rest: seq<string>)
    ensures Fold([x] + rest, st) == Fold(rest, Step(st, x))
  {
    assert ([x] + rest)[1..] == rest;
  }

  lemma FoldThree(st: FooterState, x: string, y: string, z: string)
    ensures Fold([x, y, z], st) == Step(Step(Step(st, x), y), z)
  {
    assert [x, y, z] == [x] + ([y] + ([z] + []));
    FoldCons(st, x, [y] + ([z] + []));
    FoldCons(Step(st, x), y, [z] + []);
    FoldCons(Step(Step(st, x), y), z, []);
  }

  lemma FoldFour(st: FooterState, w: string, x: string, y: string, z: string)
    ensures Fold([w, x, y, z], st) == Fold([x, y, z], Step(st, w))
  {
    assert [w, x, y, z] == [w] + [x, y, z];
    FoldCons(st, w, [x, y, z]);
  }

  /** Storing under the only key of a one-key map replaces its value. */
  lemma Overwrite(key: string, a: seq<string>, b: seq<string>)
    ensures map[key := a][key := b] == map[key := b]
  {
  }

  /** Three footer lines whose tokens all normalise to one key store their
      values under that key, in order. */
  lemma ThreeLinesOneKey(l1: string, l2: string, l3: string, m1: FooterMatch, m2: FooterMatch, m3: FooterMatch, key: string)
    requires MatchFooterLine(l1) == Some(m1) && NormalizeToken(m1.token) == key
    requires MatchFooterLine(l2) == Some(m2) && NormalizeToken(m2.token) == key
    requires MatchFooterLine(l3) == Some(m3) && NormalizeToken(m3.token) == key
    ensures Fold([l1, l2, l3], Initial).footer == map[key := [m1.value, m2.value, m3.value]]
  {
    var block := [l1, l2, l3];
    var v1, v2, v3 := [m1.value], [m1.value, m2.value], [m1.value, m2.value, m3.value];
    var s1 := Step(Initial, l1);
    StepOnFooterLine(Initial, l1, m1, key);
    assert Get(Initial.footer, key) + [m1.value] == v1;
    var s2 := Step(s1, l2);
    StepOnFooterLine(s1, l2, m2, key);
    assert Get(s1.footer, key) + [m2.value] == v2;
    Overwrite(key, v1, v2);
    var s3 := Step(s2, l3);
    StepOnFooterLine(s2, l3, m3, key);
    assert Get(s2.footer, key) + [m3.value] == v3;
    Overwrite(key, v2, v3);
    FoldThree(Initial, l1, l2, l3);
  }

  /** commit_test.go:64-66 and 173: three aliases of `Closes`, with both
      separators, accumulate in order under one key; with the ` #` separator
      the `#` is consumed. */
  lemma RepeatedCloses(block: seq<string>)
    requires block == ["Closes: #101", "Fixes #102", "close #103"]
    ensures Fold(block, Initial).footer == map[Closes := ["#101", "102", "103"]]
  {
    ClosesTokens();
    ClosesLines(block);
    assert block == [block[0], block[1], block[2]];
    ThreeLinesOneKey(block[0], block[1], block[2],
      FooterMatch("Closes", ": ", "#101"), FooterMatch("Fixes", " #", "102"), FooterMatch("close", " #", "103"), Closes);
  }

  // ----- header captures -----

  /** commit_test.go:67 and 177-179: a scope made of word characters and a
      hyphen. */
  lemma ScopedHeader(kind: string, scope: string, subject: string)
    requires kind == "refactor" && scope == "api-v2" && subject == "simplify endpoint logic"
    ensures ParseHeader(kind + "(" + scope + "): " + subject) == Some(Header(kind, scope, false, subject))
  {
    assert forall i :: 0 <= i < |kind| ==> IsWordChar(kind[i]);
    assert forall i :: 0 <= i < |scope| ==> IsTokenChar(scope[i]);
    var h := Header(kind, scope, false, subject);
    assert Render(h) == kind + "(" + scope + "): " + subject;
    ParseRender(h);
  }

  /** commit_test.go:70 and 183-185: `!` before the colon marks the header
      as breaking. */
  lemma BangHeader(kind: string, subject: string)
    requires kind == "chore" && subject == "drop support for Node 12"
    ensures ParseHeader(kind + "!: " + subject) == Some(Header(kind, "", true, subject))
  {
    assert forall i :: 0 <= i < |kind| ==> IsWordChar(kind[i]);
    var h := Header(kind, "", true, subject);
    assert Render(h) == kind + "!: " + subject;
    ParseRender(h);
  }

  /** A one-line message that does not start or end with white space and
      whose line matches the header pattern parses to that header's captures,
      with an empty body and no footer. */
  lemma OneLinerParses(m: string, h: Header)
    requires |m| > 0 && !IsSpace(m[0]) && !IsSpace(m[|m| - 1]) && '\n' !in m
    requires ParseHeader(m) == Some(h)
    ensures Parse(m) == Success(Commit(h.kind, h.scope, h.subject, "", map[], h.breaking))
  {
    OneLineMessage(m);
    NothingAfterHeader(h);
    ParseHeaderIff(m, h);
    ParseOfHeader(m, h);
  }

  /** A one-line message that does not start or end with white space is its
      own header line, with no lines after it. */
  lemma OneLineMessage(m: string)
    requires |m| > 0 && !IsSpace(m[0]) && !IsSpace(m[|m| - 1]) && '\n' !in m
    ensures HeaderLine(m) == m && BodyAndFooterLines(m) == Lines("")
  {
    TrimOfSurrounded("", m, "");
    assert "" + m + "" == m;
  }

  /** No lines after the header: empty body, empty footer. */
  lemma NothingAfterHeader(h: Header)
    ensures Lines("") == [""]
    ensures Assemble(h, [""]) == Commit(h.kind, h.scope, h.subject, "", map[], h.breaking)
  {
    assert NoNewlines([""]);
    LinesOfJoin([""]);
    assert FooterStart([""]).None?;
    TrimOfSpaces("", "");
    assert Fold([""], Initial).footer == map[];
  }

  /** Three newline-free pieces, the first not starting and the last not
      ending with white space, make one such line. */
  lemma SurroundedLine(a: string, mid: string, b: string)
    requires |a| > 0 && !IsSpace(a[0]) && |b| > 0 && !IsSpace(b[|b| - 1])
    requires '\n' !in a && '\n' !in mid && '\n' !in b
    ensures var m := a + mid + b;
      && |m| > 0 && !IsSpace(m[0]) && !IsSpace(m[|m| - 1]) && '\n' !in m
  {
    var m := a + mid + b;
    assert m[0] == a[0] && m[|m| - 1] == b[|b| - 1];
  }

  lemma BangLine(kind: string, subject: string)
    requires kind == "chore" && subject == "drop support for Node 12"
    ensures var m := kind + "!: " + subject;
      && |m| > 0 && !IsSpace(m[0]) && !IsSpace(m[|m| - 1]) && '\n' !in m
      && ParseHeader(m) == Some(Header(kind, "", true, subject))
  {
    BangHeader(kind, subject);
    BangLineEnds(kind, subject);
  }

  lemma BangLineEnds(kind: string, subject: string)
    requires kind == "chore" && subject == "drop support for Node 12"
    ensures var m := kind + "!: " + subject;
      && |m| > 0 && !IsSpace(m[0]) && !IsSpace(m[|m| - 1]) && '\n' !in m
  {
    assert forall i :: 0 <= i < |subject| ==> subject[i] != '\n';
    assert kind[0] == 'c' && subject[|subject| - 1] == '2';
    SurroundedLine(kind, "!: ", subject);
  }

  /** commit_test.go:70 and 183-185, header only: a one-line message whose
      header carries `!` parses to a breaking commit with an empty body and
      no footer. */
  lemma BreakingOneLiner(kind: string, subject: string)
    requires kind == "chore" && subject == "drop support for Node 12"
    ensures Parse(kind + "!: " + subject) == Success(Commit(kind, "", subject, "", map[], true))
  {
    BangLine(kind, subject);
    OneLinerParses(kind + "!: " + subject, Header(kind, "", true, subject));
  }

  // ----- continuation lines -----

  /** A line that is not a footer line extends the last value. */
  lemma StepOnOtherLine(st: FooterState, line: string)
    requires MatchFooterLine(line).None?
    ensures Step(st, line) == FooterState(AppendToLast(st.footer, st.lastToken, "\n" + line), st.lastToken)
  {
  }

  /** Three lines that are not footer lines extend the last value by all
      three, each after a newline. */
  lemma ThreeContinuations(st: FooterState, c1: string, c2: string, c3: string)
    requires MatchFooterLine(c1).None? && MatchFooterLine(c2).None? && MatchFooterLine(c3).None?
    ensures Fold([c1, c2, c3], st)
         == FooterState(AppendToLast(st.footer, st.lastToken, "\n" + c1 + ("\n" + c2) + ("\n" + c3)), st.lastToken)
  {
    var lines := [c1, c2, c3];
    var a, b, c := "\n" + c1, "\n" + c2, "\n" + c3;
    var s2 := Step(st, c1);
    StepOnOtherLine(st, c1);
    var s3 := Step(s2, c2);
    StepOnOtherLine(s2, c2);
    AppendTwice(st.footer, st.lastToken, a, b);
    var s4 := Step(s3, c3);
    StepOnOtherLine(s3, c3);
    AppendTwice(st.footer, st.lastToken, a + b, c);
    FoldThree(st, c1, c2, c3);
  }

  /** A footer line followed by three lines that are not footer lines keeps
      one value: its own, with each following line appended after a
      newline. */
  lemma OneEntryContinued(l: string, m: FooterMatch, key: string, c1: string, c2: string, c3: string)
    requires MatchFooterLine(l) == Some(m) && NormalizeToken(m.token) == key && key != ""
    requires MatchFooterLine(c1).None? && MatchFooterLine(c2).None? && MatchFooterLine(c3).None?
    ensures Fold([l, c1, c2, c3], Initial).footer
         == map[key := [m.value + "\n" + c1 + "\n" + c2 + "\n" + c3]]
  {
    var block := [l, c1, c2, c3];
    var text := "\n" + c1 + ("\n" + c2) + ("\n" + c3);
    var s1 := Step(Initial, l);
    StepOnFooterLine(Initial, l, m, key);
    FoldFour(Initial, l, c1, c2, c3);
    ThreeContinuations(s1, c1, c2, c3);
    AppendToNew(map[], key, m.value, text);
    assert Get(map[], key) == [];
    JoinFour(m.value, c1, c2, c3);
  }

  lemma JoinFour(v: string, c1: string, c2: string, c3: string)
    ensures v + ("\n" + c1 + ("\n" + c2) + ("\n" + c3)) == v + "\n" + c1 + "\n" + c2 + "\n" + c3
  {
  }

  /** A line whose first `k` characters are a `[\w-]` run not beginning with
      `B`, followed by something other than a separator, is not a footer
      line. */
  lemma NotFooterLineAt(line: string, k: nat)
    requires 0 < k && k + 2 <= |line| && line[0] != 'B'
    requires forall i :: 0 <= i < k ==> IsTokenChar(line[i])
    requires !IsTokenChar(line[k]) && !IsSeparator(line[k..k + 2])
    ensures MatchFooterLine(line).None?
  {
    var word, rest := line[..k], line[k..];
    assert line == word + rest;
    assert rest[..2] == line[k..k + 2];
    NotFooterLine(word, rest);
  }

  lemma BreakingChangeToken(token: string)
    requires token == "BREAKING-CHANGE"
    ensures IsToken(token) && NormalizeToken(token) == BreakingChange
  {
    BreakingChangeSpellings();
  }

  lemma SecondBodyLine(c2: string)
    requires c2 == "This is the second line" + " of the breaking change description."
    ensures MatchFooterLine(c2).None?
  {
    assert c2[4] == ' ' && c2[5] == 'i';
    assert c2[4..6] == [c2[4], c2[5]];
    assert forall i :: 0 <= i < 4 ==> IsTokenChar(c2[i]);
    NotFooterLineAt(c2, 4);
  }

  lemma ThirdBodyLine(c3: string)
    requires c3 == "All consumers must upgrade" + " to Node 14 or higher."
    ensures MatchFooterLine(c3).None?
  {
    assert c3[3] == ' ' && c3[4] == 'c';
    assert c3[3..5] == [c3[3], c3[4]];
    assert forall i :: 0 <= i < 3 ==> IsTokenChar(c3[i]);
    NotFooterLineAt(c3, 3);
  }

  /** commit_test.go:72-75 and 186-190: `BREAKING-CHANGE` is stored as
      `BREAKING CHANGE`, and the blank line and the two lines after it become
      part of its one value. */
  lemma BreakingChangeContinued(token: string, value: string, c1: string, c2: string, c3: string)
    requires token == "BREAKING-CHANGE" && value == "Dropped support for Node 12."
    requires c1 == "" && c2 == "This is the second line" + " of the breaking change description."
    requires c3 == "All consumers must upgrade" + " to Node 14 or higher."
    ensures Fold([token + ": " + value, c1, c2, c3], Initial).footer
         == map[BreakingChange := [value + "\n" + c1 + "\n" + c2 + "\n" + c3]]
  {
    BreakingChangeToken(token);
    FooterLineOf(token, ": ", value);
    SecondBodyLine(c2);
    ThirdBodyLine(c3);
    OneEntryContinued(token + ": " + value, FooterMatch(token, ": ", value), BreakingChange, c1, c2, c3);
  }
}

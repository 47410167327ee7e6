/**
 The header pattern of a Conventional Commits message (commit.go:19):
   ^(?P<type>\w+)(?:\((?P<scope>[\w-]+)\))?(?P<breaking>!)?: (?P<subject>.+)$
 None of the characters that follow each group, `(`, `)`, `!` and `:`, can be
 part of the group before it, so the pattern has at most one way to match a
 line. It is modelled twice: as the set of lines it describes (`Matches`) and
 as a left-to-right scanner (`ParseHeader`), and the two are proved to agree.
 */
module HeaderPattern {
  import opened Wrappers
  import opened Text

  /** The captures of a header: `kind` is the source's `type` group; `scope` is
      "" when the optional group did not take part; `breaking` says whether the
      `!` group took part. */
  datatype Header = Header(kind: string, scope: string, breaking: bool, subject: string)

  /** Each capture is in the language of its group. */
  predicate WellFormed(h: Header) {
    && |h.kind| > 0 && All(h.kind, IsWordChar)
    && All(h.scope, IsTokenChar)
    && |h.subject| > 0 && '\n' !in h.subject
  }

  function ScopeText(scope: string): string {
    if scope == "" then "" else "(" + scope + ")"
  }

  function BangText(breaking: bool): string {
    if breaking then "!" else ""
  }

  /** The text the pattern's groups spell out for these captures. */
  function Render(h: Header): string {
    h.kind + (ScopeText(h.scope) + (BangText(h.breaking) + (": " + h.subject)))
  }

  /** `line` is matched by the header pattern, with captures `h`. */
  predicate Matches(line: string, h: Header) {
    WellFormed(h) && line == Render(h)
  }

  /** The optional `(scope)` group at the front of `s`: the scope ("" when
      `s` does not start with a parenthesis) and the text after the group.
      None when a parenthesis opens but no `[\w-]+` run and `)` follow it. */
  function ScopeGroup(s: string): (r: Option<(string, string)>)
    ensures r.Some? ==> All(r.value.0, IsTokenChar) && s == ScopeText(r.value.0) + r.value.1
  {
    if |s| > 0 && s[0] == '(' then
      var k := Span(s[1..], IsTokenChar);
      if k > 0 && k + 1 < |s| && s[k + 1] == ')' then
        assert s == "(" + s[1..k + 1] + ")" + s[k + 2..];
        Some((s[1..k + 1], s[k + 2..]))
      else
        None
    else
      Some(("", s))
  }

  /** The optional `!`, the `": "` separator and the `.+` subject that end
      the header: whether `!` is present, and the subject. */
  function SubjectGroup(s: string): (r: Option<(bool, string)>)
    ensures r.Some? ==> |r.value.1| > 0 && '\n' !in r.value.1
    ensures r.Some? ==> s == BangText(r.value.0) + (": " + r.value.1)
  {
    var breaking := |s| > 0 && s[0] == '!';
    var rest := if breaking then s[1..] else s;
    if |rest| > 2 && rest[..2] == ": " && '\n' !in rest[2..] then
      assert rest == ": " + rest[2..];
      Some((breaking, rest[2..]))
    else
      None
  }

  /** Match the header pattern against `line`, scanning left to right. */
  function ParseHeader(line: string): (r: Option<Header>)
    ensures r.Some? ==> Matches(line, r.value)
  {
    var t := Span(line, IsWordChar);
    if t == 0 then None
    else
      match ScopeGroup(line[t..])
      case None => None
      case Some((scope, afterScope)) =>
        match SubjectGroup(afterScope)
        case None => None
        case Some((breaking, subject)) =>
          var h := Header(line[..t], scope, breaking, subject);
          MatchesParts(line, t, h);
          Some(h)
  }

  /** A word-character run of length `t`, then the rest of the groups. */
  lemma MatchesParts(line: string, t: nat, h: Header)
    requires 0 < t <= |line| && h.kind == line[..t]
    requires forall i :: 0 <= i < t ==> IsWordChar(line[i])
    requires All(h.scope, IsTokenChar) && |h.subject| > 0 && '\n' !in h.subject
    requires line[t..] == ScopeText(h.scope) + (BangText(h.breaking) + (": " + h.subject))
    ensures Matches(line, h)
  {
    assert line == line[..t] + line[t..];
  }

  lemma SubjectGroupOf(breaking: bool, subject: string)
    requires |subject| > 0 && '\n' !in subject
    ensures SubjectGroup(BangText(breaking) + (": " + subject)) == Some((breaking, subject))
  {
    var s := BangText(breaking) + (": " + subject);
    if breaking {
      assert s[1..] == ": " + subject;
    } else {
      assert s == ": " + subject;
    }
  }

  lemma ScopeGroupOf(scope: string, rest: string)
    requires All(scope, IsTokenChar)
    requires |rest| > 0 && (rest[0] == '!' || rest[0] == ':')
    ensures ScopeGroup(ScopeText(scope) + rest) == Some((scope, rest))
  {
    var s := ScopeText(scope) + rest;
    if scope != "" {
      var inner := scope + (")" + rest);
      assert s == "(" + inner;
      assert s[1..] == inner;
      SpanOfPrefix(scope, ")" + rest, IsTokenChar);
      assert s[|scope| + 1] == inner[|scope|] == ')';
      assert s[1..|scope| + 1] == scope;
      assert s[|scope| + 2..] == rest;
    } else {
      assert s == rest;
    }
  }

  /** Every header the pattern describes is found by the scanner: parsing the
      rendering of well-formed captures gives those captures back. */
  lemma ParseRender(h: Header)
    requires WellFormed(h)
    ensures ParseHeader(Render(h)) == Some(h)
  {
    var line := Render(h);
    var afterScope := BangText(h.breaking) + (": " + h.subject);
    var afterType := ScopeText(h.scope) + afterScope;
    assert afterScope[0] == '!' || afterScope[0] == ':';
    assert afterType[0] == '(' || afterType[0] == '!' || afterType[0] == ':';
    SpanOfPrefix(h.kind, afterType, IsWordChar);
    assert line[..|h.kind|] == h.kind;
    assert line[|h.kind|..] == afterType;
    ScopeGroupOf(h.scope, afterScope);
    SubjectGroupOf(h.breaking, h.subject);
  }

  /** The scanner and the pattern's language agree on every line and every
      set of captures: a line matches with captures `h` exactly when
      ParseHeader returns `h`. */
  lemma ParseHeaderIff(line: string, h: Header)
    ensures ParseHeader(line) == Some(h) <==> Matches(line, h)
  {
    if Matches(line, h) {
      ParseRender(h);
    }
  }

  /** A line is rejected exactly when no captures make the pattern match it. */
  lemma ParseHeaderNoneIff(line: string)
    ensures ParseHeader(line).None? <==> forall h :: !Matches(line, h)
  {
    if !ParseHeader(line).None? {
      assert Matches(line, ParseHeader(line).value);
    } else {
      forall h ensures !Matches(line, h) {
        ParseHeaderIff(line, h);
      }
    }
  }
}

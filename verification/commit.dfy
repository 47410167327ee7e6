/**
 `Parse` (commit.go:41-130): one Conventional Commits message to a `Commit`
 record, or one of two errors.
 */
module ConvCommit {
  import opened Wrappers
  import opened Text
  import opened HeaderPattern
  import opened FooterPattern
  import opened FooterFold

  /** commit.go:9-16. `kind` is the source's `Type` field. */
  datatype Commit = Commit(
    kind: string,
    scope: string,
    title: string,
    body: string,
    footer: Footer,
    isBreakingChange: bool)

  datatype ParseError = EmptyMessage | MalformedHeader

  /** The first line of the trimmed message (commit.go:42, 47). */
  function HeaderLine(message: string): string {
    SplitFirstLine(TrimSpace(message)).0
  }

  /** The lines after the header (commit.go:48-51, 64). */
  function BodyAndFooterLines(message: string): seq<string> {
    Lines(SplitFirstLine(TrimSpace(message)).1)
  }

  /** The header line and the lines after it are the trimmed message cut at
      its first newline: nothing is lost and the header has no newline. */
  lemma MessageIsHeaderAndLines(message: string)
    ensures '\n' !in HeaderLine(message)
    ensures NoNewlines(BodyAndFooterLines(message))
    ensures '\n' in TrimSpace(message) ==>
      TrimSpace(message) == HeaderLine(message) + "\n" + Join(BodyAndFooterLines(message))
    ensures '\n' !in TrimSpace(message) ==>
      HeaderLine(message) == TrimSpace(message) && BodyAndFooterLines(message) == [""]
  {
    LinesOfLine("");
  }

  /** The index of the first line that opens the footer block, if any
      (commit.go:67-74). */
  function FooterStart(lines: seq<string>): (r: Option<nat>)
    ensures r.Some? ==> r.value < |lines| && OpensFooterBlock(lines[r.value])
    ensures r.Some? ==> forall j :: 0 <= j < r.value ==> !OpensFooterBlock(lines[j])
    ensures r.None? ==> forall j :: 0 <= j < |lines| ==> !OpensFooterBlock(lines[j])
  {
    if |lines| == 0 then None
    else if OpensFooterBlock(lines[0]) then Some(0)
    else
      match FooterStart(lines[1..])
      case None => None
      case Some(i) => Some(i + 1)
  }

  /** The header line is empty exactly when the message is white space only:
      the only way commit.go:43 reports an empty message. */
  lemma HeaderLineEmptyIff(message: string)
    ensures HeaderLine(message) == "" <==> All(message, IsSpace)
  {
    var trimmed := TrimSpace(message);
    TrimSpaceEmptyIff(message);
    if |trimmed| > 0 {
      assert trimmed[0] != '\n';
      if '\n' in trimmed {
        assert trimmed == HeaderLine(message) + "\n" + SplitFirstLine(trimmed).1;
      }
    }
  }

  /** The record built from a matched header and the lines after it
      (commit.go:64-129). */
  function Assemble(h: Header, lines: seq<string>): (c: Commit)
    ensures c.kind == h.kind && c.scope == h.scope && c.title == h.subject
    ensures c.isBreakingChange <==> h.breaking || BreakingChange in c.footer
    ensures NonEmptyValues(c.footer)
  {
    var (bodyLines, footerLines) :=
      match FooterStart(lines)
      case Some(k) => (lines[..k], lines[k..])
      case None => (lines, []);
    var body := TrimSpace(Join(bodyLines));
    var footer := Fold(footerLines, Initial).footer;
    var isBreakingChange := h.breaking || |Get(footer, BreakingChange)| > 0;
    Commit(h.kind, h.scope, h.subject, body, footer, isBreakingChange)
  }

  /** The whole parser. It fails with EmptyMessage exactly when the message is
      white space only, and with MalformedHeader exactly when the first line of
      the trimmed message is not matched by the header pattern. On success the
      type, scope and title are the captures of that match, and the commit is
      breaking exactly when the header has `!` or the footer has a
      `BREAKING CHANGE` entry. */
  function Parse(message: string): (r: Result<Commit, ParseError>)
    ensures r == Failure(EmptyMessage) <==> All(message, IsSpace)
    ensures r == Failure(MalformedHeader) <==>
      !All(message, IsSpace) && forall h :: !Matches(HeaderLine(message), h)
    ensures r.Success? ==> exists h ::
      && Matches(HeaderLine(message), h)
      && r.value.kind == h.kind && r.value.scope == h.scope && r.value.title == h.subject
      && (r.value.isBreakingChange <==> h.breaking || BreakingChange in r.value.footer)
    ensures r.Success? ==> NonEmptyValues(r.value.footer)
  {
    var header := HeaderLine(message);
    HeaderLineEmptyIff(message);
    ParseHeaderNoneIff(header);
    if header == "" then
      Failure(EmptyMessage)
    else
      match ParseHeader(header)
      case None => Failure(MalformedHeader)
      case Some(h) => Success(Assemble(h, BodyAndFooterLines(message)))
  }

  /** When the first line of the trimmed message is in the header pattern's
      language with captures `h`, the commit is assembled from `h` and the
      lines after the header. */
  lemma ParseOfHeader(message: string, h: Header)
    requires Matches(HeaderLine(message), h)
    ensures Parse(message) == Success(Assemble(h, BodyAndFooterLines(message)))
  {
    ParseHeaderIff(HeaderLine(message), h);
    assert HeaderLine(message) != "";
  }

  /** The line at index `k` is the first one that the block-identifier pattern
      matches, or `k` is past the end when no line is matched. */
  ghost predicate IsFooterBoundary(lines: seq<string>, k: nat) {
    && k <= |lines|
    && (forall j :: 0 <= j < k ==> !IsBlockIdentifier(lines[j]))
    && (k < |lines| ==> IsBlockIdentifier(lines[k]))
  }

  /** Every list of lines has its boundary. */
  lemma FooterBoundaryExists(lines: seq<string>) returns (k: nat)
    ensures IsFooterBoundary(lines, k)
  {
    k := match FooterStart(lines) case Some(i) => i case None => |lines|;
    forall j | 0 <= j < |lines|
      ensures OpensFooterBlock(lines[j]) <==> IsBlockIdentifier(lines[j])
    {
      OpensFooterBlockIff(lines[j]);
    }
  }

  lemma FooterStartIsBoundary(lines: seq<string>, k: nat)
    requires IsFooterBoundary(lines, k)
    ensures FooterStart(lines) == (if k < |lines| then Some(k) else None)
  {
    forall j | 0 <= j < |lines|
      ensures OpensFooterBlock(lines[j]) <==> IsBlockIdentifier(lines[j])
    {
      OpensFooterBlockIff(lines[j]);
    }
    FooterStartIsFirst(lines, k);
  }

  /** FooterStart finds the first line that opens the footer block. */
  lemma {:induction false} FooterStartIsFirst(lines: seq<string>, k: nat)
    requires k <= |lines|
    requires forall j :: 0 <= j < k ==> !OpensFooterBlock(lines[j])
    requires k < |lines| ==> OpensFooterBlock(lines[k])
    ensures FooterStart(lines) == (if k < |lines| then Some(k) else None)
  {
    if 0 < k {
      assert !OpensFooterBlock(lines[0]);
      var tail := lines[1..];
      assert forall j :: 0 <= j < k - 1 ==> tail[j] == lines[j + 1];
      FooterStartIsFirst(tail, k - 1);
    }
  }

  lemma AssembleAtBoundary(h: Header, lines: seq<string>, k: nat)
    requires IsFooterBoundary(lines, k)
    ensures Assemble(h, lines).body == TrimSpace(Join(lines[..k]))
    ensures Assemble(h, lines).footer == AddEntries(map[], Entries(lines[k..]))
  {
    FooterStartIsBoundary(lines, k);
    FooterOfBlock(lines[k..]);
    if k == |lines| {
      assert lines[..k] == lines;
      assert lines[k..] == [];
    }
  }

  /** The footer block opens with a footer line and its text is exactly its
      entries as written. */
  lemma BlockAtBoundary(lines: seq<string>, k: nat)
    requires NoNewlines(lines)
    requires IsFooterBoundary(lines, k) && k < |lines|
    ensures MatchFooterLine(lines[k]).Some?
    ensures "\n" + Join(lines[k..]) == RenderEntries(Entries(lines[k..]))
  {
    PatternsAgree(lines[k]);
    BlockIsItsEntries(lines[k..]);
  }

  /** The body is the trimmed text of exactly the lines before the footer
      block; the footer is the block's entries grouped by normalised token,
      each key holding its values in encounter order; the block opens with a
      footer line and its text is exactly its entries; without a block the
      footer is empty. */
  lemma ParseSplitsAtFooterBlock(message: string, k: nat)
    requires Parse(message).Success?
    requires IsFooterBoundary(BodyAndFooterLines(message), k)
    ensures var c, lines := Parse(message).value, BodyAndFooterLines(message);
      && c.body == TrimSpace(Join(lines[..k]))
      && c.footer == AddEntries(map[], Entries(lines[k..]))
      && (forall key :: key in c.footer <==> |ValuesFor(Entries(lines[k..]), key)| > 0)
      && (forall key :: key in c.footer ==> c.footer[key] == ValuesFor(Entries(lines[k..]), key))
      && (k == |lines| ==> c.footer == map[])
      && (k < |lines| ==> MatchFooterLine(lines[k]).Some?
                          && "\n" + Join(lines[k..]) == RenderEntries(Entries(lines[k..])))
  {
    var lines := BodyAndFooterLines(message);
    var h := ParseHeader(HeaderLine(message)).value;
    var c := Assemble(h, lines);
    assert Parse(message).value == c;
    AssembleAtBoundary(h, lines, k);
    if k < |lines| {
      BlockAtBoundary(lines, k);
    } else {
      assert lines[k..] == [];
    }
    var es := Entries(lines[k..]);
    forall key
      ensures key in c.footer <==> |ValuesFor(es, key)| > 0
      ensures key in c.footer ==> c.footer[key] == ValuesFor(es, key)
    {
      GroupedEntries(es, key);
    }
  }

  /** No footer line is lost or duplicated: the footer holds exactly one value
      per footer line of the block. */
  lemma FooterHoldsOneValuePerLine(message: string, k: nat)
    requires Parse(message).Success?
    requires IsFooterBoundary(BodyAndFooterLines(message), k)
    ensures Total(Parse(message).value.footer) == CountFooterLines(BodyAndFooterLines(message)[k..])
  {
    var lines := BodyAndFooterLines(message);
    var h := ParseHeader(HeaderLine(message)).value;
    assert Parse(message).value == Assemble(h, lines);
    AssembleAtBoundary(h, lines, k);
    FooterOfBlock(lines[k..]);
    FooterValueCount(lines[k..]);
  }
}

# conv-commit parser, modelled in Dafny

This project models `Parse` from the Go package `convcommit`, which turns a
Conventional Commits message into a `Commit` record. The record has these fields:

- type;
- optional scope;
- title;
- body;
- a footer map from token to the list of its values;
- a breaking-change flag.

The model follows the code's steps in order:

1. Trim white space from the whole message. Split off the first line as the
   header. Fail with an empty-message error when the header is empty.
2. Match the header against the header pattern. This pattern is
   `type(scope)!: subject`, where the scope and the `!` are optional. Fail
   with a malformed-header error when it does not match.
3. Split the rest of the message at newlines. Find the first line that the
   footer-block pattern accepts. The lines before it form the body, which is
   joined and trimmed. The lines from it onwards form the footer block.
4. Fold over the footer block:
   - A line that matches the footer-line pattern (`token: value` or
     `token #value`) appends its value under its token. Tokens are compared
     ignoring case: `breaking-change` is normalised to `BREAKING CHANGE`, and
     `fix`, `fixes`, `close` and `closes` are normalised to `Closes`.
   - Any other line is appended, after a newline, to the last value of the
     last token.
5. Set the breaking flag when the header has `!` or the footer holds a
   `BREAKING CHANGE` value.

The Go program uses three regular expressions. Here each one is a
deterministic scanner, and a lemma proves that scanner equal to a predicate
describing the strings the regular expression accepts.

Modules, one per file:

- `Wrappers` (wrappers.dfy): `Option` and `Result`.
- `Text` (text.dfy):
  - character classes: `\w`, `[\w-]`, and Go's `unicode.IsSpace`;
  - `strings.TrimSpace`;
  - `strings.Split` / `strings.Join` on `"\n"`, and `SplitN(…, 2)`;
  - `strings.ToLower`.
- `HeaderPattern` (header.dfy): the header regular expression and its
  captures.
- `FooterPattern` (footer.dfy):
  - the footer-block and footer-line regular expressions;
  - token normalisation.
- `FooterFold` (fold.dfy):
  - the footer loop;
  - an independent reading of the footer block as entries grouped by token.
- `ConvCommit` (commit.dfy): the `Commit` record, the footer-block boundary
  and `Parse`.
- `Examples` (examples.dfy): the repository's test cases stated as lemmas.

## Model

| member | source | states |
|---|---|---|
| ConvCommit.Parse | commit.go:41-130 | Fails with the empty-message error exactly when the message is all white space. Fails with the malformed-header error exactly when the trimmed first line matches no header. On success, type, scope and title come from a header match of that line. The breaking flag is set exactly when that match has `!` or the footer has a `BREAKING CHANGE` key. Every footer key holds at least one value. |
| ConvCommit.HeaderLineEmptyIff | commit.go:42-45 | The header line after trimming is empty exactly when the message consists only of white space. |
| ConvCommit.ParseOfHeader | commit.go:47-64 | When the trimmed first line is in the header pattern's language with captures `h`, `Parse` succeeds with the record assembled from `h` and the lines after the header. |
| ConvCommit.FooterStart | commit.go:67-74 | The result, when present, is the index of the first line that opens a footer block, and no earlier line opens one. When absent, no line opens one. |
| ConvCommit.FooterBoundaryExists | commit.go:67-74 | Every sequence of lines has a footer boundary: the position of the first line that the footer-block pattern accepts, or the end when there is none. |
| ConvCommit.FooterStartIsBoundary | commit.go:67-74 | The loop's index agrees with that boundary. It is `Some(k)` when a line at k opens the block, and `None` when the boundary is the end. |
| ConvCommit.Assemble | commit.go:118-129 | The record copies type, scope and subject from the header. The breaking flag is set exactly when the header has `!` or the footer has a `BREAKING CHANGE` key. Every footer key holds a non-empty list. |
| ConvCommit.AssembleAtBoundary | commit.go:76-84 | At the footer boundary, the body is the trimmed join of the lines before it. The footer is the entries of the lines from it onwards, grouped by token. |
| ConvCommit.BlockAtBoundary | commit.go:76-78 | The line at the boundary is itself a footer line. The footer block, written back out, is exactly the rendering of its entries, so no text of the block is dropped. |
| ConvCommit.ParseSplitsAtFooterBlock | commit.go:64-116 | For a successful parse, the lines after the header are the body lines followed by the footer block. The body is their trimmed join. A key is in the footer exactly when some footer line carries that normalised token. Its values are those lines' values with their continuations, in order. |
| ConvCommit.FooterHoldsOneValuePerLine | commit.go:84-116 | The footer holds, over all keys, exactly as many values as the footer block has footer lines. |
| HeaderPattern.ParseHeader | commit.go:53-62 | Any captures returned are a match of the header pattern for the line. |
| HeaderPattern.ParseHeaderIff | commit.go:19 | The scanner returns `h` exactly when the line matches the header pattern with captures `h`. So a match, when there is one, is unique. |
| HeaderPattern.ParseHeaderNoneIff | commit.go:53-56 | The scanner finds nothing exactly when no capture set matches the line. |
| HeaderPattern.ParseRender | commit.go:19 | Every well-formed header, written out as `type(scope)!: subject`, is read back to the same captures. |
| FooterPattern.TokenLength | commit.go:70 | A non-zero result is the length of a token that opens the line and is followed by `": "` or `" #"`. |
| FooterPattern.TokenLengthIsTheToken | commit.go:20 | At any split of the line into an accepted token followed by `": "` or `" #"`, the scanner's token length is that split. |
| FooterPattern.OpensFooterBlockIff | commit.go:20 | The scanner accepts a line exactly when the line starts with a token followed by a separator. |
| FooterPattern.MatchFooterLine | commit.go:21 | Any match returned splits the line into token, separator and value. |
| FooterPattern.MatchFooterLineIff | commit.go:21 | A line matches the footer-line pattern with captures `m` exactly when the scanner returns `m`. |
| FooterPattern.PatternsAgree | commit.go:20-21 | A newline-free line opens a footer block exactly when it is a footer line. So the block's first line always carries a value. |
| FooterPattern.NormalizeToken | commit.go:98-103 | The result is the token as written, `BREAKING CHANGE` or `Closes`. A non-empty token stays non-empty. |
| FooterPattern.NormalizeTokenCases | commit.go:98-103 | A token is renamed to `BREAKING CHANGE` exactly when it equals `breaking-change` ignoring case. It is renamed to `Closes` exactly when it equals one of `fix`, `fixes`, `close`, `closes` ignoring case. Otherwise it is kept. |
| FooterPattern.NormalizeTokenIdempotent | commit.go:98-103 | Normalising a normalised token changes nothing. |
| FooterPattern.BreakingChangeSpellings | commit.go:98-100 | Both `BREAKING-CHANGE` and `BREAKING CHANGE` end up under the key `BREAKING CHANGE`. |
| FooterFold.AppendToLast | commit.go:111-114 | Only the last value of the given token changes, gaining the given text at its end. Keys and list lengths are unchanged. Without a previous token it is a no-op. |
| FooterFold.Step | commit.go:87-115 | A footer line appends its value under its normalised token and makes that token the last one. Any other line extends the last value. Keys never hold empty lists. |
| FooterFold.Fold | commit.go:87-116 | Every key the loop stores holds at least one value. |
| FooterFold.FoldIsGrouping | commit.go:84-116 | The loop's map equals the starting map extended by the block's entries grouped by token. The continuation lines before the first footer line extend the starting token's last value. |
| FooterFold.FooterOfBlock | commit.go:84-116 | From the empty start, the loop's map is exactly the block's entries grouped by token. |
| FooterFold.AddEntriesValues | commit.go:105 | Grouping appends, for every key, the values of the entries with that key in order. A key is present exactly when it was before or some entry has it. |
| FooterFold.GroupedEntries | commit.go:105 | From the empty map, a key is present exactly when some entry has it, and it maps to those entries' values in order. |
| FooterFold.EntriesCount | commit.go:87-106 | There is one entry per footer line of the block. |
| FooterFold.FooterValueCount | commit.go:87-116 | The loop's map holds, over all keys, exactly one value per footer line. |
| FooterFold.EntriesCoverLines | commit.go:87-116 | The lines, written back out, are the leading continuation followed by the rendering of the entries. No line is lost or duplicated. |
| FooterFold.BlockIsItsEntries | commit.go:76-78 | A block that starts with a footer line has no leading continuation. Written back out, it is the rendering of its entries. |
| Text.ToLowerLowers | commit.go:98 | `ToLower` keeps the length, leaves no ASCII capital, keeps every other character, and lowers each capital. `FooterPattern.LowerIsLiteral` ties it to comparison ignoring case. |
| Text.Join | commit.go:82 | No contract of its own. It is the inverse of `Text.Lines`: the ensures of `Text.Lines` and `Text.LinesOfJoin` state the round trip both ways. |
| ConvCommit.HeaderLine | commit.go:42-47 | No contract of its own. `ConvCommit.HeaderLineEmptyIff` states when it is empty, and `ConvCommit.MessageIsHeaderAndLines` states how the message is cut. |
| ConvCommit.BodyAndFooterLines | commit.go:48-64 | No contract of its own. `ConvCommit.MessageIsHeaderAndLines` is its partner. |
| ConvCommit.MessageIsHeaderAndLines | commit.go:42-64 | The header line has no newline and neither has any line after it. When the trimmed message has a newline, it is the header line, a newline and those lines joined by newlines. Otherwise the header line is the whole trimmed message and the only line after it is empty. |
| Text.TrimSpace | commit.go:42 | The result neither starts nor ends with white space. |
| Text.TrimSpaceIsATrim | commit.go:42 | `TrimSpace` returns the middle of the text with white space removed on both sides. The result neither starts nor ends with white space. |
| Text.TrimIsUnique | commit.go:82 | There is only one way to cut white space off both ends so that what is left is not surrounded by white space. |
| Text.TrimSpaceEmptyIff | commit.go:42-45 | Trimming gives the empty string exactly when the text is all white space. |
| Text.SplitFirstLine | commit.go:42-51 | The first part has no newline. When the text has a newline, the text is first + newline + rest. Otherwise the first part is the whole text and the rest is empty. |
| Text.Lines | commit.go:64 | Splitting at newlines gives at least one piece. No piece contains a newline. Joining the pieces with newlines gives back the text. |
| Text.LinesOfJoin | commit.go:64 | Splitting the join of newline-free lines gives back those lines, so split and join are inverse. |
| Examples.EmptyMessages | commit_test.go:205-206 | The empty message and a message of three spaces fail with the empty-message error. |
| Examples.NoColonInHeader | commit_test.go:207 | `feat a new feature` fails with the malformed-header error. |
| Examples.RandomText | commit_test.go:208 | `this is not a commit message` fails with the malformed-header error. |
| Examples.OneLinerParses | commit_test.go:13-16 | A single line with no surrounding white space that matches the header pattern parses to its captures, with an empty body and an empty footer. |
| Examples.ScopedHeader | commit_test.go:67 | `refactor(api-v2): simplify endpoint logic` yields type `refactor` and scope `api-v2` with a hyphen, not breaking. |
| Examples.BreakingOneLiner | commit_test.go:70 | `chore!: drop support for Node 12` on its own parses to a breaking commit with no body or footer. |
| Examples.RepeatedCloses | commit_test.go:64-66 | `Closes: #101`, `Fixes #102` and `close #103` all land under `Closes` as `#101`, `102`, `103`, in order. |
| Examples.BreakingChangeContinued | commit_test.go:72-75 | `BREAKING-CHANGE: …` followed by a blank line and two more lines is stored under `BREAKING CHANGE` as one value joined by newlines. |

## Left out

- The `init` function and the precomputed capture indices (commit.go:23-39, 90-96) are left out. They only locate the named groups of the footer-line pattern, and the model reads the captures directly.
- The Go regular-expression engine is not modelled. Each of the three patterns is a hand-written scanner, proved equal to a predicate stating the strings the pattern accepts. The header pattern's `.+` subject is modelled as a non-empty newline-free remainder, matching Go's default of `.` excluding newline.
- Strings are sequences of Unicode code points, not UTF-8 bytes. Invalid UTF-8 is not modelled.
- White space is Go's `unicode.IsSpace` list (ASCII white space, U+0085, U+00A0, U+1680, U+2000-U+200A, U+2028, U+2029, U+202F, U+205F, U+3000).
- `\w` is ASCII letters, digits and `_`, as in Go's RE2.
- Text.ToLower: lowers ASCII letters only, where Go's `strings.ToLower` also lowers other letters. It is applied only to tokens, and tokens are ASCII by the footer-line pattern, so the result is the same.
- The footer is a `map` with no order, like the Go map. The order of values under one key is the order of the lines.
- The error values are two constructors of `ParseError` rather than `errors.New` strings. The `nil` result pointer is the `Failure` case of `Result`.
- The `len(parts) == 0` test at commit.go:43 is not modelled. `strings.SplitN` with a limit of 2 always returns at least one part, so that test is never true.
- The field `Type` is called `kind` in the model, because `type` is a Dafny keyword.
- The silent-drop branch of the footer loop (a non-footer line with no previous token, commit.go:108-114) is modelled, but it is proved unreachable inside a real footer block. The block's first line is always a footer line (`FooterPattern.PatternsAgree`).
- FooterFold.Fold: its contract says only that stored lists are non-empty. `FooterFold.FoldIsGrouping` and `FooterFold.FooterOfBlock` state the loop's value.
- FooterPattern.NormalizeToken: its contract names only the three possible outcomes. `FooterPattern.NormalizeTokenCases` states which outcome each token gets.
- FooterPattern.TokenLength: its contract states only that a non-zero result is a real token. `FooterPattern.TokenLengthIsTheToken` and `FooterPattern.OpensFooterBlockIff` state that every token is found.
- Text.TrimSpace: its contract states only that the ends are not white space. `Text.TrimSpaceIsATrim` and `Text.TrimIsUnique` state that exactly the surrounding white space is removed.
- Examples.RepeatedCloses: states the footer loop over the test's three footer lines, not `Parse` of the whole test message. `ConvCommit.ParseSplitsAtFooterBlock` connects a message to its footer block.
- Examples.BreakingChangeContinued: states the footer loop over the test's footer block, not `Parse` of the whole test message, for the same reason.
- Examples.ScopedHeader: states the header captures of the test message, not its footer.
- Examples.BreakingOneLiner: states `Parse` of the header line of commit_test.go:70 on its own, not of the whole message at commit_test.go:70-75. `Examples.BreakingChangeContinued` states that message's footer loop.
- The remaining test cases in commit_test.go (the long messages with bodies and footers) are not stated one by one. Their behaviour is covered by the general lemmas on the body split and the footer loop.

## Design notes

- The footer is an unordered map, like Go's. No key order is claimed.
- The body is trimmed with `strings.TrimSpace`, which removes all surrounding white space.
- `BREAKING-CHANGE` is listed as an alternative in both footer patterns. It is also an ordinary `[\w-]+` token, so the alternative changes nothing. The model accepts it either way and records the normalised key.

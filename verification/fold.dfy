/**
 The footer pass of commit.go:84-116: a left-to-right walk over the lines of the
 footer block carrying the footer map and the last token seen. It is related to
 a reference reading of the block: a list of entries, one per footer line, each
 carrying the continuation lines that follow it, grouped by normalised token.
 */
module FooterFold {
  import opened Text
  import opened Wrappers
  import opened FooterPattern

  type Footer = map<string, seq<string>>

  /** Go's `footerMap[key]`: the stored values, or the empty slice. */
  function Get(m: Footer, key: string): seq<string> {
    if key in m then m[key] else []
  }

  predicate NonEmptyValues(m: Footer) {
    forall k :: k in m ==> |m[k]| > 0
  }

  /** The loop state: the footer map built so far and `lastToken`, where ""
      means that no footer line has been seen yet. */
  datatype FooterState = FooterState(footer: Footer, lastToken: string)

  const Initial: FooterState := FooterState(map[], "")

  /** commit.go:111-114: append `text` to the last value stored under `token`,
      when there is a token and it has a value; otherwise nothing changes. */
  function AppendToLast(m: Footer, token: string, text: string): (r: Footer)
    ensures r.Keys == m.Keys
    ensures forall k :: k in m && k != token ==> r[k] == m[k]
    ensures forall k :: k in m ==> |r[k]| == |m[k]|
    ensures token != "" && token in m && |m[token]| > 0 ==>
      var n := |m[token]|;
      r[token][..n - 1] == m[token][..n - 1] && r[token][n - 1] == m[token][n - 1] + text
    ensures !(token != "" && token in m && |m[token]| > 0) ==> r == m
  {
    if token != "" && token in m && |m[token]| > 0 then
      var values := m[token];
      var n := |values|;
      m[token := values[..n - 1] + [values[n - 1] + text]]
    else
      m
  }

  /** One iteration of the loop at commit.go:87-116. A footer line appends its
      value under its normalised token and makes that token the last one; any
      other line extends the last value of the last token and changes nothing
      else. */
  function Step(st: FooterState, line: string): (r: FooterState)
    ensures NonEmptyValues(st.footer) ==> NonEmptyValues(r.footer)
    ensures MatchFooterLine(line).Some? ==>
      var m := MatchFooterLine(line).value;
      var t := NormalizeToken(m.token);
      && r.lastToken == t
      && r.footer.Keys == st.footer.Keys + {t}
      && r.footer[t] == Get(st.footer, t) + [m.value]
      && (forall k :: k in st.footer && k != t ==> r.footer[k] == st.footer[k])
    ensures MatchFooterLine(line).None? ==>
      && r.lastToken == st.lastToken
      && r.footer == AppendToLast(st.footer, st.lastToken, "\n" + line)
  {
    match MatchFooterLine(line)
    case Some(m) =>
      var t := NormalizeToken(m.token);
      FooterState(st.footer[t := Get(st.footer, t) + [m.value]], t)
    case None =>
      FooterState(AppendToLast(st.footer, st.lastToken, "\n" + line), st.lastToken)
  }

  /** The whole loop: Step over the lines from first to last. Every key it
      stores has at least one value. */
  function Fold(lines: seq<string>, st: FooterState): (r: FooterState)
    ensures NonEmptyValues(st.footer) ==> NonEmptyValues(r.footer)
    decreases |lines|
  {
    if |lines| == 0 then st else Fold(lines[1..], Step(st, lines[0]))
  }

  // ----- the reference reading: entries grouped by token -----

  /** One footer entry: the token as written, its separator, and its value
      with the continuation lines that follow it. */
  datatype Entry = Entry(token: string, separator: string, value: string)

  /** The key an entry is stored under. */
  function Key(e: Entry): string {
    NormalizeToken(e.token)
  }

  /** The leading lines of `lines` that are not footer lines, each prefixed
      with a newline. */
  function Continuation(lines: seq<string>): string {
    if |lines| == 0 || MatchFooterLine(lines[0]).Some? then ""
    else "\n" + lines[0] + Continuation(lines[1..])
  }

  /** One entry per footer line, in order, each followed by its continuation
      lines. Lines before the first footer line belong to no entry. */
  function Entries(lines: seq<string>): seq<Entry> {
    if |lines| == 0 then []
    else
      match MatchFooterLine(lines[0])
      case Some(m) => [Entry(m.token, m.separator, m.value + Continuation(lines[1..]))] + Entries(lines[1..])
      case None => Entries(lines[1..])
  }

  /** The values of the entries stored under `key`, in order. */
  function ValuesFor(es: seq<Entry>, key: string): seq<string> {
    if |es| == 0 then []
    else (if Key(es[0]) == key then [es[0].value] else []) + ValuesFor(es[1..], key)
  }

  /** Append each entry's value under its key, first to last. */
  function AddEntries(m: Footer, es: seq<Entry>): Footer
    decreases |es|
  {
    if |es| == 0 then m
    else AddEntries(m[Key(es[0]) := Get(m, Key(es[0])) + [es[0].value]], es[1..])
  }

  /** Adding entries to a map appends, under each key, exactly that key's
      values in encounter order; keys without values are not created. */
  lemma {:induction false} AddEntriesValues(m: Footer, es: seq<Entry>, key: string)
    ensures Get(AddEntries(m, es), key) == Get(m, key) + ValuesFor(es, key)
    ensures key in AddEntries(m, es) <==> key in m || |ValuesFor(es, key)| > 0
    decreases |es|
  {
    if |es| > 0 {
      var k := Key(es[0]);
      var m' := m[k := Get(m, k) + [es[0].value]];
      AddEntriesValues(m', es[1..], key);
    }
  }

  /** The footer a list of entries describes: each key maps to the values of
      its entries, in order, and only keys with entries are present. */
  lemma GroupedEntries(es: seq<Entry>, key: string)
    ensures key in AddEntries(map[], es) <==> |ValuesFor(es, key)| > 0
    ensures key in AddEntries(map[], es) ==> AddEntries(map[], es)[key] == ValuesFor(es, key)
  {
    AddEntriesValues(map[], es, key);
  }

  lemma AppendNothing(m: Footer, token: string)
    ensures AppendToLast(m, token, "") == m
  {
    if token != "" && token in m && |m[token]| > 0 {
      var values := m[token];
      var n := |values|;
      assert values[n - 1] + "" == values[n - 1];
      assert values[..n - 1] + [values[n - 1]] == values;
    }
  }

  lemma AppendTwice(m: Footer, token: string, a: string, b: string)
    ensures AppendToLast(AppendToLast(m, token, a), token, b) == AppendToLast(m, token, a + b)
  {
    if token != "" && token in m && |m[token]| > 0 {
      var values := m[token];
      var n := |values|;
      var once := AppendToLast(m, token, a);
      assert once[token] == values[..n - 1] + [values[n - 1] + a];
      assert once[token][..n - 1] == values[..n - 1];
      assert values[n - 1] + a + b == values[n - 1] + (a + b);
    }
  }

  lemma AppendToNew(m: Footer, token: string, value: string, text: string)
    requires token != ""
    ensures AppendToLast(m[token := Get(m, token) + [value]], token, text)
         == m[token := Get(m, token) + [value + text]]
  {
    var values := Get(m, token) + [value];
    assert values[..|values| - 1] == Get(m, token);
  }

  /** The loop computes the reference reading: continuation lines at the front
      of `lines` extend the state's last value, and the footer lines, with the
      continuation lines after each, are then added as entries in order. */
  lemma {:induction false} FoldIsGrouping(lines: seq<string>, st: FooterState)
    ensures Fold(lines, st).footer
         == AddEntries(AppendToLast(st.footer, st.lastToken, Continuation(lines)), Entries(lines))
    decreases |lines|
  {
    if |lines| == 0 {
      AppendNothing(st.footer, st.lastToken);
    } else {
      var line, rest := lines[0], lines[1..];
      var next := Step(st, line);
      FoldIsGrouping(rest, next);
      match MatchFooterLine(line)
      case Some(m) =>
        var t := NormalizeToken(m.token);
        AppendNothing(st.footer, st.lastToken);
        AppendToNew(st.footer, t, m.value, Continuation(rest));
        var e := Entry(m.token, m.separator, m.value + Continuation(rest));
        assert Entries(lines) == [e] + Entries(rest);
        assert ([e] + Entries(rest))[1..] == Entries(rest);
      case None =>
        AppendTwice(st.footer, st.lastToken, "\n" + line, Continuation(rest));
        assert "\n" + line + Continuation(rest) == ("\n" + line) + Continuation(rest);
    }
  }

  /** Starting from the empty map, the loop yields exactly the entries of the
      block grouped by normalised token. */
  lemma FooterOfBlock(block: seq<string>)
    ensures Fold(block, Initial).footer == AddEntries(map[], Entries(block))
  {
    FoldIsGrouping(block, Initial);
  }

  function CountFooterLines(lines: seq<string>): nat {
    if |lines| == 0 then 0
    else (if MatchFooterLine(lines[0]).Some? then 1 else 0) + CountFooterLines(lines[1..])
  }

  /** There is one entry, hence one stored value, per footer line. */
  lemma {:induction false} EntriesCount(lines: seq<string>)
    ensures |Entries(lines)| == CountFooterLines(lines)
    decreases |lines|
  {
    if |lines| > 0 {
      EntriesCount(lines[1..]);
    }
  }

  /** The number of values stored under the keys in `keys`. */
  ghost function SumOver(m: Footer, keys: set<string>): nat
    requires keys <= m.Keys
  {
    if keys == {} then 0
    else
      var k :| k in keys;
      |m[k]| + SumOver(m, keys - {k})
  }

  /** The number of values stored in a footer, over all keys. */
  ghost function Total(m: Footer): nat {
    SumOver(m, m.Keys)
  }

  /** The sum may take any key first. */
  lemma {:induction false} SumWithout(m: Footer, keys: set<string>, k: string)
    requires keys <= m.Keys && k in keys
    ensures SumOver(m, keys) == |m[k]| + SumOver(m, keys - {k})
    decreases keys
  {
    var j :| j in keys && SumOver(m, keys) == |m[j]| + SumOver(m, keys - {j});
    if j != k {
      SumWithout(m, keys - {j}, k);
      SumWithout(m, keys - {k}, j);
      assert keys - {j} - {k} == keys - {k} - {j};
    }
  }

  /** The sum only reads the values under `keys`. */
  lemma {:induction false} SumFrame(m: Footer, m': Footer, keys: set<string>)
    requires keys <= m.Keys && keys <= m'.Keys
    requires forall k :: k in keys ==> m[k] == m'[k]
    ensures SumOver(m, keys) == SumOver(m', keys)
    decreases keys
  {
    if keys != {} {
      var j :| j in keys && SumOver(m, keys) == |m[j]| + SumOver(m, keys - {j});
      SumWithout(m', keys, j);
      SumFrame(m, m', keys - {j});
    }
  }

  /** Appending one value under a key adds one to the total. */
  lemma TotalAppend(m: Footer, k: string, v: string)
    ensures Total(m[k := Get(m, k) + [v]]) == Total(m) + 1
  {
    var m' := m[k := Get(m, k) + [v]];
    var rest := m.Keys - {k};
    assert m'.Keys - {k} == rest;
    SumWithout(m', m'.Keys, k);
    SumFrame(m, m', rest);
    if k in m {
      SumWithout(m, m.Keys, k);
    } else {
      assert m.Keys == rest;
    }
  }

  /** Adding entries adds one value per entry. */
  lemma {:induction false} TotalAddEntries(m: Footer, es: seq<Entry>)
    ensures Total(AddEntries(m, es)) == Total(m) + |es|
    decreases |es|
  {
    if |es| > 0 {
      var k := Key(es[0]);
      TotalAppend(m, k, es[0].value);
      TotalAddEntries(m[k := Get(m, k) + [es[0].value]], es[1..]);
    }
  }

  /** The footer of a block holds one value per footer line of the block. */
  lemma FooterValueCount(block: seq<string>)
    ensures Total(Fold(block, Initial).footer) == CountFooterLines(block)
  {
    FooterOfBlock(block);
    TotalAddEntries(map[], Entries(block));
    EntriesCount(block);
    assert Total(map[]) == 0;
  }

  /** Each entry rendered as it was written, prefixed with a newline. */
  function RenderEntries(es: seq<Entry>): string {
    if |es| == 0 then "" else "\n" + es[0].token + es[0].separator + es[0].value + RenderEntries(es[1..])
  }

  /** No text is lost: the lines, each prefixed with a newline, are the leading
      continuation text followed by the rendered entries. */
  lemma {:induction false} EntriesCoverLines(lines: seq<string>)
    ensures JoinPrefixed(lines) == Continuation(lines) + RenderEntries(Entries(lines))
    decreases |lines|
  {
    if |lines| > 0 {
      var line, rest := lines[0], lines[1..];
      EntriesCoverLines(rest);
      match MatchFooterLine(line)
      case Some(m) =>
        var e := Entry(m.token, m.separator, m.value + Continuation(rest));
        assert Entries(lines) == [e] + Entries(rest);
        assert ([e] + Entries(rest))[1..] == Entries(rest);
        assert line == m.token + m.separator + m.value;
        assert RenderEntries(Entries(lines)) == "\n" + e.token + e.separator + e.value + RenderEntries(Entries(rest));
      case None =>
    }
  }

  /** When the block opens with a footer line, nothing in it is dropped: the
      silent-drop branch at commit.go:111 is never taken, and the block's text
      is exactly its entries as written. */
  lemma BlockIsItsEntries(block: seq<string>)
    requires |block| > 0 && MatchFooterLine(block[0]).Some?
    ensures Continuation(block) == ""
    ensures "\n" + Join(block) == RenderEntries(Entries(block))
  {
    EntriesCoverLines(block);
    JoinPrefixedOfNonEmpty(block);
  }
}

/**
 * The vocabulary domain: the fixed list of lexical categories, the order-preserving
 * de-duplication applied to every word list, and the Markdown summary table.
 */
module Vocabulary {
  import opened Wrappers
  import opened Text

  /** The sixteen categories, in the order every listing and report uses. */
  const LexicalCategories: seq<string> := [
    "noun", "verb", "adverb", "adjective", "phrasal_verb", "idiom", "preposition",
    "conjunction", "pronoun", "interjection", "article", "numeral", "particle",
    "determiner", "proper_noun", "other"
  ]

  predicate Distinct<T(==)>(s: seq<T>) {
    forall i, j :: 0 <= i < j < |s| ==> s[i] != s[j]
  }

  /** The first components of a sequence of pairs, in order: a dict's keys, a batch's row keys. */
  function Firsts<A, B>(s: seq<(A, B)>): (r: seq<A>)
    ensures |r| == |s| && forall k :: 0 <= k < |s| ==> r[k] == s[k].0
  {
    seq(|s|, k requires 0 <= k < |s| => s[k].0)
  }

  lemma LexicalCategoriesDistinct()
    ensures |LexicalCategories| == 16 && Distinct(LexicalCategories)
  {
  }

  // ---------------------------------------------------------------------------
  // dedupe_preserve_order
  // ---------------------------------------------------------------------------

  /** What one item contributes: nothing for None and blanks, else its stripped text. */
  function Cleaned(item: Value): (r: Option<string>)
    ensures r.Some? ==> r.value != [] && IsStripped(r.value)
  {
    match item
    case Null => None
    case Str(s) => StripNonEmpty(s)
    case Other(t) => StripNonEmpty(t)
  }

  function StripNonEmpty(s: string): (r: Option<string>)
    ensures r.Some? ==> r.value != [] && IsStripped(r.value)
    ensures r.None? <==> AllSpace(s)
  {
    StripIsStripped(s);
    StripEmptyIffAllSpace(s);
    var t := Strip(s);
    if t == [] then None else Some(t)
  }

  function Cleans(items: seq<Value>): (cs: seq<Option<string>>)
    ensures |cs| == |items| && forall i :: 0 <= i < |items| ==> cs[i] == Cleaned(items[i])
  {
    seq(|items|, i requires 0 <= i < |items| => Cleaned(items[i]))
  }

  /** The texts offered, in order, each kept only the first time it is offered: grows by the last offer when it is new. */
  function Keep(cs: seq<Option<string>>): seq<string>
  {
    if cs == [] then []
    else
      var prev := Keep(cs[..|cs| - 1]);
      var c := cs[|cs| - 1];
      if c.None? || c.value in prev then prev else prev + [c.value]
  }

  /** The result of `dedupe_preserve_order`. */
  function Deduped(items: seq<Value>): seq<string>
  {
    Keep(Cleans(items))
  }

  /** The loop of `dedupe_preserve_order`: a `seen` set and a `result` list grown item by item. */
  method DedupePreserveOrder(items: seq<Value>) returns (result: seq<string>)
    ensures result == Deduped(items)
    ensures Distinct(result)
    ensures forall k :: 0 <= k < |result| ==> result[k] != [] && IsStripped(result[k])
    ensures forall x :: x in result <==> exists i :: 0 <= i < |items| && Cleaned(items[i]) == Some(x)
  {
    var seen: set<string> := {};
    result := [];
    ghost var cs := Cleans(items);
    for i := 0 to |items|
      invariant result == Keep(cs[..i])
      invariant forall x :: x in seen <==> x in result
    {
      var c := Cleaned(items[i]);
      KeepStep(cs, i);
      if c.Some? && c.value !in seen {
        seen := seen + {c.value};
        result := result + [c.value];
      }
    }
    assert cs[..|items|] == cs;
    DedupedFacts(items);
  }

  lemma KeepStep(cs: seq<Option<string>>, i: nat)
    requires i < |cs|
    ensures Keep(cs[..i + 1]) ==
      if cs[i].None? || cs[i].value in Keep(cs[..i]) then Keep(cs[..i]) else Keep(cs[..i]) + [cs[i].value]
  {
    assert cs[..i + 1][..i] == cs[..i];
  }

  /** The de-duplicated list holds distinct, stripped, non-empty texts: exactly those some item cleans to. */
  lemma DedupedFacts(items: seq<Value>)
    ensures Distinct(Deduped(items))
    ensures forall k :: 0 <= k < |Deduped(items)| ==> Deduped(items)[k] != [] && IsStripped(Deduped(items)[k])
    ensures forall x :: x in Deduped(items) <==> exists i :: 0 <= i < |items| && Cleaned(items[i]) == Some(x)
  {
    DedupedDistinct(items);
    DedupedClean(items);
    DedupedMembership(items);
  }

  lemma {:induction false} KeepDistinct(cs: seq<Option<string>>)
    ensures Distinct(Keep(cs))
  {
    if cs != [] {
      KeepDistinct(cs[..|cs| - 1]);
    }
  }

  lemma DedupedDistinct(items: seq<Value>)
    ensures Distinct(Deduped(items))
  {
    KeepDistinct(Cleans(items));
  }

  lemma {:induction false} KeepClean(cs: seq<Option<string>>)
    requires forall i :: 0 <= i < |cs| && cs[i].Some? ==> cs[i].value != [] && IsStripped(cs[i].value)
    ensures forall k :: 0 <= k < |Keep(cs)| ==> Keep(cs)[k] != [] && IsStripped(Keep(cs)[k])
  {
    if cs != [] {
      KeepClean(cs[..|cs| - 1]);
    }
  }

  lemma DedupedClean(items: seq<Value>)
    ensures forall k :: 0 <= k < |Deduped(items)| ==> Deduped(items)[k] != [] && IsStripped(Deduped(items)[k])
  {
    KeepClean(Cleans(items));
  }

  /** A text is kept exactly when some item cleans to it: blanks and None are dropped, nothing else is. */
  lemma DedupedMembership(items: seq<Value>)
    ensures forall x :: x in Deduped(items) <==> exists i :: 0 <= i < |items| && Cleaned(items[i]) == Some(x)
  {
    var cs := Cleans(items);
    forall x
      ensures x in Deduped(items) <==> exists i :: 0 <= i < |items| && Cleaned(items[i]) == Some(x)
    {
      if x in Keep(cs) {
        KeepHasSource(cs, x);
        var i :| 0 <= i < |cs| && cs[i] == Some(x);
        assert Cleaned(items[i]) == Some(x);
      }
      if exists i :: 0 <= i < |items| && Cleaned(items[i]) == Some(x) {
        var i :| 0 <= i < |items| && Cleaned(items[i]) == Some(x);
        KeepKeeps(cs, i, x);
      }
    }
  }

  lemma {:induction false} KeepHasSource(cs: seq<Option<string>>, x: string)
    requires x in Keep(cs)
    ensures exists i :: 0 <= i < |cs| && cs[i] == Some(x)
  {
    var init := cs[..|cs| - 1];
    if cs[|cs| - 1] != Some(x) {
      assert x in Keep(init);
      KeepHasSource(init, x);
      var i :| 0 <= i < |init| && init[i] == Some(x);
      assert cs[i] == init[i];
    }
  }

  lemma {:induction false} KeepKeeps(cs: seq<Option<string>>, i: nat, x: string)
    requires i < |cs| && cs[i] == Some(x)
    ensures x in Keep(cs)
  {
    var init := cs[..|cs| - 1];
    if i < |init| {
      assert init[i] == cs[i];
      KeepKeeps(init, i, x);
    }
  }

  /**
   * An independent reading of the same loop, front to back: keep an offered text when
   * it has not been seen yet.
   */
  function FirstOccurrences(cs: seq<Option<string>>, seen: seq<string>): seq<string>
  {
    if cs == [] then []
    else
      var c := cs[0];
      if c.None? || c.value in seen then FirstOccurrences(cs[1..], seen)
      else [c.value] + FirstOccurrences(cs[1..], seen + [c.value])
  }

  lemma {:induction false} KeepSplit(p: seq<Option<string>>, q: seq<Option<string>>)
    ensures Keep(p + q) == Keep(p) + FirstOccurrences(q, Keep(p))
    decreases |q|
  {
    if q == [] {
      assert p + q == p;
    } else {
      var p' := p + [q[0]];
      assert p + q == p' + q[1..];
      assert p'[..|p'| - 1] == p;
      KeepSplit(p', q[1..]);
    }
  }

  /** The list keeps the first occurrence of every text, in input order. */
  lemma DedupedIsFirstOccurrences(items: seq<Value>)
    ensures Deduped(items) == FirstOccurrences(Cleans(items), [])
  {
    KeepSplit([], Cleans(items));
    assert [] + Cleans(items) == Cleans(items);
  }

  function AsValues(words: seq<string>): (vs: seq<Value>)
    ensures |vs| == |words| && forall k :: 0 <= k < |words| ==> vs[k] == Str(words[k])
  {
    seq(|words|, k requires 0 <= k < |words| => Str(words[k]))
  }

  /** A list of distinct, stripped, non-empty words is its own de-duplication. */
  lemma DedupedOfClean(words: seq<string>)
    requires Distinct(words)
    requires forall k :: 0 <= k < |words| ==> words[k] != [] && IsStripped(words[k])
    ensures Deduped(AsValues(words)) == words
  {
    var cs := Cleans(AsValues(words));
    forall k | 0 <= k < |words|
      ensures cs[k] == Some(words[k])
    {
      CleanedOfClean(words[k]);
    }
    KeepAllNew(cs, words);
  }

  lemma {:induction false} KeepAllNew(cs: seq<Option<string>>, words: seq<string>)
    requires Distinct(words)
    requires |cs| == |words| && forall k :: 0 <= k < |words| ==> cs[k] == Some(words[k])
    ensures Keep(cs) == words
  {
    if words != [] {
      var n := |words| - 1;
      assert Distinct(words[..n]);
      KeepAllNew(cs[..n], words[..n]);
      assert words[n] !in words[..n];
      assert words[..n] + [words[n]] == words;
    }
  }

  lemma CleanedOfClean(w: string)
    requires w != [] && IsStripped(w)
    ensures Cleaned(Str(w)) == Some(w)
  {
    StrippedIsFixpoint(w);
  }

  /** Running `dedupe_preserve_order` on its own output changes nothing. */
  lemma DedupedIdempotent(items: seq<Value>)
    ensures Deduped(AsValues(Deduped(items))) == Deduped(items)
  {
    DedupedDistinct(items);
    DedupedClean(items);
    DedupedOfClean(Deduped(items));
  }

  // ---------------------------------------------------------------------------
  // format_markdown_table
  // ---------------------------------------------------------------------------

  const TableHeader: string := "| Type | Words |\n| --- | --- |\n"

  /** `data.get(key, [])`. */
  function WordsOf(data: map<string, seq<string>>, key: string): seq<string> {
    if key in data then data[key] else []
  }

  function JoinWords(words: seq<string>): string {
    if words == [] then "-" else Join(", ", words)
  }

  function TableRow(key: string, words: seq<string>): string {
    "| " + key + " | " + JoinWords(words) + " |"
  }

  /** One table row per key, in the keys' order. */
  function TableRows(data: map<string, seq<string>>, keys: seq<string>): (rows: seq<string>)
    ensures |rows| == |keys| && forall i :: 0 <= i < |keys| ==> rows[i] == TableRow(keys[i], WordsOf(data, keys[i]))
  {
    seq(|keys|, i requires 0 <= i < |keys| => TableRow(keys[i], WordsOf(data, keys[i])))
  }

  function FormatMarkdownTable(data: map<string, seq<string>>): string {
    TableHeader + Join("\n", TableRows(data, LexicalCategories))
  }

  lemma {:induction false} JoinAvoids(sep: string, parts: seq<string>, c: char)
    requires c !in sep
    requires forall k :: 0 <= k < |parts| ==> c !in parts[k]
    ensures c !in Join(sep, parts)
  {
    if |parts| > 1 {
      JoinAvoids(sep, parts[1..], c);
    }
  }

  /** A header of two lines followed by line-free rows splits back into those lines. */
  lemma {:induction false} HeaderThenRows(rows: seq<string>)
    requires rows != []
    requires forall i :: 0 <= i < |rows| ==> '\n' !in rows[i]
    ensures SplitOn(TableHeader + Join("\n", rows), '\n') == ["| Type | Words |", "| --- | --- |"] + rows
  {
    var body := Join("\n", rows);
    SplitJoin(rows, '\n');
    HeaderLines();
    TwoLinesThen("| Type | Words |", "| --- | --- |", body);
  }

  /** The header is its two lines, each ended by a line break. */
  lemma HeaderLines()
    ensures TableHeader == "| Type | Words |" + ['\n'] + "| --- | --- |" + ['\n']
    ensures '\n' !in "| Type | Words |" && '\n' !in "| --- | --- |"
  {
  }

  lemma TwoLinesThen(a: string, b: string, body: string)
    requires '\n' !in a && '\n' !in b
    ensures SplitOn(a + ['\n'] + b + ['\n'] + body, '\n') == [a, b] + SplitOn(body, '\n')
  {
    assert a + ['\n'] + b + ['\n'] + body == a + ['\n'] + (b + ['\n'] + body);
    SplitOnFirstSeparator(a, '\n', b + ['\n'] + body);
    SplitOnFirstSeparator(b, '\n', body);
  }

  /** A cell never holds a line break when no word does. */
  lemma RowAvoidsNewline(key: string, words: seq<string>)
    requires '\n' !in key
    requires forall k :: 0 <= k < |words| ==> '\n' !in words[k]
    ensures '\n' !in TableRow(key, words)
  {
    JoinAvoids(", ", words, '\n');
  }

  /**
   * When no word holds a line break, the table's lines are the two header lines and
   * then one line per category in the fixed order, whose cell is the words joined by
   * ", ", or "-" when the category is missing or empty.
   */
  lemma MarkdownTableLines(data: map<string, seq<string>>)
    requires forall key, k :: key in data && 0 <= k < |data[key]| ==> '\n' !in data[key][k]
    ensures var lines := SplitOn(FormatMarkdownTable(data), '\n');
      |lines| == 2 + |LexicalCategories|
      && lines[0] == "| Type | Words |" && lines[1] == "| --- | --- |"
      && forall i :: 0 <= i < |LexicalCategories| ==>
           lines[2 + i] == "| " + LexicalCategories[i] + " | "
                           + (if LexicalCategories[i] !in data || data[LexicalCategories[i]] == [] then "-"
                              else Join(", ", data[LexicalCategories[i]]))
                           + " |"
  {
    CategoriesOneLine();
    TableLinesFor(data, LexicalCategories);
  }

  /** No category name holds a line break. */
  lemma CategoriesOneLine()
    ensures forall i :: 0 <= i < |LexicalCategories| ==> '\n' !in LexicalCategories[i]
  {
    CategoriesOneLineFrom(0, 4);
    CategoriesOneLineFrom(4, 8);
    CategoriesOneLineFrom(8, 12);
    CategoriesOneLineFrom(12, 16);
  }

  lemma CategoriesOneLineFrom(lo: nat, hi: nat)
    requires lo <= hi <= 16 && hi - lo <= 4
    ensures forall i :: lo <= i < hi ==> '\n' !in LexicalCategories[i]
  {
  }

  /** The table's lines for any non-empty keys without line breaks: the header lines, then one row per key. */
  lemma TableLinesFor(data: map<string, seq<string>>, keys: seq<string>)
    requires keys != []
    requires forall i :: 0 <= i < |keys| ==> '\n' !in keys[i]
    requires forall key, k :: key in data && 0 <= k < |data[key]| ==> '\n' !in data[key][k]
    ensures var lines := SplitOn(TableHeader + Join("\n", TableRows(data, keys)), '\n');
      |lines| == 2 + |keys|
      && lines[0] == "| Type | Words |" && lines[1] == "| --- | --- |"
      && forall i :: 0 <= i < |keys| ==>
           lines[2 + i] == "| " + keys[i] + " | "
                           + (if keys[i] !in data || data[keys[i]] == [] then "-" else Join(", ", data[keys[i]]))
                           + " |"
  {
    var rows := TableRows(data, keys);
    forall i | 0 <= i < |rows|
      ensures '\n' !in rows[i]
    {
      RowAvoidsNewline(keys[i], WordsOf(data, keys[i]));
    }
    HeaderThenRows(rows);
  }
}

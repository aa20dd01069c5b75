/**
 * The query-side helpers of the SQLite store: splitting a lemma list into chunks for
 * `IN (...)` lookups, the LIMIT/OFFSET window, the `LIKE '%text%'` fallback search,
 * and the builder of the FTS5 prefix query, together with the part of the FTS5
 * query lexer that decides whether a query string is accepted at all.
 */
module SqliteQueries {
  import opened Wrappers
  import opened Text

  // ---------------------------------------------------------------------------
  // _chunked
  // ---------------------------------------------------------------------------

  /** Concatenation of a list of chunks. */
  function Flatten<T>(chunks: seq<seq<T>>): seq<T> {
    if chunks == [] then [] else chunks[0] + Flatten(chunks[1..])
  }

  /**
   * `[values[i:i + size] for i in range(0, len(values), size)]`. A step of zero makes
   * `range` raise, so that case is `None`; a negative step gives an empty range.
   */
  function Chunked<T>(values: seq<T>, size: int): Option<seq<seq<T>>> {
    if size == 0 then None
    else if size < 0 then Some([])
    else Some(ChunksOf(values, size))
  }

  function ChunksOf<T>(values: seq<T>, size: nat): (chunks: seq<seq<T>>)
    requires size > 0
    decreases |values|
  {
    if values == [] then []
    else if |values| <= size then [values]
    else [values[..size]] + ChunksOf(values[size..], size)
  }

  /** With a positive size the chunks give the values back, in order. */
  lemma {:induction false} ChunksOfFlatten<T>(values: seq<T>, size: nat)
    requires size > 0
    ensures Flatten(ChunksOf(values, size)) == values
    decreases |values|
  {
    if |values| > size {
      ChunksOfFlatten(values[size..], size);
      assert values[..size] + values[size..] == values;
    } else if values != [] {
      assert values + [] == values;
    }
  }

  /** Every chunk holds between one and `size` values, and all but the last hold exactly `size`. */
  lemma {:induction false} ChunksOfSizes<T>(values: seq<T>, size: nat)
    requires size > 0
    ensures forall k :: 0 <= k < |ChunksOf(values, size)| ==> 1 <= |ChunksOf(values, size)[k]| <= size
    ensures forall k :: 0 <= k < |ChunksOf(values, size)| - 1 ==> |ChunksOf(values, size)[k]| == size
    decreases |values|
  {
    if |values| > size {
      ChunksOfSizes(values[size..], size);
      var rest := ChunksOf(values[size..], size);
      var chunks := ChunksOf(values, size);
      assert chunks == [values[..size]] + rest;
      forall k | 1 <= k < |chunks|
        ensures 1 <= |chunks[k]| <= size && (k < |chunks| - 1 ==> |chunks[k]| == size)
      {
        assert chunks[k] == rest[k - 1];
      }
    }
  }

  /** A value is in the concatenation exactly when it is in one of the chunks. */
  lemma {:induction false} FlattenHas<T>(chunks: seq<seq<T>>, x: T)
    ensures x in Flatten(chunks) <==> exists j :: 0 <= j < |chunks| && x in chunks[j]
  {
    if chunks != [] {
      FlattenHas(chunks[1..], x);
      if x in Flatten(chunks[1..]) {
        var j :| 0 <= j < |chunks| - 1 && x in chunks[1..][j];
        assert x in chunks[j + 1];
      }
      if exists j :: 0 <= j < |chunks| && x in chunks[j] {
        var j :| 0 <= j < |chunks| && x in chunks[j];
        if j > 0 {
          assert chunks[1..][j - 1] == chunks[j];
        }
      }
    }
  }

  /** The store only ever chunks by 900, so every lemma list is looked up whole. */
  lemma ChunkedBy900<T>(values: seq<T>)
    ensures Chunked(values, 900).Some? && Flatten(Chunked(values, 900).value) == values
  {
    ChunksOfFlatten(values, 900);
  }

  // ---------------------------------------------------------------------------
  // LIMIT ? OFFSET ?
  // ---------------------------------------------------------------------------

  /**
   * The rows SQLite returns for `LIMIT limit OFFSET offset` (or `LIMIT -1 OFFSET
   * offset` when no limit is given): a negative offset counts as zero and a negative
   * limit means no limit.
   */
  function Page<T>(rows: seq<T>, limit: Option<int>, offset: int): (r: seq<T>)
    ensures |r| <= |rows|
  {
    var start := if offset <= 0 then 0 else if offset >= |rows| then |rows| else offset;
    var rest := rows[start..];
    match limit
    case Some(n) => if 0 <= n < |rest| then rest[..n] else rest
    case None => rest
  }

  /** With a limit, the page is the slice `[offset, offset + limit)` of the full listing. */
  lemma PageSlice<T>(rows: seq<T>, limit: nat, offset: nat)
    ensures var end := if offset + limit <= |rows| then offset + limit else |rows|;
      Page(rows, Some(limit), offset) == (if offset <= |rows| then rows[offset..end] else [])
  {
  }

  /** Without a limit, the offset alone skips rows; with neither, every row comes back. */
  lemma PageSkip<T>(rows: seq<T>, offset: nat)
    ensures Page(rows, None, offset) == (if offset <= |rows| then rows[offset..] else [])
    ensures Page(rows, None, 0) == rows
  {
  }

  /** Consecutive pages of the same size tile the listing. */
  lemma PagesTile<T>(rows: seq<T>, limit: nat, offset: nat)
    ensures Page(rows, Some(limit), offset) + Page(rows, None, offset + limit) == Page(rows, None, offset)
  {
    if offset <= |rows| && offset + limit <= |rows| {
      assert rows[offset..offset + limit] + rows[offset + limit..] == rows[offset..];
    }
  }

  // ---------------------------------------------------------------------------
  // LIKE '%text%'
  // ---------------------------------------------------------------------------

  /**
   * SQLite's LIKE without ESCAPE: `%` matches any run of characters, `_` any one
   * character, and letters match regardless of ASCII case.
   */
  predicate Like(t: string, p: string)
    decreases |p|, |t|
  {
    if p == [] then t == []
    else if p[0] == '%' then Like(t, p[1..]) || (t != [] && Like(t[1..], p))
    else t != [] && (p[0] == '_' || AsciiLowerChar(t[0]) == AsciiLowerChar(p[0])) && Like(t[1..], p[1..])
  }

  predicate NoWildcards(s: string) {
    '%' !in s && '_' !in s
  }

  /** A pattern without wildcards matches a text exactly when they agree up to ASCII case. */
  lemma {:induction false} LikeLiteral(t: string, n: string)
    requires NoWildcards(n)
    ensures Like(t, n) <==> AsciiLower(t) == AsciiLower(n)
  {
    if n != [] && t != [] {
      LikeLiteral(t[1..], n[1..]);
      assert AsciiLower(t) == [AsciiLowerChar(t[0])] + AsciiLower(t[1..]);
      assert AsciiLower(n) == [AsciiLowerChar(n[0])] + AsciiLower(n[1..]);
    } else if n != [] {
      assert |AsciiLower(n)| != |AsciiLower(t)|;
    } else if t != [] {
      assert |AsciiLower(n)| != |AsciiLower(t)|;
    }
  }

  /** `p` followed by `%` matches exactly the texts that start with something `p` matches. */
  lemma {:induction false} LikeTrailingAny(t: string, n: string)
    requires NoWildcards(n)
    ensures Like(t, n + "%") <==> exists j :: 0 <= j <= |t| && Like(t[..j], n)
    decreases |n|, |t|
  {
    if n == [] {
      assert [] + "%" == "%";
      LikeAnyTail(t);
      assert Like(t[..0], n);
    } else {
      assert (n + "%")[1..] == n[1..] + "%";
      if t != [] {
        LikeTrailingAny(t[1..], n[1..]);
        if Like(t, n + "%") {
          var j :| 0 <= j <= |t[1..]| && Like(t[1..][..j], n[1..]);
          assert t[..j + 1][1..] == t[1..][..j];
        }
        if exists j :: 0 <= j <= |t| && Like(t[..j], n) {
          var j :| 0 <= j <= |t| && Like(t[..j], n);
          assert j > 0;
          assert t[..j][1..] == t[1..][..j - 1];
        }
      }
    }
  }

  /** `%` alone matches every text. */
  lemma {:induction false} LikeAnyTail(t: string)
    ensures Like(t, "%")
    decreases |t|
  {
    if t != [] {
      LikeAnyTail(t[1..]);
    }
  }

  /** `%` then `p` matches exactly the texts some suffix of which `p` matches. */
  lemma {:induction false} LikeLeadingAny(t: string, p: string)
    ensures Like(t, "%" + p) <==> exists i :: 0 <= i <= |t| && Like(t[i..], p)
    decreases |t|
  {
    assert ("%" + p)[1..] == p;
    assert t[0..] == t;
    if t != [] {
      LikeLeadingAny(t[1..], p);
      if exists i :: 0 <= i <= |t| && Like(t[i..], p) {
        var i :| 0 <= i <= |t| && Like(t[i..], p);
        if i > 0 {
          assert t[1..][i - 1..] == t[i..];
        }
      }
      if exists i :: 0 <= i <= |t[1..]| && Like(t[1..][i..], p) {
        var i :| 0 <= i <= |t[1..]| && Like(t[1..][i..], p);
        assert t[i + 1..] == t[1..][i..];
      }
    }
  }

  /**
   * The fallback search `LIKE '%text%'`: for a search text without `%` or `_` it
   * holds exactly when the text occurs in the column, ignoring ASCII case.
   */
  lemma LikeContains(t: string, n: string)
    requires NoWildcards(n)
    ensures Like(t, "%" + n + "%") <==> Contains(AsciiLower(t), AsciiLower(n))
  {
    assert "%" + n + "%" == "%" + (n + "%");
    LikeLeadingAny(t, n + "%");
    if Like(t, "%" + n + "%") {
      var i :| 0 <= i <= |t| && Like(t[i..], n + "%");
      LikeFoundAt(t, n, i);
    }
    if Contains(AsciiLower(t), AsciiLower(n)) {
      var i :| 0 <= i <= |AsciiLower(t)| && AsciiLower(n) <= AsciiLower(t)[i..];
      LikeMatchesAt(t, n, i);
    }
  }

  lemma LikeFoundAt(t: string, n: string, i: nat)
    requires NoWildcards(n)
    requires i <= |t| && Like(t[i..], n + "%")
    ensures Contains(AsciiLower(t), AsciiLower(n))
  {
    LikeTrailingAny(t[i..], n);
    var j :| 0 <= j <= |t[i..]| && Like(t[i..][..j], n);
    LikeLiteral(t[i..][..j], n);
    assert AsciiLower(n) <= AsciiLower(t)[i..];
  }

  lemma LikeMatchesAt(t: string, n: string, i: nat)
    requires NoWildcards(n)
    requires i <= |t| && AsciiLower(n) <= AsciiLower(t)[i..]
    ensures Like(t[i..], n + "%")
  {
    assert AsciiLower(t[i..][..|n|]) == AsciiLower(n);
    LikeLiteral(t[i..][..|n|], n);
    LikeTrailingAny(t[i..], n);
  }

  // ---------------------------------------------------------------------------
  // _build_fts_query
  // ---------------------------------------------------------------------------

  /** Shortest token the prefix query accepts. */
  const MinTokenLength := 2

  /** A character of the pattern `[\w']`, given the regular expression engine's `\w`. */
  predicate TokenChar(word: char -> bool, c: char) {
    word(c) || c == '\''
  }

  /** Length of the leading run of token characters. */
  function RunLength(word: char -> bool, s: string): (n: nat)
    ensures n <= |s|
    ensures forall i :: 0 <= i < n ==> TokenChar(word, s[i])
    ensures n == |s| || !TokenChar(word, s[n])
  {
    if s != [] && TokenChar(word, s[0]) then 1 + RunLength(word, s[1..]) else 0
  }

  /** `re.findall(r"[\w']+", s)`: the maximal runs of token characters, left to right. */
  function FtsTokens(word: char -> bool, s: string): (tokens: seq<string>)
    ensures forall k :: 0 <= k < |tokens| ==> tokens[k] != []
    ensures forall k, i :: 0 <= k < |tokens| && 0 <= i < |tokens[k]| ==> TokenChar(word, tokens[k][i])
    decreases |s|
  {
    if s == [] then []
    else if !TokenChar(word, s[0]) then FtsTokens(word, s[1..])
    else
      var n := RunLength(word, s);
      [s[..n]] + FtsTokens(word, s[n..])
  }

  /** Each token followed by `*`, joined by " AND ". */
  function PrefixTerms(tokens: seq<string>): seq<string> {
    seq(|tokens|, k requires 0 <= k < |tokens| => tokens[k] + "*")
  }

  predicate AllLongEnough(tokens: seq<string>) {
    forall k :: 0 <= k < |tokens| ==> |tokens[k]| >= MinTokenLength
  }

  /**
   * `_build_fts_query` as written: no query when there is no token or some token is
   * shorter than two characters; otherwise every token as a bare prefix term.
   */
  function BuildFtsQuery(word: char -> bool, search: string): Option<string> {
    var tokens := FtsTokens(word, search);
    if tokens == [] || !AllLongEnough(tokens) then None
    else Some(Join(" AND ", PrefixTerms(tokens)))
  }

  lemma BuildFtsQueryNone(word: char -> bool, search: string)
    ensures BuildFtsQuery(word, search).None? <==>
      FtsTokens(word, search) == []
      || exists k :: 0 <= k < |FtsTokens(word, search)| && |FtsTokens(word, search)[k]| < MinTokenLength
  {
  }

  /** Reads the tokens back out of a query of prefix terms joined by " AND ". */
  function QueryTokens(parts: seq<string>): seq<string>
    decreases |parts|
  {
    if parts == [] then []
    else
      var t := parts[0];
      var tok := if t != [] && t[|t| - 1] == '*' then t[..|t| - 1] else t;
      [tok] + (if |parts| >= 2 then QueryTokens(parts[2..]) else [])
  }

  /** Splitting " AND "-joined terms on spaces alternates term and keyword. */
  lemma {:induction false} SplitAndJoin(terms: seq<string>)
    requires terms != []
    requires forall k :: 0 <= k < |terms| ==> ' ' !in terms[k]
    ensures |SplitOn(Join(" AND ", terms), ' ')| == 2 * |terms| - 1
    ensures forall k :: 0 <= k < |terms| ==> SplitOn(Join(" AND ", terms), ' ')[2 * k] == terms[k]
    ensures forall k :: 0 <= k < |terms| - 1 ==> SplitOn(Join(" AND ", terms), ' ')[2 * k + 1] == "AND"
  {
    if |terms| == 1 {
      SplitOnNoSeparator(terms[0], ' ');
    } else {
      var rest := Join(" AND ", terms[1..]);
      SplitAndJoin(terms[1..]);
      var tail := SplitOn(rest, ' ');
      SplitAndStep(terms[0], rest);
      var parts := SplitOn(Join(" AND ", terms), ' ');
      assert parts == [terms[0], "AND"] + tail;
      forall k | 1 <= k < |terms|
        ensures parts[2 * k] == terms[k] && (k < |terms| - 1 ==> parts[2 * k + 1] == "AND")
      {
        assert parts[2 * k] == tail[2 * (k - 1)];
        assert terms[k] == terms[1..][k - 1];
        if k < |terms| - 1 {
          assert parts[2 * k + 1] == tail[2 * (k - 1) + 1];
        }
      }
    }
  }

  lemma SplitAndStep(first: string, rest: string)
    requires ' ' !in first
    ensures SplitOn(first + " AND " + rest, ' ') == [first, "AND"] + SplitOn(rest, ' ')
  {
    var mid := "AND" + [' '] + rest;
    assert first + " AND " + rest == first + [' '] + mid;
    SplitOnFirstSeparator(first, ' ', mid);
    SplitKeyword(rest);
  }

  lemma SplitKeyword(rest: string)
    ensures SplitOn("AND" + [' '] + rest, ' ') == ["AND"] + SplitOn(rest, ' ')
  {
    SplitOnFirstSeparator("AND", ' ', rest);
  }

  lemma {:induction false} QueryTokensOfParts(tokens: seq<string>, parts: seq<string>)
    requires tokens != [] && |parts| == 2 * |tokens| - 1
    requires forall k :: 0 <= k < |tokens| ==> parts[2 * k] == tokens[k] + "*"
    ensures QueryTokens(parts) == tokens
    decreases |tokens|
  {
    assert (tokens[0] + "*")[..|tokens[0]|] == tokens[0];
    if |tokens| > 1 {
      QueryTokensOfParts(tokens[1..], parts[2..]);
    }
  }

  /**
   * A built query gives its tokens back: split on spaces, every other part is a token
   * with its `*`, and the parts between are the keyword AND.
   */
  lemma BuildFtsQueryRoundTrip(word: char -> bool, search: string)
    requires !word(' ')
    requires BuildFtsQuery(word, search).Some?
    ensures QueryTokens(SplitOn(BuildFtsQuery(word, search).value, ' ')) == FtsTokens(word, search)
  {
    var tokens := FtsTokens(word, search);
    var terms := PrefixTerms(tokens);
    forall k | 0 <= k < |terms|
      ensures ' ' !in terms[k]
    {
      assert forall i :: 0 <= i < |tokens[k]| ==> TokenChar(word, tokens[k][i]);
    }
    SplitAndJoin(terms);
    QueryTokensOfParts(tokens, SplitOn(Join(" AND ", terms), ' '));
  }

  // --- what the FTS5 query lexer accepts ---------------------------------------

  /** Characters FTS5 accepts in a bareword. */
  predicate BarewordChar(c: char) {
    c as int >= 128 || ('0' <= c <= '9') || ('A' <= c <= 'Z') || ('a' <= c <= 'z') || c == '_' || c == '\U{1a}'
  }

  /** Whitespace and the one-character operators FTS5's lexer knows outside a string. */
  predicate OperatorChar(c: char) {
    c == ' ' || c == '\t' || c == '\n' || c == '\r' || c == '\U{0b}' || c == '\U{0c}'
    || c == '(' || c == ')' || c == '{' || c == '}' || c == ':' || c == ',' || c == '+'
    || c == '*' || c == '-' || c == '^'
  }

  /**
   * FTS5's lexer accepts the query: outside double-quoted strings every character is
   * a bareword character or an operator, and every string is closed (a doubled quote
   * inside a string stands for one quote). Any other character is a syntax error.
   */
  predicate Lexable(q: string)
    decreases |q|, 1
  {
    if q == [] then true
    else if q[0] == '"' then LexableString(q[1..])
    else (BarewordChar(q[0]) || OperatorChar(q[0])) && Lexable(q[1..])
  }

  predicate LexableString(q: string)
    decreases |q|, 0
  {
    if q == [] then false
    else if q[0] != '"' then LexableString(q[1..])
    else if |q| >= 2 && q[1] == '"' then LexableString(q[2..])
    else Lexable(q[1..])
  }

  lemma {:induction false} LexablePlain(a: string)
    requires forall i :: 0 <= i < |a| ==> BarewordChar(a[i]) || OperatorChar(a[i])
    ensures Lexable(a)
  {
    if a != [] {
      LexablePlain(a[1..]);
    }
  }

  /**
   * When the search holds no apostrophe and the engine's word characters are all
   * FTS5 bareword characters, the built query lexes (it may still fail to parse:
   * see `KeywordSearchRejected`).
   */
  lemma BuildFtsQueryLexable(word: char -> bool, search: string)
    requires forall c :: word(c) ==> BarewordChar(c)
    requires '\'' !in search
    requires BuildFtsQuery(word, search).Some?
    ensures Lexable(BuildFtsQuery(word, search).value)
  {
    var tokens := FtsTokens(word, search);
    TokensAvoid(word, search, '\'');
    var terms := PrefixTerms(tokens);
    forall k | 0 <= k < |terms|
      ensures Lexable(terms[k]) && '"' !in terms[k]
    {
      assert forall i :: 0 <= i < |tokens[k]| ==> TokenChar(word, tokens[k][i]);
      LexablePlain(terms[k]);
    }
    LexableJoin(terms);
  }

  /** A character absent from the search is absent from every token. */
  lemma {:induction false} TokensAvoid(word: char -> bool, s: string, c: char)
    requires c !in s
    ensures forall k :: 0 <= k < |FtsTokens(word, s)| ==> c !in FtsTokens(word, s)[k]
    decreases |s|
  {
    if s != [] {
      if !TokenChar(word, s[0]) {
        TokensAvoid(word, s[1..], c);
      } else {
        var n := RunLength(word, s);
        assert c !in s[n..];
        TokensAvoid(word, s[n..], c);
        assert c !in s[..n];
      }
    }
  }

  /**
   * The apostrophe belongs to the token pattern but not to FTS5's barewords: searching
   * "don't" builds the query `don't*`, which FTS5 refuses as a syntax error.
   */
  lemma ApostropheQueryRejected(word: char -> bool)
    requires word('d') && word('o') && word('n') && word('t')
    ensures BuildFtsQuery(word, "don't") == Some("don't*")
    ensures !Lexable("don't*")
  {
    var s := "don't";
    assert RunLength(word, s[5..]) == 0;
    assert RunLength(word, s[4..]) == 1;
    assert RunLength(word, s[3..]) == 2;
    assert RunLength(word, s[2..]) == 3;
    assert RunLength(word, s[1..]) == 4;
    assert RunLength(word, s) == 5;
    assert s[..5] == s && s[5..] == [];
    assert FtsTokens(word, s) == [s];
    assert s + "*" == "don't*";
    assert PrefixTerms([s])[0] == "don't*";
    assert PrefixTerms([s]) == ["don't*"];
    assert !Lexable("'t*");
    assert !Lexable("n't*");
    assert !Lexable("on't*");
  }

  // --- what the FTS5 query parser accepts --------------------------------------

  /** An upper-case FTS5 operator keyword. */
  predicate IsKeyword(t: string) {
    t == "AND" || t == "OR" || t == "NOT"
  }

  /** A token FTS5 takes as a plain word: no apostrophe, and not an upper-case keyword. */
  predicate PlainToken(t: string) {
    '\'' !in t && !IsKeyword(t)
  }

  /** A keyword marked as a prefix: `AND*`, `OR*` or `NOT*`. */
  predicate StarredKeyword(p: string) {
    p == "AND*" || p == "OR*" || p == "NOT*"
  }

  /**
   * FTS5 parses a query of terms joined by " AND ": it lexes, and no space-separated
   * part is a keyword marked as a prefix, since `*` may only follow a word or a
   * string. For the queries built here, these are the two ways to fail.
   */
  predicate FtsParses(q: string) {
    var parts := SplitOn(q, ' ');
    Lexable(q) && forall i :: 0 <= i < |parts| ==> !StarredKeyword(parts[i])
  }

  lemma StarredOf(t: string)
    ensures StarredKeyword(t + "*") <==> IsKeyword(t)
  {
    if StarredKeyword(t + "*") {
      assert t == (t + "*")[..|t|];
    }
  }

  /** Outside strings, lexing accepts a text exactly when each character is a bareword or operator character. */
  lemma {:induction false} LexableUnquoted(q: string)
    requires '"' !in q
    ensures Lexable(q) <==> forall i :: 0 <= i < |q| ==> BarewordChar(q[i]) || OperatorChar(q[i])
  {
    if q != [] {
      LexableUnquoted(q[1..]);
      assert forall i :: 1 <= i < |q| ==> q[i] == q[1..][i - 1];
    }
  }

  /** Every character of a joined part is a character of the join. */
  lemma {:induction false} JoinHas(sep: string, parts: seq<string>, k: nat, c: char)
    requires k < |parts| && c in parts[k]
    ensures c in Join(sep, parts)
    decreases |parts|
  {
    if k > 0 {
      JoinHas(sep, parts[1..], k - 1, c);
    }
  }

  /** No part of " AND "-joined terms is a starred keyword when no term is one. */
  lemma PartsOfJoin(terms: seq<string>)
    requires terms != []
    requires forall k :: 0 <= k < |terms| ==> ' ' !in terms[k] && !StarredKeyword(terms[k])
    ensures var parts := SplitOn(Join(" AND ", terms), ' ');
      forall i :: 0 <= i < |parts| ==> !StarredKeyword(parts[i])
  {
    SplitAndJoin(terms);
    var parts := SplitOn(Join(" AND ", terms), ' ');
    forall i | 0 <= i < |parts|
      ensures !StarredKeyword(parts[i])
    {
      var k := i / 2;
      if i % 2 == 0 {
        assert parts[i] == parts[2 * k] == terms[k];
      } else {
        assert parts[i] == parts[2 * k + 1] == "AND";
      }
    }
  }

  /** The prefix terms of tokens without spaces or quotes have none either. */
  lemma PrefixTermsShape(word: char -> bool, tokens: seq<string>)
    requires !word(' ') && !word('"')
    requires forall k, i :: 0 <= k < |tokens| && 0 <= i < |tokens[k]| ==> TokenChar(word, tokens[k][i])
    ensures forall k :: 0 <= k < |tokens| ==> ' ' !in PrefixTerms(tokens)[k] && '"' !in PrefixTerms(tokens)[k]
  {
    forall k | 0 <= k < |tokens|
      ensures ' ' !in tokens[k] && '"' !in tokens[k]
    {
      assert forall i :: 0 <= i < |tokens[k]| ==> TokenChar(word, tokens[k][i]);
    }
  }

  /** Tokens free of apostrophes and keywords give a query FTS5 parses. */
  lemma ParsesWithoutQuirks(word: char -> bool, search: string)
    requires forall c :: word(c) ==> BarewordChar(c)
    requires BuildFtsQuery(word, search).Some?
    requires forall k :: 0 <= k < |FtsTokens(word, search)| ==> PlainToken(FtsTokens(word, search)[k])
    ensures FtsParses(BuildFtsQuery(word, search).value)
  {
    var tokens := FtsTokens(word, search);
    var terms := PrefixTerms(tokens);
    assert !BarewordChar(' ') && !BarewordChar('"');
    PrefixTermsShape(word, tokens);
    forall k | 0 <= k < |terms|
      ensures Lexable(terms[k]) && !StarredKeyword(terms[k])
    {
      forall i | 0 <= i < |terms[k]|
        ensures BarewordChar(terms[k][i]) || OperatorChar(terms[k][i])
      {
        if i < |tokens[k]| {
          assert PlainToken(tokens[k]);
          assert terms[k][i] == tokens[k][i] && tokens[k][i] in tokens[k];
          assert TokenChar(word, tokens[k][i]);
        }
      }
      LexablePlain(terms[k]);
      StarredOf(tokens[k]);
    }
    LexableJoin(terms);
    PartsOfJoin(terms);
    assert BuildFtsQuery(word, search).value == Join(" AND ", terms);
  }

  /** A token holding an apostrophe makes the query fail to lex. */
  lemma ApostropheRefused(word: char -> bool, search: string, k: nat)
    requires forall c :: word(c) ==> BarewordChar(c)
    requires BuildFtsQuery(word, search).Some?
    requires k < |FtsTokens(word, search)| && '\'' in FtsTokens(word, search)[k]
    ensures !Lexable(BuildFtsQuery(word, search).value)
  {
    var tokens := FtsTokens(word, search);
    var terms := PrefixTerms(tokens);
    var q := Join(" AND ", terms);
    assert !BarewordChar(' ') && !BarewordChar('"');
    PrefixTermsShape(word, tokens);
    assert '\'' in terms[k];
    JoinHas(" AND ", terms, k, '\'');
    JoinNoQuote(terms);
    LexableUnquoted(q);
    var i :| 0 <= i < |q| && q[i] == '\'';
  }

  /** An upper-case keyword among the tokens makes the query fail to parse. */
  lemma KeywordRefused(word: char -> bool, search: string, k: nat)
    requires !word(' ') && !word('"')
    requires BuildFtsQuery(word, search).Some?
    requires k < |FtsTokens(word, search)| && IsKeyword(FtsTokens(word, search)[k])
    ensures !FtsParses(BuildFtsQuery(word, search).value)
  {
    var tokens := FtsTokens(word, search);
    var terms := PrefixTerms(tokens);
    PrefixTermsShape(word, tokens);
    SplitAndJoin(terms);
    StarredOf(tokens[k]);
    assert SplitOn(Join(" AND ", terms), ' ')[2 * k] == terms[k];
  }

  /**
   * With word characters that FTS5 counts as bareword characters, the query built from a
   * search parses exactly when no token holds an apostrophe and no token is an
   * upper-case keyword.
   */
  lemma BuildFtsQueryParses(word: char -> bool, search: string)
    requires forall c :: word(c) ==> BarewordChar(c)
    requires BuildFtsQuery(word, search).Some?
    ensures FtsParses(BuildFtsQuery(word, search).value) <==>
      forall k :: 0 <= k < |FtsTokens(word, search)| ==> PlainToken(FtsTokens(word, search)[k])
  {
    var tokens := FtsTokens(word, search);
    if forall k :: 0 <= k < |tokens| ==> PlainToken(tokens[k]) {
      ParsesWithoutQuirks(word, search);
    } else {
      var k :| 0 <= k < |tokens| && !PlainToken(tokens[k]);
      assert !BarewordChar(' ') && !BarewordChar('"');
      if '\'' in tokens[k] {
        ApostropheRefused(word, search, k);
      } else {
        KeywordRefused(word, search, k);
      }
    }
  }

  lemma {:induction false} JoinNoQuote(terms: seq<string>)
    requires forall k :: 0 <= k < |terms| ==> '"' !in terms[k]
    ensures '"' !in Join(" AND ", terms)
    decreases |terms|
  {
    if |terms| > 1 {
      JoinNoQuote(terms[1..]);
    }
  }

  /**
   * The upper-case keywords are tokens of the pattern too: any search "a AND c" of two
   * words of at least two characters (say "rock AND roll") builds `a* AND AND* AND c*`,
   * which FTS5 refuses since the keyword `AND` cannot take `*`.
   */
  lemma KeywordSearchRejected(word: char -> bool, a: string, c: string)
    requires !word(' ') && !word('"') && word('A') && word('N') && word('D')
    requires |a| >= 2 && forall i :: 0 <= i < |a| ==> word(a[i])
    requires |c| >= 2 && forall i :: 0 <= i < |c| ==> word(c[i])
    ensures FtsTokens(word, a + " AND " + c) == [a, "AND", c]
    ensures BuildFtsQuery(word, a + " AND " + c) == Some(a + "* AND AND* AND " + c + "*")
    ensures !FtsParses(BuildFtsQuery(word, a + " AND " + c).value)
  {
    KeywordTokens(word, a, c);
    KeywordQueryText(a, c);
    KeywordRefused(word, a + " AND " + c, 1);
  }

  lemma KeywordTokens(word: char -> bool, a: string, c: string)
    requires !word(' ') && word('A') && word('N') && word('D')
    requires a != [] && forall i :: 0 <= i < |a| ==> word(a[i])
    requires c != [] && forall i :: 0 <= i < |c| ==> word(c[i])
    ensures FtsTokens(word, a + " AND " + c) == [a, "AND", c]
  {
    var b := "AND";
    assert forall i :: 0 <= i < |b| ==> word(b[i]);
    SpacedTokens(word, a, b + " " + c);
    SpacedTokens(word, b, c);
    OneToken(word, c);
    assert a + " " + (b + " " + c) == a + " AND " + c;
  }

  lemma KeywordQueryText(a: string, c: string)
    ensures Join(" AND ", PrefixTerms([a, "AND", c])) == a + "* AND AND* AND " + c + "*"
  {
    var terms := PrefixTerms([a, "AND", c]);
    assert |terms| == 3 && terms[0] == a + "*" && terms[2] == c + "*";
    assert terms[1] == "AND" + "*" == "AND*";
    assert terms[1..][1..] == [c + "*"];
    assert Join(" AND ", terms[1..]) == "AND*" + " AND " + (c + "*");
  }

  /** A whole search that is one token. */
  lemma OneToken(word: char -> bool, c: string)
    requires c != [] && forall i :: 0 <= i < |c| ==> word(c[i])
    ensures FtsTokens(word, c) == [c]
  {
    TokenThen(word, c, "");
    assert c + "" == c;
    assert FtsTokens(word, "") == [];
  }

  /** A token followed by a space and the rest of the search. */
  lemma SpacedTokens(word: char -> bool, a: string, rest: string)
    requires !word(' ')
    requires a != [] && forall i :: 0 <= i < |a| ==> word(a[i])
    ensures FtsTokens(word, a + " " + rest) == [a] + FtsTokens(word, rest)
  {
    SpaceThen(word, rest);
    TokenThen(word, a, " " + rest);
    assert a + " " + rest == a + (" " + rest);
  }

  /** The run of token characters at the start of `t + x` is `t`, when `x` does not continue it. */
  lemma {:induction false} RunOf(word: char -> bool, t: string, x: string)
    requires forall i :: 0 <= i < |t| ==> TokenChar(word, t[i])
    requires x == [] || !TokenChar(word, x[0])
    ensures RunLength(word, t + x) == |t|
    decreases |t|
  {
    if t == [] {
      assert t + x == x;
    } else {
      assert (t + x)[1..] == t[1..] + x;
      RunOf(word, t[1..], x);
    }
  }

  /** A whole token followed by a non-token character. */
  lemma TokenThen(word: char -> bool, t: string, x: string)
    requires t != [] && forall i :: 0 <= i < |t| ==> word(t[i])
    requires x == [] || !TokenChar(word, x[0])
    ensures FtsTokens(word, t + x) == [t] + FtsTokens(word, x)
  {
    RunOf(word, t, x);
    assert (t + x)[..|t|] == t && (t + x)[|t|..] == x;
  }

  lemma SpaceThen(word: char -> bool, x: string)
    requires !word(' ')
    ensures FtsTokens(word, " " + x) == FtsTokens(word, x)
  {
    assert (" " + x)[1..] == x;
  }

  /** Each token quoted as an FTS5 string and marked as a prefix: `"tok"*`. */
  function QuotedTerms(tokens: seq<string>): seq<string> {
    seq(|tokens|, k requires 0 <= k < |tokens| => "\"" + tokens[k] + "\"*")
  }

  /**
   * The query builder with every token quoted: the same tokens and the same cases
   * without a query, but the apostrophe now sits inside a string.
   */
  function BuildFtsQueryQuoted(word: char -> bool, search: string): (q: Option<string>)
    ensures q.None? <==> BuildFtsQuery(word, search).None?
  {
    var tokens := FtsTokens(word, search);
    if tokens == [] || !AllLongEnough(tokens) then None
    else Some(Join(" AND ", QuotedTerms(tokens)))
  }

  /**
   * Whenever the engine's word characters exclude the double quote and the space, every
   * quoted query parses: apostrophes sit inside strings, and `"AND"*` is a string
   * marked as a prefix, not a keyword.
   */
  lemma BuildFtsQueryQuotedParses(word: char -> bool, search: string)
    requires !word('"') && !word(' ')
    requires BuildFtsQueryQuoted(word, search).Some?
    ensures FtsParses(BuildFtsQueryQuoted(word, search).value)
  {
    var tokens := FtsTokens(word, search);
    var terms := QuotedTerms(tokens);
    BuildFtsQueryQuotedLexable(word, search);
    forall k | 0 <= k < |terms|
      ensures ' ' !in terms[k] && !StarredKeyword(terms[k])
    {
      assert forall i :: 0 <= i < |tokens[k]| ==> TokenChar(word, tokens[k][i]);
      assert terms[k][0] == '"';
    }
    PartsOfJoin(terms);
    assert BuildFtsQueryQuoted(word, search).value == Join(" AND ", terms);
  }

  lemma {:induction false} LexableQuoted(tok: string)
    requires '"' !in tok
    ensures Lexable("\"" + tok + "\"*")
  {
    var q := "\"" + tok + "\"*";
    assert q[0] == '"' && q[1..] == tok + "\"" + "*";
    StringBody(tok, "*");
    LexablePlain("*");
  }

  lemma {:induction false} StringBody(body: string, rest: string)
    requires '"' !in body
    requires Lexable(rest)
    requires rest == [] || rest[0] != '"'
    ensures LexableString(body + "\"" + rest)
  {
    if body == [] {
      assert ([] + "\"" + rest)[1..] == rest;
    } else {
      StringBody(body[1..], rest);
      assert (body + "\"" + rest)[1..] == body[1..] + "\"" + rest;
    }
  }

  /** Whenever the engine's word characters exclude the double quote, every quoted query is accepted. */
  lemma BuildFtsQueryQuotedLexable(word: char -> bool, search: string)
    requires !word('"')
    requires BuildFtsQueryQuoted(word, search).Some?
    ensures Lexable(BuildFtsQueryQuoted(word, search).value)
  {
    var tokens := FtsTokens(word, search);
    var terms := QuotedTerms(tokens);
    forall k | 0 <= k < |terms|
      ensures Lexable(terms[k])
    {
      assert forall i :: 0 <= i < |tokens[k]| ==> TokenChar(word, tokens[k][i]);
      LexableQuoted(tokens[k]);
    }
    LexableJoin(terms);
  }

  /** Lexable terms joined by " AND " make a lexable query. */
  lemma {:induction false} LexableJoin(terms: seq<string>)
    requires forall k :: 0 <= k < |terms| ==> Lexable(terms[k])
    ensures Lexable(Join(" AND ", terms))
    decreases |terms|
  {
    if |terms| > 1 {
      LexableJoin(terms[1..]);
      LexablePlain(" AND ");
      LexableConcat(" AND ", Join(" AND ", terms[1..]));
      LexableConcat(terms[0], " AND " + Join(" AND ", terms[1..]));
      assert terms[0] + " AND " + Join(" AND ", terms[1..]) == terms[0] + (" AND " + Join(" AND ", terms[1..]));
    }
  }

  /** Lexing is a left-to-right scan that ends outside a string, so lexable texts concatenate. */
  lemma {:induction false} LexableConcat(a: string, b: string)
    requires Lexable(a) && Lexable(b)
    ensures Lexable(a + b)
    decreases |a|, 1
  {
    if a == [] {
      assert a + b == b;
    } else if a[0] == '"' {
      assert (a + b)[1..] == a[1..] + b;
      LexableStringConcat(a[1..], b);
    } else {
      assert (a + b)[1..] == a[1..] + b;
      LexableConcat(a[1..], b);
    }
  }

  lemma {:induction false} LexableStringConcat(a: string, b: string)
    requires LexableString(a) && Lexable(b)
    ensures LexableString(a + b)
    decreases |a|, 0
  {
    assert a != [];
    if a[0] != '"' {
      assert (a + b)[1..] == a[1..] + b;
      LexableStringConcat(a[1..], b);
    } else if |a| >= 2 && a[1] == '"' {
      assert (a + b)[2..] == a[2..] + b;
      LexableStringConcat(a[2..], b);
    } else if |a| >= 2 {
      assert (a + b)[1..] == a[1..] + b;
      LexableConcat(a[1..], b);
    } else {
      assert a + b == "\"" + b;
      if b != [] && b[0] == '"' {
        assert (a + b)[2..] == b[1..];
      } else {
        assert (a + b)[1..] == b;
      }
    }
  }
}

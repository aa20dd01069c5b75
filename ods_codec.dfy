/**
 * The two legacy file formats word lists are kept in: a plain text file with one
 * word per line, and a minimal OpenDocument spreadsheet (ODS). The zip container
 * and the XML are modelled as datatypes: an archive is a sequence of named members,
 * and a spreadsheet document is tables of rows of cells of paragraphs.
 */
module OdsCodec {
  import opened Wrappers
  import opened Text
  import Vocabulary

  /** `ODS_MIMETYPE`. */
  const OdsMimetype: string := "application/vnd.oasis.opendocument.spreadsheet"

  /** A `table:table-cell`: the texts of its `text:p` children, and all of its text (`itertext`). */
  datatype Cell = Cell(paragraphs: seq<string>, text: string)

  /** A `table:table-row` and its `table:table-cell` children. */
  datatype Row = Row(cells: seq<Cell>)

  /** A `table:table`: its name and its rows in document order. */
  datatype Table = Table(name: string, rows: seq<Row>)

  /** A `manifest:file-entry`. */
  datatype FileEntry = FileEntry(fullPath: string, mediaType: string)

  /** What one archive member holds. */
  datatype Part =
    | Plain(text: string)                 // text that is not XML (the `mimetype` member)
    | Spreadsheet(tables: seq<Table>)     // an `office:document-content`
    | Styles                              // an `office:document-styles` with an empty `office:styles`
    | Manifest(files: seq<FileEntry>)     // a `manifest:manifest`

  datatype Compression = Stored | Deflated

  datatype Member = Member(name: string, compression: Compression, part: Part)

  /** A zip archive: its members in the order they were written. */
  type Archive = seq<Member>

  /** Every word is non-empty and has no surrounding whitespace: what the readers produce. */
  predicate Clean(ws: seq<string>) {
    forall k :: 0 <= k < |ws| ==> ws[k] != [] && IsStripped(ws[k])
  }

  /** No word holds a line break. */
  predicate LineFree(ws: seq<string>) {
    forall k :: 0 <= k < |ws| ==> '\n' !in ws[k] && '\r' !in ws[k]
  }

  lemma StrippedWord(w: string)
    requires w != [] && IsStripped(w)
    ensures Vocabulary.StripNonEmpty(w) == Some(w)
  {
    StrippedIsFixpoint(w);
  }

  // ---------------------------------------------------------------------------
  // Reading a spreadsheet
  // ---------------------------------------------------------------------------

  /** The text of a cell: its paragraphs joined by line breaks, or all its text when it has none. */
  function CellValue(cell: Cell): string {
    if cell.paragraphs != [] then Join("\n", cell.paragraphs) else cell.text
  }

  /** The word a row contributes: its first cell's text, stripped; nothing for a row without cells or a blank text. */
  function RowWord(row: Row): Option<string> {
    if row.cells == [] then None else Vocabulary.StripNonEmpty(CellValue(row.cells[0]))
  }

  /** Every row of the document, in document order. */
  function AllRows(tables: seq<Table>): seq<Row> {
    if tables == [] then [] else AllRows(tables[..|tables| - 1]) + tables[|tables| - 1].rows
  }

  /** The words of a sequence of rows: one per row that contributes one, in row order. */
  function RowsWords(rows: seq<Row>): seq<string>
  {
    if rows == [] then []
    else
      var prev := RowsWords(rows[..|rows| - 1]);
      match RowWord(rows[|rows| - 1])
      case None => prev
      case Some(w) => prev + [w]
  }

  /** `_read_words_from_ods_stream`: the row loop over the parsed document. */
  method ReadWordsFromStream(tables: seq<Table>) returns (words: seq<string>)
    ensures words == RowsWords(AllRows(tables))
  {
    var rows := AllRows(tables);
    words := [];
    for i := 0 to |rows|
      invariant words == RowsWords(rows[..i])
    {
      assert rows[..i + 1][..i] == rows[..i];
      var row := rows[i];
      if row.cells == [] {
        continue;
      }
      var value := Strip(CellValue(row.cells[0]));
      if value != [] {
        words := words + [value];
      }
    }
    assert rows[..|rows|] == rows;
  }

  /** The part of the last member with the given name (a later member shadows an earlier one). */
  function Lookup(archive: Archive, name: string): (p: Option<Part>)
    ensures p.None? <==> forall k :: 0 <= k < |archive| ==> archive[k].name != name
  {
    if archive == [] then None
    else if archive[|archive| - 1].name == name then Some(archive[|archive| - 1].part)
    else Lookup(archive[..|archive| - 1], name)
  }

  /**
   * `read_words_from_ods` on an existing archive: no `content.xml` gives no words;
   * a `content.xml` that is not XML raises; otherwise the rows' words.
   */
  function ArchiveWords(archive: Archive): Result<seq<string>, string>
  {
    match Lookup(archive, "content.xml")
    case None => Success([])
    case Some(Plain(_)) => Failure("content.xml: not well-formed")
    case Some(Spreadsheet(tables)) => Success(RowsWords(AllRows(tables)))
    case Some(Styles) => Success([])
    case Some(Manifest(_)) => Success([])
  }

  // ---------------------------------------------------------------------------
  // Writing a spreadsheet
  // ---------------------------------------------------------------------------

  /** The row `build_content_xml` writes for a word: one cell holding one paragraph. */
  function WordRow(w: string): Row {
    Row([Cell([w], w)])
  }

  function WordRows(words: seq<string>): (rows: seq<Row>)
    ensures |rows| == |words| && forall k :: 0 <= k < |words| ==> rows[k] == WordRow(words[k])
  {
    seq(|words|, k requires 0 <= k < |words| => WordRow(words[k]))
  }

  /** The document `build_content_xml` produces: one table named "Words", one row per word. */
  function WordsContent(words: seq<string>): Part {
    Spreadsheet([Table("Words", WordRows(words))])
  }

  /** `build_content_xml`: the loop adding a row per word. */
  method BuildContentXml(words: seq<string>) returns (doc: Part)
    ensures doc == WordsContent(words)
  {
    var rows: seq<Row> := [];
    for i := 0 to |words|
      invariant |rows| == i && forall k :: 0 <= k < i ==> rows[k] == WordRow(words[k])
    {
      rows := rows + [Row([Cell([words[i]], words[i])])];
    }
    assert rows == WordRows(words);
    doc := Spreadsheet([Table("Words", rows)]);
  }

  /** What a cell of `build_content_xml_rows` holds: "" for None, else `str(value)`. */
  function CellText(v: Value): string {
    match v
    case Null => ""
    case Str(s) => s
    case Other(t) => t
  }

  function ValuesRow(values: seq<Value>): (row: Row)
    ensures |row.cells| == |values|
    ensures forall j :: 0 <= j < |values| ==> row.cells[j] == Cell([CellText(values[j])], CellText(values[j]))
  {
    Row(seq(|values|, j requires 0 <= j < |values| => Cell([CellText(values[j])], CellText(values[j]))))
  }

  /** The document `build_content_xml_rows` produces: one table named "Vocabulary", one row per value list. */
  function RowsContent(rows: seq<seq<Value>>): Part {
    Spreadsheet([Table("Vocabulary", seq(|rows|, i requires 0 <= i < |rows| => ValuesRow(rows[i])))])
  }

  /** The inner loop of `build_content_xml_rows`: one cell per value. */
  method BuildRow(values: seq<Value>) returns (row: Row)
    ensures row == ValuesRow(values)
  {
    var cells: seq<Cell> := [];
    for j := 0 to |values|
      invariant |cells| == j
      invariant forall k :: 0 <= k < j ==> cells[k] == Cell([CellText(values[k])], CellText(values[k]))
    {
      var v := values[j];
      var text := if v.Null? then "" else CellText(v);
      cells := cells + [Cell([text], text)];
    }
    row := Row(cells);
  }

  /** `build_content_xml_rows`: the loop adding a row per value list. */
  method BuildContentXmlRows(rows: seq<seq<Value>>) returns (doc: Part)
    ensures doc == RowsContent(rows)
  {
    var built: seq<Row> := [];
    for i := 0 to |rows|
      invariant |built| == i && forall k :: 0 <= k < i ==> built[k] == ValuesRow(rows[k])
    {
      var row := BuildRow(rows[i]);
      built := built + [row];
    }
    assert built == seq(|rows|, i requires 0 <= i < |rows| => ValuesRow(rows[i]));
    doc := Spreadsheet([Table("Vocabulary", built)]);
  }

  /** `build_manifest_xml`: the package root, then the two XML members. */
  const ManifestEntries: seq<FileEntry> := [
    FileEntry("/", OdsMimetype), FileEntry("content.xml", "text/xml"), FileEntry("styles.xml", "text/xml")
  ]

  /**
   * The archive `write_words_to_ods` and `write_rows_to_ods` produce around a content
   * document: the uncompressed `mimetype` first, then content, styles and manifest.
   */
  function OdsArchive(content: Part): Archive {
    [ Member("mimetype", Stored, Plain(OdsMimetype)),
      Member("content.xml", Deflated, content),
      Member("styles.xml", Deflated, Styles),
      Member("META-INF/manifest.xml", Deflated, Manifest(ManifestEntries)) ]
  }

  /**
   * The layout readers of the format rely on: exactly four members, the media type
   * first and uncompressed, and a manifest that lists the package root with that type
   * and every other member but itself and `mimetype` as XML.
   */
  lemma ArchiveLayout(content: Part)
    ensures var a := OdsArchive(content);
      |a| == 4
      && a[0] == Member("mimetype", Stored, Plain(OdsMimetype))
      && a[1].name == "content.xml" && a[2].name == "styles.xml" && a[3].name == "META-INF/manifest.xml"
      && (forall k :: 1 <= k < 4 ==> a[k].compression == Deflated)
      && a[3].part.Manifest?
      && FileEntry("/", OdsMimetype) in a[3].part.files
      && (forall k :: 1 <= k < 3 ==> FileEntry(a[k].name, "text/xml") in a[3].part.files)
      && Lookup(a, "content.xml") == Some(content)
  {
    ContentLookup(content);
  }

  /** `archive.open("content.xml")` on a written archive finds the content written. */
  lemma ContentLookup(content: Part)
    ensures Lookup(OdsArchive(content), "content.xml") == Some(content)
  {
    var a := OdsArchive(content);
    assert a[..4][..3] == a[..3] && a[..3][..2] == a[..2];
    assert Lookup(a[..2], "content.xml") == Some(content);
  }

  /** A non-empty sequence is its front followed by its last element. */
  lemma Snoc<T>(s: seq<T>)
    requires s != []
    ensures s[..|s| - 1] + [s[|s| - 1]] == s
  {
  }

  lemma WordRowWord(w: string)
    requires w != [] && IsStripped(w)
    ensures RowWord(WordRow(w)) == Some(w)
  {
    assert CellValue(WordRow(w).cells[0]) == w;
    StrippedWord(w);
  }

  /** The words of a words-only spreadsheet, read back: the written words, stripped, without blanks. */
  lemma {:induction false} WordRowsReadBack(words: seq<string>)
    requires Clean(words)
    ensures RowsWords(WordRows(words)) == words
  {
    if words != [] {
      var n := |words| - 1;
      var rows := WordRows(words);
      assert rows[..n] == WordRows(words[..n]);
      WordRowsReadBack(words[..n]);
      WordRowWord(words[n]);
      assert RowWord(rows[n]) == Some(words[n]);
      assert RowsWords(rows) == RowsWords(rows[..n]) + [words[n]];
      Snoc(words);
    }
  }

  lemma AllRowsSingle(t: Table)
    ensures AllRows([t]) == t.rows
  {
    assert [t][..0] == [];
    assert [] + t.rows == t.rows;
  }

  /** Round trip: reading back what `write_words_to_ods` wrote gives the words, when they are clean. */
  lemma WordsRoundTrip(words: seq<string>)
    requires Clean(words)
    ensures ArchiveWords(OdsArchive(WordsContent(words))) == Success(words)
  {
    ContentLookup(WordsContent(words));
    AllRowsSingle(Table("Words", WordRows(words)));
    WordRowsReadBack(words);
  }

  // ---------------------------------------------------------------------------
  // The XML text layer
  // ---------------------------------------------------------------------------

  /** A character the `Char` production of XML 1.0 admits: tab, line feed, carriage return, and U+0020 up except U+FFFE and U+FFFF. */
  predicate XmlChar(c: char) {
    c == '\t' || c == '\n' || c == '\r' || ('\U{20}' <= c && c != '\U{fffe}' && c != '\U{ffff}')
  }

  /** A text the XML layer carries unchanged: XML characters only, and no carriage return. */
  predicate XmlSafe(s: string) {
    forall i :: 0 <= i < |s| ==> XmlChar(s[i]) && s[i] != '\r'
  }

  /**
   * What `ET.iterparse` yields for a `text:p` whose text `ET.tostring` wrote as `s`.
   * The writer escapes only `&`, `<` and `>`, so a character XML does not admit makes
   * the whole document unreadable (`None`: a ParseError); otherwise the parser's
   * end-of-line handling turns "\r\n" and a lone "\r" into "\n".
   */
  function XmlReadBack(s: string): (r: Option<string>)
    ensures r.None? <==> exists i :: 0 <= i < |s| && !XmlChar(s[i])
  {
    if forall i :: 0 <= i < |s| ==> XmlChar(s[i]) then Some(Translated(s)) else None
  }

  /** A safe text is read back as written: the case in which the archive model above is exact. */
  lemma XmlSafeReadsBack(s: string)
    requires XmlSafe(s)
    ensures XmlReadBack(s) == Some(s)
  {
    assert '\r' !in s by {
      forall i | 0 <= i < |s| ensures s[i] != '\r' { }
    }
    TranslatedNoCR(s);
  }

  /** A text with a carriage return but only XML characters reads back as a different text, free of carriage returns. */
  lemma XmlCarriageReturnChanges(s: string)
    requires forall i :: 0 <= i < |s| ==> XmlChar(s[i])
    requires '\r' in s
    ensures XmlReadBack(s).Some?
    ensures '\r' !in XmlReadBack(s).value
    ensures XmlReadBack(s).value != s
  {
    TranslatedClearsCR(s);
  }

  /** The word "a\rb" is written raw and read back as "a\nb". */
  lemma CarriageReturnReadsAsLineFeed()
    ensures XmlReadBack("a\rb") == Some("a\nb")
  {
    var s := "a\rb";
    assert forall i :: 0 <= i < |s| ==> XmlChar(s[i]);
    assert s[1..] == "\rb" && s[2..] == "b" && s[3..] == [];
    TranslatedNoCR("b");
    assert Translated("\rb") == "\n" + Translated("b") == "\n" + "b";
    assert Translated(s) == "a" + Translated("\rb") == "a\nb";
  }

  /** Translation leaves no carriage return. */
  lemma {:induction false} TranslatedClearsCR(s: string)
    ensures '\r' !in Translated(s)
    decreases |s|
  {
    if s == [] {
    } else if s[0] == '\r' && |s| > 1 && s[1] == '\n' {
      TranslatedClearsCR(s[2..]);
    } else {
      TranslatedClearsCR(s[1..]);
    }
  }

  /** Every cell of a `build_content_xml_rows` table reads back as the value's text. */
  lemma RowsContentCells(rows: seq<seq<Value>>, i: nat, j: nat)
    requires i < |rows| && j < |rows[i]|
    ensures RowsContent(rows).tables[0].name == "Vocabulary"
    ensures |RowsContent(rows).tables[0].rows| == |rows|
    ensures |RowsContent(rows).tables[0].rows[i].cells| == |rows[i]|
    ensures CellValue(RowsContent(rows).tables[0].rows[i].cells[j]) == CellText(rows[i][j])
    ensures rows[i][j].Null? ==> CellValue(RowsContent(rows).tables[0].rows[i].cells[j]) == ""
  {
  }

  // ---------------------------------------------------------------------------
  // Plain text files
  // ---------------------------------------------------------------------------

  /** Text-mode reading's universal newlines: "\r\n" and a lone "\r" both become "\n". */
  function Translated(s: string): string
    decreases |s|
  {
    if s == [] then []
    else if s[0] == '\r' then
      if |s| > 1 && s[1] == '\n' then "\n" + Translated(s[2..]) else "\n" + Translated(s[1..])
    else [s[0]] + Translated(s[1..])
  }

  /** The lines a text-mode read yields, without their line breaks (the last one may be empty). */
  function TxtLines(text: string): seq<string> {
    SplitOn(Translated(text), '\n')
  }

  /** Each line's contribution under `f`. */
  function MapLines(f: string -> Option<string>, lines: seq<string>): seq<Option<string>> {
    seq(|lines|, i requires 0 <= i < |lines| => f(lines[i]))
  }

  /** The present values, in order. */
  function Somes(cs: seq<Option<string>>): seq<string> {
    if cs == [] then []
    else if cs[0].Some? then [cs[0].value] + Somes(cs[1..])
    else Somes(cs[1..])
  }

  /** `read_words_from_txt` on an existing file's text: its non-blank lines, stripped. */
  function TxtWords(text: string): seq<string> {
    Somes(MapLines(Vocabulary.StripNonEmpty, TxtLines(text)))
  }

  /** What `append_missing_words_txt` writes for its words: each followed by "\n". */
  function Lines(ws: seq<string>): string {
    if ws == [] then "" else Lines(ws[..|ws| - 1]) + ws[|ws| - 1] + "\n"
  }

  /** The file text after `append_missing_words_txt` as written: the lines go straight after the old text. */
  function AppendLines(text: string, ws: seq<string>): string {
    text + Lines(ws)
  }

  /** The text ends a line: its last character is a line break. */
  predicate LineEnded(s: string) {
    s != [] && (s[|s| - 1] == '\n' || s[|s| - 1] == '\r')
  }

  /** The old text, with a line break added when it is non-empty and its last line is unterminated. */
  function Terminated(text: string): (t: string)
    ensures t == [] || LineEnded(t)
  {
    if text == [] || LineEnded(text) then text else text + "\n"
  }

  /** The corrected append: end the old last line before writing the new lines. */
  function AppendLinesFixed(text: string, ws: seq<string>): string {
    Terminated(text) + Lines(ws)
  }

  lemma {:induction false} SomesAppend(x: seq<Option<string>>, y: seq<Option<string>>)
    ensures Somes(x + y) == Somes(x) + Somes(y)
  {
    if x == [] {
      assert x + y == y;
    } else {
      assert (x + y)[0] == x[0];
      assert (x + y)[1..] == x[1..] + y;
      SomesAppend(x[1..], y);
    }
  }

  lemma {:induction false} SomesClean(cs: seq<Option<string>>)
    requires forall i :: 0 <= i < |cs| && cs[i].Some? ==> cs[i].value != [] && IsStripped(cs[i].value)
    ensures Clean(Somes(cs))
  {
    if cs != [] {
      SomesClean(cs[1..]);
    }
  }

  /** Both readers produce clean words. */
  lemma TxtWordsClean(text: string)
    ensures Clean(TxtWords(text))
  {
    var lines := TxtLines(text);
    var cs := MapLines(Vocabulary.StripNonEmpty, lines);
    forall i | 0 <= i < |cs| && cs[i].Some?
      ensures cs[i].value != [] && IsStripped(cs[i].value)
    {
      assert cs[i] == Vocabulary.StripNonEmpty(lines[i]);
    }
    SomesClean(cs);
  }

  lemma {:induction false} RowsWordsClean(rows: seq<Row>)
    ensures Clean(RowsWords(rows))
  {
    if rows != [] {
      var init := rows[..|rows| - 1];
      RowsWordsClean(init);
      var prev := RowsWords(init);
      match RowWord(rows[|rows| - 1])
      case None =>
        assert RowsWords(rows) == prev;
      case Some(w) =>
        assert Clean([w]);
        CleanAppend(prev, [w]);
        assert RowsWords(rows) == prev + [w];
    }
  }

  lemma CleanAppend(a: seq<string>, b: seq<string>)
    requires Clean(a) && Clean(b)
    ensures Clean(a + b)
  {
    assert forall k :: |a| <= k < |a + b| ==> (a + b)[k] == b[k - |a|];
  }

  lemma ArchiveWordsClean(archive: Archive)
    requires ArchiveWords(archive).Success?
    ensures Clean(ArchiveWords(archive).value)
  {
    match Lookup(archive, "content.xml")
    case Some(Spreadsheet(tables)) => RowsWordsClean(AllRows(tables));
    case _ =>
  }

  /** The words of two runs of lines are those of the first run, then those of the second. */
  lemma WordsOfLinesAppend(f: string -> Option<string>, x: seq<string>, y: seq<string>)
    ensures Somes(MapLines(f, x + y)) == Somes(MapLines(f, x)) + Somes(MapLines(f, y))
  {
    assert MapLines(f, x + y) == MapLines(f, x) + MapLines(f, y);
    SomesAppend(MapLines(f, x), MapLines(f, y));
  }

  lemma EmptyLineHasNoWord()
    ensures Somes(MapLines(Vocabulary.StripNonEmpty, [""])) == []
  {
    assert Vocabulary.StripNonEmpty("") == None;
    assert MapLines(Vocabulary.StripNonEmpty, [""]) == [None];
  }

  lemma EmptyTextHasNoWord()
    ensures TxtWords("") == []
  {
    assert TxtLines("") == [""];
    EmptyLineHasNoWord();
  }

  lemma WordLineHasWord(w: string)
    requires w != [] && IsStripped(w)
    ensures Somes(MapLines(Vocabulary.StripNonEmpty, [w])) == [w]
  {
    StrippedWord(w);
    assert MapLines(Vocabulary.StripNonEmpty, [w]) == [Some(w)];
  }

  lemma {:induction false} SplitOnConcat(a: string, c: char, b: string)
    ensures SplitOn(a + [c] + b, c) == SplitOn(a, c) + SplitOn(b, c)
  {
    var s := a + [c] + b;
    if a == [] {
      assert s[1..] == b;
    } else {
      assert s[1..] == a[1..] + [c] + b;
      SplitOnConcat(a[1..], c, b);
    }
  }

  lemma {:induction false} TranslatedConcat(a: string, b: string)
    requires a == [] || b == [] || a[|a| - 1] != '\r' || b[0] != '\n'
    ensures Translated(a + b) == Translated(a) + Translated(b)
    decreases |a|
  {
    if a == [] {
      assert a + b == b;
    } else if a[0] == '\r' && |a| > 1 && a[1] == '\n' {
      TranslatedConcat(a[2..], b);
      ConcatAfterPair(a, b);
    } else if a[0] == '\r' {
      TranslatedConcat(a[1..], b);
      ConcatAfterLoneCR(a, b);
    } else {
      TranslatedConcat(a[1..], b);
      ConcatAfterChar(a, b);
    }
  }

  /** A leading CRLF becomes one line break in front of the rest, with or without a suffix. */
  lemma ConcatAfterPair(a: string, b: string)
    requires |a| > 1 && a[0] == '\r' && a[1] == '\n'
    requires Translated(a[2..] + b) == Translated(a[2..]) + Translated(b)
    ensures Translated(a + b) == Translated(a) + Translated(b)
  {
    var s := a + b;
    assert s[0] == '\r' && s[1] == '\n' && s[2..] == a[2..] + b;
  }

  /** A leading CR that does not start a CRLF becomes a line break on its own, with or without a suffix. */
  lemma ConcatAfterLoneCR(a: string, b: string)
    requires a != [] && a[0] == '\r' && (|a + b| == 1 || (a + b)[1] != '\n')
    requires Translated(a[1..] + b) == Translated(a[1..]) + Translated(b)
    ensures Translated(a + b) == Translated(a) + Translated(b)
  {
    assert (a + b)[1..] == a[1..] + b;
    LoneCR(a + b);
    LoneCR(a);
    AppendAssoc("\n", Translated(a[1..]), Translated(b));
  }

  lemma LoneCR(s: string)
    requires s != [] && s[0] == '\r' && (|s| == 1 || s[1] != '\n')
    ensures Translated(s) == "\n" + Translated(s[1..])
  {
  }

  lemma AppendAssoc(x: string, y: string, z: string)
    ensures x + (y + z) == (x + y) + z
  {
  }

  /** A leading character other than CR is kept, with or without a suffix. */
  lemma ConcatAfterChar(a: string, b: string)
    requires a != [] && a[0] != '\r'
    requires Translated(a[1..] + b) == Translated(a[1..]) + Translated(b)
    ensures Translated(a + b) == Translated(a) + Translated(b)
  {
    var s := a + b;
    assert s[0] == a[0] && s[1..] == a[1..] + b;
  }

  lemma {:induction false} TranslatedNoCR(s: string)
    requires '\r' !in s
    ensures Translated(s) == s
    decreases |s|
  {
    if s != [] {
      assert '\r' !in s[1..];
      TranslatedNoCR(s[1..]);
    }
  }

  /** A text that ends a line translates to some text followed by "\n". */
  lemma TranslatedEnd(s: string) returns (b: string)
    requires LineEnded(s)
    ensures Translated(s) == b + "\n"
  {
    var n := |s|;
    TranslatedBreaks();
    if s[n - 1] == '\r' {
      var u := s[..n - 1];
      assert s == u + "\r";
      TranslatedConcat(u, "\r");
      b := Translated(u);
    } else if n >= 2 && s[n - 2] == '\r' {
      var u := s[..n - 2];
      assert s == u + "\r\n";
      TranslatedConcat(u, "\r\n");
      b := Translated(u);
    } else {
      var u := s[..n - 1];
      assert s == u + "\n";
      TranslatedConcat(u, "\n");
      b := Translated(u);
    }
  }

  lemma TranslatedBreaks()
    ensures Translated("\r") == "\n" && Translated("\r\n") == "\n" && Translated("\n") == "\n"
  {
    assert "\r"[1..] == [] && "\r\n"[2..] == [] && "\n"[1..] == [];
  }

  /** The lines of a text that ends a line: those before its last break, then an empty one. */
  lemma EndedLines(a: string) returns (b: string)
    requires LineEnded(a)
    ensures Translated(a) == b + "\n"
    ensures TxtLines(a) == SplitOn(b, '\n') + [""]
  {
    b := TranslatedEnd(a);
    assert b + "\n" == b + ['\n'] + "";
    SplitOnConcat(b, '\n', "");
  }

  /** The lines of a text that ends a line, followed by one more line. */
  lemma NextLine(a: string, w: string) returns (b: string)
    requires LineEnded(a)
    requires w != [] && !IsSpace(w[0]) && '\n' !in w && '\r' !in w
    ensures TxtLines(a) == SplitOn(b, '\n') + [""]
    ensures TxtLines(a + w + "\n") == SplitOn(b, '\n') + [w] + [""]
  {
    b := EndedLines(a);
    TranslatedNoCR(w + "\n");
    TranslatedConcat(a, w + "\n");
    assert a + w + "\n" == a + (w + "\n");
    assert b + "\n" + (w + "\n") == b + ['\n'] + (w + ['\n'] + "");
    SplitOnConcat(b, '\n', w + ['\n'] + "");
    SplitOnConcat(w, '\n', "");
    SplitOnNoSeparator(w, '\n');
  }

  /** The lines of a single line. */
  lemma FirstLine(w: string)
    requires '\n' !in w && '\r' !in w
    ensures TxtLines(w + "\n") == [w] + [""]
    ensures TxtLines("") == [""]
  {
    TranslatedNoCR(w + "\n");
    assert w + "\n" == w + ['\n'] + "";
    SplitOnConcat(w, '\n', "");
    SplitOnNoSeparator(w, '\n');
  }

  /** One more line after a text that ends its last line adds exactly that word. */
  lemma AppendLineStep(a: string, w: string)
    requires a == [] || LineEnded(a)
    requires w != [] && IsStripped(w) && '\n' !in w && '\r' !in w
    ensures TxtWords(a + w + "\n") == TxtWords(a) + [w]
  {
    EmptyLineHasNoWord();
    WordLineHasWord(w);
    if a == [] {
      FirstLine(w);
      assert a + w + "\n" == w + "\n";
      WordsOfLinesAppend(Vocabulary.StripNonEmpty, [w], [""]);
    } else {
      var b := NextLine(a, w);
      var before := SplitOn(b, '\n');
      WordsOfLinesAppend(Vocabulary.StripNonEmpty, before, [""]);
      WordsOfLinesAppend(Vocabulary.StripNonEmpty, before + [w], [""]);
      WordsOfLinesAppend(Vocabulary.StripNonEmpty, before, [w]);
    }
  }

  /** Ending the last line adds no word. */
  lemma TerminatedSameWords(text: string)
    ensures TxtWords(Terminated(text)) == TxtWords(text)
  {
    if !(text == [] || LineEnded(text)) {
      TranslatedConcat(text, "\n");
      var b := Translated(text);
      assert Translated("\n") == "\n";
      assert b + "\n" == b + ['\n'] + "";
      SplitOnConcat(b, '\n', "");
      WordsOfLinesAppend(Vocabulary.StripNonEmpty, SplitOn(b, '\n'), [""]);
      EmptyLineHasNoWord();
    }
  }

  /**
   * The corrected append reads back as the old words followed by the new ones, for
   * clean words without line breaks, whether or not the old text ended its last line.
   */
  lemma {:induction false} AppendLinesFixedReadsBack(text: string, ws: seq<string>)
    requires Clean(ws) && LineFree(ws)
    ensures TxtWords(AppendLinesFixed(text, ws)) == TxtWords(text) + ws
  {
    if ws == [] {
      TerminatedSameWords(text);
      assert AppendLinesFixed(text, ws) == Terminated(text);
    } else {
      var n := |ws| - 1;
      var p, w := ws[..n], ws[n];
      CleanFront(ws);
      AppendLinesFixedReadsBack(text, p);
      var a := Terminated(text) + Lines(p);
      LinesEnded(Terminated(text), p);
      AppendLineStep(a, w);
      AppendLinesFixedSnoc(text, ws);
      ConcatSnoc(TxtWords(text), ws);
    }
  }

  /**
   * As written, the append reads back as the old words followed by the new ones when the
   * old text is empty or already ends its last line.
   */
  lemma AppendLinesReadsBack(text: string, ws: seq<string>)
    requires text == [] || LineEnded(text)
    requires Clean(ws) && LineFree(ws)
    ensures TxtWords(AppendLines(text, ws)) == TxtWords(text) + ws
  {
    AppendLinesFixedReadsBack(text, ws);
  }

  lemma AppendLinesFixedSnoc(text: string, ws: seq<string>)
    requires ws != []
    ensures AppendLinesFixed(text, ws) == Terminated(text) + Lines(ws[..|ws| - 1]) + ws[|ws| - 1] + "\n"
  {
  }

  lemma ConcatSnoc<T>(x: seq<T>, ws: seq<T>)
    requires ws != []
    ensures x + ws[..|ws| - 1] + [ws[|ws| - 1]] == x + ws
  {
    Snoc(ws);
  }

  lemma CleanFront(ws: seq<string>)
    requires ws != [] && Clean(ws) && LineFree(ws)
    ensures Clean(ws[..|ws| - 1]) && LineFree(ws[..|ws| - 1])
    ensures var w := ws[|ws| - 1]; w != [] && IsStripped(w) && '\n' !in w && '\r' !in w
  {
  }

  /** Text that ends a line, followed by whole lines, still ends a line. */
  lemma {:induction false} LinesEnded(t: string, p: seq<string>)
    requires t == [] || LineEnded(t)
    ensures t + Lines(p) == [] || LineEnded(t + Lines(p))
  {
    if p != [] {
      var x := Lines(p[..|p| - 1]) + p[|p| - 1];
      assert t + Lines(p) == (t + x) + "\n";
    } else {
      assert t + Lines(p) == t;
    }
  }

  /**
   * As written, appending to a file whose last line has no line break glues the first
   * new word onto that line: "cat" followed by the word "dog" reads back as "catdog".
   */
  lemma AppendLinesGlues()
    ensures TxtWords("cat") == ["cat"]
    ensures TxtWords(AppendLines("cat", ["dog"])) == ["catdog"]
    ensures TxtWords(AppendLines("cat", ["dog"])) != TxtWords("cat") + ["dog"]
    ensures TxtWords(AppendLinesFixed("cat", ["dog"])) == ["cat", "dog"]
  {
    CatReads();
    GluedReads();
    FixedReads();
    assert |TxtWords("cat") + ["dog"]| == 2;
  }

  lemma CatReads()
    ensures TxtWords("cat") == ["cat"]
  {
    SingleLineWords("cat");
  }

  lemma GluedReads()
    ensures TxtWords(AppendLines("cat", ["dog"])) == ["catdog"]
  {
    GluedLine("cat", "dog");
    assert "cat" + "dog" == "catdog";
  }

  /** As written, a word appended after an unterminated last line becomes part of that line. */
  lemma GluedLine(a: string, w: string)
    requires a != [] && !IsSpace(a[0]) && '\n' !in a && '\r' !in a
    requires w != [] && IsStripped(w) && '\n' !in w && '\r' !in w
    ensures TxtWords(AppendLines(a, [w])) == [a + w]
  {
    assert Lines([w]) == w + "\n" by { assert [w][..0] == []; }
    assert AppendLines(a, [w]) == [] + (a + w) + "\n";
    assert (a + w)[0] == a[0] && (a + w)[|a + w| - 1] == w[|w| - 1];
    assert '\n' !in a + w && '\r' !in a + w;
    AppendLineStep([], a + w);
    EmptyTextHasNoWord();
  }

  lemma FixedReads()
    ensures TxtWords(AppendLinesFixed("cat", ["dog"])) == ["cat", "dog"]
  {
    CatReads();
    assert Clean(["dog"]) && LineFree(["dog"]);
    AppendLinesFixedReadsBack("cat", ["dog"]);
  }

  lemma SingleLineWords(w: string)
    requires w != [] && IsStripped(w) && '\n' !in w && '\r' !in w
    ensures TxtWords(w) == [w]
  {
    TranslatedNoCR(w);
    SplitOnNoSeparator(w, '\n');
    WordLineHasWord(w);
  }
}

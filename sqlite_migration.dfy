/**
 * The one-time schema migration of the vocabulary database: the decision whether a
 * file still has the legacy column names, and the copy of the legacy `words` and
 * `category_words` tables into tables of the current schema.
 *
 * A table is modelled by its column names (what `PRAGMA table_info` lists) and its
 * rows, each a map from column name to cell.
 */
module SqliteMigration {
  import opened Wrappers
  import Text

  /** An SQLite value. */
  datatype Cell = Null | Int(i: int) | Text(s: string)

  type Record = map<string, Cell>

  datatype Table = Table(columns: set<string>, rows: seq<Record>)

  /** Every row has a cell for each column, and nothing else. */
  predicate WellFormed(t: Table) {
    forall k :: 0 <= k < |t.rows| ==> t.rows[k].Keys == t.columns
  }

  /** The columns of the current schema. */
  const WordsColumns: set<string> := {"id", "lemma"}
  const EntryColumns: set<string> :=
    {"id", "category_id", "word_id", "surface_form", "created_at", "source", "frequency"}

  /**
   * `_needs_migration`: a file with neither table needs none; otherwise a legacy
   * column name on either table (`normalized_text` on words, `display_text` on
   * category_words) asks for it.
   */
  function NeedsMigration(wordsColumns: set<string>, entryColumns: set<string>): (b: bool)
    ensures b <==> (wordsColumns != {} || entryColumns != {})
                   && ("normalized_text" in wordsColumns || "display_text" in entryColumns)
  {
    if wordsColumns == {} && entryColumns == {} then false
    else "normalized_text" in wordsColumns || "display_text" in entryColumns
  }

  /** A file already in the current schema is left alone, and so is a file without the tables. */
  lemma CurrentSchemaNeedsNoMigration()
    ensures !NeedsMigration(WordsColumns, EntryColumns)
    ensures !NeedsMigration({}, {})
  {
    assert "normalized_text" !in WordsColumns;
    assert "display_text" !in EntryColumns;
  }

  /** The column the lemmas are copied from: the legacy name when present. */
  function LemmaColumn(wordsColumns: set<string>): string {
    if "normalized_text" in wordsColumns then "normalized_text" else "lemma"
  }

  /** The column the surface forms are copied from: the legacy name when present. */
  function SurfaceColumn(entryColumns: set<string>): string {
    if "display_text" in entryColumns then "display_text" else "surface_form"
  }

  /**
   * TEXT affinity: an integer stored into a TEXT column is kept as its decimal text;
   * NULL and text are stored as they are.
   */
  function TextAffinity(c: Cell): (t: Cell)
    ensures t.Null? <==> c.Null?
    ensures c.Text? ==> t == c
    ensures !t.Int?
  {
    match c
    case Int(i) => Text(Text.IntToString(i))
    case _ => c
  }

  /** A row of the new `words` table: its integer id and its lemma. */
  datatype WordRow = WordRow(id: int, text: string)

  /** A row of the new `category_words` table. */
  datatype EntryRow = EntryRow(id: Cell, categoryId: Cell, wordId: Cell, surface: Cell,
                               createdAt: Cell, source: Cell, frequency: Cell)

  /**
   * Why the copy stops: a constraint of the new table, a value an `INTEGER PRIMARY KEY`
   * cannot hold ("datatype mismatch"), or a column the statement names but the table lacks.
   */
  datatype MigrationError =
    | NotNull(column: string)
    | NotUnique(column: string)
    | Mismatch(column: string)
    | NoSuchColumn(column: string)

  /**
   * The rowid SQLite gives a row inserted with a NULL `INTEGER PRIMARY KEY`: one above
   * the largest id in the table, or 1 when the table is empty.
   */
  function NextRowId(ws: seq<WordRow>): (n: int)
    ensures forall k :: 0 <= k < |ws| ==> ws[k].id < n
    ensures ws == [] ==> n == 1
    ensures ws != [] ==> exists k :: 0 <= k < |ws| && n == ws[k].id + 1
  {
    if ws == [] then 1
    else if |ws| == 1 then ws[0].id + 1
    else
      var init := ws[..|ws| - 1];
      var m := NextRowId(init);
      assert forall k :: 0 <= k < |init| ==> init[k] == ws[k];
      if m > ws[|ws| - 1].id + 1 then m else ws[|ws| - 1].id + 1
  }

  /** Some copied word already has this id. */
  predicate IdTaken(ws: seq<WordRow>, id: int) {
    exists w :: w in ws && w.id == id
  }

  /** Some copied word already has this lemma. */
  predicate LemmaTaken(ws: seq<WordRow>, text: string) {
    exists w :: w in ws && w.text == text
  }

  /**
   * `INSERT INTO words_new(id, lemma) SELECT id, <column> FROM words`: a plain insert
   * into a table whose `id` is an `INTEGER PRIMARY KEY` and whose lemma is `TEXT NOT
   * NULL UNIQUE`. Row by row: a text id is a datatype mismatch; a NULL lemma, an id
   * seen before or a lemma seen before aborts the statement, in that order; a NULL id
   * takes the next rowid; an integer lemma is stored as its text (TEXT affinity).
   */
  function CopyWords(rows: seq<Record>, column: string): (r: Result<seq<WordRow>, MigrationError>)
    requires forall k :: 0 <= k < |rows| ==> "id" in rows[k] && column in rows[k]
    ensures r.Success? ==> |r.value| == |rows|
  {
    if rows == [] then Success([])
    else
      match CopyWords(rows[..|rows| - 1], column)
      case Failure(e) => Failure(e)
      case Success(prev) =>
        var row := rows[|rows| - 1];
        var stored := TextAffinity(row[column]);
        if row["id"].Text? then Failure(Mismatch("id"))
        else if stored.Null? then Failure(NotNull("lemma"))
        else if row["id"].Int? && IdTaken(prev, row["id"].i) then Failure(NotUnique("id"))
        else if LemmaTaken(prev, stored.s) then Failure(NotUnique("lemma"))
        else
          var id := if row["id"].Int? then row["id"].i else NextRowId(prev);
          Success(prev + [WordRow(id, stored.s)])
  }

  /**
   * Each copied word takes its lemma from the chosen column, row by row, as TEXT
   * affinity stores it; an integer id is kept and a NULL id becomes the next rowid
   * after the words copied before it; no lemma was NULL and no id was text.
   */
  lemma {:induction false} CopyWordsMapsColumns(rows: seq<Record>, column: string)
    requires forall k :: 0 <= k < |rows| ==> "id" in rows[k] && column in rows[k]
    requires CopyWords(rows, column).Success?
    ensures var ws := CopyWords(rows, column).value;
      forall k :: 0 <= k < |rows| ==> rows[k][column] != Null && WordFrom(ws, k, rows[k], column)
  {
    if rows != [] {
      var init := rows[..|rows| - 1];
      CopyWordsLast(rows, column);
      CopyWordsMapsColumns(init, column);
      var prev := CopyWords(init, column).value;
      var ws := CopyWords(rows, column).value;
      assert |prev| == |init|;
      forall k | 0 <= k < |rows|
        ensures rows[k][column] != Null && WordFrom(ws, k, rows[k], column)
      {
        if k < |init| {
          assert rows[k] == init[k];
          assert rows[k][column] != Null && WordFrom(prev, k, init[k], column);
          WordFromPrefix(prev, ws, k, rows[k], column);
        } else {
          assert k == |rows| - 1;
        }
      }
    }
  }

  /** The last legacy row gives the last copied word, appended to the copy of the rows before it. */
  lemma CopyWordsLast(rows: seq<Record>, column: string)
    requires forall k :: 0 <= k < |rows| ==> "id" in rows[k] && column in rows[k]
    requires rows != [] && CopyWords(rows, column).Success?
    ensures CopyWords(rows[..|rows| - 1], column).Success?
    ensures var ws := CopyWords(rows, column).value;
      ws[..|rows| - 1] == CopyWords(rows[..|rows| - 1], column).value
      && rows[|rows| - 1][column] != Null && WordFrom(ws, |rows| - 1, rows[|rows| - 1], column)
  {
    var prev := CopyWords(rows[..|rows| - 1], column).value;
    var ws := CopyWords(rows, column).value;
    assert ws[..|rows| - 1] == prev;
  }

  /** A fact about word k of a copy still holds once later words are appended. */
  lemma WordFromPrefix(prev: seq<WordRow>, ws: seq<WordRow>, k: int, row: Record, column: string)
    requires 0 <= k < |prev| <= |ws| && prev == ws[..|prev|] && "id" in row && column in row
    requires WordFrom(prev, k, row, column)
    ensures WordFrom(ws, k, row, column)
  {
    assert ws[..k] == prev[..k];
    assert ws[k] == prev[k];
  }

  /** The copied ids and the copied lemmas are each pairwise distinct: the key and the `UNIQUE` lemma. */
  lemma {:induction false} CopyWordsUnique(rows: seq<Record>, column: string)
    requires forall k :: 0 <= k < |rows| ==> "id" in rows[k] && column in rows[k]
    requires CopyWords(rows, column).Success?
    ensures var ws := CopyWords(rows, column).value;
      forall i, j :: 0 <= i < j < |ws| ==> ws[i].text != ws[j].text && ws[i].id != ws[j].id
  {
    if rows != [] {
      var prev := CopyWords(rows[..|rows| - 1], column).value;
      CopyWordsUnique(rows[..|rows| - 1], column);
      var ws := CopyWords(rows, column).value;
      assert ws == prev + [ws[|ws| - 1]];
      forall i | 0 <= i < |prev|
        ensures prev[i].text != ws[|ws| - 1].text && prev[i].id != ws[|ws| - 1].id
      {
        assert prev[i] in prev;
      }
    }
  }

  /** Two legacy rows with the same integer id abort the words copy. */
  lemma DuplicateIdAborts(rows: seq<Record>, column: string, i: int, j: int)
    requires forall k :: 0 <= k < |rows| ==> "id" in rows[k] && column in rows[k]
    requires 0 <= i < j < |rows| && rows[i]["id"].Int? && rows[i]["id"] == rows[j]["id"]
    ensures CopyWords(rows, column).Failure?
  {
    if CopyWords(rows, column).Success? {
      CopyWordsMapsColumns(rows, column);
      CopyWordsUnique(rows, column);
      assert false;
    }
  }

  /**
   * Word k of a copy came from the legacy row: its lemma as TEXT affinity stores it,
   * an integer id kept, a NULL id replaced by the next rowid, and never a text id.
   */
  predicate WordFrom(ws: seq<WordRow>, k: int, row: Record, column: string)
    requires 0 <= k < |ws| && "id" in row && column in row
  {
    !row["id"].Text? && Text(ws[k].text) == TextAffinity(row[column])
    && (row["id"].Int? ==> ws[k].id == row["id"].i)
    && (row["id"].Null? ==> ws[k].id == NextRowId(ws[..k]))
  }

  /**
   * The entry a legacy row becomes: the surface from the chosen column, a NULL
   * frequency read as 1, and the TEXT columns under TEXT affinity.
   */
  function Migrated(row: Record, surfaceColumn: string): (e: EntryRow)
    requires EntryColumns - {"surface_form"} <= row.Keys && surfaceColumn in row
    ensures e.frequency != Null
    ensures row["frequency"] != Null ==> e.frequency == row["frequency"]
    ensures e.surface.Null? <==> row[surfaceColumn].Null?
    ensures row[surfaceColumn].Text? ==> e.surface == row[surfaceColumn]
  {
    var frequency := if row["frequency"] == Null then Int(1) else row["frequency"];
    EntryRow(row["id"], row["category_id"], row["word_id"], TextAffinity(row[surfaceColumn]),
             TextAffinity(row["created_at"]), TextAffinity(row["source"]), frequency)
  }

  /** The `NOT NULL` columns of the new table hold values. */
  predicate Complete(e: EntryRow) {
    e.categoryId != Null && e.wordId != Null && e.surface != Null && e.createdAt != Null
  }

  /** Whether `e` collides with a kept row on the primary key or on `UNIQUE(category_id, word_id)`. */
  predicate Collides(kept: seq<EntryRow>, e: EntryRow) {
    exists x :: x in kept && ((e.id != Null && x.id == e.id) || (x.categoryId == e.categoryId && x.wordId == e.wordId))
  }

  /**
   * `INSERT OR IGNORE INTO category_words_new ... SELECT ... FROM category_words`: a row
   * that violates a constraint of the new table is skipped, and the rest are kept in order.
   */
  function CopyEntries(rows: seq<Record>, surfaceColumn: string): (kept: seq<EntryRow>)
    requires forall k :: 0 <= k < |rows| ==> EntryColumns - {"surface_form"} <= rows[k].Keys && surfaceColumn in rows[k]
    ensures |kept| <= |rows|
  {
    if rows == [] then []
    else
      var prev := CopyEntries(rows[..|rows| - 1], surfaceColumn);
      var e := Migrated(rows[|rows| - 1], surfaceColumn);
      if Complete(e) && !Collides(prev, e) then prev + [e] else prev
  }

  /**
   * Every kept entry is a legacy row, moved to the new column names, and is complete;
   * no two kept entries share a (category, word) pair; a complete row is dropped only
   * when an earlier kept row holds its key.
   */
  lemma CopyEntriesFacts(rows: seq<Record>, surfaceColumn: string)
    requires forall k :: 0 <= k < |rows| ==> EntryColumns - {"surface_form"} <= rows[k].Keys && surfaceColumn in rows[k]
    ensures var kept := CopyEntries(rows, surfaceColumn);
      (forall x :: x in kept ==> Complete(x) && x.frequency != Null
                                 && exists k :: 0 <= k < |rows| && x == Migrated(rows[k], surfaceColumn))
      && PairsDistinct(kept)
      && (forall k :: 0 <= k < |rows| && Complete(Migrated(rows[k], surfaceColumn)) ==>
            Migrated(rows[k], surfaceColumn) in kept || Collides(kept, Migrated(rows[k], surfaceColumn)))
  {
    CopiedFromRows(rows, surfaceColumn);
    CopiedPairsDistinct(rows, surfaceColumn);
    CopiedOrCollides(rows, surfaceColumn);
  }

  lemma {:induction false} CopiedFromRows(rows: seq<Record>, surfaceColumn: string)
    requires forall k :: 0 <= k < |rows| ==> EntryColumns - {"surface_form"} <= rows[k].Keys && surfaceColumn in rows[k]
    ensures forall x :: x in CopyEntries(rows, surfaceColumn) ==>
      Complete(x) && x.frequency != Null && exists k :: 0 <= k < |rows| && x == Migrated(rows[k], surfaceColumn)
  {
    if rows != [] {
      var init := rows[..|rows| - 1];
      CopiedFromRows(init, surfaceColumn);
      var prev := CopyEntries(init, surfaceColumn);
      var e := Migrated(rows[|rows| - 1], surfaceColumn);
      forall x | x in CopyEntries(rows, surfaceColumn)
        ensures exists k :: 0 <= k < |rows| && x == Migrated(rows[k], surfaceColumn)
      {
        if x in prev {
          var k :| 0 <= k < |init| && x == Migrated(init[k], surfaceColumn);
          assert rows[k] == init[k];
        } else {
          assert x == e;
        }
      }
    }
  }

  /** No two entries share a (category, word) pair. */
  predicate PairsDistinct(kept: seq<EntryRow>) {
    forall i, j :: 0 <= i < j < |kept| ==> (kept[i].categoryId, kept[i].wordId) != (kept[j].categoryId, kept[j].wordId)
  }

  lemma {:induction false} CopiedPairsDistinct(rows: seq<Record>, surfaceColumn: string)
    requires forall k :: 0 <= k < |rows| ==> EntryColumns - {"surface_form"} <= rows[k].Keys && surfaceColumn in rows[k]
    ensures PairsDistinct(CopyEntries(rows, surfaceColumn))
  {
    if rows != [] {
      var init := rows[..|rows| - 1];
      CopiedPairsDistinct(init, surfaceColumn);
      var prev := CopyEntries(init, surfaceColumn);
      var e := Migrated(rows[|rows| - 1], surfaceColumn);
      if Complete(e) && !Collides(prev, e) {
        AppendDistinct(prev, e);
      }
    }
  }

  /** Appending an entry whose pair no earlier entry holds keeps the pairs distinct. */
  lemma AppendDistinct(prev: seq<EntryRow>, e: EntryRow)
    requires PairsDistinct(prev) && !Collides(prev, e)
    ensures PairsDistinct(prev + [e])
  {
    var kept := prev + [e];
    forall i, j | 0 <= i < j < |kept|
      ensures (kept[i].categoryId, kept[i].wordId) != (kept[j].categoryId, kept[j].wordId)
    {
      assert kept[i] == prev[i] && prev[i] in prev;
      if j < |prev| {
        assert kept[j] == prev[j];
      } else {
        assert kept[j] == e;
      }
    }
  }

  lemma {:induction false} CopiedOrCollides(rows: seq<Record>, surfaceColumn: string)
    requires forall k :: 0 <= k < |rows| ==> EntryColumns - {"surface_form"} <= rows[k].Keys && surfaceColumn in rows[k]
    ensures var kept := CopyEntries(rows, surfaceColumn);
      forall k :: 0 <= k < |rows| && Complete(Migrated(rows[k], surfaceColumn)) ==>
        Migrated(rows[k], surfaceColumn) in kept || Collides(kept, Migrated(rows[k], surfaceColumn))
  {
    if rows != [] {
      var init := rows[..|rows| - 1];
      CopiedOrCollides(init, surfaceColumn);
      var kept := CopyEntries(rows, surfaceColumn);
      forall k | 0 <= k < |rows| && Complete(Migrated(rows[k], surfaceColumn))
        ensures Migrated(rows[k], surfaceColumn) in kept || Collides(kept, Migrated(rows[k], surfaceColumn))
      {
        if k < |init| {
          assert rows[k] == init[k];
        }
      }
    }
  }

  /** What `_migrate_schema` leaves behind. */
  datatype Outcome =
    | Unchanged
    | WordsOnly(words: seq<WordRow>)
    | Both(words: seq<WordRow>, entries: seq<EntryRow>)

  /** The first of the named columns a table lacks: the one SQLite reports as "no such column". */
  function FirstMissing(names: seq<string>, columns: set<string>): (r: Option<string>)
    ensures r.None? <==> forall k :: 0 <= k < |names| ==> names[k] in columns
    ensures r.Some? ==> r.value in names && r.value !in columns
  {
    if names == [] then None
    else if names[0] !in columns then Some(names[0])
    else FirstMissing(names[1..], columns)
  }

  /** The legacy columns the `category_words` copy selects, in the order of its select list. */
  function EntrySelect(surfaceColumn: string): seq<string> {
    ["id", "category_id", "word_id", surfaceColumn, "created_at", "source", "frequency"]
  }

  /**
   * `_migrate_schema`: without a words table nothing happens; with words but no
   * category_words only the words are rebuilt, always from `normalized_text`;
   * otherwise both tables are rebuilt from the columns `LemmaColumn` and
   * `SurfaceColumn` choose. The statements run in order, so a failure of the words
   * copy comes before anything about category_words, and a column either copy selects
   * but its table lacks stops it.
   */
  function Migrate(words: Table, entries: Table): (r: Result<Outcome, MigrationError>)
    requires WellFormed(words) && WellFormed(entries)
  {
    if words.columns == {} then Success(Unchanged)
    else if "id" !in words.columns then Failure(NoSuchColumn("id"))
    else if entries.columns == {} then
      if "normalized_text" !in words.columns then Failure(NoSuchColumn("normalized_text"))
      else
        match CopyWords(words.rows, "normalized_text")
        case Failure(e) => Failure(e)
        case Success(ws) => Success(WordsOnly(ws))
    else
      var lemmaColumn := LemmaColumn(words.columns);
      var surfaceColumn := SurfaceColumn(entries.columns);
      if lemmaColumn !in words.columns then Failure(NoSuchColumn(lemmaColumn))
      else
        match CopyWords(words.rows, lemmaColumn)
        case Failure(e) => Failure(e)
        case Success(ws) =>
          match FirstMissing(EntrySelect(surfaceColumn), entries.columns)
          case Some(c) => Failure(NoSuchColumn(c))
          case None =>
            SelectedAll(surfaceColumn, entries.columns);
            Success(Both(ws, CopyEntries(entries.rows, surfaceColumn)))
  }

  /** A table holds every column the second copy selects exactly when it holds the legacy entry columns. */
  lemma SelectedAll(surfaceColumn: string, columns: set<string>)
    ensures (forall k :: 0 <= k < |EntrySelect(surfaceColumn)| ==> EntrySelect(surfaceColumn)[k] in columns)
            <==> EntryColumns - {"surface_form"} <= columns && surfaceColumn in columns
  {
    var select := EntrySelect(surfaceColumn);
    if forall k :: 0 <= k < |select| ==> select[k] in columns {
      assert select[0] in columns && select[1] in columns && select[2] in columns && select[3] in columns;
      assert select[4] in columns && select[5] in columns && select[6] in columns;
    }
  }

  /**
   * The words copy runs first: when it fails, the migration fails with its error
   * whatever category_words holds; when it succeeds, a category_words table lacking a
   * column the second copy selects fails with that column, and otherwise both copies
   * land.
   */
  lemma MigrateOrder(words: Table, entries: Table)
    requires WellFormed(words) && WellFormed(entries)
    requires words.columns != {} && entries.columns != {}
    requires "id" in words.columns && LemmaColumn(words.columns) in words.columns
    ensures var ws := CopyWords(words.rows, LemmaColumn(words.columns));
      var select := EntrySelect(SurfaceColumn(entries.columns));
      (ws.Failure? ==> Migrate(words, entries) == Failure(ws.error))
      && (ws.Success? && (exists k :: 0 <= k < |select| && select[k] !in entries.columns) ==>
            Migrate(words, entries).Failure? && Migrate(words, entries).error.NoSuchColumn?
            && Migrate(words, entries).error.column in select
            && Migrate(words, entries).error.column !in entries.columns)
      && (ws.Success? && EntryColumns - {"surface_form"} <= entries.columns && SurfaceColumn(entries.columns) in entries.columns ==>
            Migrate(words, entries) == Success(Both(ws.value, CopyEntries(entries.rows, SurfaceColumn(entries.columns)))))
  {
    SelectedAll(SurfaceColumn(entries.columns), entries.columns);
  }

  /**
   * On a legacy file with both tables, every word takes its lemma from
   * `normalized_text` and keeps an integer id (a NULL one gets the next rowid), no two
   * words share an id, and every kept entry takes its surface from `display_text`.
   */
  lemma MigrateLegacyColumns(words: Table, entries: Table)
    requires WellFormed(words) && WellFormed(entries)
    requires "id" in words.columns && "normalized_text" in words.columns
    requires EntryColumns - {"surface_form"} <= entries.columns && "display_text" in entries.columns
    requires Migrate(words, entries).Success?
    ensures var out := Migrate(words, entries).value;
      out.Both?
      && |out.words| == |words.rows|
      && (forall k :: 0 <= k < |words.rows| ==>
            WordFrom(out.words, k, words.rows[k], "normalized_text"))
      && (forall i, j :: 0 <= i < j < |out.words| ==> out.words[i].id != out.words[j].id)
      && (forall x :: x in out.entries ==>
            x.frequency != Null && exists k :: 0 <= k < |entries.rows| && x.surface == TextAffinity(entries.rows[k]["display_text"])
                                                && x.id == entries.rows[k]["id"])
  {
    CopyWordsMapsColumns(words.rows, "normalized_text");
    CopyWordsUnique(words.rows, "normalized_text");
    CopyEntriesFacts(entries.rows, "display_text");
  }

  /**
   * With a words table but no category_words, only the words are rebuilt, from
   * `normalized_text` whatever the columns are, with ids as the key assigns them, and
   * nothing else is produced.
   */
  lemma MigrateWordsOnly(words: Table, entries: Table)
    requires WellFormed(words) && WellFormed(entries)
    requires words.columns != {} && "id" in words.columns && entries.columns == {}
    ensures "normalized_text" !in words.columns ==> Migrate(words, entries) == Failure(NoSuchColumn("normalized_text"))
    ensures Migrate(words, entries).Success? ==>
      var out := Migrate(words, entries).value;
      out.WordsOnly? && |out.words| == |words.rows|
      && (forall k :: 0 <= k < |words.rows| ==>
           WordFrom(out.words, k, words.rows[k], "normalized_text"))
      && forall i, j :: 0 <= i < j < |out.words| ==> out.words[i].id != out.words[j].id
  {
    if Migrate(words, entries).Success? {
      CopyWordsMapsColumns(words.rows, "normalized_text");
      CopyWordsUnique(words.rows, "normalized_text");
    }
  }
}

/**
 * `export_storage_to_ods`: the store's words written back out as spreadsheets, either
 * one `<dir>/<category>.ods` per lexical category or one consolidated sheet of
 * (category, word) rows under a header.
 */
module OdsExporter {
  import opened Wrappers
  import opened Text
  import Vocabulary
  import opened OdsCodec
  import opened OdsStore
  import opened SqliteQueries
  import opened SqliteStorage

  const PerCategoryMode := "per_category"
  const ConsolidatedMode := "consolidated"
  const ModeError := "mode must be 'per_category' or 'consolidated'"

  /** The header row of the consolidated sheet. */
  const Header: seq<Value> := [Str("category"), Str("word")]

  /** The dict the export returns: its mode and its `files` entries, in insertion order. */
  datatype Exported = Exported(mode: string, files: seq<(string, string)>)

  /** `words_by_category.get(category, [])`. */
  function WordsFor(m: map<string, seq<string>>, key: string): seq<string> {
    if key in m then m[key] else []
  }

  // ---------------------------------------------------------------------------
  // _get_words_map
  // ---------------------------------------------------------------------------

  /** Every lexical category is in the map, with the category's listing in the store. */
  ghost predicate StoredWords(store: Store, m: map<string, seq<string>>)
    reads store
  {
    forall c :: c in Vocabulary.LexicalCategories ==> c in m && store.Lists(c, m[c])
  }

  /** `get_words(category)` with no search, limit or offset lists the whole category. */
  lemma FullPageLists(store: Store, c: string, surfaces: seq<string>)
    requires c in store.categoryIds
    requires store.PageOf(store.categoryIds[c], store.FilterFor(None), None, 0, surfaces)
    ensures store.Lists(c, surfaces)
  {
    var cid := store.categoryIds[c];
    var listing :| IsListing(listing, store.Selected(cid, store.FilterFor(None)))
      && surfaces == Vocabulary.Firsts(Page(listing, None, 0));
    assert store.Selected(cid, All) == store.Entries(cid);
    assert Page(listing, None, 0) == listing;
  }

  /**
   * `_get_words_map`: `get_words_by_category()` when the storage has it (`byCategory`),
   * otherwise `get_words` on each lexical category.
   */
  method GetWordsMap(store: Store, byCategory: bool) returns (m: map<string, seq<string>>)
    requires store.Valid()
    ensures StoredWords(store, m)
    ensures byCategory ==> m.Keys == store.Reported() && forall c :: c in m ==> store.Lists(c, m[c])
    ensures !byCategory ==> m.Keys == set c | c in Vocabulary.LexicalCategories
  {
    if byCategory {
      m := store.GetWordsByCategory();
      return;
    }
    m := GetEach(store, Vocabulary.LexicalCategories);
  }

  /** The fallback loop of `_get_words_map`: `get_words` on each key in turn. */
  method GetEach(store: Store, keys: seq<string>) returns (m: map<string, seq<string>>)
    requires forall k :: k in keys ==> k in store.categoryIds
    ensures m.Keys == set c | c in keys
    ensures forall c :: c in m ==> store.Lists(c, m[c])
  {
    m := map[];
    for i := 0 to |keys|
      invariant m.Keys == set c | c in keys[..i]
      invariant forall c :: c in m ==> store.Lists(c, m[c])
    {
      assert keys[..i + 1] == keys[..i] + [keys[i]];
      var r := store.GetWords(keys[i], None, None, 0);
      FullPageLists(store, keys[i], r.value);
      m := m[keys[i] := r.value];
    }
    assert keys[..|keys|] == keys;
  }

  // ---------------------------------------------------------------------------
  // _export_per_category
  // ---------------------------------------------------------------------------

  /** The files after writing each key's words to `<dir>/<key>.ods`, key after key. */
  function PerCategoryFiles(files: map<string, File>, dir: string, m: map<string, seq<string>>, keys: seq<string>)
    : map<string, File>
  {
    if keys == [] then files
    else
      var k := keys[|keys| - 1];
      PerCategoryFiles(files, dir, m, keys[..|keys| - 1])[ExportPath(dir, k) := OdsFile(OdsArchive(WordsContent(WordsFor(m, k))))]
  }

  /** `saved_files`: each key with its path, in key order. */
  function SavedPaths(dir: string, keys: seq<string>): (saved: seq<(string, string)>)
    ensures |saved| == |keys| && forall i :: 0 <= i < |keys| ==> saved[i] == (keys[i], ExportPath(dir, keys[i]))
  {
    seq(|keys|, i requires 0 <= i < |keys| => (keys[i], ExportPath(dir, keys[i])))
  }

  /**
   * After the loop every key's file holds that key's words, empty categories
   * included, and every other file is as it was.
   */
  lemma {:induction false} PerCategoryHas(files: map<string, File>, dir: string, m: map<string, seq<string>>,
                                          keys: seq<string>, path: string)
    requires forall k :: k in keys ==> PlainName(k)
    ensures path in PerCategoryFiles(files, dir, m, keys) <==> path in files || exists k :: k in keys && path == ExportPath(dir, k)
    ensures forall k :: k in keys && path == ExportPath(dir, k) ==>
      PerCategoryFiles(files, dir, m, keys)[path] == OdsFile(OdsArchive(WordsContent(WordsFor(m, k))))
    ensures (forall k :: k in keys ==> path != ExportPath(dir, k)) && path in files ==>
      PerCategoryFiles(files, dir, m, keys)[path] == files[path]
  {
    PerCategoryDomain(files, dir, m, keys, path);
    PerCategoryWritten(files, dir, m, keys, path);
    PerCategoryKept(files, dir, m, keys, path);
  }

  lemma {:induction false} PerCategoryDomain(files: map<string, File>, dir: string, m: map<string, seq<string>>,
                                             keys: seq<string>, path: string)
    ensures path in PerCategoryFiles(files, dir, m, keys) <==> path in files || exists k :: k in keys && path == ExportPath(dir, k)
  {
    if keys != [] {
      var init := keys[..|keys| - 1];
      assert keys == init + [keys[|keys| - 1]];
      PerCategoryDomain(files, dir, m, init, path);
    }
  }

  lemma {:induction false} PerCategoryWritten(files: map<string, File>, dir: string, m: map<string, seq<string>>,
                                              keys: seq<string>, path: string)
    requires forall k :: k in keys ==> PlainName(k)
    ensures forall k :: k in keys && path == ExportPath(dir, k) ==>
      path in PerCategoryFiles(files, dir, m, keys) && PerCategoryFiles(files, dir, m, keys)[path] == OdsFile(OdsArchive(WordsContent(WordsFor(m, k))))
  {
    if keys != [] {
      var init := keys[..|keys| - 1];
      var last := keys[|keys| - 1];
      assert keys == init + [last];
      PerCategoryWritten(files, dir, m, init, path);
      var before := PerCategoryFiles(files, dir, m, init);
      var after := PerCategoryFiles(files, dir, m, keys);
      assert after == before[ExportPath(dir, last) := OdsFile(OdsArchive(WordsContent(WordsFor(m, last))))];
      forall k | k in keys && path == ExportPath(dir, k)
        ensures path in after && after[path] == OdsFile(OdsArchive(WordsContent(WordsFor(m, k))))
      {
        if k != last {
          ExportPathsApart(dir, k, last);
          assert k in init;
        }
      }
    }
  }

  lemma {:induction false} PerCategoryKept(files: map<string, File>, dir: string, m: map<string, seq<string>>,
                                           keys: seq<string>, path: string)
    ensures (forall k :: k in keys ==> path != ExportPath(dir, k)) && path in files ==>
      path in PerCategoryFiles(files, dir, m, keys) && PerCategoryFiles(files, dir, m, keys)[path] == files[path]
  {
    if keys != [] {
      var init := keys[..|keys| - 1];
      var last := keys[|keys| - 1];
      assert keys == init + [last];
      PerCategoryKept(files, dir, m, init, path);
      PerCategoryDomain(files, dir, m, init, path);
    }
  }

  /** A per-category export reads back as the category's words, when they are clean. */
  lemma PerCategoryReadsBack(files: map<string, File>, dir: string, m: map<string, seq<string>>, keys: seq<string>, k: string)
    requires forall j :: j in keys ==> PlainName(j)
    requires k in keys && Clean(WordsFor(m, k))
    ensures ReadOds(PerCategoryFiles(files, dir, m, keys), ExportPath(dir, k)) == Success(WordsFor(m, k))
  {
    PerCategoryHas(files, dir, m, keys, ExportPath(dir, k));
    WordsRoundTrip(WordsFor(m, k));
  }

  /** `_export_per_category`'s loop, over the given keys. */
  method ExportPerCategory(disk: Disk, dir: string, m: map<string, seq<string>>, keys: seq<string>)
    returns (saved: seq<(string, string)>)
    requires disk.Valid()
    modifies disk
    ensures disk.Valid()
    ensures disk.files == PerCategoryFiles(old(disk.files), dir, m, keys)
    ensures saved == SavedPaths(dir, keys)
  {
    saved := [];
    for i := 0 to |keys|
      invariant disk.Valid()
      invariant disk.files == PerCategoryFiles(old(disk.files), dir, m, keys[..i])
      invariant saved == SavedPaths(dir, keys[..i])
    {
      assert keys[..i + 1][..i] == keys[..i];
      var category := keys[i];
      var words := WordsFor(m, category);
      var path := JoinPath(dir, category + ".ods");
      WriteWordsToOds(disk, path, words);
      saved := saved + [(category, path)];
    }
    assert keys[..|keys|] == keys;
  }

  // ---------------------------------------------------------------------------
  // _export_consolidated
  // ---------------------------------------------------------------------------

  /** `[(category, word) for word in words]`. */
  function CategoryRows(key: string, words: seq<string>): (rows: seq<seq<Value>>)
    ensures |rows| == |words| && forall i :: 0 <= i < |words| ==> rows[i] == [Str(key), Str(words[i])]
  {
    seq(|words|, i requires 0 <= i < |words| => [Str(key), Str(words[i])])
  }

  /** The consolidated rows: each key's rows, key after key. */
  function ConsolidatedRows(m: map<string, seq<string>>, keys: seq<string>): seq<seq<Value>> {
    if keys == [] then []
    else
      var k := keys[|keys| - 1];
      ConsolidatedRows(m, keys[..|keys| - 1]) + CategoryRows(k, WordsFor(m, k))
  }

  /** The number of words of the keys' categories. */
  function TotalWords(m: map<string, seq<string>>, keys: seq<string>): nat {
    if keys == [] then 0 else TotalWords(m, keys[..|keys| - 1]) + |WordsFor(m, keys[|keys| - 1])|
  }

  /** The consolidated table has the header row and then one row per word. */
  lemma {:induction false} ConsolidatedCount(m: map<string, seq<string>>, keys: seq<string>)
    ensures |HeadedRows(ConsolidatedRows(m, keys), Header)| == 1 + TotalWords(m, keys)
    ensures HeadedRows(ConsolidatedRows(m, keys), Header)[0] == Header
  {
    if keys != [] {
      ConsolidatedCount(m, keys[..|keys| - 1]);
    }
  }

  /** A category's rows pair the category with each of its words, and nothing else. */
  lemma CategoryRowsHas(key: string, words: seq<string>, k: string, w: string)
    ensures [Str(k), Str(w)] in CategoryRows(key, words) <==> k == key && w in words
  {
    var rows := CategoryRows(key, words);
    if [Str(k), Str(w)] in rows {
      var i :| 0 <= i < |rows| && rows[i] == [Str(k), Str(w)];
      assert rows[i][1] == Str(words[i]);
    }
    if k == key && w in words {
      var i :| 0 <= i < |words| && words[i] == w;
      assert rows[i] == [Str(k), Str(w)];
    }
  }

  /** A row is in the consolidated table exactly when it pairs one of the keys with one of that key's words. */
  lemma {:induction false} ConsolidatedHas(m: map<string, seq<string>>, keys: seq<string>, k: string, w: string)
    ensures [Str(k), Str(w)] in ConsolidatedRows(m, keys) <==> k in keys && w in WordsFor(m, k)
  {
    if keys != [] {
      var init := keys[..|keys| - 1];
      var last := keys[|keys| - 1];
      ConsolidatedHas(m, init, k, w);
      CategoryRowsHas(last, WordsFor(m, last), k, w);
      assert keys == init + [last];
    }
  }

  /** `_export_consolidated`'s loop: the rows of each key in turn. */
  method GatherRows(m: map<string, seq<string>>, keys: seq<string>) returns (rows: seq<seq<Value>>)
    ensures rows == ConsolidatedRows(m, keys)
  {
    rows := [];
    for i := 0 to |keys|
      invariant rows == ConsolidatedRows(m, keys[..i])
    {
      assert keys[..i + 1][..i] == keys[..i];
      var words := WordsFor(m, keys[i]);
      rows := rows + CategoryRows(keys[i], words);
    }
    assert keys[..|keys|] == keys;
  }

  // ---------------------------------------------------------------------------
  // export_storage_to_ods
  // ---------------------------------------------------------------------------

  /**
   * `export_storage_to_ods`, with `byCategory` saying whether the storage has a
   * callable `get_words_by_category`. An unknown mode raises before anything is
   * written; `per_category` writes every lexical category's listing to its own file;
   * `consolidated` writes one sheet with the header and every (category, word) row.
   */
  method ExportStorageToOds(disk: Disk, store: Store, dir: string, mode: string, consolidatedName: string, byCategory: bool)
    returns (r: Result<Exported, string>)
    requires disk.Valid() && store.Valid()
    modifies disk
    ensures disk.Valid()
    ensures mode != PerCategoryMode && mode != ConsolidatedMode ==> r == Failure(ModeError) && disk.files == old(disk.files)
    ensures mode == PerCategoryMode ==>
      r == Success(Exported(PerCategoryMode, SavedPaths(dir, Vocabulary.LexicalCategories)))
      && exists m :: StoredWords(store, m)
           && disk.files == PerCategoryFiles(old(disk.files), dir, m, Vocabulary.LexicalCategories)
    ensures mode == ConsolidatedMode ==>
      r == Success(Exported(ConsolidatedMode, [("consolidated", JoinPath(dir, consolidatedName))]))
      && exists m :: StoredWords(store, m)
           && disk.files == old(disk.files)[JoinPath(dir, consolidatedName) :=
                OdsFile(OdsArchive(RowsContent(HeadedRows(ConsolidatedRows(m, Vocabulary.LexicalCategories), Header))))]
  {
    if mode != PerCategoryMode && mode != ConsolidatedMode {
      return Failure(ModeError);
    }
    var m := GetWordsMap(store, byCategory);
    if mode == PerCategoryMode {
      var saved := ExportPerCategory(disk, dir, m, Vocabulary.LexicalCategories);
      return Success(Exported(PerCategoryMode, saved));
    }
    var rows := GatherRows(m, Vocabulary.LexicalCategories);
    var path := JoinPath(dir, consolidatedName);
    WriteRowsToOds(disk, path, rows, Header);
    r := Success(Exported(ConsolidatedMode, [("consolidated", path)]));
  }

  /**
   * After a per-category export every lexical category's file reads back as its
   * listing in the store, when the listed words are clean.
   */
  lemma ExportReadsBack(files: map<string, File>, dir: string, store: Store, m: map<string, seq<string>>, c: string)
    requires StoredWords(store, m)
    requires c in Vocabulary.LexicalCategories && Clean(m[c])
    ensures store.Lists(c, m[c])
    ensures ReadOds(PerCategoryFiles(files, dir, m, Vocabulary.LexicalCategories), ExportPath(dir, c)) == Success(m[c])
  {
    CategoriesPlain();
    PerCategoryReadsBack(files, dir, m, Vocabulary.LexicalCategories, c);
  }
}

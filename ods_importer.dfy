/**
 * `import_ods_to_storage`: the one-way migration of a directory of legacy per-category
 * word files into the SQLite store. Each lexical category is looked up as
 * `<dir>/<category>.ods`, else `<dir>/<category>.txt`; a read error is reported and the
 * category skipped; the other categories' words are filtered and merged into the store
 * under the source `ods_import`, with one `merge_categories` call when the store has
 * it and one `merge_words` call per category otherwise.
 */
module OdsImporter {
  import opened Wrappers
  import opened Text
  import Vocabulary
  import opened OdsCodec
  import opened OdsStore
  import opened SqliteRows
  import opened SqliteStorage

  /** The `source` the merged rows are written with. */
  const ImportSource := "ods_import"

  /** Which file a category's words came from. */
  datatype Source = FromSpreadsheet | FromText

  /** `category_meta[category]` before the merge. */
  datatype Meta = Meta(source: Source, inputCount: nat, uniqueImported: nat)

  /** `report["categories"][category]`: the meta with the count the merge returned. */
  datatype CategoryReport = CategoryReport(source: Source, inputCount: nat, uniqueImported: nat, added: nat)

  /** An entry of `report["errors"]`. */
  datatype ReadError = ReadError(path: string, error: string)

  /** `report["malformed"]`. */
  datatype Malformed = Malformed(count: nat, examples: seq<string>)

  /** What the loop over the categories has collected before the merge. */
  datatype Scan = Scan(pending: seq<(string, seq<string>)>, metas: seq<Meta>, skipped: seq<string>,
                       errors: seq<ReadError>, malformed: Malformed)

  /** The report `import_ods_to_storage` returns. */
  datatype Report = Report(inputDir: string, categories: seq<(string, CategoryReport)>, skippedFiles: seq<string>,
                           errors: seq<ReadError>, malformed: Malformed, totalAdded: nat)

  // ---------------------------------------------------------------------------
  // Finding and reading a category's file
  // ---------------------------------------------------------------------------

  /** `os.path.join(input_dir, f"{category}.txt")`; the `.ods` path is `ExportPath`. */
  function TxtImportPath(dir: string, key: string): string {
    JoinPath(dir, key + ".txt")
  }

  /**
   * `_safe_read`: the reader's words and no error, or no words and the text of the
   * exception it raised.
   */
  function SafeRead(r: Result<seq<string>, string>): (p: (seq<string>, Option<string>))
    ensures p.1.None? <==> r.Success?
    ensures r.Success? ==> p.0 == r.value
    ensures r.Failure? ==> p.0 == [] && p.1 == Some(r.error)
  {
    match r
    case Success(words) => (words, None)
    case Failure(e) => ([], Some(e))
  }

  /** The file a category was read from and what `_safe_read` gave for it. */
  datatype Probe = Probe(source: Source, path: string, words: seq<string>, error: Option<string>)

  /**
   * The branch of the loop for one category: the spreadsheet when it exists, else the
   * text file when it exists, else nothing (the category is skipped silently).
   */
  function ProbeCategory(files: map<string, File>, dir: string, key: string): (r: Option<Probe>)
    ensures r.None? <==> ExportPath(dir, key) !in files && TxtImportPath(dir, key) !in files
    ensures ExportPath(dir, key) in files ==>
      r.Some? && r.value.source == FromSpreadsheet && r.value.path == ExportPath(dir, key)
      && (r.value.words, r.value.error) == SafeRead(ReadOds(files, ExportPath(dir, key)))
    ensures ExportPath(dir, key) !in files && TxtImportPath(dir, key) in files ==>
      r.Some? && r.value.source == FromText && r.value.path == TxtImportPath(dir, key)
      && (r.value.words, r.value.error) == SafeRead(ReadTxt(files, TxtImportPath(dir, key)))
  {
    var odsPath := ExportPath(dir, key);
    var txtPath := TxtImportPath(dir, key);
    if odsPath in files then
      var (words, error) := SafeRead(ReadOds(files, odsPath));
      Some(Probe(FromSpreadsheet, odsPath, words, error))
    else if txtPath in files then
      var (words, error) := SafeRead(ReadTxt(files, txtPath));
      Some(Probe(FromText, txtPath, words, error))
    else None
  }

  /** `if error:` — an exception whose text is empty does not count as an error. */
  predicate Failed(p: Probe) {
    p.error.Some? && p.error.value != ""
  }

  /** The category has a file that was read without error: it is imported. */
  predicate Imports(files: map<string, File>, dir: string, key: string) {
    var p := ProbeCategory(files, dir, key);
    p.Some? && !Failed(p.value)
  }

  // ---------------------------------------------------------------------------
  // _filter_import_words and _cap_examples
  // ---------------------------------------------------------------------------

  /** The words as the list of strings the readers return. */
  function AsValues(ws: seq<string>): (vs: seq<Value>)
    ensures |vs| == |ws| && forall i :: 0 <= i < |ws| ==> vs[i] == Str(ws[i])
  {
    seq(|ws|, i requires 0 <= i < |ws| => Str(ws[i]))
  }

  /** What one entry adds to the malformed list: `""` for None, `str(word)` for a non-string, and the empty string itself. */
  function Rejected(v: Value): seq<string> {
    match v
    case Null => [""]
    case Other(text) => [text]
    case Str(s) => if s == "" then [""] else []
  }

  /** The words `_filter_import_words` keeps: the non-empty strings, unchanged and in order. */
  function KeptWords(words: seq<Value>): seq<string> {
    if words == [] then []
    else
      var last := words[|words| - 1];
      KeptWords(words[..|words| - 1]) + (if last.Str? && last.s != "" then [last.s] else [])
  }

  /** The malformed entries, in order. */
  function MalformedWords(words: seq<Value>): seq<string> {
    if words == [] then [] else MalformedWords(words[..|words| - 1]) + Rejected(words[|words| - 1])
  }

  /** `_filter_import_words`: the loop sorting each entry into the kept or the malformed list. */
  method FilterImportWords(words: seq<Value>) returns (cleaned: seq<string>, malformed: seq<string>)
    ensures cleaned == KeptWords(words) && malformed == MalformedWords(words)
  {
    cleaned, malformed := [], [];
    for i := 0 to |words|
      invariant cleaned == KeptWords(words[..i]) && malformed == MalformedWords(words[..i])
    {
      assert words[..i + 1][..i] == words[..i];
      var word := words[i];
      if !word.Str? {
        malformed := malformed + [if word.Null? then "" else word.text];
      } else if word.s == "" {
        malformed := malformed + [word.s];
      } else {
        cleaned := cleaned + [word.s];
      }
    }
    assert words[..|words|] == words;
  }

  /**
   * Every entry lands in exactly one list; a word is kept exactly when some entry is
   * that non-empty string; nothing kept is empty.
   */
  lemma {:induction false} FilterPartition(words: seq<Value>)
    ensures |KeptWords(words)| + |MalformedWords(words)| == |words|
    ensures forall w :: w in KeptWords(words) <==> w != "" && Str(w) in words
    ensures "" !in KeptWords(words)
  {
    if words != [] {
      var init := words[..|words| - 1];
      FilterPartition(init);
      assert words == init + [words[|words| - 1]];
    }
  }

  /** Words that are all non-empty strings pass through whole, and nothing is malformed. */
  lemma {:induction false} NonEmptyWordsAllKept(ws: seq<string>)
    requires forall k :: 0 <= k < |ws| ==> ws[k] != ""
    ensures KeptWords(AsValues(ws)) == ws && MalformedWords(AsValues(ws)) == []
  {
    if ws != [] {
      var init := ws[..|ws| - 1];
      assert AsValues(ws)[..|ws| - 1] == AsValues(init);
      NonEmptyWordsAllKept(init);
    }
  }

  /** What the readers return is never malformed. */
  lemma ReadWordsNeverMalformed(files: map<string, File>, dir: string, key: string)
    requires ProbeCategory(files, dir, key).Some?
    ensures var ws := ProbeCategory(files, dir, key).value.words;
      KeptWords(AsValues(ws)) == ws && MalformedWords(AsValues(ws)) == []
  {
    ReadersClean(files, ExportPath(dir, key));
    ReadersClean(files, TxtImportPath(dir, key));
    NonEmptyWordsAllKept(ProbeCategory(files, dir, key).value.words);
  }

  /** `_cap_examples`: at most `remaining` examples from the front, none when nothing remains. */
  function CapExamples(examples: seq<string>, remaining: int): (r: seq<string>)
    ensures remaining <= 0 ==> r == []
    ensures |r| <= |examples| && (remaining > 0 ==> |r| <= remaining)
    ensures remaining > 0 && remaining >= |examples| ==> r == examples
    ensures r == examples[..|r|]
  {
    if remaining <= 0 then [] else if remaining >= |examples| then examples else examples[..remaining]
  }

  /** The first five entries of a list: what the report keeps as examples. */
  function FirstFive(s: seq<string>): (r: seq<string>)
    ensures |r| <= 5
  {
    if |s| <= 5 then s else s[..5]
  }

  /** The malformed count grows by the category's entries; examples are topped up to five. */
  function AddMalformed(m: Malformed, bad: seq<string>): Malformed {
    Malformed(m.count + |bad|,
              if bad != [] then m.examples + CapExamples(bad, 5 - |m.examples|) else m.examples)
  }

  /**
   * Topping up keeps the report's malformed entry as the count of all malformed entries
   * seen so far with the first five of them as examples.
   */
  lemma MalformedStep(m: Malformed, seen: seq<string>, bad: seq<string>)
    requires m == Malformed(|seen|, FirstFive(seen))
    ensures AddMalformed(m, bad) == Malformed(|seen + bad|, FirstFive(seen + bad))
  {
    if bad != [] {
      var all := seen + bad;
      if |seen| >= 5 {
        assert FirstFive(all) == all[..5] == seen[..5];
      } else {
        var r := CapExamples(bad, 5 - |seen|);
        assert r == bad[..|r|];
        if |all| <= 5 {
          assert r == bad;
        } else {
          assert |r| == 5 - |seen|;
          assert seen + r == all[..5];
        }
      }
    }
  }

  // ---------------------------------------------------------------------------
  // The loop over the categories
  // ---------------------------------------------------------------------------

  function EmptyScan(): Scan {
    Scan([], [], [], [], Malformed(0, []))
  }

  /** One turn of the loop: skip, record an error, or queue the category's filtered words. */
  function ScanStep(s: Scan, files: map<string, File>, dir: string, key: string): Scan {
    match ProbeCategory(files, dir, key)
    case None => s
    case Some(p) =>
      if Failed(p) then
        s.(skipped := s.skipped + [p.path], errors := s.errors + [ReadError(p.path, p.error.value)])
      else
        var values := AsValues(p.words);
        var kept := KeptWords(values);
        s.(pending := s.pending + [(key, kept)],
           metas := s.metas + [Meta(p.source, |p.words|, |kept|)],
           malformed := AddMalformed(s.malformed, MalformedWords(values)))
  }

  /** The loop over `keys`, turn by turn. */
  function ScanAll(files: map<string, File>, dir: string, keys: seq<string>): (s: Scan)
    ensures |s.metas| == |s.pending|
    ensures |s.skipped| == |s.errors|
  {
    if keys == [] then EmptyScan()
    else ScanStep(ScanAll(files, dir, keys[..|keys| - 1]), files, dir, keys[|keys| - 1])
  }

  lemma ScanAllStep(files: map<string, File>, dir: string, keys: seq<string>, i: nat)
    requires i < |keys|
    ensures ScanAll(files, dir, keys[..i + 1]) == ScanStep(ScanAll(files, dir, keys[..i]), files, dir, keys[i])
  {
    assert keys[..i + 1][..i] == keys[..i];
  }

  /** The keys that are imported, in the order given: an independent reference for the queue. */
  function ImportedKeys(files: map<string, File>, dir: string, keys: seq<string>): seq<string> {
    if keys == [] then []
    else
      var k := keys[|keys| - 1];
      ImportedKeys(files, dir, keys[..|keys| - 1]) + (if Imports(files, dir, k) then [k] else [])
  }

  /** The malformed entries of every imported category, in category order. */
  function AllMalformed(files: map<string, File>, dir: string, keys: seq<string>): seq<string> {
    if keys == [] then []
    else
      var k := keys[|keys| - 1];
      var p := ProbeCategory(files, dir, k);
      AllMalformed(files, dir, keys[..|keys| - 1])
      + (if p.Some? && !Failed(p.value) then MalformedWords(AsValues(p.value.words)) else [])
  }

  /**
   * The categories are visited in the order given and queued exactly when they are
   * imported: the queue is the imported keys in order, each with its filtered words.
   */
  lemma {:induction false} ScanQueue(files: map<string, File>, dir: string, keys: seq<string>)
    ensures Vocabulary.Firsts(ScanAll(files, dir, keys).pending) == ImportedKeys(files, dir, keys)
  {
    if keys != [] {
      var init := keys[..|keys| - 1];
      ScanQueue(files, dir, init);
      var k := keys[|keys| - 1];
      if Imports(files, dir, k) {
        var prev := ScanAll(files, dir, init).pending;
        var entry := ScanAll(files, dir, keys).pending[|prev|];
        assert ScanAll(files, dir, keys).pending == prev + [entry];
        PendingNamesSnoc(prev, entry);
      }
    }
  }

  lemma PendingNamesSnoc(pending: seq<(string, seq<string>)>, entry: (string, seq<string>))
    ensures Vocabulary.Firsts(pending + [entry]) == Vocabulary.Firsts(pending) + [entry.0]
  {
  }

  /** A queued entry: an imported category with its filtered words, and its meta. */
  predicate Queued(files: map<string, File>, dir: string, entry: (string, seq<string>), meta: Meta) {
    Imports(files, dir, entry.0)
    && var p := ProbeCategory(files, dir, entry.0).value;
    entry.1 == KeptWords(AsValues(p.words)) && meta == Meta(p.source, |p.words|, |entry.1|)
  }

  /** Each queued entry holds the category's words as filtered, and its meta says where they came from and how many there were. */
  lemma {:induction false} ScanQueueEntries(files: map<string, File>, dir: string, keys: seq<string>)
    ensures forall j :: 0 <= j < |ScanAll(files, dir, keys).pending| ==>
      Queued(files, dir, ScanAll(files, dir, keys).pending[j], ScanAll(files, dir, keys).metas[j])
  {
    if keys != [] {
      ScanQueueEntries(files, dir, keys[..|keys| - 1]);
    }
  }

  /** A key is queued exactly when it is among the keys and imported. */
  lemma {:induction false} ImportedKeysHas(files: map<string, File>, dir: string, keys: seq<string>, k: string)
    ensures k in ImportedKeys(files, dir, keys) <==> k in keys && Imports(files, dir, k)
  {
    if keys != [] {
      var init := keys[..|keys| - 1];
      ImportedKeysHas(files, dir, init, k);
      assert keys == init + [keys[|keys| - 1]];
    }
  }

  /** Distinct keys are queued at most once each. */
  lemma {:induction false} ImportedKeysDistinct(files: map<string, File>, dir: string, keys: seq<string>)
    requires Vocabulary.Distinct(keys)
    ensures Vocabulary.Distinct(ImportedKeys(files, dir, keys))
  {
    if keys != [] {
      var init := keys[..|keys| - 1];
      var k := keys[|keys| - 1];
      assert Vocabulary.Distinct(init) by {
        forall i, j | 0 <= i < j < |init|
          ensures init[i] != init[j]
        {
          assert init[i] == keys[i] && init[j] == keys[j];
        }
      }
      ImportedKeysDistinct(files, dir, init);
      ImportedKeysHas(files, dir, init, k);
      assert k !in init by {
        forall i | 0 <= i < |init|
          ensures init[i] != k
        {
          assert init[i] == keys[i];
        }
      }
    }
  }

  /**
   * A path is skipped, with its error reported, exactly when it is the file some key
   * was read from and the read failed.
   */
  lemma {:induction false} ScanSkipped(files: map<string, File>, dir: string, keys: seq<string>)
    ensures forall j :: 0 <= j < |ScanAll(files, dir, keys).errors| ==>
      ScanAll(files, dir, keys).errors[j].path == ScanAll(files, dir, keys).skipped[j]
    ensures forall path, e :: ReadError(path, e) in ScanAll(files, dir, keys).errors <==>
      exists k :: k in keys && ProbeCategory(files, dir, k).Some? && Failed(ProbeCategory(files, dir, k).value)
        && ProbeCategory(files, dir, k).value.path == path && ProbeCategory(files, dir, k).value.error == Some(e)
  {
    if keys != [] {
      var init := keys[..|keys| - 1];
      var k := keys[|keys| - 1];
      ScanSkipped(files, dir, init);
      assert keys == init + [k];
      var prev := ScanAll(files, dir, init);
      var s := ScanAll(files, dir, keys);
      var p := ProbeCategory(files, dir, k);
      if p.Some? && Failed(p.value) {
        assert s.errors == prev.errors + [ReadError(p.value.path, p.value.error.value)];
      } else {
        assert s.errors == prev.errors;
      }
    }
  }

  /**
   * The report's malformed entry counts every malformed entry of every imported
   * category and keeps the first five as examples.
   */
  lemma {:induction false} ScanMalformed(files: map<string, File>, dir: string, keys: seq<string>)
    ensures ScanAll(files, dir, keys).malformed ==
      Malformed(|AllMalformed(files, dir, keys)|, FirstFive(AllMalformed(files, dir, keys)))
    ensures |ScanAll(files, dir, keys).malformed.examples| <= 5
  {
    if keys != [] {
      var init := keys[..|keys| - 1];
      var k := keys[|keys| - 1];
      ScanMalformed(files, dir, init);
      var p := ProbeCategory(files, dir, k);
      if p.Some? && !Failed(p.value) {
        MalformedStep(ScanAll(files, dir, init).malformed, AllMalformed(files, dir, init), MalformedWords(AsValues(p.value.words)));
      }
    }
  }

  /** Read from the files the readers write, nothing is ever malformed. */
  lemma {:induction false} NothingMalformed(files: map<string, File>, dir: string, keys: seq<string>)
    ensures AllMalformed(files, dir, keys) == []
    ensures ScanAll(files, dir, keys).malformed == Malformed(0, [])
  {
    if keys != [] {
      var k := keys[|keys| - 1];
      NothingMalformed(files, dir, keys[..|keys| - 1]);
      if ProbeCategory(files, dir, k).Some? {
        ReadWordsNeverMalformed(files, dir, k);
      }
    }
    ScanMalformed(files, dir, keys);
  }

  /** The branch that picks the file to read: the spreadsheet first, then the text file. */
  method ReadCategory(files: map<string, File>, dir: string, key: string) returns (p: Option<Probe>)
    ensures p == ProbeCategory(files, dir, key)
  {
    var odsPath := ExportPath(dir, key);
    var txtPath := TxtImportPath(dir, key);
    if odsPath in files {
      var read := SafeRead(ReadOds(files, odsPath));
      p := Some(Probe(FromSpreadsheet, odsPath, read.0, read.1));
    } else if txtPath in files {
      var read := SafeRead(ReadTxt(files, txtPath));
      p := Some(Probe(FromText, txtPath, read.0, read.1));
    } else {
      p := None;
    }
  }

  /** Queueing the words of a category that was read without error. */
  method QueueCategory(s: Scan, key: string, p: Probe) returns (s': Scan)
    ensures s' == s.(pending := s.pending + [(key, KeptWords(AsValues(p.words)))],
                     metas := s.metas + [Meta(p.source, |p.words|, |KeptWords(AsValues(p.words))|)],
                     malformed := AddMalformed(s.malformed, MalformedWords(AsValues(p.words))))
  {
    var cleaned, malformed := FilterImportWords(AsValues(p.words));
    var m := Malformed(s.malformed.count + |malformed|, s.malformed.examples);
    if malformed != [] {
      m := m.(examples := m.examples + CapExamples(malformed, 5 - |s.malformed.examples|));
    }
    s' := s.(pending := s.pending + [(key, cleaned)],
             metas := s.metas + [Meta(p.source, |p.words|, |cleaned|)],
             malformed := m);
  }

  /** One turn of the loop, as statements. */
  method ScanCategory(s: Scan, files: map<string, File>, dir: string, key: string) returns (s': Scan)
    ensures s' == ScanStep(s, files, dir, key)
  {
    var probe := ReadCategory(files, dir, key);
    if probe.None? {
      return s;
    }
    var p := probe.value;
    if p.error.Some? && p.error.value != "" {
      return s.(skipped := s.skipped + [p.path], errors := s.errors + [ReadError(p.path, p.error.value)]);
    }
    s' := QueueCategory(s, key, p);
  }

  /** The loop over the categories. */
  method ScanCategories(files: map<string, File>, dir: string, keys: seq<string>) returns (s: Scan)
    ensures s == ScanAll(files, dir, keys)
  {
    s := EmptyScan();
    for i := 0 to |keys|
      invariant s == ScanAll(files, dir, keys[..i])
    {
      ScanAllStep(files, dir, keys, i);
      s := ScanCategory(s, files, dir, keys[i]);
    }
    assert keys[..|keys|] == keys;
  }

  // ---------------------------------------------------------------------------
  // The merge
  // ---------------------------------------------------------------------------

  /** `pending_imports` as the dict `merge_categories` is given. */
  function Items(pending: seq<(string, seq<string>)>): (items: seq<(string, seq<Value>)>)
    ensures |items| == |pending|
    ensures forall j :: 0 <= j < |pending| ==> items[j] == (pending[j].0, AsValues(pending[j].1))
    ensures Vocabulary.Firsts(items) == Vocabulary.Firsts(pending)
  {
    seq(|pending|, j requires 0 <= j < |pending| => (pending[j].0, AsValues(pending[j].1)))
  }

  function WithAdded(m: Meta, added: nat): CategoryReport {
    CategoryReport(m.source, m.inputCount, m.uniqueImported, added)
  }

  /** `report["total_added"]`: the sum of the categories' `added`. */
  function SumAdded(categories: seq<(string, CategoryReport)>): nat {
    if categories == [] then 0
    else SumAdded(categories[..|categories| - 1]) + categories[|categories| - 1].1.added
  }

  lemma SumAddedStep(categories: seq<(string, CategoryReport)>, c: (string, CategoryReport))
    ensures SumAdded(categories + [c]) == SumAdded(categories) + c.1.added
  {
    assert (categories + [c])[..|categories|] == categories;
  }

  /** The report entries: each queued category with its meta and the count it was given. */
  predicate Reports(categories: seq<(string, CategoryReport)>, pending: seq<(string, seq<string>)>, metas: seq<Meta>)
  {
    |categories| == |pending| == |metas|
    && forall j :: 0 <= j < |pending| ==>
      categories[j] == (pending[j].0, WithAdded(metas[j], categories[j].1.added))
  }

  /**
   * The first `n` `merge_words` calls, one per queued category in order: call `j` takes
   * the words table and rows from `trace[j]` to `trace[j + 1]` and returns `added[j]`.
   */
  predicate MergedInTurn(casefold: string -> string, categoryIds: map<string, nat>, pending: seq<(string, seq<string>)>,
                         n: nat, trace: seq<(map<string, nat>, Rows)>, added: seq<nat>)
  {
    n <= |pending| && |trace| == n + 1 && |added| == n
    && forall j :: 0 <= j < n ==>
      InsertOutcome(Prepare(casefold, AsValues(pending[j].1)), pending[j].0, categoryIds,
                    trace[j].0, trace[j + 1].0, trace[j].1, trace[j + 1].1, Some(ImportSource), true, Success(added[j]))
  }

  function AddedOf(categories: seq<(string, CategoryReport)>): (added: seq<nat>)
    ensures |added| == |categories| && forall j :: 0 <= j < |categories| ==> added[j] == categories[j].1.added
  {
    seq(|categories|, j requires 0 <= j < |categories| => categories[j].1.added)
  }

  lemma AddedOfStep(categories: seq<(string, CategoryReport)>, c: (string, CategoryReport))
    ensures AddedOf(categories + [c]) == AddedOf(categories) + [c.1.added]
  {
    assert forall j :: 0 <= j < |categories| ==> (categories + [c])[j] == categories[j];
  }

  /** One more `merge_words` call, for the next queued category, extends the trace. */
  lemma MergedInTurnStep(casefold: string -> string, categoryIds: map<string, nat>, pending: seq<(string, seq<string>)>,
                         n: nat, trace: seq<(map<string, nat>, Rows)>, added: seq<nat>,
                         w': map<string, nat>, rows': Rows, a: nat)
    requires MergedInTurn(casefold, categoryIds, pending, n, trace, added) && n < |pending|
    requires InsertOutcome(Prepare(casefold, AsValues(pending[n].1)), pending[n].0, categoryIds,
                           trace[n].0, w', trace[n].1, rows', Some(ImportSource), true, Success(a))
    ensures MergedInTurn(casefold, categoryIds, pending, n + 1, trace + [(w', rows')], added + [a])
  {
    var trace' := trace + [(w', rows')];
    var added' := added + [a];
    forall j | 0 <= j < n + 1
      ensures InsertOutcome(Prepare(casefold, AsValues(pending[j].1)), pending[j].0, categoryIds,
                            trace'[j].0, trace'[j + 1].0, trace'[j].1, trace'[j + 1].1, Some(ImportSource), true, Success(added'[j]))
    {
      assert trace'[j] == trace[j] && added'[j] == if j < n then added[j] else a;
      if j < n {
        assert trace'[j + 1] == trace[j + 1];
      }
    }
  }

  /** Every queued category is a lexical one, so the store knows it. */
  predicate Lexical(pending: seq<(string, seq<string>)>) {
    forall j :: 0 <= j < |pending| ==> pending[j].0 in Vocabulary.LexicalCategories
  }

  /** The `merge_categories` branch: one call with the whole queue, then the counts read back. */
  method MergeBulk(store: Store, pending: seq<(string, seq<string>)>, metas: seq<Meta>)
    returns (categories: seq<(string, CategoryReport)>, total: nat, counts: map<string, nat>)
    requires store.Valid() && |metas| == |pending| && Lexical(pending)
    requires Vocabulary.Distinct(Vocabulary.Firsts(pending))
    modifies store
    ensures store.Valid() && store.categoryIds == old(store.categoryIds)
    ensures MergeOutcome(store.casefold, Dict(Items(pending)), store.categoryIds, old(store.wordIds), store.wordIds,
                         old(store.rows), store.rows, Some(ImportSource), Success(counts))
    ensures Reports(categories, pending, metas)
    ensures forall j :: 0 <= j < |pending| ==> categories[j].1.added == counts[pending[j].0]
    ensures total == SumAdded(categories)
  {
    var items := Items(pending);
    QueueKnown(store.casefold, pending, store.categoryIds);
    var r := store.MergeCategories(Dict(items), Some(ImportSource));
    assert r.Success?;
    counts := r.value;
    assert forall j :: 0 <= j < |pending| ==> pending[j].0 in counts by {
      forall j | 0 <= j < |pending|
        ensures pending[j].0 in counts
      {
        assert Vocabulary.Firsts(items)[j] == pending[j].0;
      }
    }
    categories, total := ReportCounts(pending, metas, counts);
  }

  /** Every queued category is known to a valid store, so `merge_categories` does not raise. */
  lemma QueueKnown(casefold: string -> string, pending: seq<(string, seq<string>)>, categoryIds: map<string, nat>)
    requires Lexical(pending)
    requires forall c :: c in Vocabulary.LexicalCategories ==> c in categoryIds
    ensures FirstUnknown(Groups(casefold, Items(pending)), categoryIds).None?
  {
    var items := Items(pending);
    var groups := Groups(casefold, items);
    GroupsFromItems(casefold, items);
    FirstUnknownNone(groups, categoryIds);
    forall k | 0 <= k < |groups|
      ensures groups[k].0 in categoryIds
    {
      var j :| 0 <= j < |items| && Vocabulary.Firsts(items)[j] == groups[k].0;
      assert pending[j].0 == groups[k].0;
    }
  }

  /** The loop over `category_meta` after `merge_categories`: each category gets `added_counts.get(category, 0)`. */
  method ReportCounts(pending: seq<(string, seq<string>)>, metas: seq<Meta>, counts: map<string, nat>)
    returns (categories: seq<(string, CategoryReport)>, total: nat)
    requires |metas| == |pending|
    ensures Reports(categories, pending, metas)
    ensures forall j :: 0 <= j < |pending| ==>
      categories[j].1.added == if pending[j].0 in counts then counts[pending[j].0] else 0
    ensures total == SumAdded(categories)
  {
    categories, total := [], 0;
    for j := 0 to |pending|
      invariant |categories| == j
      invariant forall i :: 0 <= i < j ==>
        categories[i] == (pending[i].0, WithAdded(metas[i], if pending[i].0 in counts then counts[pending[i].0] else 0))
      invariant total == SumAdded(categories)
    {
      var category := pending[j].0;
      var added := if category in counts then counts[category] else 0;
      SumAddedStep(categories, (category, WithAdded(metas[j], added)));
      categories := categories + [(category, WithAdded(metas[j], added))];
      total := total + added;
    }
  }

  /** The `merge_words` branch: one call per queued category, in queue order. */
  method MergeEach(store: Store, pending: seq<(string, seq<string>)>, metas: seq<Meta>)
    returns (categories: seq<(string, CategoryReport)>, total: nat, ghost trace: seq<(map<string, nat>, Rows)>)
    requires store.Valid() && |metas| == |pending| && Lexical(pending)
    modifies store
    ensures store.Valid() && store.categoryIds == old(store.categoryIds)
    ensures MergedInTurn(store.casefold, store.categoryIds, pending, |pending|, trace, AddedOf(categories))
    ensures trace[0] == (old(store.wordIds), old(store.rows)) && trace[|pending|] == (store.wordIds, store.rows)
    ensures Reports(categories, pending, metas)
    ensures total == SumAdded(categories)
  {
    categories, total := [], 0;
    trace := [(store.wordIds, store.rows)];
    for j := 0 to |pending|
      invariant store.Valid() && store.categoryIds == old(store.categoryIds)
      invariant MergedInTurn(store.casefold, store.categoryIds, pending, j, trace, AddedOf(categories))
      invariant trace[0] == (old(store.wordIds), old(store.rows)) && trace[j] == (store.wordIds, store.rows)
      invariant |categories| == j
      invariant forall i :: 0 <= i < j ==> categories[i] == (pending[i].0, WithAdded(metas[i], categories[i].1.added))
      invariant total == SumAdded(categories)
    {
      var (category, words) := pending[j];
      assert category in store.categoryIds;
      var r := store.MergeWords(category, AsValues(words), Some(ImportSource));
      assert r.Success?;
      var added := r.value;
      MergedInTurnStep(store.casefold, store.categoryIds, pending, j, trace, AddedOf(categories), store.wordIds, store.rows, added);
      SumAddedStep(categories, (category, WithAdded(metas[j], added)));
      AddedOfStep(categories, (category, WithAdded(metas[j], added)));
      categories := categories + [(category, WithAdded(metas[j], added))];
      total := total + added;
      trace := trace + [(store.wordIds, store.rows)];
    }
  }

  /**
   * `import_ods_to_storage`, with `bulk` saying whether the storage has a callable
   * `merge_categories`. The report lists each imported category, in category order,
   * with where its words came from, how many were read and kept, and what the merge
   * added; the store is written once with the whole queue, or once per category; with
   * nothing queued it is left alone.
   */
  method ImportOdsToStorage(files: map<string, File>, dir: string, store: Store, bulk: bool) returns (report: Report)
    requires store.Valid()
    modifies store
    ensures store.Valid() && store.categoryIds == old(store.categoryIds)
    ensures var s := ScanAll(files, dir, Vocabulary.LexicalCategories);
      report.inputDir == dir && report.skippedFiles == s.skipped && report.errors == s.errors
      && report.malformed == s.malformed && Reports(report.categories, s.pending, s.metas)
      && report.totalAdded == SumAdded(report.categories)
      && (s.pending == [] ==> store.wordIds == old(store.wordIds) && store.rows == old(store.rows))
      && (bulk && s.pending != [] ==> exists counts ::
            MergeOutcome(store.casefold, Dict(Items(s.pending)), store.categoryIds, old(store.wordIds), store.wordIds,
                         old(store.rows), store.rows, Some(ImportSource), Success(counts))
            && forall j :: 0 <= j < |s.pending| ==> report.categories[j].1.added == counts[s.pending[j].0])
      && (!bulk ==>
            exists trace :: (MergedInTurn(store.casefold, store.categoryIds, s.pending, |s.pending|, trace, AddedOf(report.categories))
                             && trace[0] == (old(store.wordIds), old(store.rows)) && trace[|s.pending|] == (store.wordIds, store.rows)))
  {
    var s := ScanCategories(files, dir, Vocabulary.LexicalCategories);
    ImportedLexical(files, dir);
    var categories: seq<(string, CategoryReport)> := [];
    var total := 0;
    ghost var trace := [(store.wordIds, store.rows)];
    if s.pending != [] {
      if bulk {
        var counts;
        categories, total, counts := MergeBulk(store, s.pending, s.metas);
      } else {
        categories, total, trace := MergeEach(store, s.pending, s.metas);
      }
    }
    report := Report(dir, categories, s.skipped, s.errors, s.malformed, total);
    assert !bulk ==> MergedInTurn(store.casefold, store.categoryIds, s.pending, |s.pending|, trace, AddedOf(report.categories))
                     && trace[0] == (old(store.wordIds), old(store.rows)) && trace[|s.pending|] == (store.wordIds, store.rows);
  }

  /** The queue of the real loop holds lexical categories, each once. */
  lemma ImportedLexical(files: map<string, File>, dir: string)
    ensures Lexical(ScanAll(files, dir, Vocabulary.LexicalCategories).pending)
    ensures Vocabulary.Distinct(Vocabulary.Firsts(ScanAll(files, dir, Vocabulary.LexicalCategories).pending))
  {
    var keys := Vocabulary.LexicalCategories;
    ScanQueue(files, dir, keys);
    Vocabulary.LexicalCategoriesDistinct();
    ImportedKeysDistinct(files, dir, keys);
    var pending := ScanAll(files, dir, keys).pending;
    forall j | 0 <= j < |pending|
      ensures pending[j].0 in keys
    {
      assert Vocabulary.Firsts(pending)[j] == pending[j].0;
      ImportedKeysHas(files, dir, keys, pending[j].0);
    }
  }
}

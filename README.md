# textToVocabulary, modelled in Dafny

textToVocabulary turns a text into a vocabulary list. A language model sorts the words of a
text into sixteen lexical categories (noun, verb, …, other). The words are canonicalised to
a lemma and a surface form. They are then stored per category in one of two places:

- a SQLite database, which deduplicates by lemma and searches by prefix through FTS5 or by `LIKE`;
- an OpenDocument spreadsheet (`.ods`) or plain-text store, with a cache keyed on file stat signatures.

The stored vocabulary can be exported to one `.ods` sheet per category and imported back. A small
database manager builds the SQL statements a generic table editor needs.

This project models that core and proves what each part promises:

- the domain rules:
  - first-occurrence deduplication;
  - the Markdown table;
  - surface normalisation;
  - single and batch canonicalisation;
- the SQLite store:
  - a class over the three tables;
  - insert and merge with their counts;
  - backfill that never overwrites;
  - ordered listings and paging;
  - the FTS5 query builder;
  - the schema migration;
- the `.ods`/`.txt` store:
  - a class over a file-system model;
  - the append that keeps the cache coherent;
  - the spreadsheet codec and its round trip;
- the importer and the exporter;
- the configuration loader;
- the database manager's SQL builders;
- the token budget;
- the pure parts of the language-model client:
  - message building;
  - response parsing;
  - validation of the result against the categories;
  - endpoint normalisation.

Module by module:

| Dafny file | source file |
|---|---|
| `vocabulary.dfy` (`Vocabulary`) | `text_to_vocabulary/domain/vocabulary.py` |
| `normalization.dfy` (`Normalization`) | `text_to_vocabulary/domain/normalization.py` |
| `sqlite_rows.dfy`, `sqlite_queries.dfy`, `sqlite_storage.dfy`, `sqlite_migration.dfy` | `text_to_vocabulary/storage/sqlite_vocabulary_storage.py` |
| `vocabulary_cache.dfy` (`VocabularyCache`) | `text_to_vocabulary/storage/vocabulary_cache.py` |
| `ods_codec.dfy`, `ods_store.dfy` | `text_to_vocabulary/storage/ods_vocabulary_store.py` |
| `ods_importer.dfy` (`OdsImporter`) | `text_to_vocabulary/storage/ods_importer.py` |
| `ods_exporter.dfy` (`OdsExporter`) | `text_to_vocabulary/storage/ods_exporter.py` |
| `config.dfy` (`Config`) | `text_to_vocabulary/config.py` |
| `db_manager.dfy` (`DbManager`) | `text_to_vocabulary/db_manager.py` |
| `token_budget.dfy` (`TokenBudget`) | `text_to_vocabulary/integrations/token_budget.py` |
| `llm_client.dfy` (`LlmClient`) | `text_to_vocabulary/integrations/llm_client.py` |

The remaining modules are support modules:

- `wrappers.dfy` holds `Option` and `Result`.
- `text.dfy` holds Python's `str.strip`, `split`, `join` and ASCII case mapping.
- `py_values.dfy` holds Python values, `str()` and `int()`.
- `ordering.dfy` holds the code-point and NOCASE orders and sorting.

## Model

| member | source | states |
|---|---|---|
| Vocabulary.LexicalCategoriesDistinct | text_to_vocabulary/domain/vocabulary.py:1-18 | the category list has sixteen entries and no repeats |
| Vocabulary.Cleaned | text_to_vocabulary/domain/vocabulary.py:25-30 | an item that survives cleaning is non-empty and has no surrounding whitespace |
| Vocabulary.StripNonEmpty | text_to_vocabulary/domain/vocabulary.py:29-30 | stripping rejects a string exactly when it is all whitespace; anything kept is non-empty and stripped |
| Vocabulary.DedupePreserveOrder | text_to_vocabulary/domain/vocabulary.py:21-33 | the loop returns distinct, non-empty, stripped strings; a string is in the result iff some input item cleans to it |
| Vocabulary.KeepStep | text_to_vocabulary/domain/vocabulary.py:30-32 | one loop step appends the cleaned item iff it is present and not yet seen |
| Vocabulary.DedupedFacts | text_to_vocabulary/domain/vocabulary.py:21-33 | the deduplicated list has no repeats, holds only clean words, and holds exactly the words some item cleans to |
| Vocabulary.DedupedDistinct | text_to_vocabulary/domain/vocabulary.py:30-32 | no word appears twice in the result |
| Vocabulary.DedupedClean | text_to_vocabulary/domain/vocabulary.py:29-30 | every result word is non-empty and stripped |
| Vocabulary.DedupedMembership | text_to_vocabulary/domain/vocabulary.py:24-32 | a word is in the result iff some input item cleans to it (both directions) |
| Vocabulary.KeepSplit | text_to_vocabulary/domain/vocabulary.py:22-32 | deduplicating a concatenation is deduplicating the first part, then adding the second part's first occurrences that are not yet seen |
| Vocabulary.DedupedIsFirstOccurrences | text_to_vocabulary/domain/vocabulary.py:22-32 | the result is the first occurrences of the cleaned items, in input order |
| Vocabulary.DedupedOfClean | text_to_vocabulary/domain/vocabulary.py:21-33 | a list of distinct clean words is returned unchanged |
| Vocabulary.DedupedIdempotent | text_to_vocabulary/domain/vocabulary.py:21-33 | deduplicating twice gives the same list as once |
| Vocabulary.TableRows | text_to_vocabulary/domain/vocabulary.py:41-44 | one row per key, in key order, each naming its key and its words |
| Vocabulary.HeaderLines | text_to_vocabulary/domain/vocabulary.py:40 | the header is two lines, each ended by a newline |
| Vocabulary.RowAvoidsNewline | text_to_vocabulary/domain/vocabulary.py:37-42 | a row is one line when its key and words have no newline |
| Vocabulary.MarkdownTableLines | text_to_vocabulary/domain/vocabulary.py:36-45 | the table is the header's two lines, then one line per category in category order; a missing or empty word list prints `-`, otherwise the words joined by `, ` |
| Vocabulary.TableLinesFor | text_to_vocabulary/domain/vocabulary.py:37-45 | the same line structure for any non-empty key list |
| Text.TrimLeft | text_to_vocabulary/domain/vocabulary.py:29 | the result is a suffix of the input, only whitespace was removed, and it does not start with whitespace |
| Text.TrimRight | text_to_vocabulary/domain/vocabulary.py:29 | the result is a prefix of the input, only whitespace was removed, and it does not end with whitespace |
| Text.StripIsInfix | text_to_vocabulary/domain/vocabulary.py:29 | `strip()` returns a slice of its input with only whitespace on either side |
| Text.StripIsStripped | text_to_vocabulary/domain/vocabulary.py:29 | the result of `strip()` neither starts nor ends with whitespace |
| Text.StrippedIsFixpoint | text_to_vocabulary/domain/vocabulary.py:29 | `strip()` leaves a stripped string unchanged |
| Text.StripEmptyIffAllSpace | text_to_vocabulary/domain/vocabulary.py:29-30 | `strip()` gives the empty string iff the input is all whitespace |
| Text.StripIdempotent | text_to_vocabulary/domain/vocabulary.py:29 | stripping twice is stripping once |
| Text.SplitJoin | text_to_vocabulary/domain/vocabulary.py:45 | splitting a join on its one-character separator gives the parts back, when no part holds the separator |
| Text.SplitOn | text_to_vocabulary/storage/ods_vocabulary_store.py:25 | splitting always gives at least one piece |
| Text.AsciiLower | text_to_vocabulary/config.py:98 | `str.lower()` on ASCII: each character lower-cased, the length kept |
| Text.AsciiUpper | text_to_vocabulary/db_manager.py:67 | `str.upper()` on ASCII: each character upper-cased, the length kept |
| Text.NatToString | text_to_vocabulary/integrations/token_budget.py:126-128 | the decimal text of a natural number is a non-empty run of digits |
| Text.IntToString | text_to_vocabulary/integrations/token_budget.py:126-128 | the decimal text of an integer is never empty |
| Normalization.CollapseSpacesVisible | text_to_vocabulary/domain/normalization.py:78 | replacing whitespace runs by one space keeps every non-whitespace character, in order |
| Normalization.CollapseSpacesSingle | text_to_vocabulary/domain/normalization.py:78 | after the replacement, the only whitespace is single spaces |
| Normalization.CollapseSpacesEnds | text_to_vocabulary/domain/normalization.py:78 | the replacement is empty iff its input is, and keeps whether the first and last characters are whitespace |
| Normalization.CollapseSingleSpaced | text_to_vocabulary/domain/normalization.py:78 | text that is already single-spaced is unchanged |
| Normalization.NormalizeSurfaceNone | text_to_vocabulary/domain/normalization.py:73-79 | normalisation gives nothing iff the word is None or all whitespace |
| Normalization.NormalizeSurfaceShape | text_to_vocabulary/domain/normalization.py:73-79 | a normalised surface is stripped, single-spaced, and keeps the word's non-whitespace characters in order |
| Normalization.SurfaceIsFixpoint | text_to_vocabulary/domain/normalization.py:73-79 | a non-empty, stripped, single-spaced string normalises to itself |
| Normalization.CanonicalizeFails | text_to_vocabulary/domain/normalization.py:24-27 | `canonicalize` raises iff the word is None or blank, with the "word is empty after normalization" message |
| Normalization.CanonicalizeSurface | text_to_vocabulary/domain/normalization.py:24-35 | on success the surface is the normalised word, and the lemma is computed from that surface |
| Normalization.CanonicalizeUntagged | text_to_vocabulary/domain/normalization.py:29-35 | a category other than noun, verb or phrasal verb gives the case-normalised surface (normalised twice) as the lemma |
| Normalization.CanonicalizeFallback | text_to_vocabulary/domain/normalization.py:31-35 | when the lemmatizer returns nothing, the lemma falls back to the case-normalised surface |
| Normalization.Surfaces | text_to_vocabulary/domain/normalization.py:41-45 | the collected surfaces are all non-empty |
| Normalization.CollectSurfaces | text_to_vocabulary/domain/normalization.py:41-45 | the loop keeps the non-empty normalised surfaces in input order |
| Normalization.IndexUnique | text_to_vocabulary/domain/normalization.py:55-60 | `unique` and the index map hold exactly the input forms, and the map sends each unique form to its position |
| Normalization.BuildLemmaMap | text_to_vocabulary/domain/normalization.py:62-65 | the map's keys are the unique forms, each mapped to its lemmatised, case-normalised form (or the form itself) |
| Normalization.NormalizeAll | text_to_vocabulary/domain/normalization.py:50 | one case-normalised form per surface, position by position |
| Normalization.LemmatizeSurfaces | text_to_vocabulary/domain/normalization.py:50-70 | one pair per surface, in order: the surface, with the lemma of its normalised form (or that form when there is no part of speech) |
| Normalization.CanonicalizeBatch | text_to_vocabulary/domain/normalization.py:38-70 | one pair per non-empty surface, in input order, each pairing that surface with its batch lemma |
| Normalization.BatchAgreesWithCanonicalize | text_to_vocabulary/domain/normalization.py:24-70 | each batch surface comes from some input word; the single-word call gives the same surface and, for noun, verb or phrasal-verb categories, the same lemma; for other categories it normalises the lemma's case once more |
| Ordering.LexLessStrictTotal | text_to_vocabulary/storage/sqlite_vocabulary_storage.py:240-242 | code-point order on names is irreflexive, total and transitive |
| Ordering.RowBeforeStrictTotal | text_to_vocabulary/storage/sqlite_vocabulary_storage.py:302 | `ORDER BY surface_form COLLATE NOCASE, lemma` is a strict total order on rows with distinct lemmas |
| Ordering.SortedUnique | text_to_vocabulary/storage/sqlite_vocabulary_storage.py:302 | under a strict total order, two sorted lists with the same elements are equal, so each listing is determined |
| Ordering.SortSet | text_to_vocabulary/storage/sqlite_vocabulary_storage.py:240-242 | the result is sorted, holds exactly the set's elements, and has one entry per element |
| SqliteRows.PrepareShape | text_to_vocabulary/storage/sqlite_vocabulary_storage.py:191-205 | each prepared pair is a non-empty stripped surface with its case-folded lemma |
| SqliteRows.PrepareDistinct | text_to_vocabulary/storage/sqlite_vocabulary_storage.py:200-203 | no lemma is prepared twice |
| SqliteRows.PrepareHas | text_to_vocabulary/storage/sqlite_vocabulary_storage.py:194-204 | a lemma is prepared iff some string input strips to a non-empty word that folds to it |
| SqliteRows.PrepareFirst | text_to_vocabulary/storage/sqlite_vocabulary_storage.py:194-204 | each prepared surface is the first input whose fold gives that lemma |
| SqliteRows.PrepareOneWord | text_to_vocabulary/storage/sqlite_vocabulary_storage.py:191-205 | a single clean word prepares to itself paired with its fold |
| SqliteRows.Batch | text_to_vocabulary/storage/sqlite_vocabulary_storage.py:449-452 | one row per prepared pair, keyed by the category and the lemma's word id |
| SqliteRows.InsertStep | text_to_vocabulary/storage/sqlite_vocabulary_storage.py:454-462 | `INSERT OR IGNORE` of one more row adds it iff its key is new, and the count grows by one exactly then |
| SqliteRows.InsertAllKeeps | text_to_vocabulary/storage/sqlite_vocabulary_storage.py:454-462 | insertion never changes an existing row |
| SqliteRows.InsertAllKeys | text_to_vocabulary/storage/sqlite_vocabulary_storage.py:454-462 | after insertion the keys are the old keys plus the batch's keys |
| SqliteRows.AddedCountsNewKeys | text_to_vocabulary/storage/sqlite_vocabulary_storage.py:454-463 | the returned count is the growth in the number of rows |
| SqliteRows.AddedIsNewKeyCount | text_to_vocabulary/storage/sqlite_vocabulary_storage.py:454-463 | the count is the number of distinct batch keys not yet stored |
| SqliteRows.InsertAllPresent | text_to_vocabulary/storage/sqlite_vocabulary_storage.py:454-463 | a batch whose keys are all stored changes nothing and counts 0 |
| SqliteRows.InsertAllNew | text_to_vocabulary/storage/sqlite_vocabulary_storage.py:454-462 | a new key is stored with its surface, the source and frequency 1 |
| SqliteRows.BackfillAllKeys | text_to_vocabulary/storage/sqlite_vocabulary_storage.py:465-476 | the backfill `UPDATE` adds and removes no row |
| SqliteRows.BackfillAllNeverOverwrites | text_to_vocabulary/storage/sqlite_vocabulary_storage.py:465-476 | the backfill keeps the frequency, a non-empty surface and a set source, and leaves rows outside the batch alone |
| SqliteRows.BackfillAllFills | text_to_vocabulary/storage/sqlite_vocabulary_storage.py:465-476 | after the backfill, a batch row has a surface, and a source when one was given |
| SqliteRows.MergeAgainAddsNothing | text_to_vocabulary/storage/sqlite_vocabulary_storage.py:341-344 | merging the same batch a second time adds nothing |
| SqliteRows.RunThenLowerRun | tests/test_sqlite_storage.py:21-29 | merging "Run" then "run" under a case-insensitive fold counts 1 then 0 |
| SqliteRows.SameKeyAddsOnce | text_to_vocabulary/storage/sqlite_vocabulary_storage.py:454-476 | two surfaces of one lemma in one category are stored once |
| SqliteRows.AddedDependsOnKeys | text_to_vocabulary/storage/sqlite_vocabulary_storage.py:454-463 | the count depends only on which batch keys are present, not on the stored entries |
| SqliteRows.WriteKeepsOtherCategories | text_to_vocabulary/storage/sqlite_vocabulary_storage.py:442-476 | writing one category leaves every other category's rows unchanged |
| SqliteQueries.ChunksOfFlatten | text_to_vocabulary/storage/sqlite_vocabulary_storage.py:555-557 | the chunks concatenate back to the input |
| SqliteQueries.ChunksOfSizes | text_to_vocabulary/storage/sqlite_vocabulary_storage.py:555-557 | every chunk holds 1 to `size` items, and all but the last hold exactly `size` |
| SqliteQueries.ChunkedBy900 | text_to_vocabulary/storage/sqlite_vocabulary_storage.py:220-231 | the 900-value chunks used for the `IN (…)` lookup cover every lemma, in order |
| SqliteQueries.FlattenHas | text_to_vocabulary/storage/sqlite_vocabulary_storage.py:226-230 | a value is looked up iff it is in some chunk |
| SqliteQueries.Page | text_to_vocabulary/storage/sqlite_vocabulary_storage.py:289-295 | a page is never longer than the listing |
| SqliteQueries.PageSlice | text_to_vocabulary/storage/sqlite_vocabulary_storage.py:289-291 | `LIMIT n OFFSET k` is the slice from k of at most n rows, empty past the end |
| SqliteQueries.PageSkip | text_to_vocabulary/storage/sqlite_vocabulary_storage.py:292-295 | `LIMIT -1 OFFSET k` drops k rows, and no clause keeps them all |
| SqliteQueries.PagesTile | text_to_vocabulary/storage/sqlite_vocabulary_storage.py:289-295 | a page followed by everything after it is the listing from the same offset |
| SqliteQueries.LikeLiteral | text_to_vocabulary/storage/sqlite_vocabulary_storage.py:286-287 | a `LIKE` pattern without wildcards matches iff equal up to ASCII case |
| SqliteQueries.LikeContains | text_to_vocabulary/storage/sqlite_vocabulary_storage.py:286-287 | `LIKE '%s%'` matches iff the text contains s, ignoring ASCII case |
| SqliteQueries.RunLength | text_to_vocabulary/storage/sqlite_vocabulary_storage.py:573 | the run is the longest prefix of word characters and apostrophes |
| SqliteQueries.FtsTokens | text_to_vocabulary/storage/sqlite_vocabulary_storage.py:573-578 | `findall` gives non-empty tokens of word characters and apostrophes only |
| SqliteQueries.BuildFtsQueryNone | text_to_vocabulary/storage/sqlite_vocabulary_storage.py:577-582 | no query iff there is no token or some token is shorter than two characters |
| SqliteQueries.BuildFtsQueryRoundTrip | text_to_vocabulary/storage/sqlite_vocabulary_storage.py:577-583 | splitting the query on spaces and taking every other part without its `*` gives the tokens back |
| SqliteQueries.BuildFtsQueryLexable | text_to_vocabulary/storage/sqlite_vocabulary_storage.py:577-583 | without an apostrophe in the search, the query lexes: it is made of FTS5 barewords and operators only |
| SqliteQueries.ApostropheQueryRejected | text_to_vocabulary/storage/sqlite_vocabulary_storage.py:573-583 | "don't" gives the query `don't*`, which FTS5's tokenizer rejects |
| SqliteQueries.BuildFtsQueryQuoted | text_to_vocabulary/storage/sqlite_vocabulary_storage.py:577-583 | the quoted builder gives a query exactly when the original does |
| SqliteQueries.BuildFtsQueryQuotedLexable | text_to_vocabulary/storage/sqlite_vocabulary_storage.py:577-583 | with each token quoted, every query FTS5 receives is well formed, apostrophes included |
| SqliteQueries.BuildFtsQueryParses | text_to_vocabulary/storage/sqlite_vocabulary_storage.py:573-583 | with bareword word characters, the built query parses iff no token holds an apostrophe and no token is `AND`, `OR` or `NOT` |
| SqliteQueries.KeywordSearchRejected | text_to_vocabulary/storage/sqlite_vocabulary_storage.py:573-583 | a search `a AND c` (say "rock AND roll") has the tokens a, `AND`, c and builds `a* AND AND* AND c*`, which does not parse |
| SqliteQueries.BuildFtsQueryQuotedParses | text_to_vocabulary/storage/sqlite_vocabulary_storage.py:577-583 | with each token quoted, every built query parses, keywords and apostrophes included |
| SqliteStorage.AddNames | text_to_vocabulary/storage/sqlite_vocabulary_storage.py:155-159 | `INSERT OR IGNORE INTO categories` adds exactly the missing names with fresh, distinct ids and keeps existing ids |
| SqliteStorage.NextId | text_to_vocabulary/storage/sqlite_vocabulary_storage.py:18-21 | a new rowid is above every id in use |
| SqliteStorage.InsertCountIsRowsCreated | text_to_vocabulary/storage/sqlite_vocabulary_storage.py:428-478 | insertion only adds rows, and the returned count is the number of rows created |
| SqliteStorage.AddKeepsRows | text_to_vocabulary/storage/sqlite_vocabulary_storage.py:338-339 | `add_words` never changes a stored row |
| SqliteStorage.MergeFillsOnlyGaps | text_to_vocabulary/storage/sqlite_vocabulary_storage.py:341-344 | `merge_words` keeps every row's frequency, non-empty surface and set source |
| SqliteStorage.InsertedWordsHaveRows | text_to_vocabulary/storage/sqlite_vocabulary_storage.py:442-476 | after a write, every prepared lemma has a word id and a row in the category; after a merge that row has a surface, and a source when one was given |
| SqliteStorage.GroupsFromItems | text_to_vocabulary/storage/sqlite_vocabulary_storage.py:355-362 | every prepared group names an input category and holds at least one word |
| SqliteStorage.GroupsDistinct | text_to_vocabulary/storage/sqlite_vocabulary_storage.py:355-362 | the groups name distinct categories, as the input's keys are distinct |
| SqliteStorage.FirstUnknownNone | text_to_vocabulary/storage/sqlite_vocabulary_storage.py:367-368 | no unknown category is reported iff every group's category exists |
| SqliteStorage.FirstUnknownAt | text_to_vocabulary/storage/sqlite_vocabulary_storage.py:367-368 | the error names the first unknown category in input order |
| SqliteStorage.MergeNothing | text_to_vocabulary/storage/sqlite_vocabulary_storage.py:351-365 | when no category has a usable word, the result is zero per input category and nothing is written |
| SqliteStorage.MergeUnknown | text_to_vocabulary/storage/sqlite_vocabulary_storage.py:367-368 | an unknown category fails the whole merge before any write |
| SqliteStorage.MergeWritten | text_to_vocabulary/storage/sqlite_vocabulary_storage.py:346-409 | a successful merge writes each group in turn, counts each group's new rows under its name, and leaves the zero for categories without words |
| SqliteStorage.MergeAllKeepsOther | text_to_vocabulary/storage/sqlite_vocabulary_storage.py:377-393 | merging leaves the keys of categories outside the input unchanged |
| SqliteStorage.MergeCountIsFresh | text_to_vocabulary/storage/sqlite_vocabulary_storage.py:383-393 | each category's count is measured against the rows as they were before the merge, as the groups touch distinct categories |
| SqliteStorage.MergeAllNeverOverwrites | text_to_vocabulary/storage/sqlite_vocabulary_storage.py:395-408 | a merge keeps every row's frequency, non-empty surface and set source |
| SqliteStorage.ListingUnique | text_to_vocabulary/storage/sqlite_vocabulary_storage.py:298-302 | two listings of the same rows in `surface_form COLLATE NOCASE, lemma` order are equal |
| SqliteStorage.Store.constructor | text_to_vocabulary/storage/sqlite_vocabulary_storage.py:134-161 | opening a store adds the sixteen categories, keeps existing category ids, words and rows |
| SqliteStorage.Store.PrepareWords | text_to_vocabulary/storage/sqlite_vocabulary_storage.py:191-205 | the loop returns the specification `Prepare` of the input |
| SqliteStorage.Store.InsertLemmas | text_to_vocabulary/storage/sqlite_vocabulary_storage.py:442-445 | `INSERT OR IGNORE INTO words` adds exactly the missing lemmas and keeps every id |
| SqliteStorage.Store.FetchWordIds | text_to_vocabulary/storage/sqlite_vocabulary_storage.py:220-231 | the result maps exactly the requested, stored lemmas to their ids |
| SqliteStorage.Store.InsertRows | text_to_vocabulary/storage/sqlite_vocabulary_storage.py:454-463 | the rows become `InsertAll` of the batch and the count is `Added` |
| SqliteStorage.Store.BackfillRows | text_to_vocabulary/storage/sqlite_vocabulary_storage.py:465-476 | the rows become `BackfillAll` of the batch |
| SqliteStorage.Store.InsertWords | text_to_vocabulary/storage/sqlite_vocabulary_storage.py:428-478 | nothing prepared returns 0 unchanged; an unknown category fails before any write; otherwise lemmas, rows and count follow the insert (and backfill) specification |
| SqliteStorage.Store.InsertPrepared | text_to_vocabulary/storage/sqlite_vocabulary_storage.py:441-476 | every prepared lemma gets a word id, and the rows and count follow `WriteRows` and `Added` |
| SqliteStorage.Store.AddWords | text_to_vocabulary/storage/sqlite_vocabulary_storage.py:338-339 | an insert without backfill |
| SqliteStorage.Store.MergeWords | text_to_vocabulary/storage/sqlite_vocabulary_storage.py:341-344 | an insert with backfill |
| SqliteStorage.Store.IsEmpty | text_to_vocabulary/storage/sqlite_vocabulary_storage.py:233-236 | empty iff there is no category-word row |
| SqliteStorage.Store.GetCategories | text_to_vocabulary/storage/sqlite_vocabulary_storage.py:238-243 | the category names, each once, in code-point order |
| SqliteStorage.Store.EntriesOneRowPerLemma | text_to_vocabulary/storage/sqlite_vocabulary_storage.py:23-32 | a category holds at most one row per lemma |
| SqliteStorage.Store.FilterFor | text_to_vocabulary/storage/sqlite_vocabulary_storage.py:274-287 | no or blank search lists all; with FTS available and a query built by `_build_fts_query` as written, the FTS filter on that query; otherwise the stripped text as a substring filter |
| SqliteStorage.Store.Selected | text_to_vocabulary/storage/sqlite_vocabulary_storage.py:298-301 | the selection is a subset of the category's rows |
| SqliteStorage.Store.ListSelected | text_to_vocabulary/storage/sqlite_vocabulary_storage.py:298-306 | the listing is the selected rows, each once, in `ORDER BY` order |
| SqliteStorage.Store.GetWords | text_to_vocabulary/storage/sqlite_vocabulary_storage.py:261-336 | an unknown category fails with its name; an FTS query that does not parse fails with an FTS5 syntax error; otherwise the surfaces of the filtered, ordered listing, paged by limit and offset |
| SqliteStorage.Store.BlankSearchSelectsAll | text_to_vocabulary/storage/sqlite_vocabulary_storage.py:274-276 | a missing or blank search selects the whole category |
| SqliteStorage.Store.SubstringSelects | text_to_vocabulary/storage/sqlite_vocabulary_storage.py:286-287 | the `LIKE` filter keeps a row iff its lemma or surface contains the text, ignoring ASCII case |
| SqliteStorage.Store.SearchRefused | text_to_vocabulary/storage/sqlite_vocabulary_storage.py:277-287 | with FTS available, a search is refused iff its stripped text builds a query and some token holds an apostrophe or is an upper-case keyword |
| SqliteStorage.Store.FilterFallsBack | text_to_vocabulary/storage/sqlite_vocabulary_storage.py:277-287 | without FTS or without a query, the search falls back to the substring filter |
| SqliteStorage.Store.ListCategory | text_to_vocabulary/storage/sqlite_vocabulary_storage.py:248-258 | one category's surfaces in `surface_form COLLATE NOCASE, lemma` order |
| SqliteStorage.Store.GetWordsByCategory | text_to_vocabulary/storage/sqlite_vocabulary_storage.py:245-259 | one list for every lexical category and for every other stored category that holds a row, each that category's ordered surfaces |
| SqliteStorage.Store.ListAll | text_to_vocabulary/storage/sqlite_vocabulary_storage.py:255-258 | a listing for each named category |
| SqliteStorage.Store.PrepareGroups | text_to_vocabulary/storage/sqlite_vocabulary_storage.py:355-362 | the loop returns the prepared non-empty groups and all their lemmas |
| SqliteStorage.Store.FindUnknown | text_to_vocabulary/storage/sqlite_vocabulary_storage.py:367-368 | the first group category that does not exist, if any |
| SqliteStorage.Store.WriteGroup | text_to_vocabulary/storage/sqlite_vocabulary_storage.py:377-408 | one category's rows are inserted and backfilled, and its count is the rows it created |
| SqliteStorage.Store.WriteGroups | text_to_vocabulary/storage/sqlite_vocabulary_storage.py:377-409 | all groups are written in turn; each group's count is recorded and other counts are kept |
| SqliteStorage.Store.MergeCategories | text_to_vocabulary/storage/sqlite_vocabulary_storage.py:346-409 | the result and new state follow `MergeOutcome`: zero counts when nothing is usable, an unknown-category failure, or every group merged and counted |
| SqliteMigration.NeedsMigration | text_to_vocabulary/storage/sqlite_vocabulary_storage.py:480-485 | migration is needed iff some table exists and has a legacy column (`normalized_text` or `display_text`) |
| SqliteMigration.CurrentSchemaNeedsNoMigration | text_to_vocabulary/storage/sqlite_vocabulary_storage.py:17-32 | neither the current schema nor an empty database needs migration |
| SqliteMigration.TextAffinity | text_to_vocabulary/storage/sqlite_vocabulary_storage.py:115-119 | a TEXT column stores NULL as NULL, text as it is, and an integer as its text |
| SqliteMigration.CopyWords | text_to_vocabulary/storage/sqlite_vocabulary_storage.py:508-510 | a successful copy has one word per old row |
| SqliteMigration.NextRowId | text_to_vocabulary/storage/sqlite_vocabulary_storage.py:115-116 | a NULL `INTEGER PRIMARY KEY` gets a rowid above every id in the table, one above the largest, or 1 in an empty table |
| SqliteMigration.CopyWordsMapsColumns | text_to_vocabulary/storage/sqlite_vocabulary_storage.py:508-510 | each copied word holds the legacy lemma column's value as a TEXT column stores it, keeps an integer id, and gets the next rowid for a NULL id; a NULL lemma or a text id fails the copy |
| SqliteMigration.CopyWordsUnique | text_to_vocabulary/storage/sqlite_vocabulary_storage.py:115-119 | a successful copy never holds one id or one lemma twice (`INTEGER PRIMARY KEY`, `UNIQUE`) |
| SqliteMigration.DuplicateIdAborts | text_to_vocabulary/storage/sqlite_vocabulary_storage.py:508-510 | two legacy words with the same integer id abort the copy |
| SqliteMigration.Migrated | text_to_vocabulary/storage/sqlite_vocabulary_storage.py:512-527 | a copied entry always has a frequency; one already present is kept (`COALESCE(frequency, 1)`); its surface is NULL iff the old one was, and text is kept as it is |
| SqliteMigration.CopyEntries | text_to_vocabulary/storage/sqlite_vocabulary_storage.py:512-527 | `INSERT OR IGNORE` keeps at most one entry per old row |
| SqliteMigration.CopyEntriesFacts | text_to_vocabulary/storage/sqlite_vocabulary_storage.py:120-130 | every kept entry satisfies the NOT NULL columns and comes from an old row; no two share a category and word; a complete row is kept unless it collides with one kept earlier |
| SqliteMigration.CopiedPairsDistinct | text_to_vocabulary/storage/sqlite_vocabulary_storage.py:120-130 | the copied entries have distinct (category, word) pairs |
| SqliteMigration.CopiedOrCollides | text_to_vocabulary/storage/sqlite_vocabulary_storage.py:512-527 | a complete old row is dropped only on a collision with an entry kept before it |
| SqliteMigration.FirstMissing | text_to_vocabulary/storage/sqlite_vocabulary_storage.py:512-527 | no column is reported iff every selected column exists; a reported one is selected and missing |
| SqliteMigration.SelectedAll | text_to_vocabulary/storage/sqlite_vocabulary_storage.py:512-527 | every column the entries copy selects exists iff the legacy entry columns and the surface column do |
| SqliteMigration.MigrateOrder | text_to_vocabulary/storage/sqlite_vocabulary_storage.py:487-535 | the words copy runs first and its failure is the result; then a category_words table lacking a selected column fails with that column; otherwise both copies land |
| SqliteMigration.MigrateLegacyColumns | text_to_vocabulary/storage/sqlite_vocabulary_storage.py:487-535 | with both legacy columns, words take `normalized_text` and keep an integer id (a NULL one gets the next rowid), no two words share an id, and entries take their surface from `display_text` |
| SqliteMigration.MigrateWordsOnly | text_to_vocabulary/storage/sqlite_vocabulary_storage.py:537-552 | with only a words table, the words are rebuilt from `normalized_text` with ids as the key assigns them, distinct, and its absence is an error |
| VocabularyCache.StatSignature | text_to_vocabulary/storage/vocabulary_cache.py:11-16 | no signature iff the file does not exist; otherwise the file's (mtime, size) stamp |
| VocabularyCache.Cache.constructor | text_to_vocabulary/storage/vocabulary_cache.py:20-21 | a new cache holds no entry and has loaded nothing |
| VocabularyCache.Cache.GetWords | text_to_vocabulary/storage/vocabulary_cache.py:23-30 | a stored entry with the current signature is returned without loading; otherwise the loader runs once and its words are stored under the current signature |
| VocabularyCache.Cache.UpdateWords | text_to_vocabulary/storage/vocabulary_cache.py:32-34 | the entry becomes the given words under the current signature, so the next read is a hit; nothing is loaded |
| VocabularyCache.MissingFileHits | text_to_vocabulary/storage/vocabulary_cache.py:24-27 | an entry recorded for a missing file still matches while the file stays missing |
| VocabularyCache.ChangedFileMisses | text_to_vocabulary/storage/vocabulary_cache.py:24-28 | creating, deleting or changing the stamp of a file makes its entry miss |
| OdsCodec.ReadWordsFromStream | text_to_vocabulary/storage/ods_vocabulary_store.py:41-64 | the loop returns the stripped, non-empty first-cell values of all table rows, in document order |
| OdsCodec.Lookup | text_to_vocabulary/storage/ods_vocabulary_store.py:33-38 | a member is found iff the archive has one with that name |
| OdsCodec.WordRows | text_to_vocabulary/storage/ods_vocabulary_store.py:80-88 | one row per word, whose single cell holds the word as its only paragraph |
| OdsCodec.BuildContentXml | text_to_vocabulary/storage/ods_vocabulary_store.py:67-90 | the document is one table named "Words" holding the word rows |
| OdsCodec.ValuesRow | text_to_vocabulary/storage/ods_vocabulary_store.py:108-115 | one cell per value, each holding `str(value)`, or the empty string for None |
| OdsCodec.BuildRow | text_to_vocabulary/storage/ods_vocabulary_store.py:107-115 | the loop builds `ValuesRow` of the values |
| OdsCodec.BuildContentXmlRows | text_to_vocabulary/storage/ods_vocabulary_store.py:93-117 | the document is one table named "Vocabulary" with one row per value list |
| OdsCodec.RowsContentCells | text_to_vocabulary/storage/ods_vocabulary_store.py:93-117 | cell (i, j) of the written table reads back as the text of value j of row i, and None reads back as empty |
| OdsCodec.ArchiveLayout | text_to_vocabulary/storage/ods_vocabulary_store.py:129-174 | the archive holds the stored `mimetype` first, then deflated `content.xml`, `styles.xml` and a manifest listing the package and both XML parts |
| OdsCodec.WordRowsReadBack | text_to_vocabulary/storage/ods_vocabulary_store.py:41-90 | reading the rows written for clean words gives those words back |
| OdsCodec.WordsRoundTrip | text_to_vocabulary/storage/ods_vocabulary_store.py:29-174 | reading the archive written for clean words gives the same words |
| OdsCodec.XmlReadBack | text_to_vocabulary/storage/ods_vocabulary_store.py:47-58 | the text read back from a written `text:p` is missing (the parse fails) exactly when the word holds a character XML does not admit |
| OdsCodec.XmlSafeReadsBack | text_to_vocabulary/storage/ods_vocabulary_store.py:47-58 | a word of XML characters without `\r` reads back unchanged |
| OdsCodec.XmlCarriageReturnChanges | text_to_vocabulary/storage/ods_vocabulary_store.py:47-58 | a word of XML characters holding `\r` reads back as a different text, without `\r` |
| OdsCodec.CarriageReturnReadsAsLineFeed | text_to_vocabulary/storage/ods_vocabulary_store.py:86-90 | the word `a\rb` is written raw and read back as `a\nb` |
| OdsCodec.TranslatedClearsCR | text_to_vocabulary/storage/ods_vocabulary_store.py:47 | end-of-line handling leaves no carriage return |
| OdsCodec.RowsWordsClean | text_to_vocabulary/storage/ods_vocabulary_store.py:59-61 | every word read from rows is non-empty and stripped |
| OdsCodec.ArchiveWordsClean | text_to_vocabulary/storage/ods_vocabulary_store.py:29-38 | every word read from an archive is non-empty and stripped |
| OdsCodec.TxtWordsClean | text_to_vocabulary/storage/ods_vocabulary_store.py:22-26 | every word read from a text file is non-empty and stripped |
| OdsCodec.TranslatedConcat | text_to_vocabulary/storage/ods_vocabulary_store.py:25-26 | universal-newline reading of two texts is the reading of each, unless the first ends in `\r` and the second starts with `\n` |
| OdsCodec.TranslatedNoCR | text_to_vocabulary/storage/ods_vocabulary_store.py:25-26 | text without a carriage return is read unchanged |
| OdsCodec.TranslatedBreaks | text_to_vocabulary/storage/ods_vocabulary_store.py:25-26 | `\r`, `\r\n` and `\n` each read as one newline |
| OdsCodec.AppendLineStep | text_to_vocabulary/storage/ods_vocabulary_store.py:249-251 | writing `word\n` after a line-ended (or empty) file adds exactly that word to what is read back |
| OdsCodec.TerminatedSameWords | text_to_vocabulary/storage/ods_vocabulary_store.py:22-26 | ending the last line of a file does not change the words read from it |
| OdsCodec.AppendLinesReadsBack | text_to_vocabulary/storage/ods_vocabulary_store.py:249-251 | appending clean one-line words to an empty or line-ended text reads back as the old words followed by the new ones |
| OdsCodec.AppendLinesFixedReadsBack | text_to_vocabulary/storage/ods_vocabulary_store.py:238-256 | with the last line ended first, appending clean one-line words reads back as the old words followed by the new ones |
| OdsCodec.AppendLinesGlues | text_to_vocabulary/storage/ods_vocabulary_store.py:249-251 | appending "dog" to a file holding "cat" without a final newline reads back as "catdog"; with the corrected append it reads back as "cat", "dog" |
| OdsCodec.GluedLine | text_to_vocabulary/storage/ods_vocabulary_store.py:249-251 | in general, appending a word to an unterminated one-line file reads back as one glued word |
| OdsCodec.SingleLineWords | text_to_vocabulary/storage/ods_vocabulary_store.py:22-26 | a file holding one clean word without a newline reads back as that word |
| OdsStore.Disk.constructor | text_to_vocabulary/storage/vocabulary_cache.py:11-16 | a file system with the given files and a clock at zero |
| OdsStore.Disk.Write | text_to_vocabulary/storage/ods_vocabulary_store.py:168-174 | writing replaces one file, advances the clock, and gives the file a new (mtime, size) stamp |
| OdsStore.RFind | text_to_vocabulary/storage/ods_vocabulary_store.py:209 | the last occurrence of a character, or none |
| OdsStore.StemStart | text_to_vocabulary/storage/ods_vocabulary_store.py:209 | the last path component starts after the last `/` |
| OdsStore.SplitExt | text_to_vocabulary/storage/ods_vocabulary_store.py:209 | `os.path.splitext`: root and extension concatenate to the path, and the extension is empty or starts with a dot |
| OdsStore.SplitAt | text_to_vocabulary/storage/ods_vocabulary_store.py:209 | the extension starts at the last dot of the last component when something other than dots comes before it |
| OdsStore.TxtPathSplit | text_to_vocabulary/storage/ods_vocabulary_store.py:209 | the sibling `.txt` path has the same root and the extension `.txt`, so it is never an `.ods` path |
| OdsStore.ExportPathSplit | text_to_vocabulary/storage/ods_vocabulary_store.py:262-272 | a category's export path is the directory, the category and `.ods`; its sibling is the same with `.txt` |
| OdsStore.ExportPathsApart | text_to_vocabulary/storage/ods_vocabulary_store.py:262-272 | distinct categories get distinct export paths, and no export path is another category's `.txt` sibling |
| OdsStore.ReadersClean | text_to_vocabulary/storage/ods_vocabulary_store.py:22-38 | both readers return only non-empty, stripped words |
| OdsStore.WriteKeepsCoherent | text_to_vocabulary/storage/vocabulary_cache.py:23-30 | a write leaves every cache entry either still equal to a fresh read or out of date by its stamp |
| OdsStore.StoreKeepsCoherent | text_to_vocabulary/storage/vocabulary_cache.py:32-34 | recording the words a fresh read would give keeps the cache coherent |
| OdsStore.LoadWords | text_to_vocabulary/storage/ods_vocabulary_store.py:198-201 | without a cache the reader runs; with one, the result is still what a fresh read gives, and the cache stays coherent |
| OdsStore.LoadExistingWords | text_to_vocabulary/storage/ods_vocabulary_store.py:204-213 | the `.ods` file when it exists, else its `.txt` sibling, else no words, each read through the cache |
| OdsStore.MapPresent | text_to_vocabulary/storage/ods_vocabulary_store.py:224 | None entries stay absent and the others are mapped |
| OdsStore.UnseenMembers | text_to_vocabulary/storage/ods_vocabulary_store.py:225 | a text is kept iff it is offered, non-empty and not already seen; never more than offered |
| OdsStore.NewWordsMembers | text_to_vocabulary/storage/ods_vocabulary_store.py:223-225 | a word is new iff it is the stripped text of some offered word, is non-empty, and is not among the stripped existing words |
| OdsStore.NewWordsClean | text_to_vocabulary/storage/ods_vocabulary_store.py:224-225 | new words are non-empty and stripped |
| OdsStore.NewWordsLineFree | text_to_vocabulary/storage/ods_vocabulary_store.py:224-225 | new words hold no line break when the offered words hold none |
| OdsStore.NothingNewAfter | text_to_vocabulary/storage/ods_vocabulary_store.py:223-235 | once the new words are appended, offering the same words again finds nothing new |
| OdsStore.RepeatedOfferAddedTwice | text_to_vocabulary/storage/ods_vocabulary_store.py:224-225 | the offered batch is not deduplicated: a word offered twice is added twice |
| OdsStore.CleanedOfStripped | text_to_vocabulary/storage/ods_vocabulary_store.py:224 | offered texts that are already stripped are kept as they are |
| OdsStore.ExistingSetOfClean | text_to_vocabulary/storage/ods_vocabulary_store.py:223 | for clean existing words the comparison set is exactly those words |
| OdsStore.CaseSensitiveMatch | text_to_vocabulary/storage/ods_vocabulary_store.py:223-225 | matching is exact: a word differing from an existing one only in case is new |
| OdsStore.PaddedOfferNotNew | text_to_vocabulary/storage/ods_vocabulary_store.py:223-225 | a padded copy of an existing word and a None entry are not new |
| OdsStore.AppendOdsReadsBack | text_to_vocabulary/storage/ods_vocabulary_store.py:216-235 | the count is the number of new words; nothing written means 0; the `.ods` file then reads as the existing words followed by the new ones |
| OdsStore.AppendTxtReadsBack | text_to_vocabulary/storage/ods_vocabulary_store.py:238-256 | as written, for a text list that is empty or ends its last line, the `.txt` file reads as the existing words followed by the new ones, and the count matches |
| OdsStore.AppendTxtGlues | text_to_vocabulary/storage/ods_vocabulary_store.py:238-256 | as written, a word appended to an unterminated one-line list `a` is glued on: the file reads back as `a+w`, not `a`, `w`, and offering `w` again adds it again |
| OdsStore.AppendTxtFixedReadsBack | text_to_vocabulary/storage/ods_vocabulary_store.py:238-256 | with the old last line ended first, the file reads as the existing words followed by the new ones whatever the old text ends with |
| OdsStore.AppendTxtFixedTwice | text_to_vocabulary/storage/ods_vocabulary_store.py:238-256 | with the corrected append, offering the same words again writes nothing and counts 0 |
| OdsStore.AppendReadsBack | text_to_vocabulary/storage/ods_vocabulary_store.py:216-256 | for an `.ods` file, and for a text list that is empty or ends its last line, what is read back after an append is what was there plus the new words |
| OdsStore.AppendTwice | text_to_vocabulary/storage/ods_vocabulary_store.py:216-256 | appending the same words twice writes nothing and counts 0 the second time (for a text list, one that is empty or ends its last line) |
| OdsStore.WriteWordsToOds | text_to_vocabulary/storage/ods_vocabulary_store.py:161-174 | the file becomes the four-member archive holding the words, with a new stamp |
| OdsStore.WriteRowsToOds | text_to_vocabulary/storage/ods_vocabulary_store.py:177-195 | the file becomes the archive holding the header row (when given) and the rows, with a new stamp |
| OdsStore.RecordWords | text_to_vocabulary/storage/ods_vocabulary_store.py:232-233 | recording what a fresh read gives keeps the cache coherent |
| OdsStore.WriteKeepsCacheCoherent | text_to_vocabulary/storage/ods_vocabulary_store.py:231-233 | the cache is still coherent after a file write |
| OdsStore.AppendMissingWords | text_to_vocabulary/storage/ods_vocabulary_store.py:216-256 | the effect and result are those of the append specification for the path's kind; the cache stays coherent for an `.ods` file and for a text list that ended its last line |
| OdsStore.AppendMissingWordsOds | text_to_vocabulary/storage/ods_vocabulary_store.py:220-235 | for an `.ods` path: load through the cache, write the old and new words unless nothing changes, record them, and count the new words |
| OdsStore.WriteLines | text_to_vocabulary/storage/ods_vocabulary_store.py:249-251 | the loop appends each word followed by a newline |
| OdsStore.AppendMissingWordsTxt | text_to_vocabulary/storage/ods_vocabulary_store.py:238-256 | the effect and result follow the `.txt` append as written (new lines straight after the old text); the cache stays coherent when the old text ended its last line |
| OdsStore.ExportsKeepError | text_to_vocabulary/storage/ods_vocabulary_store.py:267-278 | the first failing category stops the export |
| OdsStore.ExportCategory | text_to_vocabulary/storage/ods_vocabulary_store.py:268-278 | one category: deduplicate its words; with no words, touch only a lone `.txt` file; otherwise append |
| OdsStore.ExportsAfter | text_to_vocabulary/storage/ods_vocabulary_store.py:267-278 | performing the next category's step extends the run by that category's count, or ends it with the error |
| OdsStore.ExportKeys | text_to_vocabulary/storage/ods_vocabulary_store.py:259-280 | the files end as the run specifies; success returns the path and count of every key |
| OdsStore.WriteVocabularyExports | text_to_vocabulary/storage/ods_vocabulary_store.py:259-280 | the export over the sixteen categories in their order |
| OdsStore.StepLocal | text_to_vocabulary/storage/ods_vocabulary_store.py:268-278 | a category's step depends only on its own `.ods` and `.txt` files |
| OdsStore.StepQuiet | text_to_vocabulary/storage/ods_vocabulary_store.py:268-278 | after a category's step, repeating it writes nothing and counts 0 |
| OdsStore.ExportsQuiet | text_to_vocabulary/storage/ods_vocabulary_store.py:259-280 | after a successful export, every category's step is quiet |
| OdsStore.QuietExports | text_to_vocabulary/storage/ods_vocabulary_store.py:259-280 | when every step is quiet, the export changes no file and counts 0 everywhere |
| OdsStore.ExportsTwice | text_to_vocabulary/storage/ods_vocabulary_store.py:259-280 | exporting the same data twice: the second export changes nothing and reports 0 for every category |
| OdsStore.AppendedHolds | text_to_vocabulary/storage/ods_vocabulary_store.py:216-235 | after an `.ods` append, every clean offered word can be read from the file |
| OdsStore.NewWordsHas | text_to_vocabulary/storage/ods_vocabulary_store.py:223-230 | every clean offered word is among the existing words or the new ones |
| OdsStore.StepContains | text_to_vocabulary/storage/ods_vocabulary_store.py:268-278 | after a category's step, its `.ods` file holds each of its deduplicated words |
| OdsStore.ExportsContain | text_to_vocabulary/storage/ods_vocabulary_store.py:259-280 | after a successful export, each category's file holds each of that category's words |
| OdsStore.ExportsHoldAllWords | text_to_vocabulary/storage/ods_vocabulary_store.py:259-280 | for the sixteen categories: every exported word is in its category's spreadsheet |
| OdsImporter.SafeRead | text_to_vocabulary/storage/ods_importer.py:82-86 | a failed read gives no words and the error text; a successful one gives its words and no error |
| OdsImporter.ProbeCategory | text_to_vocabulary/storage/ods_importer.py:30-41 | nothing iff neither file exists; the `.ods` file when it exists, otherwise the `.txt` file, each read safely |
| OdsImporter.FilterImportWords | text_to_vocabulary/storage/ods_importer.py:89-102 | the loop splits the words into the kept non-empty strings and the rejected entries, in order |
| OdsImporter.FilterPartition | text_to_vocabulary/storage/ods_importer.py:89-102 | every word is either kept or rejected; a word is kept iff it is a non-empty string of the input |
| OdsImporter.NonEmptyWordsAllKept | text_to_vocabulary/storage/ods_importer.py:93-100 | non-empty strings are all kept, in order, and none is rejected |
| OdsImporter.ReadWordsNeverMalformed | text_to_vocabulary/storage/ods_importer.py:34-48 | words that come from the readers are never reported malformed |
| OdsImporter.CapExamples | text_to_vocabulary/storage/ods_importer.py:105-108 | no examples when none remain; otherwise the first `remaining` examples |
| OdsImporter.MalformedStep | text_to_vocabulary/storage/ods_importer.py:49-53 | the running report holds the number of rejected entries so far and the first five of them |
| OdsImporter.ScanAll | text_to_vocabulary/storage/ods_importer.py:30-60 | one metadata record per queued category, and one error per skipped file |
| OdsImporter.ScanQueue | text_to_vocabulary/storage/ods_importer.py:30-60 | the queue holds, in category order, exactly the categories with a file that was read without error |
| OdsImporter.ScanQueueEntries | text_to_vocabulary/storage/ods_importer.py:48-60 | each queued category carries its kept words, and its metadata records the source, the number of words read and the number kept |
| OdsImporter.ImportedKeysHas | text_to_vocabulary/storage/ods_importer.py:30-60 | a category is queued iff it is scanned and its file was read without error |
| OdsImporter.ImportedKeysDistinct | text_to_vocabulary/storage/ods_importer.py:55 | no category is queued twice |
| OdsImporter.ScanSkipped | text_to_vocabulary/storage/ods_importer.py:43-46 | each error names the skipped file at the same position, and an error is reported iff some category's file failed to read, with that error |
| OdsImporter.ScanMalformed | text_to_vocabulary/storage/ods_importer.py:48-53 | the malformed count is the number of rejected entries over all categories, and the examples are the first five |
| OdsImporter.NothingMalformed | text_to_vocabulary/storage/ods_importer.py:48-53 | as readers only return non-empty strings, the malformed report is always empty |
| OdsImporter.ReadCategory | text_to_vocabulary/storage/ods_importer.py:31-41 | the probe reads what `ProbeCategory` specifies |
| OdsImporter.QueueCategory | text_to_vocabulary/storage/ods_importer.py:48-60 | a category read without error is queued with its kept words, its metadata and its rejects |
| OdsImporter.ScanCategory | text_to_vocabulary/storage/ods_importer.py:30-60 | one loop iteration performs `ScanStep` |
| OdsImporter.ScanCategories | text_to_vocabulary/storage/ods_importer.py:30-60 | the loop over the categories performs `ScanAll` |
| OdsImporter.Items | text_to_vocabulary/storage/ods_importer.py:62-65 | the bulk merge receives one entry per queued category, with the same names in the same order |
| OdsImporter.MergeBulk | text_to_vocabulary/storage/ods_importer.py:63-70 | the store follows the bulk merge of the queued words with source `ods_import`; each category's report carries its merge count; the total is the sum |
| OdsImporter.QueueKnown | text_to_vocabulary/storage/ods_importer.py:62-65 | queued categories are lexical, so the bulk merge never fails on an unknown category |
| OdsImporter.ReportCounts | text_to_vocabulary/storage/ods_importer.py:66-70 | each category's added count is its merge count or 0, and the total is their sum |
| OdsImporter.MergeEach | text_to_vocabulary/storage/ods_importer.py:71-77 | without a bulk merge, each queued category is merged in turn, and the report carries each count and their sum |
| OdsImporter.MergedInTurnStep | text_to_vocabulary/storage/ods_importer.py:72-77 | one more per-category merge extends the trace of store states and counts |
| OdsImporter.ImportOdsToStorage | text_to_vocabulary/storage/ods_importer.py:18-79 | the report holds the input directory, the skipped files, errors and malformed summary of the scan, and one entry per queued category with the total; nothing queued leaves the store alone; otherwise the store follows the bulk or the per-category merge |
| OdsImporter.ImportedLexical | text_to_vocabulary/storage/ods_importer.py:30-55 | the queued categories are distinct lexical categories |
| OdsExporter.FullPageLists | text_to_vocabulary/storage/ods_exporter.py:50 | `get_words(category)` with no search and no limit returns that category's full listing |
| OdsExporter.GetWordsMap | text_to_vocabulary/storage/ods_exporter.py:46-50 | with `get_words_by_category` the map has the reported categories, each with its listing; otherwise one listing per lexical category |
| OdsExporter.GetEach | text_to_vocabulary/storage/ods_exporter.py:50 | one entry per named category, each that category's listing |
| OdsExporter.SavedPaths | text_to_vocabulary/storage/ods_exporter.py:56-61 | one `(category, <dir>/<category>.ods)` pair per category, in order |
| OdsExporter.PerCategoryHas | text_to_vocabulary/storage/ods_exporter.py:56-60 | after the export a path exists iff it existed or is some category's file; a category's file holds its words; other files are unchanged |
| OdsExporter.PerCategoryDomain | text_to_vocabulary/storage/ods_exporter.py:56-60 | the export adds exactly the category files to the directory |
| OdsExporter.PerCategoryWritten | text_to_vocabulary/storage/ods_exporter.py:57-59 | each category's file holds the archive of its words, or of no words when the map lacks it |
| OdsExporter.PerCategoryKept | text_to_vocabulary/storage/ods_exporter.py:56-60 | files that are not category files are unchanged |
| OdsExporter.PerCategoryReadsBack | text_to_vocabulary/storage/ods_exporter.py:56-60 | each category's exported file reads back as its clean words |
| OdsExporter.ExportPerCategory | text_to_vocabulary/storage/ods_exporter.py:53-61 | the disk gains the per-category files and the saved paths are returned |
| OdsExporter.CategoryRows | text_to_vocabulary/storage/ods_exporter.py:70-71 | one `(category, word)` row per word, in order |
| OdsExporter.ConsolidatedCount | text_to_vocabulary/storage/ods_exporter.py:67-74 | the consolidated sheet has the header row first and one row per exported word |
| OdsExporter.CategoryRowsHas | text_to_vocabulary/storage/ods_exporter.py:71 | a row `(k, w)` is present iff `k` is the category and `w` is one of its words |
| OdsExporter.ConsolidatedHas | text_to_vocabulary/storage/ods_exporter.py:67-71 | a row `(k, w)` is in the consolidated rows iff `k` is an exported category holding `w` |
| OdsExporter.GatherRows | text_to_vocabulary/storage/ods_exporter.py:67-71 | the loop builds the consolidated rows, category by category |
| OdsExporter.ExportStorageToOds | text_to_vocabulary/storage/ods_exporter.py:28-43 | an unknown mode fails with the source's message and writes nothing; `per_category` writes one file per lexical category from the stored listings; `consolidated` writes one headed sheet at `<dir>/<name>` |
| OdsExporter.ExportReadsBack | text_to_vocabulary/storage/ods_exporter.py:53-61 | after a per-category export, each lexical category's file reads back as the store's listing of it |
| Config.CoerceStr | text_to_vocabulary/config.py:81-84 | the value when it is a string with non-whitespace content, otherwise the default |
| Config.CoerceBool | text_to_vocabulary/config.py:94-103 | a boolean is taken; a string whose stripped lower-case form is `true`, `1`, `yes` or `y` gives true, and `false`, `0`, `no` or `n` false; anything else gives the default |
| Config.LowerCapitalised | text_to_vocabulary/config.py:98 | lower-casing `True` and `False` gives the switch words `true` and `false` |
| Config.ShownSwitchWord | text_to_vocabulary/config.py:97-98 | the text of a Python boolean, stripped and lower-cased, is `true` or `false` |
| Config.BoolTextRoundTrip | text_to_vocabulary/config.py:94-103 | a boolean written as its Python text coerces back to itself, whatever the default |
| Config.CoerceStrIdempotent | text_to_vocabulary/config.py:81-84 | coercing an already coerced string again changes nothing, for a non-blank default |
| Config.CoerceFloat | text_to_vocabulary/config.py:87-91 | the converted value when `float()` succeeds, otherwise the default |
| Config.DefaultPathsInBase | text_to_vocabulary/config.py:106-108 | the default settings path and output directory are `settings.json` and `exports` inside the base directory, which is the given one or the current directory when none or an empty one is given |
| Config.LoadSettings | text_to_vocabulary/config.py:111-149 | a missing file fails with its path; otherwise the settings are the defaults merged key by key with the file's contents |
| Config.EveryKeyHeld | text_to_vocabulary/config.py:67-78 | the settings hold exactly the ten default keys |
| Config.NonObjectGivesDefaults | text_to_vocabulary/config.py:119-122 | contents that are not a JSON object give exactly the defaults |
| Config.StringField | text_to_vocabulary/config.py:81-84 | a string setting shows the file's value when it is non-blank text, else the default |
| Config.StringKeyCoerced | text_to_vocabulary/config.py:123-144 | each string key takes the file's non-blank string value and otherwise keeps its default |
| Config.BoolKeyCoerced | text_to_vocabulary/config.py:132-147 | each switch key is the file's value coerced against its boolean default |
| Config.MissingKeyKeepsDefault | text_to_vocabulary/config.py:119-147 | a string or switch key missing from the file keeps its default |
| DbManager.QuoteIdentifier | text_to_vocabulary/db_manager.py:6-8 | the result is wrapped in double quotes |
| DbManager.Escape | text_to_vocabulary/db_manager.py:7 | doubling the quotes never shortens the name |
| DbManager.UnescapeEscape | text_to_vocabulary/db_manager.py:7 | doubling every inner double quote is undone by reading pairs back |
| DbManager.QuoteRoundTrip | text_to_vocabulary/db_manager.py:6-8 | un-quoting a quoted identifier recovers the name |
| DbManager.QuoteInjective | text_to_vocabulary/db_manager.py:6-8 | distinct names quote differently |
| DbManager.Names | text_to_vocabulary/db_manager.py:50 | the column names of the table information, in order |
| DbManager.PkColumns | text_to_vocabulary/db_manager.py:64 | exactly the columns with a non-zero `pk` |
| DbManager.TableHasRowid | text_to_vocabulary/db_manager.py:52-60 | true when there is no row or no SQL; otherwise true iff the upper-cased SQL lacks `WITHOUT ROWID` |
| DbManager.GetRowIdentifier | text_to_vocabulary/db_manager.py:62-76 | with exactly one key column, kind `pk` on that column, a rowid alias iff its upper-cased type contains `INT`; otherwise `rowid` when the table has one, else none |
| DbManager.NoWithoutRowid | text_to_vocabulary/db_manager.py:58-60 | a table whose SQL has no `W` keeps its rowid |
| DbManager.ItemsIdentifier | tests/test_db_manager_sql.py:26-29 | an `INTEGER PRIMARY KEY id` column is the identifier and a rowid alias |
| DbManager.LogsIdentifier | tests/test_db_manager_sql.py:78-80 | a table without a key column falls back to `rowid` |
| DbManager.Params | text_to_vocabulary/db_manager.py:115-119 | one parameter per chosen column, the given value or null when absent |
| DbManager.InsertStatement | text_to_vocabulary/db_manager.py:104-132 | the loop chooses the insert columns and their parameters, and the statement is the `INSERT` for them |
| DbManager.InsertColumnsStep | text_to_vocabulary/db_manager.py:114-118 | one more table column is kept unless it is the integer key with no value |
| DbManager.ParamsAppend | text_to_vocabulary/db_manager.py:119 | one more chosen column adds its value to the parameters |
| DbManager.InsertColumnsHas | text_to_vocabulary/db_manager.py:107-118 | a column is inserted iff it is a table column other than the single integer key left without a value; with no such key every column is kept; never more columns than the table's |
| DbManager.InsertColumnsMembers | text_to_vocabulary/db_manager.py:114-118 | a column is inserted iff it is a table column other than the integer key with no value |
| DbManager.InsertColumnsWithoutKey | text_to_vocabulary/db_manager.py:107-118 | without an integer key every column is inserted, in table order |
| DbManager.InsertColumnsShorter | text_to_vocabulary/db_manager.py:114-118 | never more insert columns than table columns |
| DbManager.DefaultValuesExactly | text_to_vocabulary/db_manager.py:121-124 | `DEFAULT VALUES` is used iff every column is the integer key left without a value |
| DbManager.PlaceholderCount | text_to_vocabulary/db_manager.py:126 | the placeholder list holds one `?` per column |
| DbManager.QuoteAll | text_to_vocabulary/db_manager.py:127 | each insert column quoted, in order |
| DbManager.Assignments | text_to_vocabulary/db_manager.py:153 | one `"col" = ?` per set column, in order |
| DbManager.UpdateStatement | text_to_vocabulary/db_manager.py:136-157 | the loop chooses the set columns and parameters, then appends the identifier value; the statement is the `UPDATE` for them |
| DbManager.SetColumnsHas | text_to_vocabulary/db_manager.py:147-151 | a column is assigned iff it is not the rowid of a rowid identifier; a `pk` identifier assigns every column |
| DbManager.TakeToken | text_to_vocabulary/db_manager.py:181 | the first token is a whitespace-free prefix, ended by whitespace or the end of the text |
| DbManager.FirstToken | text_to_vocabulary/db_manager.py:181 | there is no token iff the statement is blank; a token is never empty |
| DbManager.KeywordOpens | text_to_vocabulary/db_manager.py:180-182 | a statement opening with a word followed by whitespace or nothing is a read iff the word, lower-cased, is `select`, `pragma`, `with` or `explain` |
| DbManager.LeadingSpaceIgnored | text_to_vocabulary/db_manager.py:181 | leading whitespace does not change whether a statement reads |
| DbManager.TakeTokenOf | text_to_vocabulary/db_manager.py:181 | the first token of a word followed by whitespace is that word |
| DbManager.CapitalWord | text_to_vocabulary/db_manager.py:181 | lower-casing an upper-case word maps each letter to its lower-case form |
| DbManager.SelectIsRead | text_to_vocabulary/db_manager.py:180-182 | `SELECT ...` is a read |
| DbManager.UpdateIsModify | text_to_vocabulary/db_manager.py:180-182 | `UPDATE ...` is not a read |
| DbManager.UpdateNotRead | text_to_vocabulary/db_manager.py:182 | `update` is not a read keyword |
| DbManager.Executed | text_to_vocabulary/db_manager.py:172-177 | a statement without a token fails; a read reports a select and anything else a modification |
| DbManager.DatabaseManager.constructor | text_to_vocabulary/db_manager.py:19-21 | no path and no connection, and nothing opened, run, committed or closed yet |
| DbManager.DatabaseManager.Close | text_to_vocabulary/db_manager.py:32-35 | the connection, if any, is closed and cleared; nothing else changes |
| DbManager.DatabaseManager.Open | text_to_vocabulary/db_manager.py:24-30 | a missing file fails before anything is closed and leaves the manager unchanged; otherwise the old connection is closed and a new one on that path is held |
| DbManager.DatabaseManager.InsertRow | text_to_vocabulary/db_manager.py:104-134 | with no connection it fails and runs nothing; otherwise it runs the `INSERT` with its parameters and commits once |
| DbManager.DatabaseManager.UpdateRow | text_to_vocabulary/db_manager.py:136-159 | with no connection it fails and runs nothing; otherwise it runs the `UPDATE` with its parameters and commits once |
| DbManager.DatabaseManager.ExecuteSql | text_to_vocabulary/db_manager.py:168-177 | the stripped statement is run; a read commits nothing, a modification commits once, and a blank statement fails after running |
| DbManager.DatabaseManager.Record | text_to_vocabulary/db_manager.py:171-176 | one statement is logged, and committed when asked |
| TokenBudget.CoerceInt | text_to_vocabulary/integrations/token_budget.py:14-21 | the default when `int()` fails or the converted value is below the minimum; the converted value otherwise; so the result meets the minimum unless it is the default |
| TokenBudget.CoerceIntText | text_to_vocabulary/integrations/token_budget.py:14-21 | the decimal text of an integer meeting the minimum coerces back to that integer |
| TokenBudget.ItemTexts | text_to_vocabulary/integrations/token_budget.py:30-36 | the item texts kept for joining are all non-empty, at most one per item |
| TokenBudget.ContentWordsRoundTrip | text_to_vocabulary/integrations/token_budget.py:29-36 | a list of non-empty space-free strings is joined with single spaces, so splitting on spaces gives the list back |
| TokenBudget.ItemTextsOfStrings | text_to_vocabulary/integrations/token_budget.py:31-35 | a list of non-empty strings contributes each string as its own text |
| TokenBudget.Extras | text_to_vocabulary/integrations/token_budget.py:45-49 | at most one `key:value` text per entry |
| TokenBudget.CollectExtras | text_to_vocabulary/integrations/token_budget.py:45-49 | the loop collects the `key:value` texts of the entries other than role and content whose value is not None |
| TokenBudget.FlattenMessage | text_to_vocabulary/integrations/token_budget.py:40-57 | a non-dict is shown as text; a dict gives its role line, content and extras, each only when non-empty, one per line |
| TokenBudget.ChatMessageFlattened | text_to_vocabulary/integrations/token_budget.py:40-57 | a message with a role and content flattens to `role:<role>`, a newline and the content |
| TokenBudget.WordCount | text_to_vocabulary/integrations/token_budget.py:101 | never more words than characters |
| TokenBudget.CeilDiv | text_to_vocabulary/integrations/token_budget.py:102-103 | the least quotient whose multiple reaches the numerator |
| TokenBudget.TotalsStep | text_to_vocabulary/integrations/token_budget.py:98-101 | each message adds its flattened length to the characters and its word count to the words |
| TokenBudget.CountText | text_to_vocabulary/integrations/token_budget.py:96-101 | the loop totals the characters and words of all flattened messages |
| TokenBudget.CombineCounts | text_to_vocabulary/integrations/token_budget.py:102-104 | the larger of the two ceilings plus four tokens per message |
| TokenBudget.EstimateInputTokens | text_to_vocabulary/integrations/token_budget.py:82-104 | None and the empty list give 0, a non-list fails, a tokenizer counts the joined text plus the overhead, and otherwise the fallback estimate |
| TokenBudget.FallbackBounds | text_to_vocabulary/integrations/token_budget.py:96-104 | the fallback estimate is at least four tokens per message, and the rest covers a quarter of the characters and 1.3 tokens per word |
| TokenBudget.EstimateEdges | text_to_vocabulary/integrations/token_budget.py:82-104 | None and `[]` give 0; the estimate fails iff the messages are neither None nor a list; without a tokenizer it is at least four tokens per message |
| TokenBudget.CoercedBudget | text_to_vocabulary/integrations/token_budget.py:108-117 | the context limit and output cap are at least 1 and the margin at least 0, unless each is its default |
| TokenBudget.CalculateMaxTokens | text_to_vocabulary/integrations/token_budget.py:107-132 | the settings are coerced, the input estimated, and the allowance computed, failing at the first error |
| TokenBudget.Allow | text_to_vocabulary/integrations/token_budget.py:120-132 | the allowance check and cap as `Allowance` states |
| TokenBudget.AllowanceFits | text_to_vocabulary/integrations/token_budget.py:119-132 | it fails iff fewer than 256 tokens remain, reporting the input and the available count clipped at 0; on success the result is at most the output cap, input plus margin plus result fits the context, and the result is the cap or all that remains |
| TokenBudget.NoSettingsTakesDefaults | text_to_vocabulary/integrations/token_budget.py:108-117 | no settings, or empty ones, give the default budget |
| LlmClient.TrimSlashes | text_to_vocabulary/integrations/llm_client.py:32 | a prefix of the input with no trailing slash, having dropped only slashes |
| LlmClient.NormalizeEndpoint | text_to_vocabulary/integrations/llm_client.py:31-39 | the result always ends in `/chat/completions` and extends the endpoint with its trailing slashes removed |
| LlmClient.EndsWithAppended | text_to_vocabulary/integrations/llm_client.py:34 | appending a suffix makes the text end with it |
| LlmClient.FullPathEndsWithChat | text_to_vocabulary/integrations/llm_client.py:35-38 | anything ending in `/v1/chat/completions` already ends in `/chat/completions`, so the third branch never decides |
| LlmClient.ChatEndingIsClean | text_to_vocabulary/integrations/llm_client.py:32-36 | a text ending in `/chat/completions` has no trailing slash and does not end in `/v1` |
| LlmClient.NormalizeIdempotent | text_to_vocabulary/integrations/llm_client.py:31-39 | normalizing a normalized endpoint changes nothing |
| LlmClient.BareBase | text_to_vocabulary/integrations/llm_client.py:39 | a bare server address gains `/v1/chat/completions` |
| LlmClient.SlashedBase | text_to_vocabulary/integrations/llm_client.py:32 | a trailing slash does not change the result |
| LlmClient.VersionedBase | text_to_vocabulary/integrations/llm_client.py:33-34 | an address ending in `/v1` gains `/chat/completions` |
| LlmClient.FullBase | text_to_vocabulary/integrations/llm_client.py:35-36 | a full chat address is kept |
| LlmClient.NormalizedForms | text_to_vocabulary/integrations/llm_client.py:31-39 | the bare, slashed, versioned and full forms of one address all normalize to the same full address |
| LlmClient.LocalServerIsBase | text_to_vocabulary/config.py:68 | the default server address is a bare base address |
| LlmClient.EffectiveModel | text_to_vocabulary/integrations/llm_client.py:63 | a blank model becomes `local-model`; any other is stripped, non-empty and stripped again unchanged |
| LlmClient.EffectivePrompt | text_to_vocabulary/integrations/llm_client.py:64-67 | no prompt gives the default system prompt and a string prompt is kept |
| LlmClient.Iterated | text_to_vocabulary/integrations/llm_client.py:117 | a list is iterated item by item; None, booleans, integers and floats are not iterable |
| LlmClient.ShapedOverStep | text_to_vocabulary/integrations/llm_client.py:116-118 | shaping one more key fails iff the earlier keys failed or this key's value is not iterable |
| LlmClient.BadKeyFails | text_to_vocabulary/integrations/llm_client.py:116-118 | one non-iterable category value makes the shaping fail |
| LlmClient.FailureHasBadKey | text_to_vocabulary/integrations/llm_client.py:116-118 | a failed shaping names a category whose value is not iterable |
| LlmClient.ShapedOverFails | text_to_vocabulary/integrations/llm_client.py:116-118 | the shaping fails iff some key's value is not iterable |
| LlmClient.ShapedOverLast | text_to_vocabulary/integrations/llm_client.py:116-118 | a successful shaping is the shaping of the earlier keys plus the last key's deduplicated words |
| LlmClient.ShapedOverHolds | text_to_vocabulary/integrations/llm_client.py:116-118 | a successful shaping has exactly the given keys, each with its own deduplicated words |
| LlmClient.HoldsAfterKey | text_to_vocabulary/integrations/llm_client.py:116-118 | adding one key's words keeps every earlier key's words and key set |
| LlmClient.ShapedOverFailurePersists | text_to_vocabulary/integrations/llm_client.py:116-118 | once a key fails, later keys do not change the failure |
| LlmClient.ShapedFacts | text_to_vocabulary/integrations/llm_client.py:116-118 | the result fails iff some lexical category's value is not iterable; otherwise it has exactly the lexical categories, each the deduplicated, distinct words of that key, empty when the key is missing |
| LlmClient.CategoryWordsFacts | text_to_vocabulary/integrations/llm_client.py:117 | one category's words are the deduplicated items of its value, distinct, and empty when the key is missing |
| LlmClient.ShapedOverNext | text_to_vocabulary/integrations/llm_client.py:116-118 | one more key extends the shaped words or fails |
| LlmClient.ShapeOver | text_to_vocabulary/integrations/llm_client.py:116-118 | the loop over the categories computes the shaping |
| LlmClient.EmptyEndpointRefused | text_to_vocabulary/integrations/llm_client.py:59-60 | an empty endpoint fails with `Endpoint is empty.` and posts nothing |
| LlmClient.CacheHitPostsNothing | text_to_vocabulary/integrations/llm_client.py:87-92 | a cached dict is returned as it stands and nothing is posted |
| LlmClient.NonDictCacheEntryIgnored | text_to_vocabulary/integrations/llm_client.py:91 | a cached value that is not a dict is treated as a miss |
| LlmClient.PostedRequest | text_to_vocabulary/integrations/llm_client.py:62-109 | a posted request goes to the normalized endpoint with the effective model, the system and user messages, and the token cap the budget allows |
| LlmClient.FreshReply | text_to_vocabulary/integrations/llm_client.py:113-119 | a fresh reply comes from a JSON object; it has exactly the lexical categories, each deduplicated, and the table formatted from them |
| LlmClient.AnswerErrors | text_to_vocabulary/integrations/llm_client.py:113-118 | a non-object fails with its message; an object fails iff some category's value is not iterable |
| LlmClient.ResponseCache.constructor | text_to_vocabulary/integrations/llm_client.py:57 | a cache holds the given entries and failure mode |
| LlmClient.ResponseCache.Get | text_to_vocabulary/integrations/llm_client.py:87-90 | a failing cache raises; otherwise the stored entry or nothing |
| LlmClient.ResponseCache.Set | text_to_vocabulary/integrations/llm_client.py:121-125 | a working cache stores the entry; a failing one stores nothing |
| LlmClient.Looked | text_to_vocabulary/integrations/llm_client.py:87-90 | a failing lookup reads as a miss; otherwise a hit iff the key is stored |
| LlmClient.Fetch | text_to_vocabulary/integrations/llm_client.py:94-119 | the budgeted post and its shaped answer |
| LlmClient.LookUp | text_to_vocabulary/integrations/llm_client.py:74-90 | no cache gives a miss; otherwise the lookup with exceptions read as a miss |
| LlmClient.Remember | text_to_vocabulary/integrations/llm_client.py:121-125 | only a fresh reply is stored, and only in a working cache; an error is swallowed |
| LlmClient.Respond | text_to_vocabulary/integrations/llm_client.py:59-119 | the outcome for the given cache lookup |
| LlmClient.RequestVocabularyAnalysis | text_to_vocabulary/integrations/llm_client.py:46-127 | the result and posted request are those of the outcome for the cache's entry under the request's signature; a fresh reply is stored under that signature in a working cache, and nothing else changes |
| PyValues.Get | text_to_vocabulary/config.py:123 | `dict.get`: the default when the key is absent, otherwise a value stored under the key |
| PyValues.Show | text_to_vocabulary/integrations/token_budget.py:33-37 | `str()`: a string is itself, None is `None`, an integer its decimal text |
| PyValues.DigitsValueOfNat | text_to_vocabulary/integrations/token_budget.py:16 | the digits of a natural number read back as that number |
| PyValues.NatToStringDigitGroups | text_to_vocabulary/integrations/token_budget.py:16 | the decimal text of a natural number is a valid digit string for `int()` |
| PyValues.ParseNatText | text_to_vocabulary/integrations/token_budget.py:16 | `int()` of a natural number's text is that number |
| PyValues.ParseSignedNegative | text_to_vocabulary/integrations/token_budget.py:16 | a minus sign before valid digits negates their value |
| PyValues.NegativeText | text_to_vocabulary/integrations/token_budget.py:16 | a negative integer's text is a minus sign before the digits of its magnitude, with no surrounding whitespace |
| PyValues.ParseStripped | text_to_vocabulary/integrations/token_budget.py:16 | `int()` of text without surrounding whitespace parses it as it stands |
| PyValues.ParseMinusDigits | text_to_vocabulary/integrations/token_budget.py:16 | `-` before a natural number's text parses to its negation |
| PyValues.ParseNegativeText | text_to_vocabulary/integrations/token_budget.py:16 | `int()` of a negative integer's text is that integer |
| PyValues.ParseIntRoundTrip | text_to_vocabulary/integrations/token_budget.py:16 | `int(str(n)) == n` for every integer |

## Left out

- Input and output:
  - File reads and writes act on a `Disk` object, a map from path to file contents. Directory creation, encodings and OS errors other than a missing file are not modelled.
  - The zip container, its deflate encoding, XML serialisation and `ET.iterparse` are not modelled. An archive is a sequence of named members, and the content is tables of rows of cells of paragraphs.
  - The archive readers do not pass cell texts through the XML layer. `OdsCodec.XmlReadBack` states what that layer does to one written word, and `OdsCodec.XmlSafeReadsBack` shows that it is the identity on `XmlSafe` words; the lines below name what this leaves out.
- `OdsCodec.WordsRoundTrip`, `OdsStore.AppendOdsReadsBack`, `OdsStore.AppendReadsBack`, `OdsStore.AppendTwice`, `OdsStore.ExportsTwice`, `OdsStore.ExportsHoldAllWords`, `OdsStore.AppendedHolds`, `OdsStore.StepQuiet`, `OdsStore.ExportsQuiet`, `OdsStore.StepContains`, `OdsStore.ExportsContain`, `OdsExporter.PerCategoryReadsBack`, `OdsExporter.ExportReadsBack`: for an .ods file these hold as stated only for words that are `OdsCodec.XmlSafe`. A word holding `\r` reads back with `\n` in its place (`OdsCodec.CarriageReturnReadsAsLineFeed`), so it is not found on the next read and a repeated offer adds it again with count 1. A word holding a character XML does not admit (U+0000 to U+0008, U+000B, U+000C, U+000E to U+001F, U+FFFE, U+FFFF) is written, and every later read of that file raises a `ParseError` that the readers do not catch.
- `OdsStore.AppendMissingWords`: for an .ods file the cache is coherent with the file only for `OdsCodec.XmlSafe` words. After a word holding `\r`, the cache holds `a\rb` while the file reads `a\nb`.
  - The SQLite engine is not modelled. The three store tables are fields of `SqliteStorage.Store`. The database manager records the statements it sends instead of running them. `PRAGMA table_info` and the `sqlite_master` row are parameters.
- Transactions, rollback and connection handling (`_connect`, `with conn`) are not modelled. Each store operation is one atomic state change.
- The FTS5 virtual table, its triggers, `_ensure_fts` and `_rebuild_fts` are not modelled; the index is treated as a view derived from the tables.
  - Whether FTS5 exists is the store's `ftsAvailable` constant.
  - Which rows a MATCH selects is the store's `ftsMatch` parameter.
  - Only the FTS5 lexer's accept/reject decision on a query string is modelled concretely.
- `casefold`, `str.lower` on Unicode and the spaCy lemmatizer are function parameters (`Normalization.Linguistics`, `SqliteStorage.Store.casefold`). Every property proved holds whatever they compute. The spaCy caches `_NLP` and `_WARNED` are left out.
- Case mapping in SQLite's NOCASE collation and `LIKE`, and in `str.upper`/`str.lower` on SQL text and switch words, is modelled as ASCII-only. This is exactly how SQLite defines NOCASE and `LIKE`. Python would also map non-ASCII letters in `.upper()`/`.lower()`.
- The regular expression class `\w` is the store's `wordChar` parameter.
- JSON decoding (`json.load`, `json.loads`) and `extract_json` are left out; the decoded value is an input. The HTTP post in `request_vocabulary_analysis` is the `respond` parameter of `LlmClient.Env`, together with the decoding of the reply and the `choices[0].message.content` lookup; its failure carries the raised message. The `timeout` argument is dropped.
- Floats are `PyValues.Opaque` values. `float()` is the `toFloat` parameter in `Config.CoerceFloat` and `LlmClient.Prepare`.
- `TokenBudget.CoerceInt` (through `PyValues.ToInt`) does not convert floats: Python's `int(4096.0)` is 4096, and `int()` of an infinity raises an `OverflowError` that `_coerce_int` does not catch, but the model gives the default for every float, because a float is an `Opaque` value without a number. It also reads only the ASCII digits `0`-`9`, while Python's `int()` accepts every Unicode decimal digit (`int("４０９６")` and `int("٤٠٩٦")` are 4096); for such text the model gives the default.
- `PyValues.ToInt`, `PyValues.ParseInt`: only ASCII digits are digits; other Unicode decimal digits are not modelled.
- `PyValues.Truthy`: every `Opaque` value is truthy. A Python float is falsy when it is zero, and the model does not carry that.
- `TokenBudget.CalculateMaxTokens`: settings given as the float `0.0` are falsy, so `settings or {}` takes the defaults in Python, while the model fails with `SettingsNotADict`. Settings whose numbers are written in non-ASCII decimal digits are converted by Python and replaced by the defaults in the model.
- The tokenizer (`_get_tokenizer`, tiktoken and its cache) is the `tokenizer` parameter of the token budget.
- `DEFAULT_CONTEXT_LIMIT`, `DEFAULT_MAX_OUTPUT_TOKENS` and `DEFAULT_TOKEN_SAFETY_MARGIN` are imported by `token_budget.py` but not defined in `config.py`. They are the `TokenBudget.Defaults` parameter.
- `Config.DefaultSystemPrompt`: the wording of the default system prompt is not reproduced. No property depends on it.
- `llm_cache.py` is not part of this model. `LlmClient.ResponseCache` stands in for it as a map keyed by the request signature: two requests share an entry exactly when their signatures agree. The SHA-256 key, the SQL persistence and eviction are left out. A cache whose `get`/`set` raise is the `failing` flag.
- `request_vocabulary_analysis` takes the endpoint and model as strings; a `None` endpoint or model is not modelled.
- `DbManager.DatabaseManager`: `list_tables`, `get_table_info`, `count_rows`, `fetch_rows` and `delete_row` are outside this model. They return what SQLite answers, which this model does not have; `fetch_rows` and `delete_row` also build their SQL from table and column names, and those statements are not modelled.
- `DbManager.DatabaseManager.InsertRow`, `UpdateRow`, `ExecuteSql`: these do not return `lastrowid`, `rowcount` or the fetched rows, which SQLite computes. They state the statement sent and the commits made.
- `DbManager.DatabaseManager.constructor` models `__init__` up to the `open` call; `Open` is then called on the new object.
- `TokenBudget.CombineCounts`: the source computes `math.ceil(word_count * 1.3)` in floating point. The model uses the exact ceiling of 13·w/10; rounding in the float product is not modelled.
- `OdsStore.AppendTxtReadsBack`, `OdsStore.AppendReadsBack`, `OdsStore.AppendTwice`: for a text list, the read-back and the second append's zero are proved only when the old text is empty or ends its last line; otherwise the first new word is glued on (`OdsStore.AppendTxtGlues`).
- `OdsStore.AppendMissingWords`, `OdsStore.AppendMissingWordsTxt`: for a text list, cache coherence is promised only when the old text is empty or ends its last line. Otherwise the cache records the old and new words while the file reads back a glued word.
- `SqliteMigration.TextAffinity`: cells are NULL, integers or text; REAL and BLOB values, and the conversions of INTEGER and other column affinities, are not modelled.
- `SqliteMigration.CopyWords`: a text id is always a datatype mismatch, though SQLite converts text that spells an integer; the rowid chosen once the largest possible rowid is in use (a random one) is not modelled.
- `SqliteMigration.CopyEntries`: the `INTEGER PRIMARY KEY` of the new `category_words` is modelled only as a uniqueness constraint; a NULL id is kept as NULL instead of receiving the next rowid, and a text id, which aborts the statement with a datatype mismatch, is copied.
- `SqliteQueries.FtsParses`: the FTS5 grammar is modelled only for the queries the builders produce (terms joined by ` AND `): lexing, and a keyword marked as a prefix.
- `OdsStore.Disk`: a file's stat signature is the disk's write counter at its last write, with the file's size. Real modification times may coincide for two quick writes; the model assumes they do not.
- The Tk user interface, `http_client.py`, `app/vocabulary_analysis.py`, `profile_storage.py` and the `__init__.py` re-exports are not part of this model.
- `vocabulary_storage.py` is the abstract interface the SQLite store implements; its methods are modelled through `SqliteStorage.Store`.

Where the description of the system and the code disagree, the model follows the code:

- The description says substring search is case-insensitive for the lemma. The code applies `LIKE` to both the lemma and the surface form, so both are compared ASCII-case-insensitively (`SqliteQueries.LikeContains`).
- A test (tests/test_vocabulary_service.py:129-130) expects the model's lists back un-deduplicated. The client deduplicates every category (text_to_vocabulary/integrations/llm_client.py:116-118); `LlmClient.ShapedFacts` follows the client.
- The third branch of `normalize_endpoint` (text_to_vocabulary/integrations/llm_client.py:37-38) can never decide. Anything ending in `/v1/chat/completions` already ends in `/chat/completions` (`LlmClient.FullPathEndsWithChat`).
- `append_missing_words` compares exact stripped strings, with no case folding. It does not deduplicate the incoming batch: offering `w` twice adds it twice (`OdsStore.RepeatedOfferAddedTwice`).
- `_filter_import_words` neither strips nor deduplicates.
- A file that is still missing is a cache hit, because the absent signature equals itself (`VocabularyCache.MissingFileHits`).

## Findings

| source | as written | input that shows it | evidently intended | confidence | as-written member | corrected member |
|---|---|---|---|---|---|---|
| text_to_vocabulary/storage/sqlite_vocabulary_storage.py:573-583 | tokens of `[\w']+` keep their apostrophes and are written bare as `token*`; FTS5 rejects a bare apostrophe, so `get_words` raises a syntax error instead of searching | the search `don't` builds `don't*` | every built query is one FTS5 accepts, e.g. each token as a quoted string `"don't"*` | not executed | SqliteQueries.ApostropheQueryRejected | SqliteQueries.BuildFtsQueryQuotedLexable |
| text_to_vocabulary/storage/sqlite_vocabulary_storage.py:573-583 | the upper-case keywords `AND`, `OR` and `NOT` are tokens too and get a `*`; FTS5 only allows `*` after a word or a string, so `get_words` raises a syntax error | the search `rock AND roll` builds `rock* AND AND* AND roll*` | the keyword is searched as a word, e.g. quoted as `"AND"*` | not executed | SqliteQueries.KeywordSearchRejected | SqliteQueries.BuildFtsQueryQuotedParses |
| text_to_vocabulary/storage/ods_vocabulary_store.py:249-251 | new words are appended in `"a"` mode straight after the old text; a file whose last line has no line break gets the first new word glued onto that line | a file `cat` (no trailing newline) and the new word `dog` read back as `catdog` | the file reads back as the old words followed by the new ones | not executed | OdsStore.AppendTxtGlues | OdsStore.AppendTxtFixedReadsBack |

The store operations model the code as written. `SqliteStorage.Store.FilterFor` builds its FTS query with `SqliteQueries.BuildFtsQuery`, and `SqliteStorage.Store.GetWords` fails with `FtsSyntaxError` on a query FTS5 does not parse (`SqliteStorage.Store.SearchRefused` says which searches). `OdsStore.AppendMissingWordsTxt` appends straight after the old text (`OdsStore.AppendTxt`). The corrected definitions are separate members with their properties proved: `SqliteQueries.BuildFtsQueryQuoted` quotes every token, and `OdsStore.AppendTxtFixed` ends the old last line first (`OdsCodec.AppendLinesFixed`, also shown by `OdsCodec.AppendLinesGlues`).

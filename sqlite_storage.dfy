/**
 * `SQLiteVocabularyStorage`: the three tables of the store as the fields of one object.
 * `categoryIds` is the categories table (name to id, which is also the object's cache
 * of it), `wordIds` the words table (lemma to id, `lemma UNIQUE`), and `rows` the
 * category_words table keyed by (category id, word id). Case folding, the regular
 * expression engine's `\w`, whether the SQLite build has FTS5, and what an FTS5 MATCH
 * selects are fixed when the store is opened.
 */
module SqliteStorage {
  import opened Wrappers
  import opened Text
  import opened SqliteRows
  import opened SqliteQueries
  import opened Ordering
  import Vocabulary

  /** The store's `ValueError`s, and the `sqlite3.OperationalError` FTS5 raises for a query it cannot parse. */
  datatype StoreError = UnknownCategory(name: string) | NotADict | FtsSyntaxError(query: string)

  /** The text of the exception the store raises. */
  function Message(e: StoreError): string {
    match e
    case UnknownCategory(name) => "Unknown category: " + name
    case NotADict => "category_word_map must be a dict of category -> words"
    case FtsSyntaxError(query) => "fts5: syntax error in " + query
  }

  /** No two names share an id: the ids are primary keys. */
  predicate Injective(m: map<string, nat>) {
    forall a, b :: a in m && b in m && a != b ==> m[a] != m[b]
  }

  predicate Below(m: map<string, nat>, n: nat) {
    forall a :: a in m ==> m[a] < n
  }

  /** Every row names an existing category and an existing word: the enforced foreign keys. */
  predicate RowsRefer(rows: Rows, categoryIds: map<string, nat>, wordIds: map<string, nat>) {
    forall k :: k in rows ==> k.0 in categoryIds.Values && k.1 in wordIds.Values
  }

  lemma RowsReferAdd(rows: Rows, categoryIds: map<string, nat>, wordIds: map<string, nat>, key: Key, e: Entry)
    requires RowsRefer(rows, categoryIds, wordIds)
    requires key.0 in categoryIds.Values && key.1 in wordIds.Values
    ensures RowsRefer(rows[key := e], categoryIds, wordIds)
  {
  }

  /** Adding names to a table keeps every id it already had. */
  lemma RowsReferGrow(rows: Rows, categoryIds: map<string, nat>, wordIds: map<string, nat>, wordIds': map<string, nat>)
    requires RowsRefer(rows, categoryIds, wordIds)
    requires forall l :: l in wordIds ==> l in wordIds' && wordIds'[l] == wordIds[l]
    ensures RowsRefer(rows, categoryIds, wordIds')
  {
    forall k | k in rows
      ensures k.1 in wordIds'.Values
    {
      var l :| l in wordIds && wordIds[l] == k.1;
      assert wordIds'[l] == k.1;
    }
  }

  lemma RowsReferGrowCategories(rows: Rows, categoryIds: map<string, nat>, categoryIds': map<string, nat>, wordIds: map<string, nat>)
    requires RowsRefer(rows, categoryIds, wordIds)
    requires forall c :: c in categoryIds ==> c in categoryIds' && categoryIds'[c] == categoryIds[c]
    ensures RowsRefer(rows, categoryIds', wordIds)
  {
    forall k | k in rows
      ensures k.0 in categoryIds'.Values
    {
      var c :| c in categoryIds && categoryIds[c] == k.0;
      assert categoryIds'[c] == k.0;
    }
  }

  /** Fresh ids go to the names not yet present, so the ids stay distinct and below the counter. */
  method AddNames(ids: map<string, nat>, next: nat, names: seq<string>) returns (ids': map<string, nat>, next': nat)
    requires Injective(ids) && Below(ids, next)
    ensures Injective(ids') && Below(ids', next') && next <= next'
    ensures ids'.Keys == ids.Keys + set c | c in names
    ensures forall c :: c in ids ==> ids'[c] == ids[c]
  {
    ids', next' := ids, next;
    for i := 0 to |names|
      invariant Injective(ids') && Below(ids', next') && next <= next'
      invariant ids'.Keys == ids.Keys + set c | c in names[..i]
      invariant forall c :: c in ids ==> ids'[c] == ids[c]
    {
      assert names[..i + 1] == names[..i] + [names[i]];
      if names[i] !in ids' {
        ids' := ids'[names[i] := next'];
        next' := next' + 1;
      }
    }
    assert names[..|names|] == names;
  }

  /**
   * What `_insert_words_with_connection` does to the words table (`w` before, `w'`
   * after) and to the category_words rows (`rows` before, `rows'` after), and what it
   * returns: nothing to write gives 0 before the category is looked up; an unknown
   * category raises; otherwise every lemma gets a word id and the batch is written.
   */
  predicate InsertOutcome(prepared: seq<(string, string)>, category: string, categoryIds: map<string, nat>,
                          w: map<string, nat>, w': map<string, nat>, rows: Rows, rows': Rows,
                          source: Option<string>, backfill: bool, r: Result<nat, StoreError>)
  {
    if prepared == [] then r == Success(0) && w' == w && rows' == rows
    else if category !in categoryIds then r == Failure(UnknownCategory(category)) && w' == w && rows' == rows
    else
      w'.Keys == w.Keys + (set l | l in Lemmas(prepared))
      && (forall l :: l in w ==> w'[l] == w[l])
      && Covers(w', prepared)
      && var batch := Batch(categoryIds[category], w', prepared);
      r == Success(Added(rows, batch, source)) && rows' == WriteRows(rows, batch, source, backfill)
  }

  /**
   * The count `add_words` and `merge_words` return is the number of rows they
   * created: the (category, lemma) pairs that had no row before.
   */
  lemma InsertCountIsRowsCreated(prepared: seq<(string, string)>, category: string, categoryIds: map<string, nat>,
                                 w: map<string, nat>, w': map<string, nat>, rows: Rows, rows': Rows,
                                 source: Option<string>, backfill: bool, r: Result<nat, StoreError>)
    requires InsertOutcome(prepared, category, categoryIds, w, w', rows, rows', source, backfill, r)
    ensures rows.Keys <= rows'.Keys
    ensures r.Success? ==> r.value == |rows'.Keys| - |rows.Keys|
  {
    if prepared != [] && category in categoryIds {
      var batch := Batch(categoryIds[category], w', prepared);
      InsertAllKeys(rows, batch, source);
      AddedCountsNewKeys(rows, batch, source);
      BackfillAllKeys(InsertAll(rows, batch, source), batch, source);
    }
  }

  /** `add_words` leaves every row already present exactly as it was. */
  lemma AddKeepsRows(prepared: seq<(string, string)>, category: string, categoryIds: map<string, nat>,
                     w: map<string, nat>, w': map<string, nat>, rows: Rows, rows': Rows,
                     source: Option<string>, r: Result<nat, StoreError>)
    requires InsertOutcome(prepared, category, categoryIds, w, w', rows, rows', source, false, r)
    ensures forall key :: key in rows ==> key in rows' && rows'[key] == rows[key]
  {
    if prepared != [] && category in categoryIds {
      InsertAllKeeps(rows, Batch(categoryIds[category], w', prepared), source);
    }
  }

  /**
   * `merge_words` never overwrites: a row already present keeps its frequency, its
   * non-empty surface form and its source; only an empty surface or a missing source
   * can be filled.
   */
  lemma MergeFillsOnlyGaps(prepared: seq<(string, string)>, category: string, categoryIds: map<string, nat>,
                           w: map<string, nat>, w': map<string, nat>, rows: Rows, rows': Rows,
                           source: Option<string>, r: Result<nat, StoreError>)
    requires InsertOutcome(prepared, category, categoryIds, w, w', rows, rows', source, true, r)
    ensures forall key :: key in rows ==>
      key in rows'
      && rows'[key].frequency == rows[key].frequency
      && (rows[key].surface != "" ==> rows'[key].surface == rows[key].surface)
      && (rows[key].source.Some? ==> rows'[key].source == rows[key].source)
  {
    if prepared != [] && category in categoryIds {
      var batch := Batch(categoryIds[category], w', prepared);
      InsertAllKeeps(rows, batch, source);
      BackfillAllNeverOverwrites(InsertAll(rows, batch, source), batch, source);
    }
  }

  /**
   * After a successful write every prepared word has its row in the category; after a
   * merge that row's surface form is non-empty, and it has a source whenever one was given.
   */
  lemma InsertedWordsHaveRows(prepared: seq<(string, string)>, category: string, categoryIds: map<string, nat>,
                              w: map<string, nat>, w': map<string, nat>, rows: Rows, rows': Rows,
                              source: Option<string>, backfill: bool, r: Result<nat, StoreError>, k: nat)
    requires InsertOutcome(prepared, category, categoryIds, w, w', rows, rows', source, backfill, r)
    requires forall j :: 0 <= j < |prepared| ==> prepared[j].1 != ""
    requires category in categoryIds && k < |prepared|
    ensures prepared[k].0 in w'
    ensures (categoryIds[category], w'[prepared[k].0]) in rows'
    ensures backfill ==> rows'[(categoryIds[category], w'[prepared[k].0])].surface != ""
    ensures backfill && source.Some? ==> rows'[(categoryIds[category], w'[prepared[k].0])].source.Some?
  {
    var batch := Batch(categoryIds[category], w', prepared);
    var inserted := InsertAll(rows, batch, source);
    assert batch[k].0 in Vocabulary.Firsts(batch);
    InsertAllKeys(rows, batch, source);
    if backfill {
      BackfillAllFills(inserted, batch, source, k);
    }
  }

  // ---------------------------------------------------------------------------
  // merge_categories
  // ---------------------------------------------------------------------------

  /** The argument of `merge_categories`: a dict, kept as its items in insertion order, or anything else. */
  datatype MergeInput = Dict(items: seq<(string, seq<Value>)>) | NotDict

  /** A Python dict has each key once. */
  predicate IsDict(input: MergeInput) {
    input.Dict? ==> Vocabulary.Distinct(Vocabulary.Firsts(input.items))
  }

  /** `prepared_by_category`: the categories whose prepared list is non-empty, with that list, in dict order. */
  function Groups(casefold: string -> string, items: seq<(string, seq<Value>)>): seq<(string, seq<(string, string)>)>
  {
    if items == [] then []
    else
      var prev := Groups(casefold, items[..|items| - 1]);
      var (category, words) := items[|items| - 1];
      var prepared := Prepare(casefold, words);
      if prepared == [] then prev else prev + [(category, prepared)]
  }

  /** The first category, in dict order, that has words to write but no row in categories. */
  function FirstUnknown(groups: seq<(string, seq<(string, string)>)>, categoryIds: map<string, nat>): Option<string>
  {
    if groups == [] then None
    else if groups[0].0 !in categoryIds then Some(groups[0].0)
    else FirstUnknown(groups[1..], categoryIds)
  }

  /** `all_lemmas`, as a list. */
  function GroupLemmas(groups: seq<(string, seq<(string, string)>)>): seq<string>
  {
    if groups == [] then [] else GroupLemmas(groups[..|groups| - 1]) + Lemmas(groups[|groups| - 1].1)
  }

  /** Every group's category exists and every lemma of it has an id. */
  predicate Writable(groups: seq<(string, seq<(string, string)>)>, categoryIds: map<string, nat>, wordIds: map<string, nat>) {
    forall j :: 0 <= j < |groups| ==> groups[j].0 in categoryIds && Covers(wordIds, groups[j].1)
  }

  /**
   * The batch of one group; empty for a group whose category or lemmas have no id,
   * which the merge never writes.
   */
  function GroupBatch(group: (string, seq<(string, string)>), categoryIds: map<string, nat>, wordIds: map<string, nat>)
    : seq<(Key, string)>
  {
    if group.0 in categoryIds && Covers(wordIds, group.1) then Batch(categoryIds[group.0], wordIds, group.1) else []
  }

  /** The rows after each group's inserts and backfill, group after group. */
  function MergeAll(rows: Rows, groups: seq<(string, seq<(string, string)>)>, categoryIds: map<string, nat>,
                    wordIds: map<string, nat>, source: Option<string>): Rows
  {
    if groups == [] then rows
    else
      var before := MergeAll(rows, groups[..|groups| - 1], categoryIds, wordIds, source);
      WriteRows(before, GroupBatch(groups[|groups| - 1], categoryIds, wordIds), source, true)
  }

  /**
   * What `merge_categories` does and returns: a non-dict raises TypeError; a category
   * with words but no row raises ValueError before anything is written; otherwise
   * every lemma gets a word id, every group is written with the backfill, and every
   * key of the dict gets a count: the rows its group added, or 0 when it had nothing
   * to write.
   */
  predicate MergeOutcome(casefold: string -> string, input: MergeInput, categoryIds: map<string, nat>,
                         w: map<string, nat>, w': map<string, nat>, rows: Rows, rows': Rows,
                         source: Option<string>, r: Result<map<string, nat>, StoreError>)
  {
    if input.NotDict? then r == Failure(NotADict) && w' == w && rows' == rows
    else
      var groups := Groups(casefold, input.items);
      match FirstUnknown(groups, categoryIds)
      case Some(c) => r == Failure(UnknownCategory(c)) && w' == w && rows' == rows
      case None =>
        w'.Keys == w.Keys + (set l | l in GroupLemmas(groups))
        && (forall l :: l in w ==> w'[l] == w[l])
        && Writable(groups, categoryIds, w')
        && rows' == MergeAll(rows, groups, categoryIds, w', source)
        && r.Success?
        && r.value.Keys == (set c | c in Vocabulary.Firsts(input.items))
        && (forall j :: 0 <= j < |groups| ==>
              groups[j].0 in r.value && r.value[groups[j].0] == Added(rows, GroupBatch(groups[j], categoryIds, w'), source))
        && (forall c :: c in r.value && c !in Vocabulary.Firsts(groups) ==> r.value[c] == 0)
  }

  /** The first `n` groups have their counts: what each batch adds to `rows`. */
  predicate Counted(counts: map<string, nat>, groups: seq<(string, seq<(string, string)>)>, n: nat,
                    rows: Rows, categoryIds: map<string, nat>, wordIds: map<string, nat>, source: Option<string>)
    requires n <= |groups|
  {
    forall k :: 0 <= k < n ==>
      groups[k].0 in counts && counts[groups[k].0] == Added(rows, GroupBatch(groups[k], categoryIds, wordIds), source)
  }

  /** With no group to write, `merge_categories` returns a 0 for every key and writes nothing. */
  lemma MergeNothing(casefold: string -> string, items: seq<(string, seq<Value>)>, categoryIds: map<string, nat>,
                     w: map<string, nat>, rows: Rows, source: Option<string>)
    requires Groups(casefold, items) == []
    ensures MergeOutcome(casefold, Dict(items), categoryIds, w, w, rows, rows, source,
                         Success(map c | c in Vocabulary.Firsts(items) :: 0))
  {
  }

  lemma MergeUnknown(casefold: string -> string, items: seq<(string, seq<Value>)>, categoryIds: map<string, nat>,
                     w: map<string, nat>, rows: Rows, source: Option<string>, c: string)
    requires FirstUnknown(Groups(casefold, items), categoryIds) == Some(c)
    ensures MergeOutcome(casefold, Dict(items), categoryIds, w, w, rows, rows, source, Failure(UnknownCategory(c)))
  {
  }

  /** The written state and the counts of the last loop are the outcome `MergeOutcome` describes. */
  lemma MergeWritten(casefold: string -> string, items: seq<(string, seq<Value>)>, categoryIds: map<string, nat>,
                     w: map<string, nat>, w': map<string, nat>, rows: Rows, rows': Rows, source: Option<string>,
                     counts: map<string, nat>, counts': map<string, nat>)
    requires var groups := Groups(casefold, items);
      FirstUnknown(groups, categoryIds).None?
      && w'.Keys == w.Keys + (set l | l in GroupLemmas(groups))
      && (forall l :: l in w ==> w'[l] == w[l])
      && Writable(groups, categoryIds, w')
      && rows' == MergeAll(rows, groups, categoryIds, w', source)
      && counts == (map c | c in Vocabulary.Firsts(items) :: 0)
      && counts'.Keys == counts.Keys
      && Counted(counts', groups, |groups|, rows, categoryIds, w', source)
      && KeptOutside(counts', counts, Vocabulary.Firsts(groups))
    ensures MergeOutcome(casefold, Dict(items), categoryIds, w, w', rows, rows', source, Success(counts'))
  {
  }

  /** Every group's category exists and `all_lemmas` covers every group, so every batch can be built. */
  lemma GroupsWritable(groups: seq<(string, seq<(string, string)>)>, categoryIds: map<string, nat>,
                       ids: map<string, nat>, wordIds: map<string, nat>)
    requires forall j :: 0 <= j < |groups| ==> groups[j].0 in categoryIds
    requires forall l :: l in GroupLemmas(groups) ==> l in ids
    requires forall l :: l in ids ==> l in wordIds
    ensures Writable(groups, categoryIds, ids) && Writable(groups, categoryIds, wordIds)
  {
    forall j, k | 0 <= j < |groups| && 0 <= k < |groups[j].1|
      ensures groups[j].1[k].0 in ids
    {
      GroupLemmasHas(groups, j, k);
    }
  }

  /** The counts of the keys outside `names` are as they were. */
  predicate KeptOutside(counts': map<string, nat>, counts: map<string, nat>, names: seq<string>) {
    forall c :: c in counts && c !in names ==> c in counts' && counts'[c] == counts[c]
  }

  /** The groups are written one after the other. */
  lemma MergeAllStep(rows: Rows, groups: seq<(string, seq<(string, string)>)>, j: nat,
                     categoryIds: map<string, nat>, wordIds: map<string, nat>, source: Option<string>)
    requires j < |groups|
    ensures MergeAll(rows, groups[..j + 1], categoryIds, wordIds, source)
         == WriteRows(MergeAll(rows, groups[..j], categoryIds, wordIds, source),
                      GroupBatch(groups[j], categoryIds, wordIds), source, true)
  {
    assert groups[..j + 1][..j] == groups[..j];
  }

  /**
   * The state of the last loop of `merge_categories` after `j` groups: the rows hold
   * their writes, each has its count, and every other key keeps its initial count.
   */
  predicate WrittenUpTo(groups: seq<(string, seq<(string, string)>)>, j: nat, before: Rows, rows: Rows,
                        initial: map<string, nat>, counts: map<string, nat>,
                        categoryIds: map<string, nat>, wordIds: map<string, nat>, source: Option<string>)
  {
    j <= |groups|
    && rows == MergeAll(before, groups[..j], categoryIds, wordIds, source)
    && counts.Keys == initial.Keys
    && Counted(counts, groups, j, before, categoryIds, wordIds, source)
    && KeptOutside(counts, initial, Vocabulary.Firsts(groups)[..j])
  }

  lemma WrittenNone(groups: seq<(string, seq<(string, string)>)>, rows: Rows, initial: map<string, nat>,
                    categoryIds: map<string, nat>, wordIds: map<string, nat>, source: Option<string>)
    ensures WrittenUpTo(groups, 0, rows, rows, initial, initial, categoryIds, wordIds, source)
  {
    assert groups[..0] == [];
  }

  lemma WrittenAll(groups: seq<(string, seq<(string, string)>)>, before: Rows, rows: Rows,
                   initial: map<string, nat>, counts: map<string, nat>,
                   categoryIds: map<string, nat>, wordIds: map<string, nat>, source: Option<string>)
    requires WrittenUpTo(groups, |groups|, before, rows, initial, counts, categoryIds, wordIds, source)
    ensures rows == MergeAll(before, groups, categoryIds, wordIds, source)
    ensures counts.Keys == initial.Keys
    ensures Counted(counts, groups, |groups|, before, categoryIds, wordIds, source)
    ensures KeptOutside(counts, initial, Vocabulary.Firsts(groups))
  {
    assert groups[..|groups|] == groups;
    assert Vocabulary.Firsts(groups)[..|groups|] == Vocabulary.Firsts(groups);
  }

  /** Writing group `j` on top of the groups before it extends the rows, the counts and what stays untouched. */
  lemma WriteNextFacts(groups: seq<(string, seq<(string, string)>)>, j: nat, before: Rows, rows: Rows, rows': Rows,
                       categoryIds: map<string, nat>, wordIds: map<string, nat>, source: Option<string>,
                       counts: map<string, nat>, initial: map<string, nat>, added: nat)
    requires j < |groups| && Writable(groups, categoryIds, wordIds) && Injective(categoryIds)
    requires Vocabulary.Distinct(Vocabulary.Firsts(groups)) && groups[j].0 in initial
    requires WrittenUpTo(groups, j, before, rows, initial, counts, categoryIds, wordIds, source)
    requires rows' == WriteRows(rows, GroupBatch(groups[j], categoryIds, wordIds), source, true)
    requires added == Added(rows, GroupBatch(groups[j], categoryIds, wordIds), source)
    ensures WrittenUpTo(groups, j + 1, before, rows', initial, counts[groups[j].0 := added], categoryIds, wordIds, source)
  {
    MergeCountIsFresh(before, groups, categoryIds, wordIds, source, j);
    CountedStep(counts, groups, j, before, categoryIds, wordIds, source);
    MergeAllStep(before, groups, j, categoryIds, wordIds, source);
    KeptOutsideStep(counts, initial, Vocabulary.Firsts(groups), j, added);
  }

  /** Setting the count of the next name keeps every name after it untouched. */
  lemma KeptOutsideStep(counts: map<string, nat>, initial: map<string, nat>, names: seq<string>, j: nat, added: nat)
    requires j < |names| && KeptOutside(counts, initial, names[..j])
    ensures KeptOutside(counts[names[j] := added], initial, names[..j + 1])
  {
    assert names[..j + 1] == names[..j] + [names[j]];
  }

  lemma CountedStep(counts: map<string, nat>, groups: seq<(string, seq<(string, string)>)>, j: nat,
                    rows: Rows, categoryIds: map<string, nat>, wordIds: map<string, nat>, source: Option<string>)
    requires j < |groups| && Writable(groups, categoryIds, wordIds)
    requires Vocabulary.Distinct(Vocabulary.Firsts(groups))
    requires Counted(counts, groups, j, rows, categoryIds, wordIds, source)
    ensures var added := Added(rows, GroupBatch(groups[j], categoryIds, wordIds), source);
      Counted(counts[groups[j].0 := added], groups, j + 1, rows, categoryIds, wordIds, source)
  {
    forall k | 0 <= k < j
      ensures groups[k].0 != groups[j].0
    {
      assert Vocabulary.Firsts(groups)[k] != Vocabulary.Firsts(groups)[j];
    }
  }

  /** Every group comes from an item of the dict, under that item's key. */
  lemma {:induction false} GroupsFromItems(casefold: string -> string, items: seq<(string, seq<Value>)>)
    ensures forall j :: 0 <= j < |Groups(casefold, items)| ==> Groups(casefold, items)[j].0 in Vocabulary.Firsts(items)
    ensures forall j :: 0 <= j < |Groups(casefold, items)| ==> Groups(casefold, items)[j].1 != []
  {
    if items != [] {
      var init := items[..|items| - 1];
      GroupsFromItems(casefold, init);
      assert forall c :: c in Vocabulary.Firsts(init) ==> c in Vocabulary.Firsts(items) by {
        forall c | c in Vocabulary.Firsts(init)
          ensures c in Vocabulary.Firsts(items)
        {
          var i :| 0 <= i < |init| && Vocabulary.Firsts(init)[i] == c;
          assert Vocabulary.Firsts(items)[i] == c;
        }
      }
    }
  }

  /** Distinct dict keys give distinct group categories. */
  lemma {:induction false} GroupsDistinct(casefold: string -> string, items: seq<(string, seq<Value>)>)
    requires Vocabulary.Distinct(Vocabulary.Firsts(items))
    ensures Vocabulary.Distinct(Vocabulary.Firsts(Groups(casefold, items)))
  {
    if items != [] {
      var init := items[..|items| - 1];
      assert Vocabulary.Distinct(Vocabulary.Firsts(init)) by {
        forall i, j | 0 <= i < j < |init|
          ensures Vocabulary.Firsts(init)[i] != Vocabulary.Firsts(init)[j]
        {
          assert Vocabulary.Firsts(items)[i] != Vocabulary.Firsts(items)[j];
        }
      }
      GroupsDistinct(casefold, init);
      GroupsFromItems(casefold, init);
      var prev := Groups(casefold, init);
      var last := items[|items| - 1].0;
      forall j | 0 <= j < |prev|
        ensures prev[j].0 != last
      {
        var i :| 0 <= i < |init| && Vocabulary.Firsts(init)[i] == prev[j].0;
        assert Vocabulary.Firsts(items)[i] == prev[j].0 && Vocabulary.Firsts(items)[|items| - 1] == last;
      }
    }
  }

  /** `FirstUnknown` finds the first group, in order, whose category is missing. */
  lemma {:induction false} FirstUnknownAt(groups: seq<(string, seq<(string, string)>)>, categoryIds: map<string, nat>, i: nat)
    requires i < |groups| && groups[i].0 !in categoryIds
    requires forall k :: 0 <= k < i ==> groups[k].0 in categoryIds
    ensures FirstUnknown(groups, categoryIds) == Some(groups[i].0)
  {
    if i > 0 {
      FirstUnknownAt(groups[1..], categoryIds, i - 1);
    }
  }

  lemma {:induction false} FirstUnknownNone(groups: seq<(string, seq<(string, string)>)>, categoryIds: map<string, nat>)
    ensures FirstUnknown(groups, categoryIds).None? <==> forall k :: 0 <= k < |groups| ==> groups[k].0 in categoryIds
  {
    if groups != [] {
      FirstUnknownNone(groups[1..], categoryIds);
      if groups[0].0 in categoryIds {
        assert forall k :: 1 <= k < |groups| ==> groups[k] == groups[1..][k - 1];
      }
    }
  }

  /** Every lemma of every group is in `all_lemmas`. */
  lemma {:induction false} GroupLemmasHas(groups: seq<(string, seq<(string, string)>)>, j: nat, k: nat)
    requires j < |groups| && k < |groups[j].1|
    ensures groups[j].1[k].0 in GroupLemmas(groups)
  {
    var n := |groups| - 1;
    if j < n {
      GroupLemmasHas(groups[..n], j, k);
    } else {
      LemmasIndex(groups[n].1);
      assert Lemmas(groups[n].1)[k] == groups[j].1[k].0;
    }
  }

  /** Writing the groups leaves the rows of a category none of them names exactly as they were. */
  lemma {:induction false} MergeAllKeepsOther(rows: Rows, groups: seq<(string, seq<(string, string)>)>,
                                               categoryIds: map<string, nat>, wordIds: map<string, nat>,
                                               source: Option<string>, c: nat)
    requires Writable(groups, categoryIds, wordIds)
    requires forall j :: 0 <= j < |groups| ==> categoryIds[groups[j].0] != c
    ensures forall key: Key :: key.0 == c ==> (key in MergeAll(rows, groups, categoryIds, wordIds, source) <==> key in rows)
  {
    if groups != [] {
      var init := groups[..|groups| - 1];
      MergeAllKeepsOther(rows, init, categoryIds, wordIds, source, c);
      var before := MergeAll(rows, init, categoryIds, wordIds, source);
      var batch := GroupBatch(groups[|groups| - 1], categoryIds, wordIds);
      WriteKeepsOtherCategories(before, batch, source, c);
      WriteKeepsOtherCategories(InsertAll(before, batch, source), batch, source, c);
    }
  }

  /**
   * Each category's count is what its batch adds to the rows as they were before the
   * merge: the groups before it write other categories only.
   */
  lemma MergeCountIsFresh(rows: Rows, groups: seq<(string, seq<(string, string)>)>,
                          categoryIds: map<string, nat>, wordIds: map<string, nat>,
                          source: Option<string>, j: nat)
    requires Writable(groups, categoryIds, wordIds) && Injective(categoryIds)
    requires Vocabulary.Distinct(Vocabulary.Firsts(groups)) && j < |groups|
    ensures var batch := GroupBatch(groups[j], categoryIds, wordIds);
      Added(MergeAll(rows, groups[..j], categoryIds, wordIds, source), batch, source) == Added(rows, batch, source)
  {
    var c := categoryIds[groups[j].0];
    var init := groups[..j];
    forall i | 0 <= i < |init|
      ensures categoryIds[init[i].0] != c
    {
      assert Vocabulary.Firsts(groups)[i] != Vocabulary.Firsts(groups)[j];
    }
    MergeAllKeepsOther(rows, init, categoryIds, wordIds, source, c);
    var batch := GroupBatch(groups[j], categoryIds, wordIds);
    AddedDependsOnKeys(MergeAll(rows, init, categoryIds, wordIds, source), rows, batch, source);
  }

  /**
   * `merge_categories` never overwrites: every row present before keeps its frequency,
   * its non-empty surface form and its source.
   */
  lemma {:induction false} MergeAllNeverOverwrites(rows: Rows, groups: seq<(string, seq<(string, string)>)>,
                                                   categoryIds: map<string, nat>, wordIds: map<string, nat>,
                                                   source: Option<string>)
    ensures forall key :: key in rows ==>
      key in MergeAll(rows, groups, categoryIds, wordIds, source)
      && var e, e' := rows[key], MergeAll(rows, groups, categoryIds, wordIds, source)[key];
      e'.frequency == e.frequency
      && (e.surface != "" ==> e'.surface == e.surface)
      && (e.source.Some? ==> e'.source == e.source)
  {
    if groups != [] {
      var init := groups[..|groups| - 1];
      MergeAllNeverOverwrites(rows, init, categoryIds, wordIds, source);
      var before := MergeAll(rows, init, categoryIds, wordIds, source);
      var batch := GroupBatch(groups[|groups| - 1], categoryIds, wordIds);
      InsertAllKeeps(before, batch, source);
      BackfillAllNeverOverwrites(InsertAll(before, batch, source), batch, source);
    }
  }

  /** The content of a database file in the current schema. */
  datatype Tables = Tables(categoryIds: map<string, nat>, wordIds: map<string, nat>, rows: Rows)

  /** What SQLite's keys and enforced foreign keys guarantee of a database file. */
  predicate TablesOk(t: Tables) {
    Injective(t.categoryIds) && Injective(t.wordIds) && RowsRefer(t.rows, t.categoryIds, t.wordIds)
  }

  /** An id above every id in use: what `INTEGER PRIMARY KEY` assigns next. */
  method NextId(m: map<string, nat>) returns (n: nat)
    ensures Below(m, n)
  {
    n := 0;
    var rest := m.Keys;
    while rest != {}
      invariant rest <= m.Keys
      invariant forall a :: a in m && a !in rest ==> m[a] < n
      decreases |rest|
    {
      var a :| a in rest;
      if m[a] >= n {
        n := m[a] + 1;
      }
      rest := rest - {a};
    }
  }

  /** How `get_words` narrows the rows of a category. */
  datatype Filter = All | Fts(query: string) | Substring(text: string)

  /** `get_words` lists its rows as `ORDER BY surface_form COLLATE NOCASE, lemma`. */
  ghost predicate IsListing(s: seq<(string, string)>, xs: set<(string, string)>) {
    SortedBy(s, RowBefore) && forall y :: y in s <==> y in xs
  }

  /** A set of rows with one row per lemma has exactly one listing. */
  lemma ListingUnique(a: seq<(string, string)>, b: seq<(string, string)>, xs: set<(string, string)>)
    requires forall x, y :: x in xs && y in xs && x.1 == y.1 ==> x == y
    requires IsListing(a, xs) && IsListing(b, xs)
    ensures a == b
  {
    RowBeforeStrictTotal(xs);
    SortedUnique(a, b, RowBefore, xs);
  }

  class Store {
    const casefold: string -> string
    const wordChar: char -> bool
    const ftsAvailable: bool
    /** Whether an FTS5 query selects a row, given its lemma and surface form. */
    const ftsMatch: (string, string, string) -> bool
    var categoryIds: map<string, nat>
    var nextCategoryId: nat
    var wordIds: map<string, nat>
    var nextWordId: nat
    var rows: Rows

    /**
     * The keys and foreign keys of the schema hold, fresh ids are above every id in
     * use, and every lexical category exists.
     */
    ghost predicate Valid()
      reads this
    {
      Injective(categoryIds) && Below(categoryIds, nextCategoryId)
      && Injective(wordIds) && Below(wordIds, nextWordId)
      && RowsRefer(rows, categoryIds, wordIds)
      && (forall c :: c in Vocabulary.LexicalCategories ==> c in categoryIds)
    }

    /**
     * `__init__` / `_ensure_schema` on a database file already in the current schema:
     * every lexical category is inserted unless present (`INSERT OR IGNORE`), and the
     * rest of the file is kept.
     */
    constructor(casefold: string -> string, wordChar: char -> bool, ftsAvailable: bool,
                ftsMatch: (string, string, string) -> bool, existing: Tables)
      requires TablesOk(existing)
      ensures Valid()
      ensures this.casefold == casefold && this.wordChar == wordChar
      ensures this.ftsAvailable == ftsAvailable && this.ftsMatch == ftsMatch
      ensures categoryIds.Keys == existing.categoryIds.Keys + set c | c in Vocabulary.LexicalCategories
      ensures forall c :: c in existing.categoryIds ==> categoryIds[c] == existing.categoryIds[c]
      ensures wordIds == existing.wordIds && rows == existing.rows
    {
      this.casefold := casefold;
      this.wordChar := wordChar;
      this.ftsAvailable := ftsAvailable;
      this.ftsMatch := ftsMatch;
      var nextWord := NextId(existing.wordIds);
      var nextCategory := NextId(existing.categoryIds);
      var ids, next := AddNames(existing.categoryIds, nextCategory, Vocabulary.LexicalCategories);
      RowsReferGrowCategories(existing.rows, existing.categoryIds, ids, existing.wordIds);
      categoryIds := ids;
      nextCategoryId := next;
      wordIds := existing.wordIds;
      nextWordId := nextWord;
      rows := existing.rows;
    }

    /** The key names an existing category and an existing word. */
    ghost predicate Refers(key: Key)
      reads this
    {
      key.0 in categoryIds.Values && key.1 in wordIds.Values
    }

    /** `_prepare_words`: the loop with its `seen` set of lemmas. */
    method PrepareWords(words: seq<Value>) returns (prepared: seq<(string, string)>)
      ensures prepared == Prepare(casefold, words)
    {
      prepared := [];
      var seen: set<string> := {};
      ghost var cs := Candidates(words);
      for i := 0 to |words|
        invariant prepared == Gather(casefold, cs[..i])
        invariant forall x :: x in seen <==> x in Lemmas(prepared)
      {
        GatherStep(casefold, cs, i);
        var word := words[i];
        if word.Str? {
          var cleaned := Strip(word.s);
          if cleaned != [] {
            var lem := casefold(cleaned);
            if lem !in seen {
              LemmasSnoc(prepared, (lem, cleaned));
              seen := seen + {lem};
              prepared := prepared + [(lem, cleaned)];
            }
          }
        }
      }
      assert cs[..|words|] == cs;
    }

    /** `INSERT OR IGNORE INTO words(lemma)` for each lemma: absent lemmas get fresh ids. */
    method InsertLemmas(lemmas: seq<string>)
      requires Valid()
      modifies this
      ensures Valid()
      ensures wordIds.Keys == old(wordIds).Keys + set l | l in lemmas
      ensures forall l :: l in old(wordIds) ==> wordIds[l] == old(wordIds)[l]
      ensures categoryIds == old(categoryIds) && rows == old(rows)
    {
      ghost var before := wordIds;
      wordIds, nextWordId := AddNames(wordIds, nextWordId, lemmas);
      RowsReferGrow(rows, categoryIds, before, wordIds);
    }

    /**
     * `_fetch_word_ids`: the ids of the listed lemmas, looked up 900 at a time; a lemma
     * the table lacks is left out.
     */
    method FetchWordIds(lemmas: seq<string>) returns (ids: map<string, nat>)
      ensures forall l :: l in ids <==> l in lemmas && l in wordIds
      ensures forall l :: l in ids ==> ids[l] == wordIds[l]
    {
      if lemmas == [] {
        return map[];
      }
      ids := map[];
      var chunks := ChunksOf(lemmas, 900);
      for i := 0 to |chunks|
        invariant forall l :: l in ids <==> (exists j :: 0 <= j < i && l in chunks[j]) && l in wordIds
        invariant forall l :: l in ids ==> ids[l] == wordIds[l]
      {
        var chunk := chunks[i];
        for m := 0 to |chunk|
          invariant forall l :: l in ids <==>
            ((exists j :: 0 <= j < i && l in chunks[j]) || l in chunk[..m]) && l in wordIds
          invariant forall l :: l in ids ==> ids[l] == wordIds[l]
        {
          assert chunk[..m + 1] == chunk[..m] + [chunk[m]];
          if chunk[m] in wordIds {
            ids := ids[chunk[m] := wordIds[chunk[m]]];
          }
        }
        assert chunk[..|chunk|] == chunk;
      }
      ChunksOfFlatten(lemmas, 900);
      forall l
        ensures l in lemmas <==> exists j :: 0 <= j < |chunks| && l in chunks[j]
      {
        FlattenHas(chunks, l);
      }
    }

    /** `executemany` of `INSERT OR IGNORE INTO category_words`, with its `rowcount`. */
    method InsertRows(batch: seq<(Key, string)>, source: Option<string>) returns (added: nat)
      requires Valid()
      requires forall k :: 0 <= k < |batch| ==> Refers(batch[k].0)
      modifies this
      ensures Valid()
      ensures rows == InsertAll(old(rows), batch, source)
      ensures added == Added(old(rows), batch, source)
      ensures categoryIds == old(categoryIds) && wordIds == old(wordIds)
    {
      added := 0;
      var r := rows;
      for i := 0 to |batch|
        invariant unchanged(this)
        invariant RowsRefer(r, categoryIds, wordIds)
        invariant r == InsertAll(rows, batch[..i], source)
        invariant added == Added(rows, batch[..i], source)
      {
        InsertStep(rows, batch, i, source);
        var key, surface := batch[i].0, batch[i].1;
        if key !in r {
          assert Refers(key);
          RowsReferAdd(r, categoryIds, wordIds, key, Entry(surface, source, 1));
          r := r[key := Entry(surface, source, 1)];
          added := added + 1;
        }
      }
      assert batch[..|batch|] == batch;
      rows := r;
    }

    /** `executemany` of the backfill `UPDATE`. */
    method BackfillRows(batch: seq<(Key, string)>, source: Option<string>)
      requires Valid()
      modifies this
      ensures Valid()
      ensures rows == BackfillAll(old(rows), batch, source)
      ensures categoryIds == old(categoryIds) && wordIds == old(wordIds)
    {
      var r := rows;
      for i := 0 to |batch|
        invariant unchanged(this)
        invariant r.Keys == rows.Keys
        invariant r == BackfillAll(rows, batch[..i], source)
      {
        assert batch[..i + 1][..i] == batch[..i];
        var key, surface := batch[i].0, batch[i].1;
        if key in r {
          r := r[key := Fill(r[key], surface, source)];
        }
      }
      assert batch[..|batch|] == batch;
      rows := r;
    }
  
    /** `_insert_words_with_connection`, shared by `add_words` and `merge_words`. */
    method InsertWords(category: string, words: seq<Value>, source: Option<string>, backfill: bool)
      returns (r: Result<nat, StoreError>)
      requires Valid()
      modifies this
      ensures Valid()
      ensures categoryIds == old(categoryIds)
      ensures InsertOutcome(Prepare(casefold, words), category, categoryIds, old(wordIds), wordIds,
                            old(rows), rows, source, backfill, r)
    {
      var prepared := PrepareWords(words);
      if prepared == [] {
        return Success(0);
      }
      if category !in categoryIds {
        return Failure(UnknownCategory(category));
      }
      var added := InsertPrepared(categoryIds[category], prepared, source, backfill);
      r := Success(added);
    }

    /** The inserts (and the backfill, when asked) of a non-empty batch for a known category. */
    method InsertPrepared(cid: nat, prepared: seq<(string, string)>, source: Option<string>, backfill: bool)
      returns (added: nat)
      requires Valid() && cid in categoryIds.Values
      modifies this
      ensures Valid()
      ensures categoryIds == old(categoryIds)
      ensures wordIds.Keys == old(wordIds).Keys + (set l | l in Lemmas(prepared))
      ensures forall l :: l in old(wordIds) ==> wordIds[l] == old(wordIds)[l]
      ensures Covers(wordIds, prepared)
      ensures added == Added(old(rows), Batch(cid, wordIds, prepared), source)
      ensures rows == WriteRows(old(rows), Batch(cid, wordIds, prepared), source, backfill)
    {
      var lemmas := Lemmas(prepared);
      LemmasIndex(prepared);
      InsertLemmas(lemmas);
      var ids := FetchWordIds(lemmas);
      assert Covers(ids, prepared) && Covers(wordIds, prepared) by {
        forall k | 0 <= k < |prepared|
          ensures prepared[k].0 in ids
        {
          assert lemmas[k] == prepared[k].0;
        }
      }
      BatchAgrees(cid, ids, wordIds, prepared);
      var batch := Batch(cid, ids, prepared);
      assert forall k :: 0 <= k < |batch| ==> Refers(batch[k].0) by {
        forall k | 0 <= k < |batch|
          ensures Refers(batch[k].0)
        {
          assert batch[k].0 == (cid, wordIds[prepared[k].0]);
        }
      }
      added := InsertRows(batch, source);
      if backfill {
        BackfillRows(batch, source);
      }
    }

    /** `add_words`: insert only; rows already present are left as they are. */
    method AddWords(category: string, words: seq<Value>, source: Option<string>) returns (r: Result<nat, StoreError>)
      requires Valid()
      modifies this
      ensures Valid()
      ensures categoryIds == old(categoryIds)
      ensures InsertOutcome(Prepare(casefold, words), category, categoryIds, old(wordIds), wordIds,
                            old(rows), rows, source, false, r)
    {
      r := InsertWords(category, words, source, false);
    }

    /** `merge_words`: insert, then fill the gaps of the rows already present. */
    method MergeWords(category: string, words: seq<Value>, source: Option<string>) returns (r: Result<nat, StoreError>)
      requires Valid()
      modifies this
      ensures Valid()
      ensures categoryIds == old(categoryIds)
      ensures InsertOutcome(Prepare(casefold, words), category, categoryIds, old(wordIds), wordIds,
                            old(rows), rows, source, true, r)
    {
      r := InsertWords(category, words, source, true);
    }

    /** `is_empty`: whether category_words has no row. */
    method IsEmpty() returns (empty: bool)
      ensures empty <==> rows == map[]
    {
      empty := |rows| == 0;
    }

    /** `get_categories`: the category names, sorted by code point. */
    method GetCategories() returns (names: seq<string>)
      ensures SortedBy(names, LexLess)
      ensures forall c :: c in names <==> c in categoryIds
      ensures |names| == |categoryIds|
    {
      LexLessStrictTotal(categoryIds.Keys);
      names := SortSet(categoryIds.Keys, LexLess);
    }

    /** The (surface, lemma) pairs of a category: `category_words` joined with `words`. */
    function Entries(cid: nat): set<(string, string)>
      reads this
    {
      set l | l in wordIds && (cid, wordIds[l]) in rows :: (rows[(cid, wordIds[l])].surface, l)
    }

    /** A category has one row per lemma, as `UNIQUE(category_id, word_id)` and `UNIQUE(lemma)` make it. */
    lemma EntriesOneRowPerLemma(cid: nat)
      ensures forall x, y :: x in Entries(cid) && y in Entries(cid) && x.1 == y.1 ==> x == y
    {
    }

    /**
     * How `get_words` reads its `search` argument: an absent or blank search lists
     * everything; otherwise the stripped text becomes an FTS5 query when FTS5 is
     * available and the text has a token to search for, and a substring match if not.
     */
    function FilterFor(search: Option<string>): (f: Filter)
      ensures search.None? ==> f == All
      ensures search.Some? && Strip(search.value) == [] ==> f == All
      ensures f.Substring? ==> f.text == Strip(search.value) && f.text != []
      ensures f.Fts? ==> ftsAvailable && search.Some?
                         && BuildFtsQuery(wordChar, Strip(search.value)) == Some(f.query)
    {
      match search
      case None => All
      case Some(s) =>
        if s == [] then All
        else
          var normalized := Strip(s);
          if normalized == [] then All
          else if ftsAvailable && BuildFtsQuery(wordChar, normalized).Some? then
            Fts(BuildFtsQuery(wordChar, normalized).value)
          else Substring(normalized)
    }

    /** The filter hands MATCH a query FTS5 cannot parse, so the query raises instead of selecting. */
    predicate Refused(f: Filter) {
      f.Fts? && !FtsParses(f.query)
    }

    /** Whether a (surface, lemma) pair passes the filter: `MATCH`, or `lemma LIKE … OR surface_form LIKE …`. */
    predicate Admits(f: Filter, e: (string, string)) {
      match f
      case All => true
      case Fts(q) => ftsMatch(e.1, e.0, q)
      case Substring(n) => Like(e.1, "%" + n + "%") || Like(e.0, "%" + n + "%")
    }

    function Selected(cid: nat, f: Filter): (sel: set<(string, string)>)
      reads this
      ensures sel <= Entries(cid)
    {
      set e | e in Entries(cid) && Admits(f, e)
    }

    /** `surfaces` is page (`limit`, `offset`) of the listing of the rows `f` selects in category `cid`. */
    ghost predicate PageOf(cid: nat, f: Filter, limit: Option<int>, offset: int, surfaces: seq<string>)
      reads this
    {
      exists listing :: IsListing(listing, Selected(cid, f)) && surfaces == Vocabulary.Firsts(Page(listing, limit, offset))
    }

    /** The `ORDER BY surface_form COLLATE NOCASE, lemma` listing of the rows a filter selects. */
    method ListSelected(cid: nat, f: Filter) returns (listing: seq<(string, string)>)
      ensures IsListing(listing, Selected(cid, f))
    {
      var selected := Selected(cid, f);
      EntriesOneRowPerLemma(cid);
      RowBeforeStrictTotal(selected);
      listing := SortSet(selected, RowBefore);
    }

    /**
     * `get_words`: the surface forms of the category's rows that pass the search, in
     * listing order, paged by `limit` and `offset`; an unknown category raises, and so
     * does a search whose FTS5 query does not parse.
     */
    method GetWords(category: string, search: Option<string>, limit: Option<int>, offset: int)
      returns (r: Result<seq<string>, StoreError>)
      ensures category !in categoryIds ==> r == Failure(UnknownCategory(category))
      ensures category in categoryIds && Refused(FilterFor(search)) ==>
        r == Failure(FtsSyntaxError(FilterFor(search).query))
      ensures category in categoryIds && !Refused(FilterFor(search)) ==>
        r.Success? && PageOf(categoryIds[category], FilterFor(search), limit, offset, r.value)
    {
      if category !in categoryIds {
        return Failure(UnknownCategory(category));
      }
      var cid := categoryIds[category];
      var f := FilterFor(search);
      if Refused(f) {
        return Failure(FtsSyntaxError(f.query));
      }
      var listing := ListSelected(cid, f);
      var surfaces := Vocabulary.Firsts(Page(listing, limit, offset));
      assert PageOf(cid, f, limit, offset, surfaces);
      r := Success(surfaces);
    }

    /** Without a search, or with a blank one, `get_words` selects every row of the category. */
    lemma BlankSearchSelectsAll(cid: nat, search: Option<string>)
      requires search.None? || Strip(search.value) == []
      ensures Selected(cid, FilterFor(search)) == Entries(cid)
    {
    }

    /**
     * The substring fallback selects a row exactly when the search text occurs in its
     * lemma or its surface form, ignoring ASCII case (for a text without `%` or `_`).
     */
    lemma SubstringSelects(cid: nat, n: string, e: (string, string))
      requires NoWildcards(n)
      ensures e in Selected(cid, Substring(n)) <==>
        e in Entries(cid) && (Contains(AsciiLower(e.1), AsciiLower(n)) || Contains(AsciiLower(e.0), AsciiLower(n)))
    {
      LikeContains(e.1, n);
      LikeContains(e.0, n);
    }

    /** When FTS5 is missing, or the search has no token, `get_words` falls back to the substring match. */
    lemma FilterFallsBack(search: string)
      requires Strip(search) != []
      requires !ftsAvailable || BuildFtsQuery(wordChar, Strip(search)).None?
      ensures FilterFor(Some(search)) == Substring(Strip(search))
    {
    }

    /**
     * With FTS5 available and word characters FTS5 counts as bareword characters, a
     * search is refused exactly when it builds a query with a token holding an
     * apostrophe ("don't") or a token that is an upper-case keyword ("rock AND roll").
     */
    lemma SearchRefused(search: string)
      requires ftsAvailable && forall c :: wordChar(c) ==> BarewordChar(c)
      ensures var tokens := FtsTokens(wordChar, Strip(search));
        Refused(FilterFor(Some(search))) <==>
        Strip(search) != [] && BuildFtsQuery(wordChar, Strip(search)).Some?
        && exists k :: 0 <= k < |tokens| && !PlainToken(tokens[k])
    {
      if Strip(search) != [] && BuildFtsQuery(wordChar, Strip(search)).Some? {
        BuildFtsQueryParses(wordChar, Strip(search));
      }
    }

    /** `surfaces` is the listing of category `c`, surface forms only. */
    ghost predicate Lists(c: string, surfaces: seq<string>)
      reads this
    {
      c in categoryIds && exists listing :: IsListing(listing, Entries(categoryIds[c])) && surfaces == Vocabulary.Firsts(listing)
    }

    /** One category's surface forms, in listing order. */
    method ListCategory(c: string) returns (surfaces: seq<string>)
      requires c in categoryIds
      ensures Lists(c, surfaces)
    {
      var cid := categoryIds[c];
      var entries := Entries(cid);
      EntriesOneRowPerLemma(cid);
      RowBeforeStrictTotal(entries);
      var listing := SortSet(entries, RowBefore);
      surfaces := Vocabulary.Firsts(listing);
    }

    /** The categories `get_words_by_category` reports: the lexical ones and those with rows. */
    function Reported(): (names: set<string>)
      reads this
    {
      (set c | c in Vocabulary.LexicalCategories) + (set c | c in categoryIds && Entries(categoryIds[c]) != {})
    }

    /**
     * `get_words_by_category`: every lexical category, plus every other category that
     * has rows, mapped to its surface forms in listing order.
     */
    method GetWordsByCategory() returns (m: map<string, seq<string>>)
      requires Valid()
      ensures m.Keys == Reported()
      ensures forall c :: c in m ==> Lists(c, m[c])
    {
      var names := Reported();
      assert names <= categoryIds.Keys;
      m := ListAll(names);
    }

    /** Each named category mapped to its surface forms. */
    method ListAll(names: set<string>) returns (m: map<string, seq<string>>)
      requires names <= categoryIds.Keys
      ensures m.Keys == names
      ensures forall c :: c in m ==> Lists(c, m[c])
    {
      m := map[];
      var rest := names;
      while rest != {}
        invariant rest <= names <= categoryIds.Keys
        invariant m.Keys == names - rest
        invariant forall c :: c in m ==> Lists(c, m[c])
        decreases |rest|
      {
        var c :| c in rest;
        var surfaces := ListCategory(c);
        m := m[c := surfaces];
        rest := rest - {c};
      }
    }

    /** The first loop of `merge_categories`: prepare each item's words and collect `all_lemmas`. */
    method PrepareGroups(items: seq<(string, seq<Value>)>)
      returns (groups: seq<(string, seq<(string, string)>)>, allLemmas: seq<string>)
      ensures groups == Groups(casefold, items)
      ensures allLemmas == GroupLemmas(groups)
    {
      groups := [];
      allLemmas := [];
      for j := 0 to |items|
        invariant groups == Groups(casefold, items[..j])
        invariant allLemmas == GroupLemmas(groups)
      {
        assert items[..j + 1][..j] == items[..j];
        var prepared := PrepareWords(items[j].1);
        if prepared != [] {
          assert (groups + [(items[j].0, prepared)])[..|groups|] == groups;
          groups := groups + [(items[j].0, prepared)];
          allLemmas := allLemmas + Lemmas(prepared);
        }
      }
      assert items[..|items|] == items;
    }

    /** The second loop: `_get_category_id` on each group, raising on the first unknown one. */
    method FindUnknown(groups: seq<(string, seq<(string, string)>)>) returns (unknown: Option<string>)
      ensures unknown == FirstUnknown(groups, categoryIds)
    {
      for j := 0 to |groups|
        invariant forall k :: 0 <= k < j ==> groups[k].0 in categoryIds
      {
        if groups[j].0 !in categoryIds {
          FirstUnknownAt(groups, categoryIds, j);
          return Some(groups[j].0);
        }
      }
      FirstUnknownNone(groups, categoryIds);
      return None;
    }

    /** One group of the last loop: its inserts, with their `rowcount`, then its backfill. */
    method WriteGroup(group: (string, seq<(string, string)>), ids: map<string, nat>, source: Option<string>)
      returns (added: nat)
      requires Valid() && group.0 in categoryIds && Covers(ids, group.1)
      requires forall l :: l in ids ==> l in wordIds && ids[l] == wordIds[l]
      modifies this
      ensures Valid()
      ensures categoryIds == old(categoryIds) && wordIds == old(wordIds)
      ensures Covers(wordIds, group.1)
      ensures rows == WriteRows(old(rows), GroupBatch(group, categoryIds, wordIds), source, true)
      ensures added == Added(old(rows), GroupBatch(group, categoryIds, wordIds), source)
    {
      var cid := categoryIds[group.0];
      var prepared := group.1;
      BatchAgrees(cid, ids, wordIds, prepared);
      var batch := Batch(cid, ids, prepared);
      assert forall k :: 0 <= k < |batch| ==> Refers(batch[k].0) by {
        forall k | 0 <= k < |batch|
          ensures Refers(batch[k].0)
        {
          assert batch[k].0 == (cid, wordIds[prepared[k].0]);
        }
      }
      added := InsertRows(batch, source);
      BackfillRows(batch, source);
    }

    /** One turn of the last loop: group `j` is written and counted. */
    method WriteNext(groups: seq<(string, seq<(string, string)>)>, j: nat, ids: map<string, nat>,
                     counts: map<string, nat>, source: Option<string>, ghost before: Rows, ghost initial: map<string, nat>)
      returns (counts': map<string, nat>)
      requires Valid() && j < |groups| && Writable(groups, categoryIds, ids) && Writable(groups, categoryIds, wordIds)
      requires forall l :: l in ids ==> l in wordIds && ids[l] == wordIds[l]
      requires Vocabulary.Distinct(Vocabulary.Firsts(groups)) && groups[j].0 in initial
      requires WrittenUpTo(groups, j, before, rows, initial, counts, categoryIds, wordIds, source)
      modifies this
      ensures Valid()
      ensures categoryIds == old(categoryIds) && wordIds == old(wordIds)
      ensures WrittenUpTo(groups, j + 1, before, rows, initial, counts', categoryIds, wordIds, source)
    {
      ghost var rows0 := rows;
      var added := WriteGroup(groups[j], ids, source);
      WriteNextFacts(groups, j, before, rows0, rows, categoryIds, wordIds, source, counts, initial, added);
      counts' := counts[groups[j].0 := added];
    }

    /**
     * The last loop of `merge_categories`: each group written in turn. A group's count
     * is what its batch adds to the rows as they were before the loop; the counts of
     * the keys without a group stay as they were.
     */
    method WriteGroups(groups: seq<(string, seq<(string, string)>)>, ids: map<string, nat>,
                       counts: map<string, nat>, source: Option<string>)
      returns (counts': map<string, nat>)
      requires Valid() && Writable(groups, categoryIds, ids) && Writable(groups, categoryIds, wordIds)
      requires forall l :: l in ids ==> l in wordIds && ids[l] == wordIds[l]
      requires Vocabulary.Distinct(Vocabulary.Firsts(groups))
      requires forall j :: 0 <= j < |groups| ==> groups[j].0 in counts
      modifies this
      ensures Valid()
      ensures categoryIds == old(categoryIds) && wordIds == old(wordIds)
      ensures rows == MergeAll(old(rows), groups, categoryIds, wordIds, source)
      ensures counts'.Keys == counts.Keys
      ensures Counted(counts', groups, |groups|, old(rows), categoryIds, wordIds, source)
      ensures KeptOutside(counts', counts, Vocabulary.Firsts(groups))
    {
      counts' := counts;
      ghost var before := rows;
      WrittenNone(groups, rows, counts, categoryIds, wordIds, source);
      for j := 0 to |groups|
        invariant Valid()
        invariant categoryIds == old(categoryIds) && wordIds == old(wordIds)
        invariant WrittenUpTo(groups, j, before, rows, counts, counts', categoryIds, wordIds, source)
      {
        counts' := WriteNext(groups, j, ids, counts', source, before, counts);
      }
      WrittenAll(groups, before, rows, counts, counts', categoryIds, wordIds, source);
    }

    /**
     * `merge_categories`: the counts of every key of the dict, after writing each
     * category's words with the backfill, all in one transaction.
     */
    method MergeCategories(input: MergeInput, source: Option<string>) returns (r: Result<map<string, nat>, StoreError>)
      requires Valid() && IsDict(input)
      modifies this
      ensures Valid()
      ensures categoryIds == old(categoryIds)
      ensures MergeOutcome(casefold, input, categoryIds, old(wordIds), wordIds, old(rows), rows, source, r)
    {
      if input.NotDict? {
        return Failure(NotADict);
      }
      var items := input.items;
      var counts := map c | c in Vocabulary.Firsts(items) :: 0;
      if items == [] {
        MergeNothing(casefold, items, categoryIds, wordIds, rows, source);
        return Success(counts);
      }
      var groups, allLemmas := PrepareGroups(items);
      GroupsFromItems(casefold, items);
      if groups == [] {
        MergeNothing(casefold, items, categoryIds, wordIds, rows, source);
        return Success(counts);
      }
      var unknown := FindUnknown(groups);
      if unknown.Some? {
        MergeUnknown(casefold, items, categoryIds, wordIds, rows, source, unknown.value);
        return Failure(UnknownCategory(unknown.value));
      }
      FirstUnknownNone(groups, categoryIds);
      InsertLemmas(allLemmas);
      var ids := FetchWordIds(allLemmas);
      GroupsWritable(groups, categoryIds, ids, wordIds);
      GroupsDistinct(casefold, items);
      var written := WriteGroups(groups, ids, counts, source);
      MergeWritten(casefold, items, categoryIds, old(wordIds), wordIds, old(rows), rows, source, counts, written);
      r := Success(written);
    }
  }
}
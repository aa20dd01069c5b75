/**
 * The row-level meaning of the store's writes. `_prepare_words` turns a word list into
 * (lemma, surface) pairs; a batch of (row key, surface) pairs is then written with
 * `INSERT OR IGNORE` (a row is added only when its key is absent) and, for merges,
 * followed by the backfill `UPDATE`, which only fills an empty surface form or a
 * missing source. A row key is (category id, word id), the `UNIQUE(category_id,
 * word_id)` constraint of the category_words table.
 */
module SqliteRows {
  import opened Wrappers
  import opened Text
  import Vocabulary

  /** The columns of a category_words row apart from its key. */
  datatype Entry = Entry(surface: string, source: Option<string>, frequency: int)

  type Key = (nat, nat)

  type Rows = map<Key, Entry>

  // ---------------------------------------------------------------------------
  // _prepare_words
  // ---------------------------------------------------------------------------

  /** The lemma column of a prepared list. */
  function Lemmas(prepared: seq<(string, string)>): (ls: seq<string>)
    ensures |ls| == |prepared|
  {
    if prepared == [] then [] else Lemmas(prepared[..|prepared| - 1]) + [prepared[|prepared| - 1].0]
  }

  lemma {:induction false} LemmasIndex(prepared: seq<(string, string)>)
    ensures forall k :: 0 <= k < |prepared| ==> Lemmas(prepared)[k] == prepared[k].0
  {
    if prepared != [] {
      LemmasIndex(prepared[..|prepared| - 1]);
    }
  }

  lemma LemmasSnoc(prepared: seq<(string, string)>, x: (string, string))
    ensures Lemmas(prepared + [x]) == Lemmas(prepared) + [x.0]
  {
    assert (prepared + [x])[..|prepared|] == prepared;
  }

  /** What one item offers: the stripped text of a `str` that is not blank. */
  function Candidate(w: Value): (c: Option<string>)
    ensures c.Some? ==> c.value != [] && IsStripped(c.value)
  {
    if w.Str? then
      StripIsStripped(w.s);
      var t := Strip(w.s);
      if t == [] then None else Some(t)
    else None
  }

  function Candidates(words: seq<Value>): (cs: seq<Option<string>>)
    ensures |cs| == |words| && forall i :: 0 <= i < |words| ==> cs[i] == Candidate(words[i])
  {
    seq(|words|, i requires 0 <= i < |words| => Candidate(words[i]))
  }

  /** The offered surface folds to `lem`. */
  predicate Yields(casefold: string -> string, c: Option<string>, lem: string) {
    c.Some? && casefold(c.value) == lem
  }

  /**
   * The (lemma, surface) list built from the offered surfaces, grown one at a time: a
   * surface is kept unless nothing is offered or its lemma is already taken.
   */
  function Gather(casefold: string -> string, cs: seq<Option<string>>): seq<(string, string)>
  {
    if cs == [] then []
    else
      var prev := Gather(casefold, cs[..|cs| - 1]);
      var c := cs[|cs| - 1];
      if c.Some? && casefold(c.value) !in Lemmas(prev)
      then prev + [(casefold(c.value), c.value)]
      else prev
  }

  /**
   * `_prepare_words`: items that are not strings or are blank are skipped, the rest
   * are stripped and folded, and only the first surface per lemma is kept.
   */
  function Prepare(casefold: string -> string, words: seq<Value>): seq<(string, string)>
  {
    Gather(casefold, Candidates(words))
  }

  /** Every surface is stripped and non-empty, and every lemma is the fold of its surface. */
  lemma {:induction false} GatherShape(casefold: string -> string, cs: seq<Option<string>>)
    requires forall i :: 0 <= i < |cs| && cs[i].Some? ==> cs[i].value != [] && IsStripped(cs[i].value)
    ensures forall k :: 0 <= k < |Gather(casefold, cs)| ==>
      Gather(casefold, cs)[k].1 != [] && IsStripped(Gather(casefold, cs)[k].1)
      && Gather(casefold, cs)[k].0 == casefold(Gather(casefold, cs)[k].1)
    decreases |cs|
  {
    if cs != [] {
      var init := cs[..|cs| - 1];
      GatherShape(casefold, init);
      var prev := Gather(casefold, init);
      var c := cs[|cs| - 1];
      if c.Some? && casefold(c.value) !in Lemmas(prev) {
        var p := prev + [(casefold(c.value), c.value)];
        forall k | 0 <= k < |p|
          ensures p[k].1 != [] && IsStripped(p[k].1) && p[k].0 == casefold(p[k].1)
        {
          if k < |prev| {
            assert p[k] == prev[k];
          }
        }
      }
    }
  }

  lemma PrepareShape(casefold: string -> string, words: seq<Value>)
    ensures forall k :: 0 <= k < |Prepare(casefold, words)| ==>
      Prepare(casefold, words)[k].1 != [] && IsStripped(Prepare(casefold, words)[k].1)
      && Prepare(casefold, words)[k].0 == casefold(Prepare(casefold, words)[k].1)
  {
    GatherShape(casefold, Candidates(words));
  }

  /** No lemma appears twice. */
  lemma {:induction false} GatherDistinct(casefold: string -> string, cs: seq<Option<string>>)
    ensures Vocabulary.Distinct(Lemmas(Gather(casefold, cs)))
    decreases |cs|
  {
    if cs != [] {
      var init := cs[..|cs| - 1];
      GatherDistinct(casefold, init);
      var prev := Gather(casefold, init);
      var c := cs[|cs| - 1];
      if c.Some? && casefold(c.value) !in Lemmas(prev) {
        LemmasSnoc(prev, (casefold(c.value), c.value));
      }
    }
  }

  lemma PrepareDistinct(casefold: string -> string, words: seq<Value>)
    ensures Vocabulary.Distinct(Lemmas(Prepare(casefold, words)))
  {
    GatherDistinct(casefold, Candidates(words));
  }

  /** One more offer: the list grows by it exactly when it is a surface with a new lemma. */
  lemma GatherStep(casefold: string -> string, cs: seq<Option<string>>, i: nat)
    requires i < |cs|
    ensures Gather(casefold, cs[..i + 1]) ==
      if cs[i].Some? && casefold(cs[i].value) !in Lemmas(Gather(casefold, cs[..i]))
      then Gather(casefold, cs[..i]) + [(casefold(cs[i].value), cs[i].value)]
      else Gather(casefold, cs[..i])
  {
    assert cs[..i + 1][..i] == cs[..i];
  }

  lemma GatherStepHas(casefold: string -> string, cs: seq<Option<string>>, lem: string)
    requires cs != []
    ensures lem in Lemmas(Gather(casefold, cs)) <==>
      lem in Lemmas(Gather(casefold, cs[..|cs| - 1])) || Yields(casefold, cs[|cs| - 1], lem)
  {
    var prev := Gather(casefold, cs[..|cs| - 1]);
    var c := cs[|cs| - 1];
    if c.Some? && casefold(c.value) !in Lemmas(prev) {
      LemmasSnoc(prev, (casefold(c.value), c.value));
    }
  }

  lemma {:induction false} GatherHasSource(casefold: string -> string, cs: seq<Option<string>>, lem: string)
    requires lem in Lemmas(Gather(casefold, cs))
    ensures exists i :: 0 <= i < |cs| && Yields(casefold, cs[i], lem)
    decreases |cs|
  {
    var init := cs[..|cs| - 1];
    GatherStepHas(casefold, cs, lem);
    if lem in Lemmas(Gather(casefold, init)) {
      GatherHasSource(casefold, init, lem);
      var i :| 0 <= i < |init| && Yields(casefold, init[i], lem);
      assert cs[i] == init[i];
    } else {
      assert Yields(casefold, cs[|cs| - 1], lem);
    }
  }

  lemma {:induction false} GatherKeeps(casefold: string -> string, cs: seq<Option<string>>, i: nat, lem: string)
    requires i < |cs| && Yields(casefold, cs[i], lem)
    ensures lem in Lemmas(Gather(casefold, cs))
    decreases |cs|
  {
    var init := cs[..|cs| - 1];
    GatherStepHas(casefold, cs, lem);
    if i < |init| {
      assert init[i] == cs[i];
      GatherKeeps(casefold, init, i, lem);
    }
  }

  /** A lemma is kept exactly when some string item, stripped and non-blank, folds to it. */
  lemma PrepareHas(casefold: string -> string, words: seq<Value>, lem: string)
    ensures lem in Lemmas(Prepare(casefold, words)) <==>
      exists i :: 0 <= i < |words| && Yields(casefold, Candidate(words[i]), lem)
  {
    var cs := Candidates(words);
    if lem in Lemmas(Prepare(casefold, words)) {
      GatherHasSource(casefold, cs, lem);
      var i :| 0 <= i < |cs| && Yields(casefold, cs[i], lem);
      assert Yields(casefold, Candidate(words[i]), lem);
    }
    if exists i :: 0 <= i < |words| && Yields(casefold, Candidate(words[i]), lem) {
      var i :| 0 <= i < |words| && Yields(casefold, Candidate(words[i]), lem);
      GatherKeeps(casefold, cs, i, lem);
    }
  }

  /** The offer at `i` is the first that folds to `lem`. */
  predicate FirstYield(casefold: string -> string, cs: seq<Option<string>>, i: int, lem: string) {
    0 <= i < |cs| && Yields(casefold, cs[i], lem)
    && forall j :: 0 <= j < i ==> !Yields(casefold, cs[j], lem)
  }

  lemma {:induction false} GatherFirst(casefold: string -> string, cs: seq<Option<string>>, k: nat)
    requires k < |Gather(casefold, cs)|
    ensures exists i :: FirstYield(casefold, cs, i, Gather(casefold, cs)[k].0)
                        && cs[i] == Some(Gather(casefold, cs)[k].1)
    decreases |cs|
  {
    var init := cs[..|cs| - 1];
    var prev := Gather(casefold, init);
    var p := Gather(casefold, cs);
    var c := cs[|cs| - 1];
    if k < |prev| {
      assert p[k] == prev[k];
      GatherFirst(casefold, init, k);
      var i :| FirstYield(casefold, init, i, prev[k].0) && init[i] == Some(prev[k].1);
      assert forall j :: 0 <= j <= i ==> cs[j] == init[j];
      assert FirstYield(casefold, cs, i, p[k].0);
    } else {
      assert c.Some? && casefold(c.value) !in Lemmas(prev);
      assert p == prev + [(casefold(c.value), c.value)];
      var i := |cs| - 1;
      forall j | 0 <= j < i
        ensures !Yields(casefold, cs[j], p[k].0)
      {
        assert cs[j] == init[j];
        if Yields(casefold, init[j], p[k].0) {
          GatherKeeps(casefold, init, j, p[k].0);
        }
      }
      assert FirstYield(casefold, cs, i, p[k].0);
    }
  }

  /**
   * Each kept surface is the stripped text of the first item carrying its lemma:
   * later spellings of a lemma never replace the first one.
   */
  lemma PrepareFirst(casefold: string -> string, words: seq<Value>, k: nat)
    requires k < |Prepare(casefold, words)|
    ensures exists i :: (0 <= i < |words| && Candidate(words[i]) == Some(Prepare(casefold, words)[k].1)
      && casefold(Prepare(casefold, words)[k].1) == Prepare(casefold, words)[k].0
      && forall j :: 0 <= j < i ==> !Yields(casefold, Candidate(words[j]), Prepare(casefold, words)[k].0))
  {
    var cs := Candidates(words);
    GatherFirst(casefold, cs, k);
    var i :| FirstYield(casefold, cs, i, Gather(casefold, cs)[k].0) && cs[i] == Some(Gather(casefold, cs)[k].1);
    assert Candidate(words[i]) == cs[i];
  }

  // ---------------------------------------------------------------------------
  // INSERT OR IGNORE and the backfill UPDATE
  // ---------------------------------------------------------------------------

  /** Every lemma of the prepared list has a word id. */
  predicate Covers(ids: map<string, nat>, prepared: seq<(string, string)>) {
    forall k :: 0 <= k < |prepared| ==> prepared[k].0 in ids
  }

  /** The (row key, surface) pairs the statements are executed with, in list order. */
  function Batch(category: nat, ids: map<string, nat>, prepared: seq<(string, string)>): (b: seq<(Key, string)>)
    requires Covers(ids, prepared)
    ensures |b| == |prepared|
    ensures forall k :: 0 <= k < |prepared| ==> b[k] == ((category, ids[prepared[k].0]), prepared[k].1)
  {
    seq(|prepared|, k requires 0 <= k < |prepared| => ((category, ids[prepared[k].0]), prepared[k].1))
  }

  /** Only the ids of the batch's own lemmas matter. */
  lemma BatchAgrees(category: nat, ids: map<string, nat>, ids': map<string, nat>, prepared: seq<(string, string)>)
    requires Covers(ids, prepared) && Covers(ids', prepared)
    requires forall k :: 0 <= k < |prepared| ==> ids[prepared[k].0] == ids'[prepared[k].0]
    ensures Batch(category, ids, prepared) == Batch(category, ids', prepared)
  {
  }

  /** `executemany("INSERT OR IGNORE ...")`: each pair adds its row unless the key is taken. */
  function InsertAll(rows: Rows, batch: seq<(Key, string)>, source: Option<string>): Rows
  {
    if batch == [] then rows
    else
      var before := InsertAll(rows, batch[..|batch| - 1], source);
      var (key, surface) := batch[|batch| - 1];
      if key in before then before else before[key := Entry(surface, source, 1)]
  }

  /** The statement's `rowcount`: how many of the inserts added a row. */
  function Added(rows: Rows, batch: seq<(Key, string)>, source: Option<string>): nat
  {
    if batch == [] then 0
    else
      var before := InsertAll(rows, batch[..|batch| - 1], source);
      Added(rows, batch[..|batch| - 1], source) + (if batch[|batch| - 1].0 in before then 0 else 1)
  }

  /** One more statement of the batch: a row for a missing key, counted; a present key left alone. */
  lemma InsertStep(rows: Rows, batch: seq<(Key, string)>, i: nat, source: Option<string>)
    requires i < |batch|
    ensures var before := InsertAll(rows, batch[..i], source);
      InsertAll(rows, batch[..i + 1], source)
        == (if batch[i].0 in before then before else before[batch[i].0 := Entry(batch[i].1, source, 1)])
      && Added(rows, batch[..i + 1], source) == Added(rows, batch[..i], source) + (if batch[i].0 in before then 0 else 1)
  {
    assert batch[..i + 1][..i] == batch[..i];
  }

  /** `COALESCE(NULLIF(surface_form, ''), ?)` and `COALESCE(source, ?)`. */
  function Fill(e: Entry, surface: string, source: Option<string>): Entry {
    Entry(if e.surface == "" then surface else e.surface,
          if e.source.None? then source else e.source,
          e.frequency)
  }

  /** `executemany("UPDATE ... SET surface_form = COALESCE(...), source = COALESCE(...)")`. */
  function BackfillAll(rows: Rows, batch: seq<(Key, string)>, source: Option<string>): Rows
  {
    if batch == [] then rows
    else
      var before := BackfillAll(rows, batch[..|batch| - 1], source);
      var (key, surface) := batch[|batch| - 1];
      if key in before then before[key := Fill(before[key], surface, source)] else before
  }

  /** The rows after `add_words` (inserts only) or `merge_words` (inserts, then the backfill). */
  function WriteRows(rows: Rows, batch: seq<(Key, string)>, source: Option<string>, backfill: bool): Rows {
    var inserted := InsertAll(rows, batch, source);
    if backfill then BackfillAll(inserted, batch, source) else inserted
  }

  /** Inserting never changes a row that was already there. */
  lemma {:induction false} InsertAllKeeps(rows: Rows, batch: seq<(Key, string)>, source: Option<string>)
    ensures forall key :: key in rows ==> key in InsertAll(rows, batch, source) && InsertAll(rows, batch, source)[key] == rows[key]
  {
    if batch != [] {
      InsertAllKeeps(rows, batch[..|batch| - 1], source);
    }
  }

  /** After the inserts, the keys are the old ones and the batch's. */
  lemma {:induction false} InsertAllKeys(rows: Rows, batch: seq<(Key, string)>, source: Option<string>)
    ensures forall key :: key in InsertAll(rows, batch, source) <==> key in rows || key in Vocabulary.Firsts(batch)
  {
    if batch != [] {
      var init := batch[..|batch| - 1];
      InsertAllKeys(rows, init, source);
      assert Vocabulary.Firsts(batch) == Vocabulary.Firsts(init) + [batch[|batch| - 1].0];
    }
  }

  /** The count is the number of keys the inserts added. */
  lemma {:induction false} AddedCountsNewKeys(rows: Rows, batch: seq<(Key, string)>, source: Option<string>)
    ensures |InsertAll(rows, batch, source).Keys| == |rows.Keys| + Added(rows, batch, source)
  {
    if batch != [] {
      var init := batch[..|batch| - 1];
      AddedCountsNewKeys(rows, init, source);
      var before := InsertAll(rows, init, source);
      var (key, surface) := batch[|batch| - 1];
      if key !in before {
        assert before[key := Entry(surface, source, 1)].Keys == before.Keys + {key};
      }
    }
  }

  /** A batch whose keys are all present adds nothing and changes nothing. */
  lemma {:induction false} InsertAllPresent(rows: Rows, batch: seq<(Key, string)>, source: Option<string>)
    requires forall k :: 0 <= k < |batch| ==> batch[k].0 in rows
    ensures InsertAll(rows, batch, source) == rows && Added(rows, batch, source) == 0
  {
    if batch != [] {
      InsertAllPresent(rows, batch[..|batch| - 1], source);
    }
  }

  /**
   * With distinct keys, a row the batch added holds the surface the batch gave it,
   * the batch's source and frequency 1.
   */
  lemma {:induction false} InsertAllNew(rows: Rows, batch: seq<(Key, string)>, source: Option<string>, k: nat)
    requires Vocabulary.Distinct(Vocabulary.Firsts(batch))
    requires k < |batch| && batch[k].0 !in rows
    ensures batch[k].0 in InsertAll(rows, batch, source)
    ensures InsertAll(rows, batch, source)[batch[k].0] == Entry(batch[k].1, source, 1)
  {
    InsertAllKeys(rows, batch, source);
    var init := batch[..|batch| - 1];
    assert Vocabulary.Firsts(init) == Vocabulary.Firsts(batch)[..|batch| - 1];
    InsertAllKeys(rows, init, source);
    if k < |init| {
      InsertAllNew(rows, init, source, k);
      assert batch[|batch| - 1].0 != batch[k].0;
    } else {
      assert batch[k].0 !in Vocabulary.Firsts(init);
    }
  }

  /** The backfill keeps the set of rows. */
  lemma {:induction false} BackfillAllKeys(rows: Rows, batch: seq<(Key, string)>, source: Option<string>)
    ensures BackfillAll(rows, batch, source).Keys == rows.Keys
  {
    if batch != [] {
      BackfillAllKeys(rows, batch[..|batch| - 1], source);
    }
  }

  /**
   * The backfill never overwrites a populated field: a non-empty surface form, a
   * present source and the frequency stay as they were; a row outside the batch
   * stays whole.
   */
  lemma {:induction false} BackfillAllNeverOverwrites(rows: Rows, batch: seq<(Key, string)>, source: Option<string>)
    ensures forall key :: key in rows ==>
      key in BackfillAll(rows, batch, source)
      && var e, e' := rows[key], BackfillAll(rows, batch, source)[key];
      e'.frequency == e.frequency
      && (e.surface != "" ==> e'.surface == e.surface)
      && (e.source.Some? ==> e'.source == e.source)
      && (key !in Vocabulary.Firsts(batch) ==> e' == e)
  {
    BackfillAllKeys(rows, batch, source);
    if batch != [] {
      var init := batch[..|batch| - 1];
      BackfillAllNeverOverwrites(rows, init, source);
      assert Vocabulary.Firsts(batch) == Vocabulary.Firsts(init) + [batch[|batch| - 1].0];
    }
  }

  /**
   * After the backfill every row the batch names has a non-empty surface form, and
   * it has a source whenever the merge supplied one.
   */
  lemma {:induction false} BackfillAllFills(rows: Rows, batch: seq<(Key, string)>, source: Option<string>, k: nat)
    requires forall j :: 0 <= j < |batch| ==> batch[j].1 != ""
    requires k < |batch| && batch[k].0 in rows
    ensures batch[k].0 in BackfillAll(rows, batch, source)
    ensures BackfillAll(rows, batch, source)[batch[k].0].surface != ""
    ensures source.Some? ==> BackfillAll(rows, batch, source)[batch[k].0].source.Some?
  {
    var init := batch[..|batch| - 1];
    BackfillAllKeys(rows, init, source);
    BackfillAllKeys(rows, batch, source);
    if k < |init| {
      BackfillAllFills(rows, init, source, k);
    }
  }

  /**
   * Merging the same batch a second time adds nothing: every key is present after the
   * first merge, with or without its backfill.
   */
  lemma MergeAgainAddsNothing(rows: Rows, batch: seq<(Key, string)>, source: Option<string>)
    ensures Added(InsertAll(rows, batch, source), batch, source) == 0
    ensures Added(BackfillAll(InsertAll(rows, batch, source), batch, source), batch, source) == 0
  {
    var once := InsertAll(rows, batch, source);
    InsertAllKeys(rows, batch, source);
    assert forall k :: 0 <= k < |batch| ==> batch[k].0 in Vocabulary.Firsts(batch);
    InsertAllPresent(once, batch, source);
    BackfillAllKeys(once, batch, source);
    InsertAllPresent(BackfillAll(once, batch, source), batch, source);
  }

  /**
   * Two spellings with one fold share a row: merging "Run" into a category adds one
   * row, and merging "run" afterwards adds none.
   */
  lemma RunThenLowerRun(casefold: string -> string, rows: Rows, category: nat, ids: map<string, nat>, source: Option<string>)
    requires casefold("Run") == casefold("run")
    requires casefold("Run") in ids && (category, ids[casefold("Run")]) !in rows
    ensures var first := Prepare(casefold, [Str("Run")]);
      var second := Prepare(casefold, [Str("run")]);
      first == [(casefold("Run"), "Run")] && second == [(casefold("Run"), "run")]
      && Added(rows, Batch(category, ids, first), source) == 1
      && Added(BackfillAll(InsertAll(rows, Batch(category, ids, first), source), Batch(category, ids, first), source),
               Batch(category, ids, second), source) == 0
  {
    PrepareOneWord(casefold, "Run");
    PrepareOneWord(casefold, "run");
    SameKeyAddsOnce(rows, category, ids, casefold("Run"), "Run", "run", source);
  }

  /** A single stripped, non-empty string prepares to itself under its fold. */
  lemma PrepareOneWord(casefold: string -> string, w: string)
    requires w != [] && IsStripped(w)
    ensures Prepare(casefold, [Str(w)]) == [(casefold(w), w)]
  {
    StrippedIsFixpoint(w);
    var cs := Candidates([Str(w)]);
    assert cs == [Some(w)];
    assert cs[..0] == [];
    assert Gather(casefold, cs[..0]) == [];
    assert casefold(w) !in Lemmas([]);
  }

  /** A one-word batch for a missing key adds one row; a second one for the same key adds none. */
  lemma SameKeyAddsOnce(rows: Rows, category: nat, ids: map<string, nat>, lem: string, w1: string, w2: string,
                        source: Option<string>)
    requires lem in ids && (category, ids[lem]) !in rows
    ensures Added(rows, Batch(category, ids, [(lem, w1)]), source) == 1
    ensures Added(BackfillAll(InsertAll(rows, Batch(category, ids, [(lem, w1)]), source), Batch(category, ids, [(lem, w1)]), source),
                  Batch(category, ids, [(lem, w2)]), source) == 0
  {
    var b1 := Batch(category, ids, [(lem, w1)]);
    var b2 := Batch(category, ids, [(lem, w2)]);
    assert b1[..0] == [] && b2[..0] == [];
    var once := BackfillAll(InsertAll(rows, b1, source), b1, source);
    InsertAllKeys(rows, b1, source);
    BackfillAllKeys(InsertAll(rows, b1, source), b1, source);
    assert b2[0].0 == b1[0].0 && b1[0].0 in Vocabulary.Firsts(b1);
    InsertAllPresent(once, b2, source);
  }

  /** The keys a batch names that are not yet rows. */
  function NewKeys(rows: Rows, batch: seq<(Key, string)>): set<Key> {
    (set k | k in Vocabulary.Firsts(batch)) - rows.Keys
  }

  /**
   * The count is the number of distinct (category, word) pairs of the batch that were
   * not already rows, whatever the batch's order and repetitions.
   */
  lemma AddedIsNewKeyCount(rows: Rows, batch: seq<(Key, string)>, source: Option<string>)
    ensures Added(rows, batch, source) == |NewKeys(rows, batch)|
  {
    InsertAllKeys(rows, batch, source);
    AddedCountsNewKeys(rows, batch, source);
    var after := InsertAll(rows, batch, source).Keys;
    assert after == rows.Keys + NewKeys(rows, batch);
    assert rows.Keys * NewKeys(rows, batch) == {};
  }

  /** Only which of the batch's keys are present decides the count. */
  lemma {:induction false} AddedDependsOnKeys(rows: Rows, rows': Rows, batch: seq<(Key, string)>, source: Option<string>)
    requires forall k :: 0 <= k < |batch| ==> (batch[k].0 in rows <==> batch[k].0 in rows')
    ensures Added(rows, batch, source) == Added(rows', batch, source)
  {
    AddedIsNewKeyCount(rows, batch, source);
    AddedIsNewKeyCount(rows', batch, source);
    NewKeysAgree(rows, rows', batch);
  }

  lemma NewKeysAgree(rows: Rows, rows': Rows, batch: seq<(Key, string)>)
    requires forall k :: 0 <= k < |batch| ==> (batch[k].0 in rows <==> batch[k].0 in rows')
    ensures NewKeys(rows, batch) == NewKeys(rows', batch)
  {
    var ks := Vocabulary.Firsts(batch);
    forall key | key in ks
      ensures key in rows <==> key in rows'
    {
      var i :| 0 <= i < |ks| && ks[i] == key;
      assert batch[i].0 == key;
    }
  }

  /** Writing a batch for one category leaves every row of every other category as it was. */
  lemma {:induction false} WriteKeepsOtherCategories(rows: Rows, batch: seq<(Key, string)>, source: Option<string>, c: nat)
    requires forall k :: 0 <= k < |batch| ==> batch[k].0.0 != c
    ensures forall key: Key :: key.0 == c ==>
      (key in InsertAll(rows, batch, source) <==> key in rows)
      && (key in rows ==> InsertAll(rows, batch, source)[key] == rows[key])
    ensures forall key: Key :: key.0 == c ==>
      (key in BackfillAll(rows, batch, source) <==> key in rows)
      && (key in rows ==> BackfillAll(rows, batch, source)[key] == rows[key])
  {
    InsertAllKeys(rows, batch, source);
    InsertAllKeeps(rows, batch, source);
    BackfillAllKeys(rows, batch, source);
    BackfillAllNeverOverwrites(rows, batch, source);
  }
}

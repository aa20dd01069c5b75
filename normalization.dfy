/**
 * Surface and case normalisation of a word and its (lemma, surface) canonical pair.
 * The Unicode case mappings and the spaCy lemmatizer are supplied from outside as
 * plain functions, so every statement here holds whatever they compute.
 */
module Normalization {
  import opened Wrappers
  import opened Text

  /** The part-of-speech tags the lemmatizer is asked for. */
  datatype Pos = Noun | VerbPos

  /**
   * The collaborators the module calls but does not define: `str.casefold`,
   * `str.lower`, and the lemma the spaCy pipeline gives a text for a tag (None when
   * spaCy is missing or gives nothing).
   */
  datatype Linguistics = Linguistics(
    casefold: string -> string,
    lower: string -> string,
    lemmatize: (string, Pos) -> Option<string>)

  /** `_CATEGORY_POS.get((category or "").strip().lower())`; a None category reads as "". */
  function CategoryPos(ling: Linguistics, category: Option<string>): Option<Pos> {
    var key := ling.lower(Strip(category.GetOr("")));
    if key == "noun" then Some(Noun)
    else if key == "verb" || key == "phrasal_verb" then Some(VerbPos)
    else None
  }

  /** `_normalize_case`. */
  function NormalizeCase(ling: Linguistics, text: string, useCasefold: bool): string {
    if useCasefold then ling.casefold(text) else ling.lower(text)
  }

  /** Python's `a or b` for an optional text: the first when it is a non-empty string. */
  function OrElse(a: Option<string>, b: string): string {
    if a.Some? && a.value != [] then a.value else b
  }

  // ---------------------------------------------------------------------------
  // _normalize_surface
  // ---------------------------------------------------------------------------

  /** `re.sub(r"\s+", " ", s)`: every maximal whitespace run becomes one space. */
  function CollapseSpaces(s: string): string
    decreases |s|
  {
    if s == [] then []
    else if IsSpace(s[0]) then
      var t := TrimLeft(s);
      [' '] + CollapseSpaces(t)
    else [s[0]] + CollapseSpaces(s[1..])
  }

  /** The characters that are not whitespace, in order. */
  function Visible(s: string): string {
    if s == [] then []
    else if IsSpace(s[0]) then Visible(s[1..])
    else [s[0]] + Visible(s[1..])
  }

  /** Whitespace inside the text is only single plain spaces. */
  predicate SingleSpaced(s: string) {
    (forall i :: 0 <= i < |s| && IsSpace(s[i]) ==> s[i] == ' ')
    && (forall i :: 0 <= i < |s| - 1 ==> !(s[i] == ' ' && s[i + 1] == ' '))
  }

  lemma {:induction false} VisibleOfSpaces(s: string)
    requires AllSpace(s)
    ensures Visible(s) == []
  {
    if s != [] {
      VisibleOfSpaces(s[1..]);
    }
  }

  lemma {:induction false} VisibleAppend(a: string, b: string)
    ensures Visible(a + b) == Visible(a) + Visible(b)
  {
    if a != [] {
      assert (a + b)[0] == a[0];
      assert (a + b)[1..] == a[1..] + b;
      VisibleAppend(a[1..], b);
    } else {
      assert a + b == b;
    }
  }

  /** Collapsing is empty only for the empty text, and starts and ends with whitespace exactly when its input does. */
  lemma {:induction false} CollapseSpacesEnds(s: string)
    ensures var c := CollapseSpaces(s);
      (c == [] <==> s == [])
      && (c != [] ==> (IsSpace(c[0]) <==> IsSpace(s[0])) && (IsSpace(c[|c| - 1]) <==> IsSpace(s[|s| - 1])))
  {
    if s != [] {
      CollapseSpacesLast(s);
    }
  }

  lemma {:induction false} CollapseSpacesLast(s: string)
    requires s != []
    ensures CollapseSpaces(s) != []
    ensures IsSpace(CollapseSpaces(s)[|CollapseSpaces(s)| - 1]) <==> IsSpace(s[|s| - 1])
    decreases |s|
  {
    if IsSpace(s[0]) {
      var t := TrimLeft(s);
      if t == [] {
        assert CollapseSpaces(s) == [' '];
        assert IsSpace(s[|s| - 1]) by {
          assert AllSpace(s[..|s|]);
        }
      } else {
        CollapseSpacesLast(t);
        LastOfCons(' ', CollapseSpaces(t));
        assert s[|s| - 1] == t[|t| - 1];
      }
    } else if s[1..] == [] {
      assert CollapseSpaces(s) == [s[0]];
    } else {
      CollapseSpacesLast(s[1..]);
      LastOfCons(s[0], CollapseSpaces(s[1..]));
      assert s[|s| - 1] == s[1..][|s[1..]| - 1];
    }
  }

  lemma LastOfCons(x: char, r: string)
    requires r != []
    ensures ([x] + r)[|r|] == r[|r| - 1]
  {
  }

  /** Collapsing keeps every visible character, in order. */
  lemma {:induction false} CollapseSpacesVisible(s: string)
    ensures Visible(CollapseSpaces(s)) == Visible(s)
    decreases |s|
  {
    if s != [] {
      var c := CollapseSpaces(s);
      if IsSpace(s[0]) {
        var t := TrimLeft(s);
        CollapseSpacesVisible(t);
        assert c == [' '] + CollapseSpaces(t);
        assert s == s[..|s| - |t|] + t;
        VisibleAppend(s[..|s| - |t|], t);
        VisibleOfSpaces(s[..|s| - |t|]);
      } else {
        CollapseSpacesVisible(s[1..]);
        assert c == [s[0]] + CollapseSpaces(s[1..]);
      }
    }
  }

  /** Collapsing leaves only single plain spaces. */
  lemma {:induction false} CollapseSpacesSingle(s: string)
    ensures SingleSpaced(CollapseSpaces(s))
    decreases |s|
  {
    if s != [] {
      if IsSpace(s[0]) {
        var t := TrimLeft(s);
        CollapseSpacesSingle(t);
        CollapseSpacesEnds(t);
        SingleSpacedCons(' ', CollapseSpaces(t));
      } else {
        CollapseSpacesSingle(s[1..]);
        SingleSpacedCons(s[0], CollapseSpaces(s[1..]));
      }
    }
  }

  lemma {:induction false} SingleSpacedCons(x: char, c: string)
    requires SingleSpaced(c)
    requires IsSpace(x) ==> x == ' ' && (c == [] || !IsSpace(c[0]))
    ensures SingleSpaced([x] + c)
  {
    var s := [x] + c;
    forall i | 0 <= i < |s| - 1
      ensures !(s[i] == ' ' && s[i + 1] == ' ')
    {
      if i > 0 {
        assert s[i] == c[i - 1] && s[i + 1] == c[i];
      }
    }
  }

  /** `_normalize_surface`: None stays None; otherwise strip, collapse whitespace, and None if blank. */
  function NormalizeSurface(word: Value): Option<string> {
    match word
    case Null => None
    case Str(s) => NonBlank(CollapseSpaces(Strip(s)))
    case Other(t) => NonBlank(CollapseSpaces(Strip(t)))
  }

  function NonBlank(s: string): Option<string> {
    if s == [] then None else Some(s)
  }

  function TextOf(word: Value): string {
    match word
    case Null => ""
    case Str(s) => s
    case Other(t) => t
  }

  /** None gives None, and so does text that is all whitespace; nothing else does. */
  lemma {:induction false} NormalizeSurfaceNone(word: Value)
    ensures NormalizeSurface(word).None? <==> word.Null? || AllSpace(TextOf(word))
  {
    if !word.Null? {
      var text := TextOf(word);
      StripEmptyIffAllSpace(text);
      CollapseSpacesEnds(Strip(text));
    }
  }

  /** A surface is stripped, single-spaced, and holds exactly the visible characters of its word. */
  lemma {:induction false} NormalizeSurfaceShape(word: Value)
    requires NormalizeSurface(word).Some?
    ensures IsStripped(NormalizeSurface(word).value)
    ensures SingleSpaced(NormalizeSurface(word).value)
    ensures Visible(NormalizeSurface(word).value) == Visible(TextOf(word))
  {
    var text := TextOf(word);
    var t := Strip(text);
    StripIsStripped(text);
    CollapseSpacesVisible(t);
    CollapseSpacesSingle(t);
    CollapseSpacesEnds(t);
    StripKeepsVisible(text);
  }

  lemma {:induction false} StripKeepsVisible(text: string)
    ensures Visible(Strip(text)) == Visible(text)
  {
    StripIsInfix(text);
    var i, j :| 0 <= i <= j <= |text| && Strip(text) == text[i..j] && AllSpace(text[..i]) && AllSpace(text[j..]);
    SpacesAroundInvisible(text, i, j);
  }

  /** Cutting whitespace off both ends keeps the visible characters. */
  lemma {:induction false} SpacesAroundInvisible(text: string, i: nat, j: nat)
    requires i <= j <= |text| && AllSpace(text[..i]) && AllSpace(text[j..])
    ensures Visible(text[i..j]) == Visible(text)
  {
    var t := text[i..j];
    assert text == text[..i] + (t + text[j..]);
    VisibleAppend(text[..i], t + text[j..]);
    VisibleAppend(t, text[j..]);
    VisibleOfSpaces(text[..i]);
    VisibleOfSpaces(text[j..]);
  }

  // ---------------------------------------------------------------------------
  // canonicalize
  // ---------------------------------------------------------------------------

  const EmptyWordMessage: string := "word is empty after normalization"

  /** `canonicalize`: the (lemma, surface) pair of one word, or the ValueError it raises. */
  function Canonicalize(ling: Linguistics, word: Value, category: Option<string>, useCasefold: bool)
    : Result<(string, string), string>
  {
    match NormalizeSurface(word)
    case None => Failure(EmptyWordMessage)
    case Some(surface) => Success((CanonicalLemma(ling, surface, category, useCasefold), surface))
  }

  /**
   * The lemma `canonicalize` gives a normalised surface: the case-normalised surface,
   * lemmatized when the category has a tag (falling back to the form itself), and
   * case-normalised once more.
   */
  function CanonicalLemma(ling: Linguistics, surface: string, category: Option<string>, useCasefold: bool): string
  {
    var normalized := NormalizeCase(ling, surface, useCasefold);
    var base :=
      (match CategoryPos(ling, category)
       case None => normalized
       case Some(p) => OrElse(ling.lemmatize(normalized, p), normalized));
    NormalizeCase(ling, base, useCasefold)
  }

  /** `canonicalize` raises its ValueError exactly when nothing is left after normalisation. */
  lemma {:induction false} CanonicalizeFails(ling: Linguistics, word: Value, category: Option<string>, useCasefold: bool)
    ensures var r := Canonicalize(ling, word, category, useCasefold);
      (r.Failure? <==> word.Null? || AllSpace(TextOf(word)))
      && (r.Failure? ==> r.error == EmptyWordMessage)
  {
    NormalizeSurfaceNone(word);
  }

  /** On success the pair is the canonical lemma of the normalised surface, and that surface. */
  lemma {:induction false} CanonicalizeSurface(ling: Linguistics, word: Value, category: Option<string>, useCasefold: bool)
    requires NormalizeSurface(word).Some?
    ensures Canonicalize(ling, word, category, useCasefold).Success?
    ensures Canonicalize(ling, word, category, useCasefold).value
         == (CanonicalLemma(ling, NormalizeSurface(word).value, category, useCasefold), NormalizeSurface(word).value)
  {
  }

  /** For a category without a tag the lemma is the case-normalised surface, normalised once more. */
  lemma {:induction false} CanonicalizeUntagged(ling: Linguistics, surface: string, category: Option<string>, useCasefold: bool)
    requires CategoryPos(ling, category).None?
    ensures CanonicalLemma(ling, surface, category, useCasefold)
         == NormalizeCase(ling, NormalizeCase(ling, surface, useCasefold), useCasefold)
  {
  }

  /** When the lemmatizer gives nothing (spaCy missing, or an empty lemma) the lemma falls back the same way. */
  lemma {:induction false} CanonicalizeFallback(ling: Linguistics, surface: string, category: Option<string>, useCasefold: bool, p: Pos)
    requires CategoryPos(ling, category) == Some(p)
    requires OrElse(ling.lemmatize(NormalizeCase(ling, surface, useCasefold), p), "") == ""
    ensures CanonicalLemma(ling, surface, category, useCasefold)
         == NormalizeCase(ling, NormalizeCase(ling, surface, useCasefold), useCasefold)
  {
  }

  // ---------------------------------------------------------------------------
  // canonicalize_batch
  // ---------------------------------------------------------------------------

  /** The non-empty normalised surfaces of the inputs, in input order. */
  function Surfaces(words: seq<Value>): (r: seq<string>)
    ensures forall k :: 0 <= k < |r| ==> r[k] != []
  {
    if words == [] then []
    else
      var prev := Surfaces(words[..|words| - 1]);
      match NormalizeSurface(words[|words| - 1])
      case None => prev
      case Some(s) => prev + [s]
  }

  /** The lemma the batch assigns a surface: a function of its case-normalised form alone. */
  function BatchLemma(ling: Linguistics, normalized: string, pos: Option<Pos>, useCasefold: bool): string {
    match pos
    case None => normalized
    case Some(p) => NormalizeCase(ling, OrElse(ling.lemmatize(normalized, p), normalized), useCasefold)
  }

  /** The first loop of `canonicalize_batch`: the non-empty normalised surfaces. */
  method CollectSurfaces(words: seq<Value>) returns (surfaces: seq<string>)
    ensures surfaces == Surfaces(words)
  {
    surfaces := [];
    for i := 0 to |words|
      invariant surfaces == Surfaces(words[..i])
    {
      assert words[..i + 1][..i] == words[..i];
      var surface := NormalizeSurface(words[i]);
      if surface.Some? {
        surfaces := surfaces + [surface.value];
      }
    }
    assert words[..|words|] == words;
  }

  /**
   * The `unique` / `index_map` loop: the distinct forms in first-seen order, each
   * mapped to its position.
   */
  method IndexUnique(forms: seq<string>) returns (unique: seq<string>, indexMap: map<string, nat>)
    ensures forall k :: 0 <= k < |unique| ==> unique[k] in indexMap && indexMap[unique[k]] == k
    ensures forall x :: x in indexMap <==> x in forms
    ensures forall x :: x in unique <==> x in forms
  {
    unique := [];
    indexMap := map[];
    for i := 0 to |forms|
      invariant forall k :: 0 <= k < |unique| ==> unique[k] in indexMap && indexMap[unique[k]] == k
      invariant forall x :: x in indexMap <==> x in unique
      invariant forall x :: x in unique <==> x in forms[..i]
    {
      assert forms[..i + 1] == forms[..i] + [forms[i]];
      if forms[i] !in indexMap {
        indexMap := indexMap[forms[i] := |unique|];
        unique := unique + [forms[i]];
      }
    }
    assert forms[..|forms|] == forms;
  }

  /** The `lemma_map` loop: each distinct form mapped to its case-normalised lemma, or to itself when none. */
  method BuildLemmaMap(ling: Linguistics, unique: seq<string>, pos: Pos, useCasefold: bool)
    returns (lemmaMap: map<string, string>)
    ensures forall x :: x in lemmaMap <==> x in unique
    ensures forall x :: x in lemmaMap ==> lemmaMap[x] == BatchLemma(ling, x, Some(pos), useCasefold)
  {
    var lemmas := seq(|unique|, k requires 0 <= k < |unique| => ling.lemmatize(unique[k], pos));
    lemmaMap := map[];
    for k := 0 to |unique|
      invariant forall x :: x in lemmaMap <==> x in unique[..k]
      invariant forall x :: x in lemmaMap ==> lemmaMap[x] == BatchLemma(ling, x, Some(pos), useCasefold)
    {
      assert unique[..k + 1] == unique[..k] + [unique[k]];
      lemmaMap := lemmaMap[unique[k] := NormalizeCase(ling, OrElse(lemmas[k], unique[k]), useCasefold)];
    }
    assert unique[..|unique|] == unique;
  }

  /** The list comprehension that case-normalises every surface. */
  function NormalizeAll(ling: Linguistics, surfaces: seq<string>, useCasefold: bool): (r: seq<string>)
    ensures |r| == |surfaces|
    ensures forall k :: 0 <= k < |r| ==> r[k] == NormalizeCase(ling, surfaces[k], useCasefold)
  {
    seq(|surfaces|, k requires 0 <= k < |surfaces| => NormalizeCase(ling, surfaces[k], useCasefold))
  }

  /** The `results` loop: every surface paired with the lemma its normalised form maps to. */
  method PairWithLemmas(ling: Linguistics, surfaces: seq<string>, normalized: seq<string>,
                        lemmaMap: map<string, string>, pos: Pos, useCasefold: bool)
    returns (results: seq<(string, string)>)
    requires |normalized| == |surfaces|
    requires forall x :: x in normalized ==> x in lemmaMap
    requires forall x :: x in lemmaMap ==> lemmaMap[x] == BatchLemma(ling, x, Some(pos), useCasefold)
    ensures |results| == |surfaces|
    ensures forall m :: 0 <= m < |surfaces| ==>
      results[m] == (BatchLemma(ling, normalized[m], Some(pos), useCasefold), surfaces[m])
  {
    results := [];
    for j := 0 to |surfaces|
      invariant |results| == j
      invariant forall m :: 0 <= m < j ==>
        results[m] == (BatchLemma(ling, normalized[m], Some(pos), useCasefold), surfaces[m])
    {
      results := results + [(lemmaMap[normalized[j]], surfaces[j])];
    }
  }

  /**
   * The part of `canonicalize_batch` after the surfaces are collected: pair each
   * surface with its lemma, lemmatizing each distinct case-normalised form once.
   */
  method LemmatizeSurfaces(ling: Linguistics, surfaces: seq<string>, pos: Option<Pos>, useCasefold: bool)
    returns (results: seq<(string, string)>)
    ensures |results| == |surfaces|
    ensures forall j :: 0 <= j < |results| ==> results[j].1 == surfaces[j]
    ensures forall j :: 0 <= j < |results| ==>
      results[j].0 == BatchLemma(ling, NormalizeCase(ling, surfaces[j], useCasefold), pos, useCasefold)
  {
    if surfaces == [] {
      return [];
    }
    var normalized := NormalizeAll(ling, surfaces, useCasefold);
    if pos.None? {
      results := seq(|surfaces|, k requires 0 <= k < |surfaces| => (normalized[k], surfaces[k]));
      return;
    }
    var unique, indexMap := IndexUnique(normalized);
    var lemmaMap := BuildLemmaMap(ling, unique, pos.value, useCasefold);
    results := PairWithLemmas(ling, surfaces, normalized, lemmaMap, pos.value, useCasefold);
  }

  /**
   * `canonicalize_batch`: one (lemma, surface) pair per non-empty surface, in input
   * order; each lemma is a function of the surface's case-normalised form alone, so
   * equal forms get equal lemmas.
   */
  method CanonicalizeBatch(ling: Linguistics, words: seq<Value>, category: Option<string>, useCasefold: bool)
    returns (results: seq<(string, string)>)
    ensures |results| == |Surfaces(words)|
    ensures forall j :: 0 <= j < |results| ==> results[j].1 == Surfaces(words)[j]
    ensures forall j :: 0 <= j < |results| ==>
      results[j].0 == BatchLemma(ling, NormalizeCase(ling, results[j].1, useCasefold), CategoryPos(ling, category), useCasefold)
  {
    var surfaces := CollectSurfaces(words);
    results := LemmatizeSurfaces(ling, surfaces, CategoryPos(ling, category), useCasefold);
  }

  /**
   * For a tagged category the batch gives every surface the lemma `canonicalize`
   * gives it alone; for an untagged one the batch skips the second case
   * normalisation that `canonicalize` applies.
   */
  lemma {:induction false} BatchAgreesWithCanonicalize(ling: Linguistics, words: seq<Value>,
                                                      category: Option<string>, useCasefold: bool, j: nat)
    requires j < |Surfaces(words)|
    ensures exists i :: 0 <= i < |words| && NormalizeSurface(words[i]) == Some(Surfaces(words)[j])
    ensures var surface := Surfaces(words)[j];
      var normalized := NormalizeCase(ling, surface, useCasefold);
      var single := Canonicalize(ling, Str(surface), category, useCasefold);
      single.Success? && single.value.1 == surface
      && (CategoryPos(ling, category).Some? ==> single.value.0 == BatchLemma(ling, normalized, CategoryPos(ling, category), useCasefold))
      && (CategoryPos(ling, category).None? ==> single.value.0 == NormalizeCase(ling, BatchLemma(ling, normalized, None, useCasefold), useCasefold))
  {
    var init := words[..|words| - 1];
    if j < |Surfaces(init)| {
      BatchAgreesWithCanonicalize(ling, init, category, useCasefold, j);
      var i :| 0 <= i < |init| && NormalizeSurface(init[i]) == Some(Surfaces(init)[j]);
      assert NormalizeSurface(words[i]) == Some(Surfaces(words)[j]);
    } else {
      assert NormalizeSurface(words[|words| - 1]) == Some(Surfaces(words)[j]);
    }
    var surface := Surfaces(words)[j];
    var w :| w in words && NormalizeSurface(w) == Some(surface);
    NormalizeSurfaceShape(w);
    SurfaceIsFixpoint(surface);
  }

  /** A normalised surface normalises to itself. */
  lemma {:induction false} SurfaceIsFixpoint(surface: string)
    requires surface != [] && IsStripped(surface) && SingleSpaced(surface)
    ensures NormalizeSurface(Str(surface)) == Some(surface)
  {
    StrippedIsFixpoint(surface);
    CollapseSingleSpaced(surface);
  }

  lemma {:induction false} CollapseSingleSpaced(s: string)
    requires SingleSpaced(s)
    ensures CollapseSpaces(s) == s
  {
    if s != [] {
      assert SingleSpaced(s[1..]);
      CollapseSingleSpaced(s[1..]);
      if IsSpace(s[0]) {
        assert s[0] == ' ';
        var t := TrimLeft(s);
        assert s[1..] == [] || !IsSpace(s[1]);
        assert t == s[1..];
      }
    }
  }
}

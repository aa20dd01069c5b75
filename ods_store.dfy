/**
 * The file side of the ODS vocabulary store: the word-list files on disk (a `.ods`
 * spreadsheet or a plain-text list), how a path picks its reader, the cache of word
 * lists kept coherent with the disk, appending the missing words to a list, and the
 * per-category export. The disk is a class whose methods replace files; a file's stat
 * signature is the disk's write counter at its last write, with the file's size.
 */
module OdsStore {
  import opened Wrappers
  import opened Text
  import opened OdsCodec
  import Vocabulary
  import opened VocabularyCache

  /** What a path holds: a text file, or a zip archive. */
  datatype File = TxtFile(text: string) | OdsFile(archive: Archive)

  function SizeOf(f: File): nat {
    match f
    case TxtFile(t) => |t|
    case OdsFile(a) => |a|
  }

  /** The files, their stat signatures, and the clock that stamps each write. */
  class Disk {
    var files: map<string, File>
    var signatures: map<string, Signature>
    var clock: int

    /** Every file has a signature, and no signature is stamped later than the clock. */
    ghost predicate Valid()
      reads this
    {
      signatures.Keys == files.Keys
      && forall p :: p in signatures ==> signatures[p].mtime <= clock
    }

    constructor(files: map<string, File>)
      ensures Valid() && this.files == files && clock == 0
    {
      this.files := files;
      signatures := map p | p in files :: Signature(0, SizeOf(files[p]));
      clock := 0;
    }

    /** Replace (or create) one file; it is stamped with a new time, every other file stays. */
    method Write(path: string, f: File)
      requires Valid()
      modifies this
      ensures Valid()
      ensures files == old(files)[path := f]
      ensures clock == old(clock) + 1
      ensures signatures == old(signatures)[path := Signature(clock, SizeOf(f))]
    {
      clock := clock + 1;
      files := files[path := f];
      signatures := signatures[path := Signature(clock, SizeOf(f))];
    }
  }

  // ---------------------------------------------------------------------------
  // Paths
  // ---------------------------------------------------------------------------

  /** `str.rfind` for one character. */
  function RFind(s: string, c: char): (r: Option<nat>)
    ensures r.None? ==> c !in s
    ensures r.Some? ==> r.value < |s| && s[r.value] == c && c !in s[r.value + 1..]
  {
    if s == [] then None
    else if s[|s| - 1] == c then Some(|s| - 1)
    else
      var r := RFind(s[..|s| - 1], c);
      assert r.Some? ==> s[r.value + 1..] == s[..|s| - 1][r.value + 1..] + [s[|s| - 1]];
      assert s == s[..|s| - 1] + [s[|s| - 1]];
      r
  }

  predicate HasNonDot(s: string) {
    exists k :: 0 <= k < |s| && s[k] != '.'
  }

  /** Where the last path component starts: just after the last slash. */
  function StemStart(p: string): (i: nat)
    ensures i <= |p|
    ensures '/' !in p[i..]
  {
    match RFind(p, '/')
    case None => 0
    case Some(k) => k + 1
  }

  /**
   * POSIX `os.path.splitext`: the extension starts at the last dot of the last path
   * component, unless everything before that dot in the component is dots.
   */
  function SplitExt(p: string): (r: (string, string))
    ensures r.0 + r.1 == p
    ensures r.1 == [] || r.1[0] == '.'
  {
    var dot := RFind(p, '.');
    if dot.Some? && StemStart(p) <= dot.value && HasNonDot(p[StemStart(p)..dot.value]) then
      (p[..dot.value], p[dot.value..])
    else (p, "")
  }

  /** `append_missing_words` takes the spreadsheet route exactly for this extension, in any case. */
  predicate IsOdsPath(p: string) {
    AsciiLower(SplitExt(p).1) == ".ods"
  }

  /** The plain-text list that a spreadsheet path migrates from. */
  function TxtPath(p: string): string {
    SplitExt(p).0 + ".txt"
  }

  function DirPrefix(dir: string): string {
    if dir == [] || dir[|dir| - 1] == '/' then dir else dir + "/"
  }

  /** POSIX `os.path.join` of two parts. */
  function JoinPath(dir: string, name: string): string {
    if name != [] && name[0] == '/' then name else DirPrefix(dir) + name
  }

  lemma {:induction false} RFindAppend(s: string, t: string, c: char)
    requires c !in t
    ensures RFind(s + t, c) == RFind(s, c)
  {
    if t != [] {
      var u := t[..|t| - 1];
      assert (s + t)[..|s + t| - 1] == s + u;
      RFindAppend(s, u, c);
    } else {
      assert s + t == s;
    }
  }

  lemma RFindAt(s: string, c: char, t: string)
    requires c !in t
    ensures RFind(s + [c] + t, c) == Some(|s|)
  {
    RFindAppend(s + [c], t, c);
  }

  lemma StemStartAppend(s: string, t: string)
    requires '/' !in t
    ensures StemStart(s + t) == StemStart(s)
  {
    RFindAppend(s, t, '/');
  }

  /** The split at a dot that is the last one and has a non-dot before it in its component. */
  lemma SplitAt(p: string, d: nat)
    requires RFind(p, '.') == Some(d)
    requires StemStart(p) <= d && HasNonDot(p[StemStart(p)..d])
    ensures SplitExt(p) == (p[..d], p[d..])
  {
  }

  /** The migration source of a spreadsheet path has the same stem and the extension `.txt`. */
  lemma TxtPathSplit(p: string)
    requires SplitExt(p).1 != []
    ensures SplitExt(TxtPath(p)) == (SplitExt(p).0, ".txt")
    ensures !IsOdsPath(TxtPath(p))
  {
    StemOfSplit(p);
    SplitTxt(SplitExt(p).0);
    LowerTxt();
  }

  /** The stem of a split path has a non-dot in its last component. */
  lemma StemOfSplit(p: string)
    requires SplitExt(p).1 != []
    ensures var root := SplitExt(p).0; HasNonDot(root[StemStart(root)..])
  {
    var dot := RFind(p, '.').value;
    var root, ext := p[..dot], p[dot..];
    assert p == root + ext;
    var start := StemStart(p);
    assert ext == p[start..][dot - start..];
    StemStartAppend(root, ext);
    assert root[start..] == p[start..dot];
  }

  /** A stem with a non-dot in its last component, followed by `.txt`, splits before the `.txt`. */
  lemma SplitTxt(root: string)
    requires HasNonDot(root[StemStart(root)..])
    ensures SplitExt(root + ".txt") == (root, ".txt")
  {
    var q := root + ".txt";
    var start := StemStart(root);
    assert q == root + ['.'] + "txt";
    RFindAt(root, '.', "txt");
    StemStartAppend(root, ".txt");
    assert q[start..|root|] == root[start..];
    SplitAt(q, |root|);
    assert q[..|root|] == root && q[|root|..] == ".txt";
  }

  lemma LowerTxt()
    ensures AsciiLower(".txt") == ".txt" && AsciiLower(".ods") == ".ods"
  {
  }

  /** A category's export path: in the directory, the key with the extension `.ods`. */
  function ExportPath(dir: string, key: string): string {
    JoinPath(dir, key + ".ods")
  }

  /** A name that can stand for a file stem: non-empty, with no dot and no slash. */
  predicate PlainName(key: string) {
    key != [] && '.' !in key && '/' !in key
  }

  /** A name without dots or slashes, then a dot and an extension without them, splits at that dot. */
  lemma SplitNamed(pre: string, key: string, e: string)
    requires PlainName(key) && '.' !in e && '/' !in e
    ensures SplitExt(pre + key + ['.'] + e) == (pre + key, ['.'] + e)
  {
    var s := pre + key;
    var p := s + ['.'] + e;
    RFindAt(s, '.', e);
    assert p == s + (['.'] + e);
    StemStartAppend(s, ['.'] + e);
    StemStartAppend(pre, key);
    var start := StemStart(pre);
    assert p[start..|s|][|pre| - start] == key[0];
    SplitAt(p, |s|);
    assert p[..|s|] == s && p[|s|..] == ['.'] + e;
  }

  lemma ExportPathSplit(dir: string, key: string)
    requires PlainName(key)
    ensures ExportPath(dir, key) == DirPrefix(dir) + key + ".ods"
    ensures SplitExt(ExportPath(dir, key)) == (DirPrefix(dir) + key, ".ods")
    ensures IsOdsPath(ExportPath(dir, key))
    ensures TxtPath(ExportPath(dir, key)) == DirPrefix(dir) + key + ".txt"
  {
    var pre := DirPrefix(dir);
    var name := key + ".ods";
    assert name[0] == key[0];
    assert ExportPath(dir, key) == pre + name;
    assert pre + name == pre + key + ['.'] + "ods";
    SplitNamed(pre, key, "ods");
    assert ['.'] + "ods" == ".ods";
    LowerTxt();
  }

  /** Different categories export to different paths, none of them another's migration source. */
  lemma ExportPathsApart(dir: string, k: string, j: string)
    requires PlainName(k) && PlainName(j)
    ensures ExportPath(dir, k) != TxtPath(ExportPath(dir, j))
    ensures k != j ==> ExportPath(dir, k) != ExportPath(dir, j)
  {
    ExportPathSplit(dir, k);
    ExportPathSplit(dir, j);
    var pre := DirPrefix(dir);
    var a, b := ExportPath(dir, k), TxtPath(ExportPath(dir, j));
    assert a[|a| - 1] == 's' && b[|b| - 1] == 't';
    if ExportPath(dir, k) == ExportPath(dir, j) {
      assert |k| == |j|;
      assert k == a[|pre|..|pre| + |k|] == j;
    }
  }

  // ---------------------------------------------------------------------------
  // Readers
  // ---------------------------------------------------------------------------

  /** `read_words_from_txt`: a missing file has no words; a zip archive does not decode as UTF-8 text. */
  function ReadTxt(files: map<string, File>, path: string): Result<seq<string>, string> {
    if path !in files then Success([])
    else match files[path]
      case TxtFile(text) => Success(TxtWords(text))
      case OdsFile(_) => Failure("'utf-8' codec can't decode the file")
  }

  /** `read_words_from_ods`: a missing file has no words; a text file is not a zip archive. */
  function ReadOds(files: map<string, File>, path: string): Result<seq<string>, string> {
    if path !in files then Success([])
    else match files[path]
      case OdsFile(archive) => ArchiveWords(archive)
      case TxtFile(_) => Failure("File is not a zip file")
  }

  /** The spreadsheet reader, or the text reader. */
  function Reader(ods: bool, files: map<string, File>, path: string): Result<seq<string>, string> {
    if ods then ReadOds(files, path) else ReadTxt(files, path)
  }

  /** The reader every caller uses for a path: the spreadsheet reader for `.ods` paths. */
  function ReaderFor(files: map<string, File>, path: string): Result<seq<string>, string> {
    Reader(IsOdsPath(path), files, path)
  }

  lemma ReadersClean(files: map<string, File>, path: string)
    ensures ReadTxt(files, path).Success? ==> Clean(ReadTxt(files, path).value)
    ensures ReadOds(files, path).Success? ==> Clean(ReadOds(files, path).value)
  {
    if path in files {
      match files[path]
      case TxtFile(text) => TxtWordsClean(text);
      case OdsFile(archive) =>
        if ArchiveWords(archive).Success? {
          ArchiveWordsClean(archive);
        }
    }
  }

  // ---------------------------------------------------------------------------
  // The cache agrees with the disk
  // ---------------------------------------------------------------------------

  /**
   * An entry agrees with the disk: it was stamped no later than the clock, and while the
   * file's signature is the one it was stored under, the words are what reading gives.
   */
  ghost predicate EntryAgrees(files: map<string, File>, signatures: map<string, Signature>, clock: int,
                              path: string, e: CacheEntry)
  {
    (e.signature.Some? ==> e.signature.value.mtime <= clock)
    && (e.signature == StatSignature(signatures, path) ==> ReaderFor(files, path) == Success(e.words))
  }

  ghost predicate Coherent(files: map<string, File>, signatures: map<string, Signature>, clock: int,
                           entries: map<string, CacheEntry>)
  {
    forall p :: p in entries ==> EntryAgrees(files, signatures, clock, p, entries[p])
  }

  /** No cache, or a cache whose every hit gives what reading the file gives. */
  ghost predicate CacheCoherent(disk: Disk, cache: Cache?)
    reads disk, cache
  {
    cache == null || Coherent(disk.files, disk.signatures, disk.clock, cache.entries)
  }

  /** A write stamps the file later than every stored entry, so no entry for it hits any more. */
  lemma WriteKeepsCoherent(files: map<string, File>, signatures: map<string, Signature>, clock: int,
                           entries: map<string, CacheEntry>, path: string, f: File)
    requires Coherent(files, signatures, clock, entries)
    ensures Coherent(files[path := f], signatures[path := Signature(clock + 1, SizeOf(f))], clock + 1, entries)
  {
    var files', signatures' := files[path := f], signatures[path := Signature(clock + 1, SizeOf(f))];
    forall p | p in entries
      ensures EntryAgrees(files', signatures', clock + 1, p, entries[p])
    {
      assert EntryAgrees(files, signatures, clock, p, entries[p]);
      if p != path {
        assert StatSignature(signatures', p) == StatSignature(signatures, p);
        assert ReaderFor(files', p) == ReaderFor(files, p);
      }
    }
  }

  /** Storing what reading gives, under the file's current signature, keeps the cache coherent. */
  lemma StoreKeepsCoherent(files: map<string, File>, signatures: map<string, Signature>, clock: int,
                           entries: map<string, CacheEntry>, path: string, words: seq<string>)
    requires Coherent(files, signatures, clock, entries)
    requires forall p :: p in signatures ==> signatures[p].mtime <= clock
    requires ReaderFor(files, path) == Success(words)
    ensures Coherent(files, signatures, clock, entries[path := CacheEntry(StatSignature(signatures, path), words)])
  {
  }

  // ---------------------------------------------------------------------------
  // Loading
  // ---------------------------------------------------------------------------

  /**
   * `_load_words` with the spreadsheet reader (`ods`) or the text reader: through the
   * cache when there is one. When the reader is the one the path's extension selects,
   * the result is what reading the file gives, and the cache stays coherent.
   */
  method LoadWords(disk: Disk, cache: Cache?, path: string, ods: bool) returns (r: Result<seq<string>, string>)
    requires disk.Valid() && CacheCoherent(disk, cache)
    modifies cache
    ensures cache == null ==> r == Reader(ods, disk.files, path)
    ensures ods == IsOdsPath(path) ==> r == ReaderFor(disk.files, path) && CacheCoherent(disk, cache)
  {
    if cache == null {
      return Reader(ods, disk.files, path);
    }
    var files := disk.files;
    r := cache.GetWords(disk.signatures, path, p => Reader(ods, files, p));
    if r.Success? && ods == IsOdsPath(path) {
      StoreKeepsCoherent(disk.files, disk.signatures, disk.clock, old(cache.entries), path, r.value);
    }
  }

  /** Where the existing words of a spreadsheet path come from. */
  datatype Origin = FromOds | FromTxt | NoFile

  /**
   * `_load_existing_words`: the spreadsheet when it exists, else the text list with the
   * same stem when that exists, else no words.
   */
  function LoadExisting(files: map<string, File>, path: string): Result<(Origin, seq<string>), string> {
    if path in files then
      match ReadOds(files, path)
      case Success(ws) => Success((FromOds, ws))
      case Failure(e) => Failure(e)
    else if TxtPath(path) in files then
      match ReadTxt(files, TxtPath(path))
      case Success(ws) => Success((FromTxt, ws))
      case Failure(e) => Failure(e)
    else Success((NoFile, []))
  }

  method LoadExistingWords(disk: Disk, cache: Cache?, path: string) returns (r: Result<(Origin, seq<string>), string>)
    requires IsOdsPath(path)
    requires disk.Valid() && CacheCoherent(disk, cache)
    modifies cache
    ensures CacheCoherent(disk, cache)
    ensures r == LoadExisting(disk.files, path)
  {
    if path in disk.files {
      var ws := LoadWords(disk, cache, path, true);
      return match ws
        case Success(ws) => Success((FromOds, ws))
        case Failure(e) => Failure(e);
    }
    var txt := TxtPath(path);
    if txt in disk.files {
      TxtPathSplit(path);
      var ws := LoadWords(disk, cache, txt, false);
      return match ws
        case Success(ws) => Success((FromTxt, ws))
        case Failure(e) => Failure(e);
    }
    return Success((NoFile, []));
  }

  // ---------------------------------------------------------------------------
  // Which words are new
  // ---------------------------------------------------------------------------

  /** Each present value under `f`; an absent one stays absent. */
  function MapPresent(f: string -> string, words: seq<Option<string>>): (cs: seq<Option<string>>)
    ensures |cs| == |words|
    ensures forall i :: 0 <= i < |words| ==> cs[i].Some? == words[i].Some?
  {
    seq(|words|, i requires 0 <= i < |words| => if words[i].Some? then Some(f(words[i].value)) else None)
  }

  /** `cleaned`: the stripped text of each word that is not None; a None word offers nothing. */
  function CleanedInputs(words: seq<Option<string>>): (cs: seq<Option<string>>)
    ensures |cs| == |words|
  {
    MapPresent(Strip, words)
  }

  /** `existing_set`: the non-empty stripped texts of the existing words. */
  function ExistingSet(existing: seq<string>): set<string> {
    set e | e in existing && Strip(e) != [] :: Strip(e)
  }

  /** The offered texts that are non-empty and not in `seen`, in order; repeats are kept. */
  function Unseen(cs: seq<Option<string>>, seen: set<string>): seq<string> {
    if cs == [] then []
    else
      var prev := Unseen(cs[..|cs| - 1], seen);
      var c := cs[|cs| - 1];
      if c.Some? && c.value != [] && c.value !in seen then prev + [c.value] else prev
  }

  /** `new_words`. */
  function NewWords(existing: seq<string>, words: seq<Option<string>>): seq<string> {
    Unseen(CleanedInputs(words), ExistingSet(existing))
  }

  lemma {:induction false} UnseenMembers(cs: seq<Option<string>>, seen: set<string>)
    ensures |Unseen(cs, seen)| <= |cs|
    ensures forall x :: x in Unseen(cs, seen) <==> x != [] && x !in seen && Some(x) in cs
  {
    if cs != [] {
      var front := cs[..|cs| - 1];
      UnseenMembers(front, seen);
      assert cs == front + [cs[|cs| - 1]];
    }
  }

  lemma {:induction false} UnseenAllSeen(cs: seq<Option<string>>, seen: set<string>)
    requires forall i :: 0 <= i < |cs| && cs[i].Some? && cs[i].value != [] ==> cs[i].value in seen
    ensures Unseen(cs, seen) == []
  {
    if cs != [] {
      UnseenAllSeen(cs[..|cs| - 1], seen);
    }
  }

  /**
   * A word is new exactly when some offered word strips to it, it is not empty, and no
   * existing word strips to it; there are never more new words than offered ones.
   */
  lemma NewWordsMembers(existing: seq<string>, words: seq<Option<string>>)
    ensures |NewWords(existing, words)| <= |words|
    ensures forall x :: x in NewWords(existing, words) <==>
      x != [] && x !in ExistingSet(existing)
      && exists i :: 0 <= i < |words| && words[i].Some? && Strip(words[i].value) == x
  {
    var cs := CleanedInputs(words);
    UnseenMembers(cs, ExistingSet(existing));
    forall x
      ensures Some(x) in cs <==> exists i :: 0 <= i < |words| && words[i].Some? && Strip(words[i].value) == x
    {
      if Some(x) in cs {
        var i :| 0 <= i < |cs| && cs[i] == Some(x);
        assert words[i].Some? && Strip(words[i].value) == x;
      }
      if exists i :: 0 <= i < |words| && words[i].Some? && Strip(words[i].value) == x {
        var i :| 0 <= i < |words| && words[i].Some? && Strip(words[i].value) == x;
        assert cs[i] == Some(x);
      }
    }
  }

  /** The new words are clean: non-empty, with no surrounding whitespace. */
  lemma NewWordsClean(existing: seq<string>, words: seq<Option<string>>)
    ensures Clean(NewWords(existing, words))
  {
    var cs := CleanedInputs(words);
    var novel := NewWords(existing, words);
    UnseenMembers(cs, ExistingSet(existing));
    forall k | 0 <= k < |novel|
      ensures novel[k] != [] && IsStripped(novel[k])
    {
      assert novel[k] in novel;
      var i :| 0 <= i < |cs| && cs[i] == Some(novel[k]);
      StripIsStripped(words[i].value);
    }
  }

  /** Every offered word is free of line breaks. */
  predicate InputsLineFree(words: seq<Option<string>>) {
    forall i :: 0 <= i < |words| && words[i].Some? ==> '\n' !in words[i].value && '\r' !in words[i].value
  }

  lemma NewWordsLineFree(existing: seq<string>, words: seq<Option<string>>)
    requires InputsLineFree(words)
    ensures LineFree(NewWords(existing, words))
  {
    var cs := CleanedInputs(words);
    var novel := NewWords(existing, words);
    UnseenMembers(cs, ExistingSet(existing));
    forall k | 0 <= k < |novel|
      ensures '\n' !in novel[k] && '\r' !in novel[k]
    {
      assert novel[k] in novel;
      var i :| 0 <= i < |cs| && cs[i] == Some(novel[k]);
      StripIsInfix(words[i].value);
    }
  }

  /** Once the new words have been added, offering the same words again finds nothing new. */
  lemma NothingNewAfter(existing: seq<string>, words: seq<Option<string>>)
    ensures NewWords(existing + NewWords(existing, words), words) == []
  {
    var cs := CleanedInputs(words);
    var seen := ExistingSet(existing);
    var novel := NewWords(existing, words);
    var seen' := ExistingSet(existing + novel);
    UnseenMembers(cs, seen);
    NewWordsClean(existing, words);
    forall i | 0 <= i < |cs| && cs[i].Some? && cs[i].value != []
      ensures cs[i].value in seen'
    {
      var x := cs[i].value;
      if x in seen {
        var e :| e in existing && Strip(e) != [] && Strip(e) == x;
        assert e in existing + novel;
      } else {
        assert x in novel;
        var k :| 0 <= k < |novel| && novel[k] == x;
        StrippedIsFixpoint(x);
        assert x in existing + novel;
      }
    }
    UnseenAllSeen(cs, seen');
  }

  lemma UnseenSnoc(cs: seq<Option<string>>, c: Option<string>, seen: set<string>)
    ensures Unseen(cs + [c], seen) ==
      if c.Some? && c.value != [] && c.value !in seen then Unseen(cs, seen) + [c.value] else Unseen(cs, seen)
  {
    assert (cs + [c])[..|cs|] == cs;
  }

  lemma CleanedOne(s: string)
    ensures CleanedInputs([Some(s)]) == [Some(Strip(s))]
  {
    assert MapPresent(Strip, [Some(s)])[0] == Some(Strip(s));
  }

  lemma MapPresentSnoc(f: string -> string, words: seq<Option<string>>, w: Option<string>)
    ensures MapPresent(f, words + [w]) == MapPresent(f, words) + MapPresent(f, [w])
  {
  }

  /** The incoming batch is not de-duplicated: a word offered twice is added twice. */
  lemma RepeatedOfferAddedTwice(w: string)
    requires w != [] && IsStripped(w)
    ensures NewWords([], [Some(w), Some(w)]) == [w, w]
  {
    CleanedOfStripped([Some(w), Some(w)]);
    assert ExistingSet([]) == {};
    UnseenTwice(w);
  }

  /** Offered texts that are already stripped are offered as they stand. */
  lemma CleanedOfStripped(ws: seq<Option<string>>)
    requires forall i :: 0 <= i < |ws| && ws[i].Some? ==> IsStripped(ws[i].value)
    ensures CleanedInputs(ws) == ws
  {
    forall i | 0 <= i < |ws|
      ensures CleanedInputs(ws)[i] == ws[i]
    {
      if ws[i].Some? {
        StrippedIsFixpoint(ws[i].value);
      }
    }
  }

  lemma UnseenTwice(w: string)
    requires w != []
    ensures Unseen([Some(w), Some(w)], {}) == [w, w]
  {
    UnseenSnoc([], Some(w), {});
    UnseenSnoc([Some(w)], Some(w), {});
    assert [] + [Some(w)] == [Some(w)];
    assert [Some(w)] + [Some(w)] == [Some(w), Some(w)];
  }

  /** For clean existing words, the set compared against is just the words. */
  lemma ExistingSetOfClean(existing: seq<string>)
    requires Clean(existing)
    ensures forall x :: x in ExistingSet(existing) <==> x in existing
  {
    forall x
      ensures x in ExistingSet(existing) <==> x in existing
    {
      if x in existing {
        var k :| 0 <= k < |existing| && existing[k] == x;
        StrippedIsFixpoint(x);
      }
      if x in ExistingSet(existing) {
        var e :| e in existing && Strip(e) != [] && Strip(e) == x;
        var k :| 0 <= k < |existing| && existing[k] == e;
        StrippedIsFixpoint(e);
      }
    }
  }

  /** Matching is exact: an existing word that differs only in case does not stop a word being added. */
  lemma CaseSensitiveMatch(w: string, v: string)
    requires w != [] && IsStripped(w) && v != [] && IsStripped(v) && w != v
    ensures NewWords([v], [Some(w)]) == [w]
  {
    assert CleanedInputs([Some(w)]) == [Some(w)] by {
      StrippedIsFixpoint(w);
      CleanedOne(w);
    }
    assert w !in ExistingSet([v]) by {
      ExistingSetOfClean([v]);
    }
    assert Unseen([Some(w)], ExistingSet([v])) == [w] by {
      UnseenSnoc([], Some(w), ExistingSet([v]));
      assert [] + [Some(w)] == [Some(w)];
    }
  }

  /** Surrounding whitespace and None entries never make a word new. */
  lemma PaddedOfferNotNew(e: string, s: string)
    requires e != [] && IsStripped(e) && Strip(s) == e
    ensures NewWords([e], [Some(s), None]) == []
  {
    StrippedIsFixpoint(e);
    assert ExistingSet([e]) == {e};
    CleanedOne(s);
    MapPresentSnoc(Strip, [Some(s)], None);
    assert CleanedInputs([None]) == [None];
    assert [Some(s)] + [None] == [Some(s), None];
    UnseenSnoc([], Some(e), {e});
    UnseenSnoc([Some(e)], None, {e});
    assert [] + [Some(e)] == [Some(e)];
  }

  // ---------------------------------------------------------------------------
  // Appending the missing words
  // ---------------------------------------------------------------------------

  /** What one append does: the count it returns, and the file it leaves at the path if it writes one. */
  datatype Outcome = Outcome(added: nat, written: Option<File>)

  function Apply(files: map<string, File>, path: string, o: Outcome): map<string, File> {
    if o.written.Some? then files[path := o.written.value] else files
  }

  /**
   * The spreadsheet branch of `append_missing_words`: with nothing new it writes nothing
   * and returns 0, except that an existing non-empty text list with no spreadsheet
   * beside it is migrated; otherwise it writes the existing words then the new ones.
   */
  function AppendOds(files: map<string, File>, path: string, words: seq<Option<string>>): Result<Outcome, string> {
    match LoadExisting(files, path)
    case Failure(e) => Failure(e)
    case Success((origin, existing)) =>
      var novel := NewWords(existing, words);
      if novel == [] && !(existing != [] && origin == FromTxt) then Success(Outcome(0, None))
      else Success(Outcome(|novel|, Some(OdsFile(OdsArchive(WordsContent(existing + novel))))))
  }

  /** The text at a path, or nothing when there is no text file there. */
  function TextAt(files: map<string, File>, path: string): string {
    if path in files && files[path].TxtFile? then files[path].text else ""
  }

  /** The text list at the path is absent, empty, or ends its last line. */
  predicate TxtEnded(files: map<string, File>, path: string) {
    TextAt(files, path) == [] || LineEnded(TextAt(files, path))
  }

  /**
   * `append_missing_words_txt`: with nothing new it writes nothing and returns 0;
   * otherwise the new lines are appended straight after the old text.
   */
  function AppendTxt(files: map<string, File>, path: string, words: seq<Option<string>>): Result<Outcome, string> {
    match ReadTxt(files, path)
    case Failure(e) => Failure(e)
    case Success(existing) =>
      var novel := NewWords(existing, words);
      if novel == [] then Success(Outcome(0, None))
      else Success(Outcome(|novel|, Some(TxtFile(AppendLines(TextAt(files, path), novel)))))
  }

  /** The corrected `append_missing_words_txt`: the old last line is ended before the new lines. */
  function AppendTxtFixed(files: map<string, File>, path: string, words: seq<Option<string>>): Result<Outcome, string> {
    match ReadTxt(files, path)
    case Failure(e) => Failure(e)
    case Success(existing) =>
      var novel := NewWords(existing, words);
      if novel == [] then Success(Outcome(0, None))
      else Success(Outcome(|novel|, Some(TxtFile(AppendLinesFixed(TextAt(files, path), novel)))))
  }

  /** `append_missing_words`: the route is chosen by the path's extension. */
  function AppendSpec(files: map<string, File>, path: string, words: seq<Option<string>>): Result<Outcome, string> {
    if IsOdsPath(path) then AppendOds(files, path, words) else AppendTxt(files, path, words)
  }

  /** The words an append compares against: the loaded spreadsheet or text list. */
  function ExistingFor(files: map<string, File>, path: string): Result<seq<string>, string> {
    if IsOdsPath(path) then
      match LoadExisting(files, path)
      case Success((_, existing)) => Success(existing)
      case Failure(e) => Failure(e)
    else ReadTxt(files, path)
  }

  lemma AppendOdsReadsBack(files: map<string, File>, path: string, words: seq<Option<string>>)
    requires IsOdsPath(path) && AppendOds(files, path, words).Success?
    ensures var existing := LoadExisting(files, path).value.1;
      var o := AppendOds(files, path, words).value;
      var novel := NewWords(existing, words);
      o.added == |novel| && (o.written.None? ==> o.added == 0)
      && ReaderFor(Apply(files, path, o), path) == Success(existing + novel)
  {
    var (origin, existing) := LoadExisting(files, path).value;
    var novel := NewWords(existing, words);
    var o := AppendOds(files, path, words).value;
    if o.written.Some? {
      ReadersClean(files, path);
      ReadersClean(files, TxtPath(path));
      NewWordsClean(existing, words);
      CleanAppend(existing, novel);
      WordsRoundTrip(existing + novel);
    } else {
      assert existing + novel == existing;
    }
  }

  /** As written, a text list that ends its last line reads back as the old words then the new ones. */
  lemma AppendTxtReadsBack(files: map<string, File>, path: string, words: seq<Option<string>>)
    requires !IsOdsPath(path) && InputsLineFree(words) && TxtEnded(files, path)
    requires AppendTxt(files, path, words).Success?
    ensures var existing := ReadTxt(files, path).value;
      var o := AppendTxt(files, path, words).value;
      var novel := NewWords(existing, words);
      o.added == |novel| && (o.written.None? ==> o.added == 0)
      && ReaderFor(Apply(files, path, o), path) == Success(existing + novel)
  {
    var existing := ReadTxt(files, path).value;
    var novel := NewWords(existing, words);
    var o := AppendTxt(files, path, words).value;
    if o.written.Some? {
      NewWordsClean(existing, words);
      NewWordsLineFree(existing, words);
      AppendLinesReadsBack(TextAt(files, path), novel);
      if path !in files {
        EmptyTextHasNoWord();
      }
    } else {
      assert existing + novel == existing;
    }
  }

  /** The corrected append reads back as the old words then the new ones, whatever the old text ends with. */
  lemma AppendTxtFixedReadsBack(files: map<string, File>, path: string, words: seq<Option<string>>)
    requires !IsOdsPath(path) && InputsLineFree(words) && AppendTxtFixed(files, path, words).Success?
    ensures var existing := ReadTxt(files, path).value;
      var o := AppendTxtFixed(files, path, words).value;
      var novel := NewWords(existing, words);
      o.added == |novel| && (o.written.None? ==> o.added == 0)
      && ReaderFor(Apply(files, path, o), path) == Success(existing + novel)
  {
    var existing := ReadTxt(files, path).value;
    var novel := NewWords(existing, words);
    var o := AppendTxtFixed(files, path, words).value;
    if o.written.Some? {
      NewWordsClean(existing, words);
      NewWordsLineFree(existing, words);
      AppendLinesFixedReadsBack(TextAt(files, path), novel);
      if path !in files {
        EmptyTextHasNoWord();
      }
    } else {
      assert existing + novel == existing;
    }
  }

  /** The corrected append offered the same words twice adds nothing the second time. */
  lemma AppendTxtFixedTwice(files: map<string, File>, path: string, words: seq<Option<string>>)
    requires !IsOdsPath(path) && InputsLineFree(words) && AppendTxtFixed(files, path, words).Success?
    ensures AppendTxtFixed(Apply(files, path, AppendTxtFixed(files, path, words).value), path, words)
            == Success(Outcome(0, None))
  {
    var o := AppendTxtFixed(files, path, words).value;
    AppendTxtFixedReadsBack(files, path, words);
    if o.written.Some? {
      NothingNewAfter(ReadTxt(files, path).value, words);
    }
  }

  /**
   * As written, a word appended to a text list whose one line "a" is unterminated is
   * glued onto that line: the file reads back as the single word a + w, not as the
   * words [a, w] the cache is then given, and offering w again adds it again.
   */
  lemma AppendTxtGlues(files: map<string, File>, path: string, a: string, w: string)
    requires !IsOdsPath(path) && path in files && files[path] == TxtFile(a)
    requires a != [] && IsStripped(a) && '\n' !in a && '\r' !in a
    requires w != [] && IsStripped(w) && '\n' !in w && '\r' !in w && a != w
    ensures !TxtEnded(files, path)
    ensures AppendSpec(files, path, [Some(w)]) == Success(Outcome(1, Some(TxtFile(a + w + "\n"))))
    ensures var files' := files[path := TxtFile(a + w + "\n")];
      ReaderFor(files', path) == Success([a + w]) && ReaderFor(files', path) != Success([a, w])
      && AppendSpec(files', path, [Some(w)]) == Success(Outcome(1, Some(TxtFile(a + w + "\n" + w + "\n"))))
  {
    GlueFirst(files, path, a, w);
    GlueSecond(files[path := TxtFile(a + w + "\n")], path, a, w);
  }

  lemma GlueFirst(files: map<string, File>, path: string, a: string, w: string)
    requires !IsOdsPath(path) && path in files && files[path] == TxtFile(a)
    requires a != [] && IsStripped(a) && '\n' !in a && '\r' !in a
    requires w != [] && IsStripped(w) && '\n' !in w && '\r' !in w && a != w
    ensures AppendSpec(files, path, [Some(w)]) == Success(Outcome(1, Some(TxtFile(a + w + "\n"))))
  {
    SingleLineWords(a);
    CaseSensitiveMatch(w, a);
    assert ReadTxt(files, path) == Success([a]);
    assert TextAt(files, path) == a;
    assert Lines([w]) == w + "\n" by { assert [w][..0] == []; }
    assert AppendLines(a, [w]) == a + w + "\n";
  }

  lemma GlueSecond(files: map<string, File>, path: string, a: string, w: string)
    requires !IsOdsPath(path) && path in files && files[path] == TxtFile(a + w + "\n")
    requires a != [] && IsStripped(a) && '\n' !in a && '\r' !in a
    requires w != [] && IsStripped(w) && '\n' !in w && '\r' !in w
    ensures ReaderFor(files, path) == Success([a + w]) && ReaderFor(files, path) != Success([a, w])
    ensures AppendSpec(files, path, [Some(w)]) == Success(Outcome(1, Some(TxtFile(a + w + "\n" + w + "\n"))))
  {
    GluedLine(a, w);
    assert Lines([w]) == w + "\n" by { assert [w][..0] == []; }
    assert AppendLines(a, [w]) == a + w + "\n";
    assert (a + w)[0] == a[0] && (a + w)[|a + w| - 1] == w[|w| - 1];
    assert a + w != w by { assert |a + w| > |w|; }
    CaseSensitiveMatch(w, a + w);
    assert AppendLines(a + w + "\n", [w]) == a + w + "\n" + w + "\n";
  }

  /**
   * After an append, the path reads back as the existing words followed by the new
   * ones, and the count returned is the number of new words (0 when nothing is
   * written). For a text list this needs words without line breaks and an old text
   * that ends its last line (see `AppendTxtGlues` for what happens otherwise).
   */
  lemma AppendReadsBack(files: map<string, File>, path: string, words: seq<Option<string>>)
    requires AppendSpec(files, path, words).Success?
    requires IsOdsPath(path) || (InputsLineFree(words) && TxtEnded(files, path))
    ensures ExistingFor(files, path).Success?
    ensures var existing := ExistingFor(files, path).value;
      var o := AppendSpec(files, path, words).value;
      var novel := NewWords(existing, words);
      o.added == |novel| && (o.written.None? ==> o.added == 0)
      && ReaderFor(Apply(files, path, o), path) == Success(existing + novel)
  {
    if IsOdsPath(path) {
      AppendOdsReadsBack(files, path, words);
    } else {
      AppendTxtReadsBack(files, path, words);
    }
  }

  /**
   * Appending the same words a second time adds nothing and writes nothing (for a text
   * list, one that ended its last line; `AppendTxtGlues` shows the other case).
   */
  lemma AppendTwice(files: map<string, File>, path: string, words: seq<Option<string>>)
    requires AppendSpec(files, path, words).Success?
    requires IsOdsPath(path) || (InputsLineFree(words) && TxtEnded(files, path))
    ensures AppendSpec(Apply(files, path, AppendSpec(files, path, words).value), path, words)
            == Success(Outcome(0, None))
  {
    var o := AppendSpec(files, path, words).value;
    AppendReadsBack(files, path, words);
    if o.written.Some? {
      var existing := ExistingFor(files, path).value;
      NothingNewAfter(existing, words);
      var files' := Apply(files, path, o);
      assert path in files';
      if IsOdsPath(path) {
        assert LoadExisting(files', path) == Success((FromOds, existing + NewWords(existing, words)));
      }
    }
  }

  /** `write_words_to_ods`: the path then holds the spreadsheet archive of the words, in order. */
  method WriteWordsToOds(disk: Disk, path: string, words: seq<string>)
    requires disk.Valid()
    modifies disk
    ensures disk.Valid()
    ensures disk.files == old(disk.files)[path := OdsFile(OdsArchive(WordsContent(words)))]
    ensures disk.clock == old(disk.clock) + 1
    ensures disk.signatures == old(disk.signatures)[path := Signature(disk.clock, |OdsArchive(WordsContent(words))|)]
  {
    var content := BuildContentXml(words);
    disk.Write(path, OdsFile(OdsArchive(content)));
  }

  /** The rows `write_rows_to_ods` puts in its table: the header row first when there is one. */
  function HeadedRows(rows: seq<seq<Value>>, headers: seq<Value>): seq<seq<Value>> {
    (if headers != [] then [headers] else []) + rows
  }

  /** `write_rows_to_ods` (an absent header and an empty one both mean no header row). */
  method WriteRowsToOds(disk: Disk, path: string, rows: seq<seq<Value>>, headers: seq<Value>)
    requires disk.Valid()
    modifies disk
    ensures disk.Valid()
    ensures disk.files == old(disk.files)[path := OdsFile(OdsArchive(RowsContent(HeadedRows(rows, headers))))]
    ensures disk.clock == old(disk.clock) + 1
    ensures disk.signatures == old(disk.signatures)[path := Signature(disk.clock, |OdsArchive(RowsContent(HeadedRows(rows, headers)))|)]
  {
    var allRows: seq<seq<Value>> := [];
    if headers != [] {
      allRows := allRows + [headers];
    }
    allRows := allRows + rows;
    assert allRows == HeadedRows(rows, headers);
    var content := BuildContentXmlRows(allRows);
    disk.Write(path, OdsFile(OdsArchive(content)));
  }

  /** The result and the new files are the ones an append specification prescribes. */
  predicate Performed(spec: Result<Outcome, string>, before: map<string, File>, after: map<string, File>,
                      path: string, r: Result<nat, string>)
  {
    match spec
    case Failure(e) => r == Failure(e) && after == before
    case Success(o) => r == Success(o.added) && after == Apply(before, path, o)
  }

  /** `cache.update_words` after a write; coherent again when the words are what the file now reads as. */
  method RecordWords(disk: Disk, cache: Cache?, path: string, words: seq<string>)
    requires disk.Valid()
    modifies cache
    ensures old(CacheCoherent(disk, cache)) && ReaderFor(disk.files, path) == Success(words) ==> CacheCoherent(disk, cache)
  {
    if cache != null {
      ghost var entries := cache.entries;
      cache.UpdateWords(disk.signatures, path, words);
      if Coherent(disk.files, disk.signatures, disk.clock, entries) && ReaderFor(disk.files, path) == Success(words) {
        StoreKeepsCoherent(disk.files, disk.signatures, disk.clock, entries, path, words);
      }
    }
  }

  /** The cache stays coherent across a write, since the written file gets a new stamp. */
  lemma WriteKeepsCacheCoherent(files: map<string, File>, signatures: map<string, Signature>, clock: int,
                                cache: Cache?, disk: Disk, path: string, f: File)
    requires cache != null ==> Coherent(files, signatures, clock, cache.entries)
    requires disk.files == files[path := f] && disk.clock == clock + 1
    requires disk.signatures == signatures[path := Signature(clock + 1, SizeOf(f))]
    ensures CacheCoherent(disk, cache)
  {
    if cache != null {
      WriteKeepsCoherent(files, signatures, clock, cache.entries, path, f);
    }
  }

  /**
   * `append_missing_words`: the result and the files are those of `AppendSpec`; the
   * cache stays coherent (for a text list, when the words hold no line breaks and the
   * old text ended its last line).
   */
  method AppendMissingWords(disk: Disk, cache: Cache?, path: string, words: seq<Option<string>>)
    returns (r: Result<nat, string>)
    requires disk.Valid() && CacheCoherent(disk, cache)
    modifies disk, cache
    ensures disk.Valid()
    ensures IsOdsPath(path) || (InputsLineFree(words) && old(TxtEnded(disk.files, path))) ==> CacheCoherent(disk, cache)
    ensures Performed(AppendSpec(old(disk.files), path, words), old(disk.files), disk.files, path, r)
  {
    if !IsOdsPath(path) {
      r := AppendMissingWordsTxt(disk, cache, path, words);
    } else {
      r := AppendMissingWordsOds(disk, cache, path, words);
    }
  }

  /** The spreadsheet route of `append_missing_words`. */
  method AppendMissingWordsOds(disk: Disk, cache: Cache?, path: string, words: seq<Option<string>>)
    returns (r: Result<nat, string>)
    requires IsOdsPath(path)
    requires disk.Valid() && CacheCoherent(disk, cache)
    modifies disk, cache
    ensures disk.Valid() && CacheCoherent(disk, cache)
    ensures Performed(AppendSpec(old(disk.files), path, words), old(disk.files), disk.files, path, r)
  {
    var loaded := LoadExistingWords(disk, cache, path);
    if loaded.Failure? {
      return Failure(loaded.error);
    }
    var (origin, existing) := loaded.value;
    var novel := NewWords(existing, words);
    if novel == [] && !(existing != [] && origin == FromTxt) {
      return Success(0);
    }
    var updated := existing + novel;
    AppendOdsReadsBack(disk.files, path, words);
    ghost var files, signatures, clock := disk.files, disk.signatures, disk.clock;
    WriteWordsToOds(disk, path, updated);
    WriteKeepsCacheCoherent(files, signatures, clock, cache, disk, path, OdsFile(OdsArchive(WordsContent(updated))));
    RecordWords(disk, cache, path, updated);
    return Success(|novel|);
  }

  /** The text after writing each word followed by a line break. */
  method WriteLines(start: string, ws: seq<string>) returns (text: string)
    ensures text == start + Lines(ws)
  {
    text := start;
    for i := 0 to |ws|
      invariant text == start + Lines(ws[..i])
    {
      assert ws[..i + 1][..i] == ws[..i];
      text := text + ws[i] + "\n";
    }
    assert ws[..|ws|] == ws;
  }

  /**
   * `append_missing_words_txt`, appending in place after the old text. Through
   * `append_missing_words` (a path without the spreadsheet extension) the result and
   * files are those of `AppendTxt`; the cache stays coherent when the words hold no
   * line breaks and the old text ended its last line.
   */
  method AppendMissingWordsTxt(disk: Disk, cache: Cache?, path: string, words: seq<Option<string>>)
    returns (r: Result<nat, string>)
    requires disk.Valid() && CacheCoherent(disk, cache)
    modifies disk, cache
    ensures disk.Valid()
    ensures !IsOdsPath(path) && InputsLineFree(words) && old(TxtEnded(disk.files, path)) ==> CacheCoherent(disk, cache)
    ensures !IsOdsPath(path) ==> Performed(AppendTxt(old(disk.files), path, words), old(disk.files), disk.files, path, r)
  {
    var existing: seq<string> := [];
    if path in disk.files {
      var loaded := LoadWords(disk, cache, path, false);
      if loaded.Failure? {
        return Failure(loaded.error);
      }
      existing := loaded.value;
    }
    var novel := NewWords(existing, words);
    if novel == [] {
      return Success(0);
    }
    var text := WriteLines(TextAt(disk.files, path), novel);
    if !IsOdsPath(path) && InputsLineFree(words) && TxtEnded(disk.files, path) {
      AppendTxtReadsBack(disk.files, path, words);
    }
    ghost var files, signatures, clock := disk.files, disk.signatures, disk.clock;
    ghost var coherent := CacheCoherent(disk, cache);
    disk.Write(path, TxtFile(text));
    if coherent {
      WriteKeepsCacheCoherent(files, signatures, clock, cache, disk, path, TxtFile(text));
    }
    RecordWords(disk, cache, path, existing + novel);
    return Success(|novel|);
  }

  // ---------------------------------------------------------------------------
  // Exporting every category
  // ---------------------------------------------------------------------------

  /** `data.get(key, [])`. */
  function Get(data: map<string, seq<Value>>, key: string): seq<Value> {
    if key in data then data[key] else []
  }

  /** Words passed on as offered words (none of them None). */
  function AsInputs(words: seq<string>): (ws: seq<Option<string>>)
    ensures |ws| == |words| && forall i :: 0 <= i < |words| ==> ws[i] == Some(words[i])
  {
    seq(|words|, i requires 0 <= i < |words| => Some(words[i]))
  }

  /**
   * One category of `write_vocabulary_exports`: its de-duplicated words are appended to
   * its spreadsheet; with no words, only a text list waiting to migrate is touched.
   */
  function ExportStep(files: map<string, File>, dir: string, data: map<string, seq<Value>>, key: string): Result<Outcome, string> {
    var path := ExportPath(dir, key);
    var words := Vocabulary.Deduped(Get(data, key));
    if words == [] && !(path !in files && TxtPath(path) in files) then Success(Outcome(0, None))
    else AppendSpec(files, path, AsInputs(words))
  }

  /** The counts so far, the files, and the error that stopped the run, if one did. */
  datatype Run = Run(counts: map<string, nat>, files: map<string, File>, error: Option<string>)

  /** The categories in order; the first failure stops the run, keeping what was written before it. */
  function Exports(files: map<string, File>, dir: string, data: map<string, seq<Value>>, keys: seq<string>): Run {
    if keys == [] then Run(map[], files, None)
    else
      var prev := Exports(files, dir, data, keys[..|keys| - 1]);
      var key := keys[|keys| - 1];
      if prev.error.Some? then prev
      else match ExportStep(prev.files, dir, data, key)
        case Failure(e) => Run(prev.counts, prev.files, Some(e))
        case Success(o) => Run(prev.counts[key := o.added], Apply(prev.files, ExportPath(dir, key), o), None)
  }

  /** `saved_files`. */
  function SavedFiles(dir: string, keys: seq<string>): map<string, string> {
    map k | k in keys :: ExportPath(dir, k)
  }

  lemma CategoriesPlain()
    ensures forall k :: k in Vocabulary.LexicalCategories ==> PlainName(k)
  {
    CategoriesPlainFrom(0, 2);
    CategoriesPlainFrom(2, 4);
    CategoriesPlainFrom(4, 6);
    CategoriesPlainFrom(6, 8);
    CategoriesPlainFrom(8, 10);
    CategoriesPlainFrom(10, 12);
    CategoriesPlainFrom(12, 14);
    CategoriesPlainFrom(14, 16);
    forall k | k in Vocabulary.LexicalCategories
      ensures PlainName(k)
    {
      var i :| 0 <= i < |Vocabulary.LexicalCategories| && Vocabulary.LexicalCategories[i] == k;
    }
  }

  lemma CategoriesPlainFrom(lo: nat, hi: nat)
    requires lo <= hi <= 16 && hi - lo <= 2
    ensures forall i :: lo <= i < hi ==> PlainName(Vocabulary.LexicalCategories[i])
  {
  }

  lemma ExportsStep(files: map<string, File>, dir: string, data: map<string, seq<Value>>, keys: seq<string>, i: nat)
    requires i < |keys|
    ensures Exports(files, dir, data, keys[..i + 1]) ==
      var prev := Exports(files, dir, data, keys[..i]);
      if prev.error.Some? then prev
      else match ExportStep(prev.files, dir, data, keys[i])
        case Failure(e) => Run(prev.counts, prev.files, Some(e))
        case Success(o) => Run(prev.counts[keys[i] := o.added], Apply(prev.files, ExportPath(dir, keys[i]), o), None)
  {
    assert keys[..i + 1][..i] == keys[..i];
  }

  /** Once a run has failed, the later categories change nothing. */
  lemma {:induction false} ExportsKeepError(files: map<string, File>, dir: string, data: map<string, seq<Value>>, keys: seq<string>, n: nat)
    requires n <= |keys| && Exports(files, dir, data, keys[..n]).error.Some?
    ensures Exports(files, dir, data, keys) == Exports(files, dir, data, keys[..n])
  {
    if n < |keys| {
      var front := keys[..|keys| - 1];
      assert front[..n] == keys[..n];
      ExportsKeepError(files, dir, data, front, n);
    } else {
      assert keys[..n] == keys;
    }
  }

  /** The body of the export loop for one category. */
  method ExportCategory(disk: Disk, cache: Cache?, dir: string, data: map<string, seq<Value>>, key: string)
    returns (r: Result<nat, string>)
    requires PlainName(key)
    requires disk.Valid() && CacheCoherent(disk, cache)
    modifies disk, cache
    ensures disk.Valid() && CacheCoherent(disk, cache)
    ensures Performed(ExportStep(old(disk.files), dir, data, key), old(disk.files), disk.files, ExportPath(dir, key), r)
  {
    var path := ExportPath(dir, key);
    ExportPathSplit(dir, key);
    var words := Vocabulary.DedupePreserveOrder(Get(data, key));
    if words == [] {
      var txt := TxtPath(path);
      if path !in disk.files && txt in disk.files {
        r := AppendMissingWords(disk, cache, path, AsInputs(words));
      } else {
        r := Success(0);
      }
      return;
    }
    r := AppendMissingWords(disk, cache, path, AsInputs(words));
  }

  lemma SavedFilesStep(dir: string, keys: seq<string>, i: nat)
    requires i < |keys|
    ensures SavedFiles(dir, keys[..i + 1]) == SavedFiles(dir, keys[..i])[keys[i] := ExportPath(dir, keys[i])]
  {
    assert keys[..i + 1] == keys[..i] + [keys[i]];
  }

  /** The run after category `i`: one more step on success, the whole run's error on failure. */
  lemma ExportsAfter(files0: map<string, File>, dir: string, data: map<string, seq<Value>>, keys: seq<string>, i: nat,
                     counts: map<string, nat>, files: map<string, File>, files': map<string, File>, res: Result<nat, string>)
    requires i < |keys| && Exports(files0, dir, data, keys[..i]) == Run(counts, files, None)
    requires Performed(ExportStep(files, dir, data, keys[i]), files, files', ExportPath(dir, keys[i]), res)
    ensures res.Success? ==> Exports(files0, dir, data, keys[..i + 1]) == Run(counts[keys[i] := res.value], files', None)
    ensures res.Failure? ==> files' == files && Exports(files0, dir, data, keys) == Run(counts, files, Some(res.error))
  {
    ExportsStep(files0, dir, data, keys, i);
    if res.Failure? {
      ExportsKeepError(files0, dir, data, keys, i + 1);
    }
  }

  /** The export loop over the given categories, in order. */
  method ExportKeys(disk: Disk, cache: Cache?, dir: string, data: map<string, seq<Value>>, keys: seq<string>)
    returns (r: Result<(map<string, string>, map<string, nat>), string>)
    requires forall k :: k in keys ==> PlainName(k)
    requires disk.Valid() && CacheCoherent(disk, cache)
    modifies disk, cache
    ensures disk.Valid() && CacheCoherent(disk, cache)
    ensures var run := Exports(old(disk.files), dir, data, keys);
      disk.files == run.files
      && (run.error.None? ==> r == Success((SavedFiles(dir, keys), run.counts)))
      && (run.error.Some? ==> r == Failure(run.error.value))
  {
    var saved: map<string, string> := map[];
    var counts: map<string, nat> := map[];
    ghost var files0 := disk.files;
    for i := 0 to |keys|
      invariant disk.Valid() && CacheCoherent(disk, cache)
      invariant Exports(files0, dir, data, keys[..i]) == Run(counts, disk.files, None)
      invariant saved == SavedFiles(dir, keys[..i])
    {
      var key := keys[i];
      assert key in keys;
      saved := saved[key := ExportPath(dir, key)];
      SavedFilesStep(dir, keys, i);
      ghost var files := disk.files;
      var res := ExportCategory(disk, cache, dir, data, key);
      ExportsAfter(files0, dir, data, keys, i, counts, files, disk.files, res);
      if res.Failure? {
        return Failure(res.error);
      }
      counts := counts[key := res.value];
    }
    assert keys[..|keys|] == keys;
    r := Success((saved, counts));
  }

  /**
   * `write_vocabulary_exports`: the files, counts and saved paths are those of
   * `Exports` over the sixteen categories in order; the cache stays coherent.
   */
  method WriteVocabularyExports(disk: Disk, cache: Cache?, dir: string, data: map<string, seq<Value>>)
    returns (r: Result<(map<string, string>, map<string, nat>), string>)
    requires disk.Valid() && CacheCoherent(disk, cache)
    modifies disk, cache
    ensures disk.Valid() && CacheCoherent(disk, cache)
    ensures var run := Exports(old(disk.files), dir, data, Vocabulary.LexicalCategories);
      disk.files == run.files
      && (run.error.None? ==> r == Success((SavedFiles(dir, Vocabulary.LexicalCategories), run.counts)))
      && (run.error.Some? ==> r == Failure(run.error.value))
  {
    CategoriesPlain();
    r := ExportKeys(disk, cache, dir, data, Vocabulary.LexicalCategories);
  }

  // ---------------------------------------------------------------------------
  // What an export run guarantees
  // ---------------------------------------------------------------------------

  /** Nothing left to do for a category: its step adds nothing and writes nothing. */
  predicate Quiet(files: map<string, File>, dir: string, data: map<string, seq<Value>>, key: string) {
    ExportStep(files, dir, data, key) == Success(Outcome(0, None))
  }

  /** Two file maps agree at one path. */
  predicate SameAt(f1: map<string, File>, f2: map<string, File>, p: string) {
    (p in f1 <==> p in f2) && (p in f1 ==> f1[p] == f2[p])
  }

  lemma LoadExistingLocal(f1: map<string, File>, f2: map<string, File>, path: string)
    requires SameAt(f1, f2, path) && SameAt(f1, f2, TxtPath(path))
    ensures LoadExisting(f1, path) == LoadExisting(f2, path)
    ensures ReadTxt(f1, path) == ReadTxt(f2, path) && TextAt(f1, path) == TextAt(f2, path)
  {
    assert ReadOds(f1, path) == ReadOds(f2, path);
    assert ReadTxt(f1, TxtPath(path)) == ReadTxt(f2, TxtPath(path));
  }

  /** An append looks only at its path and the text list that path may migrate from. */
  lemma AppendLocal(f1: map<string, File>, f2: map<string, File>, path: string, words: seq<Option<string>>)
    requires SameAt(f1, f2, path) && SameAt(f1, f2, TxtPath(path))
    ensures AppendSpec(f1, path, words) == AppendSpec(f2, path, words)
  {
    LoadExistingLocal(f1, f2, path);
  }

  /** A category's step looks only at its spreadsheet and the text list it may migrate from. */
  lemma StepLocal(f1: map<string, File>, f2: map<string, File>, dir: string, data: map<string, seq<Value>>, key: string)
    requires PlainName(key)
    requires SameAt(f1, f2, ExportPath(dir, key)) && SameAt(f1, f2, TxtPath(ExportPath(dir, key)))
    ensures ExportStep(f1, dir, data, key) == ExportStep(f2, dir, data, key)
  {
    AppendLocal(f1, f2, ExportPath(dir, key), AsInputs(Vocabulary.Deduped(Get(data, key))));
  }

  /** After its step, a category is quiet. */
  lemma StepQuiet(files: map<string, File>, dir: string, data: map<string, seq<Value>>, key: string)
    requires PlainName(key) && ExportStep(files, dir, data, key).Success?
    ensures Quiet(Apply(files, ExportPath(dir, key), ExportStep(files, dir, data, key).value), dir, data, key)
  {
    var path := ExportPath(dir, key);
    ExportPathSplit(dir, key);
    var words := Vocabulary.Deduped(Get(data, key));
    var o := ExportStep(files, dir, data, key).value;
    if words != [] || (path !in files && TxtPath(path) in files) {
      AppendTwice(files, path, AsInputs(words));
      AppendReadsBack(files, path, AsInputs(words));
      if o.written.Some? {
        assert path in Apply(files, path, o);
      }
    }
  }

  /** A non-empty list is its front followed by its last element. */
  lemma SplitLast(keys: seq<string>)
    requires keys != []
    ensures keys == keys[..|keys| - 1] + [keys[|keys| - 1]]
    ensures forall k :: k in keys[..|keys| - 1] ==> k in keys
  {
  }

  lemma DistinctFront(keys: seq<string>)
    requires keys != [] && Vocabulary.Distinct(keys)
    ensures Vocabulary.Distinct(keys[..|keys| - 1])
    ensures keys[|keys| - 1] !in keys[..|keys| - 1]
  {
  }

  /** The last step of a successful run succeeded, after a successful run of the others. */
  lemma ExportsLast(files: map<string, File>, dir: string, data: map<string, seq<Value>>, keys: seq<string>)
    requires keys != [] && Exports(files, dir, data, keys).error.None?
    ensures var prev := Exports(files, dir, data, keys[..|keys| - 1]);
      var key := keys[|keys| - 1];
      prev.error.None? && ExportStep(prev.files, dir, data, key).Success?
      && Exports(files, dir, data, keys).files
         == Apply(prev.files, ExportPath(dir, key), ExportStep(prev.files, dir, data, key).value)
  {
  }

  /** A step for one category leaves another quiet category quiet. */
  lemma OtherStaysQuiet(files: map<string, File>, o: Outcome, dir: string, data: map<string, seq<Value>>, key: string, k: string)
    requires PlainName(key) && PlainName(k) && k != key
    requires Quiet(files, dir, data, k)
    ensures Quiet(Apply(files, ExportPath(dir, key), o), dir, data, k)
  {
    ExportPathsApart(dir, key, k);
    StepLocal(files, Apply(files, ExportPath(dir, key), o), dir, data, k);
  }

  /** After a successful run, every category of the run is quiet. */
  lemma {:induction false} ExportsQuiet(files: map<string, File>, dir: string, data: map<string, seq<Value>>, keys: seq<string>)
    requires forall k :: k in keys ==> PlainName(k)
    requires Vocabulary.Distinct(keys)
    requires Exports(files, dir, data, keys).error.None?
    ensures forall k :: k in keys ==> Quiet(Exports(files, dir, data, keys).files, dir, data, k)
  {
    if keys != [] {
      var front, key := keys[..|keys| - 1], keys[|keys| - 1];
      DistinctFront(keys);
      assert forall k :: k in front ==> k in keys;
      ExportsLast(files, dir, data, keys);
      var prev := Exports(files, dir, data, front);
      ExportsQuiet(files, dir, data, front);
      var o := ExportStep(prev.files, dir, data, key).value;
      StepQuiet(prev.files, dir, data, key);
      forall k | k in keys
        ensures Quiet(Apply(prev.files, ExportPath(dir, key), o), dir, data, k)
      {
        if k != key {
          OtherStaysQuiet(prev.files, o, dir, data, key, k);
        }
      }
    }
  }

  /** Zero for every category. */
  function Zeros(keys: seq<string>): map<string, nat> {
    map k | k in keys :: 0
  }

  lemma ZerosSnoc(keys: seq<string>)
    requires keys != []
    ensures Zeros(keys[..|keys| - 1])[keys[|keys| - 1] := 0] == Zeros(keys)
  {
    Snoc(keys);
  }

  /** A run over quiet categories adds nothing and changes no file. */
  lemma {:induction false} QuietExports(files: map<string, File>, dir: string, data: map<string, seq<Value>>, keys: seq<string>)
    requires forall k :: k in keys ==> Quiet(files, dir, data, k)
    ensures Exports(files, dir, data, keys) == Run(Zeros(keys), files, None)
  {
    if keys != [] {
      var front, key := keys[..|keys| - 1], keys[|keys| - 1];
      assert forall k :: k in front ==> k in keys;
      QuietExports(files, dir, data, front);
      assert Quiet(files, dir, data, key);
      assert Apply(files, ExportPath(dir, key), Outcome(0, None)) == files;
      ZerosSnoc(keys);
    }
  }

  /**
   * Exporting the same data again right after a successful export adds nothing to any
   * category and changes no file.
   */
  lemma ExportsTwice(files: map<string, File>, dir: string, data: map<string, seq<Value>>)
    requires Exports(files, dir, data, Vocabulary.LexicalCategories).error.None?
    ensures var run := Exports(files, dir, data, Vocabulary.LexicalCategories);
      Exports(run.files, dir, data, Vocabulary.LexicalCategories) == Run(Zeros(Vocabulary.LexicalCategories), run.files, None)
  {
    CategoriesPlain();
    Vocabulary.LexicalCategoriesDistinct();
    ExportsQuiet(files, dir, data, Vocabulary.LexicalCategories);
    QuietExports(Exports(files, dir, data, Vocabulary.LexicalCategories).files, dir, data, Vocabulary.LexicalCategories);
  }

  /** The spreadsheet at the path reads, and holds the word. */
  predicate Holds(files: map<string, File>, path: string, w: string) {
    ReadOds(files, path).Success? && w in ReadOds(files, path).value
  }

  /** Appending clean words to a spreadsheet leaves every one of them in it. */
  lemma AppendedHolds(files: map<string, File>, path: string, words: seq<string>)
    requires IsOdsPath(path) && AppendSpec(files, path, AsInputs(words)).Success?
    requires Clean(words)
    ensures forall w :: w in words ==> Holds(Apply(files, path, AppendSpec(files, path, AsInputs(words)).value), path, w)
  {
    var inputs := AsInputs(words);
    var files' := Apply(files, path, AppendSpec(files, path, inputs).value);
    AppendReadsBack(files, path, inputs);
    var existing := ExistingFor(files, path).value;
    assert ReadOds(files', path) == Success(existing + NewWords(existing, inputs));
    ExistingClean(files, path);
    NewWordsHas(existing, words);
  }

  /** The words already stored for a spreadsheet path, wherever they are read from, are clean. */
  lemma ExistingClean(files: map<string, File>, path: string)
    requires IsOdsPath(path)
    ensures ExistingFor(files, path).Success? ==> Clean(ExistingFor(files, path).value)
  {
    ReadersClean(files, path);
    ReadersClean(files, TxtPath(path));
  }

  /** A clean word is either already in the list or among the new words appended after it. */
  lemma NewWordsHas(existing: seq<string>, words: seq<string>)
    requires Clean(existing) && Clean(words)
    ensures forall w :: w in words ==> w in existing + NewWords(existing, AsInputs(words))
  {
    var inputs := AsInputs(words);
    ExistingSetOfClean(existing);
    NewWordsMembers(existing, inputs);
    forall w | w in words
      ensures w in existing + NewWords(existing, inputs)
    {
      var i :| 0 <= i < |words| && words[i] == w;
      StrippedIsFixpoint(w);
      assert inputs[i] == Some(w);
    }
  }

  /** After its step, a category's spreadsheet holds every word given for it. */
  lemma StepContains(files: map<string, File>, dir: string, data: map<string, seq<Value>>, key: string)
    requires PlainName(key) && ExportStep(files, dir, data, key).Success?
    ensures var files' := Apply(files, ExportPath(dir, key), ExportStep(files, dir, data, key).value);
      forall w :: w in Vocabulary.Deduped(Get(data, key)) ==> Holds(files', ExportPath(dir, key), w)
  {
    ExportPathSplit(dir, key);
    var words := Vocabulary.Deduped(Get(data, key));
    if words != [] {
      Vocabulary.DedupedFacts(Get(data, key));
      AppendedHolds(files, ExportPath(dir, key), words);
    }
  }

  /** After a successful run, every category's spreadsheet holds every word given for it. */
  lemma {:induction false} ExportsContain(files: map<string, File>, dir: string, data: map<string, seq<Value>>, keys: seq<string>)
    requires forall k :: k in keys ==> PlainName(k)
    requires Vocabulary.Distinct(keys)
    requires Exports(files, dir, data, keys).error.None?
    ensures forall k, w :: k in keys && w in Vocabulary.Deduped(Get(data, k)) ==>
      Holds(Exports(files, dir, data, keys).files, ExportPath(dir, k), w)
  {
    if keys != [] {
      var front, key := keys[..|keys| - 1], keys[|keys| - 1];
      SplitLast(keys);
      DistinctFront(keys);
      ExportsLast(files, dir, data, keys);
      var prev := Exports(files, dir, data, front);
      ExportsContain(files, dir, data, front);
      StepContains(prev.files, dir, data, key);
      ContainStep(prev.files, dir, data, front, key, ExportStep(prev.files, dir, data, key).value);
    }
  }

  /** Writing one more category's spreadsheet keeps the words of the others where they were. */
  lemma ContainStep(files: map<string, File>, dir: string, data: map<string, seq<Value>>, front: seq<string>,
                    key: string, o: Outcome)
    requires forall k :: k in front ==> PlainName(k)
    requires PlainName(key) && key !in front
    requires forall k, w :: k in front && w in Vocabulary.Deduped(Get(data, k)) ==> Holds(files, ExportPath(dir, k), w)
    requires forall w :: w in Vocabulary.Deduped(Get(data, key)) ==> Holds(Apply(files, ExportPath(dir, key), o), ExportPath(dir, key), w)
    ensures forall k, w :: k in front + [key] && w in Vocabulary.Deduped(Get(data, k)) ==>
      Holds(Apply(files, ExportPath(dir, key), o), ExportPath(dir, k), w)
  {
    var files' := Apply(files, ExportPath(dir, key), o);
    forall k, w | k in front + [key] && w in Vocabulary.Deduped(Get(data, k))
      ensures Holds(files', ExportPath(dir, k), w)
    {
      if k != key {
        ExportPathsApart(dir, key, k);
        assert SameAt(files, files', ExportPath(dir, k));
      }
    }
  }

  /** `write_vocabulary_exports` leaves every category's spreadsheet holding every word given for it. */
  lemma ExportsHoldAllWords(files: map<string, File>, dir: string, data: map<string, seq<Value>>)
    requires Exports(files, dir, data, Vocabulary.LexicalCategories).error.None?
    ensures forall k, w :: k in Vocabulary.LexicalCategories && w in Vocabulary.Deduped(Get(data, k)) ==>
      Holds(Exports(files, dir, data, Vocabulary.LexicalCategories).files, ExportPath(dir, k), w)
  {
    CategoriesPlain();
    Vocabulary.LexicalCategoriesDistinct();
    ExportsContain(files, dir, data, Vocabulary.LexicalCategories);
  }
}

/**
 * The in-memory cache of word lists read from files, keyed by path and validated by
 * the file's stat signature (modification time and size, or nothing for a missing
 * file). The filesystem's signatures and the loader are parameters of each call.
 */
module VocabularyCache {
  import opened Wrappers

  /** What `os.stat` reports that the cache compares: modification time and size. */
  datatype Signature = Signature(mtime: int, size: nat)

  /** `CacheEntry`: the signature the words were read under, and the words. */
  datatype CacheEntry = CacheEntry(signature: Option<Signature>, words: seq<string>)

  /** `_stat_signature`: the file's signature, or None when the file does not exist. */
  function StatSignature(files: map<string, Signature>, path: string): (s: Option<Signature>)
    ensures s.None? <==> path !in files
    ensures s.Some? ==> s.value == files[path]
  {
    if path in files then Some(files[path]) else None
  }

  class Cache {
    /** `_entries`. */
    var entries: map<string, CacheEntry>
    /** The paths the loader has been called on, in call order. */
    ghost var loads: seq<string>

    constructor()
      ensures entries == map[] && loads == []
    {
      entries := map[];
      loads := [];
    }

    /** Whether a lookup of `path` is answered from the cache when the file's signature is `signature`. */
    predicate Hit(path: string, signature: Option<Signature>)
      reads this
    {
      path in entries && entries[path].signature == signature
    }

    /**
     * `get_words`: the cached words when the stored signature equals the file's
     * current one; otherwise the loader's result, stored under the current signature.
     * The loader runs at most once, and only on a miss; when it raises (a `Failure`)
     * nothing is stored. Other paths' entries stay.
     */
    method GetWords(files: map<string, Signature>, path: string, loader: string -> Result<seq<string>, string>)
      returns (r: Result<seq<string>, string>)
      modifies this
      ensures var signature := StatSignature(files, path);
        if old(Hit(path, signature)) then
          r == Success(old(entries[path].words)) && entries == old(entries) && loads == old(loads)
        else
          r == loader(path) && loads == old(loads) + [path]
          && entries == if r.Success? then old(entries)[path := CacheEntry(signature, r.value)] else old(entries)
      ensures r.Success? ==> Hit(path, StatSignature(files, path)) && entries[path].words == r.value
    {
      var signature := StatSignature(files, path);
      if path in entries && entries[path].signature == signature {
        return Success(entries[path].words);
      }
      r := loader(path);
      loads := loads + [path];
      if r.Success? {
        entries := entries[path := CacheEntry(signature, r.value)];
      }
    }

    /**
     * `update_words`: store the given words under the file's current signature,
     * without calling any loader; other paths' entries stay.
     */
    method UpdateWords(files: map<string, Signature>, path: string, words: seq<string>)
      modifies this
      ensures entries == old(entries)[path := CacheEntry(StatSignature(files, path), words)]
      ensures loads == old(loads)
      ensures Hit(path, StatSignature(files, path))
    {
      var signature := StatSignature(files, path);
      entries := entries[path := CacheEntry(signature, words)];
    }
  }

  /**
   * A file that is still missing keeps hitting: an entry stored while the file was
   * missing has signature None, which equals the signature of the missing file.
   */
  lemma MissingFileHits(files: map<string, Signature>, files': map<string, Signature>, path: string, e: CacheEntry)
    requires e.signature == StatSignature(files, path)
    requires path !in files && path !in files'
    ensures e.signature == StatSignature(files', path)
  {
  }

  /** Once the file changes signature, the stored entry no longer hits. */
  lemma ChangedFileMisses(files: map<string, Signature>, files': map<string, Signature>, path: string, e: CacheEntry)
    requires e.signature == StatSignature(files, path)
    requires (path in files) != (path in files') || (path in files && path in files' && files[path] != files'[path])
    ensures e.signature != StatSignature(files', path)
  {
  }
}

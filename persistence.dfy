/** The processed-submissions file (bot.py:50-51, 76-90): what loading it
    yields and the size-bounded save rule. The pickle format itself is
    abstract: a file holds either a pickled set of keys or bytes that do not
    unpickle, together with its size in bytes. */
module Persistence {
  import opened Wrappers

  /** `RedditMonitor.max_file_size`: 5 MiB. */
  const MAX_FILE_SIZE: nat := 5 * 1024 * 1024

  datatype Payload = Pickle(keys: set<string>) | Corrupt

  datatype FileState = Missing | Present(payload: Payload, size: nat)

  /** The test of bot.py:84: the file exists and is strictly larger than the
      limit. */
  predicate Oversized(f: FileState) {
    f.Present? && f.size > MAX_FILE_SIZE
  }

  /** `load_processed_submissions`: a missing file yields the empty set; only
      `FileNotFoundError` is caught, so a file that does not unpickle makes
      loading fail (`None`). */
  function Load(f: FileState): (r: Option<set<string>>)
    ensures r.None? <==> f.Present? && f.payload.Corrupt?
    ensures f.Missing? ==> r == Some({})
    ensures f.Present? && f.payload.Pickle? ==> r == Some(f.payload.keys)
  {
    match f
    case Missing => Some({})
    case Present(Pickle(keys), _) => Some(keys)
    case Present(Corrupt, _) => None
  }

  /** The file after `pickle.dump(keys, file)`; `sizeOf` gives the byte size
      of the pickled set. */
  function Written(keys: set<string>, sizeOf: set<string> -> nat): (f: FileState)
    ensures Load(f) == Some(keys)
    ensures Oversized(f) <==> sizeOf(keys) > MAX_FILE_SIZE
  {
    Present(Pickle(keys), sizeOf(keys))
  }

  /** `save_processed_submissions` on the in-memory set `processed` and the
      previous file `f`: the new in-memory set and the new file. When the
      previous file is over the limit the set is reset to empty (a full
      reset, not pruning); either way the file then holds exactly the
      in-memory set. */
  function SaveProcessed(processed: set<string>, f: FileState, sizeOf: set<string> -> nat): (r: (set<string>, FileState))
    ensures Load(r.1) == Some(r.0)
    ensures Oversized(f) ==> r.0 == {}
    ensures !Oversized(f) ==> r.0 == processed
    ensures r.1.Present? && r.1.size == sizeOf(r.0)
  {
    var kept := if Oversized(f) then {} else processed;
    (kept, Written(kept, sizeOf))
  }

  /** Saving again right after a save that left a file within the limit
      changes nothing. */
  lemma ResaveIsStable(processed: set<string>, f: FileState, sizeOf: set<string> -> nat)
    requires sizeOf(SaveProcessed(processed, f, sizeOf).0) <= MAX_FILE_SIZE
    ensures var r := SaveProcessed(processed, f, sizeOf); SaveProcessed(r.0, r.1, sizeOf) == r
  {
  }
}

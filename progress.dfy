/**
 * Reading progress kept per file name (`saveProgress`,
 * `getSavedProgress`): the stored key `novel-reader-progress-<file>` is a
 * map entry keyed by the file name, and `novel-reader-last-file` the last
 * file saved.
 */
module Progress {
  import opened Wrappers

  /** What is kept for a file: chapter, page and word cursor. */
  datatype Record = Record(chapter: nat, page: nat, wordIndex: int)

  datatype Store = Store(records: map<string, Record>, lastFile: Option<string>)

  /** `getSavedProgress(file)`. */
  function Load(st: Store, file: string): (r: Option<Record>)
    ensures r.Some? <==> file in st.records
  {
    if file in st.records then Some(st.records[file]) else None
  }

  /** `saveProgress()` for `file`. */
  function Save(st: Store, file: string, r: Record): (st': Store)
    ensures Load(st', file) == Some(r)
    ensures forall f :: f != file ==> Load(st', f) == Load(st, f)
    ensures st'.lastFile == Some(file)
  {
    Store(st.records[file := r], Some(file))
  }

  /** Saving again what was just saved changes nothing. */
  lemma SaveIdempotent(st: Store, file: string, r: Record)
    ensures Save(Save(st, file, r), file, r) == Save(st, file, r)
  {
  }

  /** A later save for the same file replaces an earlier one. */
  lemma SaveOverwrites(st: Store, file: string, r1: Record, r2: Record)
    ensures Save(Save(st, file, r1), file, r2) == Save(st, file, r2)
  {
  }

  /** Saves for different files do not interfere: they commute apart from
      which file was saved last. */
  lemma SavesCommute(st: Store, f: string, g: string, r: Record, q: Record)
    requires f != g
    ensures Save(Save(st, f, r), g, q).records == Save(Save(st, g, q), f, r).records
  {
  }
}

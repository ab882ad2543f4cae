/**
 The parts of a Windows machine the two programs touch, as plain values:
 directories, files as a map from path to bytes, and the user's PATH value
 in the registry. Only the two file operations the installer commits with
 are modelled, with Windows' rule that a rename onto an existing file fails.
 */
module Machine {
  import opened Wrappers

  newtype byte = x: int | 0 <= x < 256

  type Files = map<string, seq<byte>>

  /** `userPath` is the registry's `Environment\Path` value; `None` when it does not exist. */
  datatype Host = Host(dirs: set<string>, files: Files, userPath: Option<string>)

  /** `p` holds the same file, or no file, in both maps. */
  predicate SameAt(a: Files, b: Files, p: string) {
    (p in a <==> p in b) && (p in a ==> a[p] == b[p])
  }

  /** `os.remove`. */
  function Remove(files: Files, p: string): (r: Files)
    ensures p !in r
    ensures forall q :: q != p ==> SameAt(r, files, q)
  {
    files - {p}
  }

  /** `os.rename` on Windows: fails when the source is missing or the target exists. */
  function Rename(files: Files, from: string, to: string): (r: Option<Files>)
    ensures r.Some? <==> from in files && to !in files
    ensures r.Some? ==> to in r.value && r.value[to] == files[from]
    ensures r.Some? && from != to ==> from !in r.value
    ensures r.Some? ==> forall q :: q != from && q != to ==> SameAt(r.value, files, q)
  {
    if from in files && to !in files then Some((files - {from})[to := files[from]]) else None
  }
}

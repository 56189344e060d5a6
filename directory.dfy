/**
 * The journal directory, abstracted from the file system: a map from entry
 * names to what reading the entry yields, and the listing `os.listdir`
 * returns, an arbitrary order of its distinct names.
 */
module Directory {

  /** An entry as `open(path, 'r', encoding='utf-8').read()` sees it. */
  datatype Entry =
    | File(content: string)
    /** The read raises (undecodable bytes, no permission, a sub-directory, ...). */
    | Unreadable

  type Files = map<string, Entry>

  predicate Distinct(names: seq<string>)
  {
    forall i, j :: 0 <= i < j < |names| ==> names[i] != names[j]
  }

  /** `listing` is one possible result of `os.listdir` on `files`. */
  predicate IsListing(listing: seq<string>, files: Files)
  {
    Distinct(listing) && (forall n :: n in files ==> n in listing) && (forall n :: n in listing ==> n in files)
  }
}

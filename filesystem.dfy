/**
 * An in-memory picture of what the processors read from the disk and from
 * zip archives: directory listings, entry metadata, file contents and archive
 * members. Each `Option` field is the outcome of one I/O call that can fail.
 */
module FileSystem {
  import opened Wrappers

  /**
   * One member of a zip archive, in archive-index order: its raw `name()`,
   * its `sanitized_name()` (which the zip library computes) and the outcome
   * of reading it as UTF-8 text.
   */
  datatype Member = Member(name: string, sanitizedName: string, contents: Option<string>)

  /**
   * A regular file: the outcome of opening it and reading it whole as text,
   * and the members of the zip archive it opens as. Opening a `.zip`-named
   * file that is not an archive panics in both processors, so the model gives
   * every file the archive view it would open to.
   */
  datatype File = File(contents: Option<string>, members: seq<Member>)

  /** A directory as `read_dir` sees it: a listing of entries, or a listing that fails. */
  datatype Dir = Listing(entries: seq<Entry>) | Unlistable

  /** An item of the listing iterator: an entry with its file name, or an item that is itself an error. */
  datatype Entry = Entry(name: string, meta: Metadata) | Unreadable

  /** The outcome of `entry.metadata()`, and the kind of object it reports. */
  datatype Metadata = MetaError | IsDir(dir: Dir) | IsFile(file: File) | IsOther
}

/**
 * The earlier processor: scans the regular files of one directory (no
 * recursion) and appends a (name, word count) record per text file and per
 * `.txt` member of each zip archive.
 */
module LegacyProcessor {
  import opened Wrappers
  import opened Words
  import opened Format
  import opened FileSystem

  datatype FileType = Text | Zip | Unknown

  /** How a file name is handled: a case-sensitive suffix test, "txt" before "zip", no dot required. */
  function FileTypeOf(name: string): (r: FileType)
    ensures r == Text <==> EndsWith(name, "txt")
    ensures r == Zip <==> EndsWith(name, "zip")
    ensures r == Unknown <==> !EndsWith(name, "txt") && !EndsWith(name, "zip")
  {
    SuffixesExclusive(name);
    if EndsWith(name, "txt") then Text
    else if EndsWith(name, "zip") then Zip
    else Unknown
  }

  /** One record: a document's name and its word count. */
  type Stat = (string, nat)

  /** The name an archive member is recorded under: `<archive>[<member>]`. */
  function ZipLabel(archive: string, member: string): string {
    archive + "[" + member + "]"
  }

  /** When archive names hold no '[', a label names exactly one archive and one member. */
  lemma ZipLabelInjective(a1: string, m1: string, a2: string, m2: string)
    requires '[' !in a1 && '[' !in a2
    requires ZipLabel(a1, m1) == ZipLabel(a2, m2)
    ensures a1 == a2 && m1 == m2
  {
    var l := ZipLabel(a1, m1);
    FirstBracket(a1, m1);
    FirstBracket(a2, m2);
    assert |a1| == |a2|;
    assert a1 == l[..|a1|] == a2;
    assert m1 == l[|a1| + 1..|l| - 1] == m2;
  }

  /** In a label of an archive name without '[', the first '[' stands right after the archive name. */
  lemma FirstBracket(archive: string, member: string)
    requires '[' !in archive
    ensures var l := ZipLabel(archive, member); l[|archive|] == '[' && forall j :: 0 <= j < |archive| ==> l[j] != '['
  {
    var l := ZipLabel(archive, member);
    forall j | 0 <= j < |archive| ensures l[j] != '[' {
      assert l[j] == archive[j];
    }
  }

  /** The members whose names end in ".txt", in archive-index order. */
  function TxtMembers(members: seq<Member>): (r: seq<Member>)
    ensures forall j :: 0 <= j < |r| ==> EndsWith(r[j].name, ".txt")
  {
    if members == [] then []
    else
      var m := members[|members| - 1];
      TxtMembers(members[..|members| - 1]) + (if EndsWith(m.name, ".txt") then [m] else [])
  }

  /** Every `.txt` member can be read: the source asserts that each read succeeds. */
  predicate TxtMembersReadable(members: seq<Member>) {
    forall j :: 0 <= j < |members| && EndsWith(members[j].name, ".txt") ==> members[j].contents.Some?
  }

  /** The records an archive adds, in archive-index order. */
  function ArchiveStats(archive: string, members: seq<Member>): seq<Stat>
    requires TxtMembersReadable(members)
  {
    if members == [] then []
    else
      var m := members[|members| - 1];
      ArchiveStats(archive, members[..|members| - 1])
        + (if EndsWith(m.name, ".txt") then [(ZipLabel(archive, m.sanitizedName), WordCount(m.contents.value))] else [])
  }

  /** What the source demands of a file it processes: text files open and read, `.txt` members read. */
  predicate FileReadable(name: string, file: File) {
    match FileTypeOf(name)
    case Text => file.contents.Some?
    case Zip => TxtMembersReadable(file.members)
    case Unknown => true
  }

  /** The records one regular file adds. */
  function FileStats(name: string, file: File): seq<Stat>
    requires FileReadable(name, file)
  {
    match FileTypeOf(name)
    case Text => [(name, WordCount(file.contents.value))]
    case Zip => ArchiveStats(name, file.members)
    case Unknown => []
  }

  /** What scanning a directory yields: the records it adds, in order, and the boolean it returns. */
  datatype Scan = Scan(stats: seq<Stat>, completed: bool)

  /** Whether entry `i` of the listing is one whose metadata cannot be read. */
  predicate IsMetaErrorAt(dir: Dir, i: nat) {
    dir.Listing? && i < |dir.entries| && dir.entries[i].Entry? && dir.entries[i].meta.MetaError?
  }

  /** Every regular file the scan from index `i` reaches satisfies `FileReadable`. */
  predicate ReadableFrom(dir: Dir, i: nat)
    decreases if dir.Listing? && i < |dir.entries| then |dir.entries| - i else 0
  {
    dir.Unlistable? || i >= |dir.entries| ||
      match dir.entries[i]
      case Unreadable => ReadableFrom(dir, i + 1)
      case Entry(name, meta) =>
        match meta
        case MetaError => true
        case IsFile(file) => FileReadable(name, file) && ReadableFrom(dir, i + 1)
        case _ => ReadableFrom(dir, i + 1)
  }

  /** Scanning the entries of `dir` from index `i` on. Directories are not entered. */
  function ScanFrom(dir: Dir, i: nat): Scan
    requires ReadableFrom(dir, i)
    decreases if dir.Listing? && i < |dir.entries| then |dir.entries| - i else 0
  {
    if dir.Unlistable? || i >= |dir.entries| then Scan([], true)
    else
      match dir.entries[i]
      case Unreadable => ScanFrom(dir, i + 1)
      case Entry(name, meta) =>
        match meta
        case MetaError => Scan([], false)
        case IsFile(file) => var rest := ScanFrom(dir, i + 1); Scan(FileStats(name, file) + rest.stats, rest.completed)
        case _ => ScanFrom(dir, i + 1)
  }

  function ScanDir(dir: Dir): Scan
    requires ReadableFrom(dir, 0)
  {
    ScanFrom(dir, 0)
  }

  /** A text file is recorded once, under its own file name, with its word count. */
  lemma TextFileRecord(name: string, text: string, members: seq<Member>)
    requires EndsWith(name, "txt")
    ensures FileReadable(name, File(Some(text), members))
    ensures FileStats(name, File(Some(text), members)) == [(name, WordCount(text))]
  {
  }

  /** A file whose name ends in neither "txt" nor "zip" is not recorded. */
  lemma UnknownFileIgnored(name: string, file: File)
    requires !EndsWith(name, "txt") && !EndsWith(name, "zip")
    ensures FileReadable(name, file) && FileStats(name, file) == []
  {
  }

  /** The scan returns `true` exactly when no entry it reaches has unreadable metadata. */
  lemma {:induction false} CompletedIff(dir: Dir, i: nat)
    requires dir.Listing? && ReadableFrom(dir, i)
    ensures ScanFrom(dir, i).completed <==> forall j :: i <= j < |dir.entries| ==> !IsMetaErrorAt(dir, j)
    decreases |dir.entries| - i
  {
    if i < |dir.entries| && !IsMetaErrorAt(dir, i) {
      CompletedIff(dir, i + 1);
    }
  }

  /**
   * An archive adds one record per `.txt` member, in archive-index order,
   * labelled `<archive>[<member>]` with the member's sanitized name.
   */
  lemma {:induction false} ArchiveRecords(archive: string, members: seq<Member>)
    requires TxtMembersReadable(members)
    ensures |ArchiveStats(archive, members)| == |TxtMembers(members)|
    ensures forall j :: 0 <= j < |TxtMembers(members)| ==>
      TxtMembers(members)[j].contents.Some? &&
      ArchiveStats(archive, members)[j]
        == (ZipLabel(archive, TxtMembers(members)[j].sanitizedName), WordCount(TxtMembers(members)[j].contents.value))
  {
    if members != [] {
      var init := members[..|members| - 1];
      assert forall j :: 0 <= j < |init| ==> init[j] == members[j];
      ArchiveRecords(archive, init);
    }
  }

  /**
   * Scanning two runs of entries one after the other: the second run is
   * scanned only when the first one did not stop at an unreadable metadata.
   */
  lemma {:induction false} ScanConcat(a: seq<Entry>, b: seq<Entry>, i: nat)
    requires ReadableFrom(Listing(a + b), i)
    requires i <= |a|
    ensures ReadableFrom(Listing(a), i)
    ensures ScanFrom(Listing(a), i).completed ==> ReadableFrom(Listing(b), 0)
    ensures var whole, first := ScanFrom(Listing(a + b), i), ScanFrom(Listing(a), i);
      whole == if first.completed then Scan(first.stats + ScanFrom(Listing(b), 0).stats, ScanFrom(Listing(b), 0).completed)
               else first
    decreases |a| - i
  {
    var ab := a + b;
    if i == |a| {
      assert ab[|a|..] == b;
      SameSuffix(Listing(ab), |a|, Listing(b), 0);
    } else {
      assert ab[i] == a[i];
      match a[i]
      case Unreadable => ScanConcat(a, b, i + 1);
      case Entry(name, meta) =>
        match meta
        case MetaError =>
        case IsFile(file) => ScanConcat(a, b, i + 1);
        case IsDir(_) => ScanConcat(a, b, i + 1);
        case IsOther => ScanConcat(a, b, i + 1);
    }
  }

  /** Two listings whose entries agree from `i1` and `i2` on scan alike from there. */
  lemma {:induction false} SameSuffix(d1: Dir, i1: nat, d2: Dir, i2: nat)
    requires d1.Listing? && d2.Listing? && i1 <= |d1.entries| && i2 <= |d2.entries|
    requires d1.entries[i1..] == d2.entries[i2..]
    ensures ReadableFrom(d1, i1) <==> ReadableFrom(d2, i2)
    ensures ReadableFrom(d1, i1) ==> ScanFrom(d1, i1) == ScanFrom(d2, i2)
    decreases |d1.entries| - i1
  {
    if i1 < |d1.entries| {
      assert d1.entries[i1] == d1.entries[i1..][0] == d2.entries[i2];
      assert d1.entries[i1 + 1..] == d1.entries[i1..][1..];
      assert d2.entries[i2 + 1..] == d2.entries[i2..][1..];
      SameSuffix(d1, i1 + 1, d2, i2 + 1);
    }
  }

  /** Before the position of a subdirectory entry, the listing with it and the listing without it scan alike. */
  lemma {:induction false} WithoutSubdirectory(before: seq<Entry>, sub: Entry, after: seq<Entry>, i: nat)
    requires sub.Entry? && sub.meta.IsDir? && i <= |before|
    ensures var d1, d2 := Listing(before + [sub] + after), Listing(before + after);
      (ReadableFrom(d1, i) <==> ReadableFrom(d2, i)) && (ReadableFrom(d1, i) ==> ScanFrom(d1, i) == ScanFrom(d2, i))
    decreases |before| - i
  {
    var d1, d2 := Listing(before + [sub] + after), Listing(before + after);
    if i == |before| {
      assert d1.entries[i] == sub;
      assert d1.entries[i + 1..] == after == d2.entries[i..];
      SameSuffix(d1, i + 1, d2, i);
    } else {
      assert d1.entries[i] == before[i] == d2.entries[i];
      WithoutSubdirectory(before, sub, after, i + 1);
    }
  }

  /** A subdirectory adds nothing and does not stop the scan: the old processor never recurses. */
  lemma SubdirectoryIgnored(before: seq<Entry>, name: string, sub: Dir, after: seq<Entry>)
    requires ReadableFrom(Listing(before + after), 0)
    ensures ReadableFrom(Listing(before + [Entry(name, IsDir(sub))] + after), 0)
    ensures ScanDir(Listing(before + [Entry(name, IsDir(sub))] + after)) == ScanDir(Listing(before + after))
  {
    WithoutSubdirectory(before, Entry(name, IsDir(sub)), after, 0);
  }

  class Processor {
    /** The (document name, word count) records, in the order they were made. */
    var stats: seq<Stat>

    constructor ()
      ensures stats == []
    {
      stats := [];
    }

    /**
     * `process`: process the regular files of the listing in order and stop
     * with `false` at the first entry whose metadata cannot be read.
     */
    method Process(dir: Dir) returns (ok: bool)
      requires ReadableFrom(dir, 0)
      modifies this
      ensures stats == old(stats) + ScanDir(dir).stats
      ensures ok == ScanDir(dir).completed
    {
      if dir.Listing? {
        var entries := dir.entries;
        var i := 0;
        while i < |entries|
          invariant 0 <= i <= |entries|
          invariant ReadableFrom(dir, i)
          invariant old(stats) + ScanDir(dir).stats == stats + ScanFrom(dir, i).stats
          invariant ScanDir(dir).completed == ScanFrom(dir, i).completed
        {
          var entry := entries[i];
          if entry.Entry? {
            match entry.meta
            case MetaError =>
              return false;
            case IsFile(file) =>
              ProcessFile(entry.name, file);
            case _ =>
          }
          i := i + 1;
        }
      }
      ok := true;
    }

    /** `print_histogram`: one line `<name>: <count>` per record, in order. */
    method PrintHistogram() returns (lines: seq<string>)
      ensures |lines| == |stats|
      ensures forall j :: 0 <= j < |stats| ==> lines[j] == stats[j].0 + ": " + NatToString(stats[j].1)
    {
      lines := [];
      for i := 0 to |stats|
        invariant |lines| == i
        invariant forall j :: 0 <= j < i ==> lines[j] == stats[j].0 + ": " + NatToString(stats[j].1)
      {
        var (file, size) := stats[i];
        lines := lines + [file + ": " + NatToString(size)];
      }
    }

    /** `process_file`: dispatch on the file type and append the records the file yields. */
    method ProcessFile(name: string, file: File)
      requires FileReadable(name, file)
      modifies this
      ensures stats == old(stats) + FileStats(name, file)
    {
      match FileTypeOf(name)
      case Text =>
        var count := CountWordsInFile(file);
        AddStats(name, count);
      case Zip =>
        var members := file.members;
        for i := 0 to |members|
          invariant stats == old(stats) + ArchiveStats(name, members[..i])
        {
          assert members[..i + 1][..i] == members[..i];
          if !EndsWith(members[i].name, ".txt") {
            continue;
          }
          var count := CountWords(members[i].contents.value);
          AddStats(ZipLabel(name, members[i].sanitizedName), count);
        }
        assert members[..|members|] == members;
      case Unknown =>
    }

    /** `add_stats`: append one record at the end. */
    method AddStats(name: string, count: nat)
      modifies this
      ensures stats == old(stats) + [(name, count)]
    {
      stats := stats + [(name, count)];
    }

    /** `count_words_in_file`: the word count of a file whose opening and reading the source asserts succeed. */
    static method CountWordsInFile(file: File) returns (count: nat)
      requires file.contents.Some?
      ensures count == WordCount(file.contents.value)
    {
      count := CountWords(file.contents.value);
    }
  }
}

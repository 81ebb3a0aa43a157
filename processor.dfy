/**
 * The live processor: walks a directory tree, counts the words of every text
 * file and of every `.txt` member of every zip archive it finds, and adds each
 * count to one histogram.
 */
module Processor {
  import opened Wrappers
  import opened Words
  import opened FileSystem
  import opened Histograms
  import opened Reorderings

  datatype FileType = Text | Zip

  /** How a file name is handled: a case-sensitive suffix test, "txt" before "zip", no dot required. */
  function FileTypeOf(name: string): (r: Option<FileType>)
    ensures r == Some(Text) <==> EndsWith(name, "txt")
    ensures r == Some(Zip) <==> EndsWith(name, "zip")
    ensures r == None <==> !EndsWith(name, "txt") && !EndsWith(name, "zip")
  {
    SuffixesExclusive(name);
    if EndsWith(name, "txt") then Some(Text)
    else if EndsWith(name, "zip") then Some(Zip)
    else None
  }

  /** The counts one archive member contributes: one when it is a readable `.txt` member, else none. */
  function MemberCounts(m: Member): seq<nat> {
    if EndsWith(m.name, ".txt") && m.contents.Some? then [WordCount(m.contents.value)] else []
  }

  /** The counts an archive contributes, in archive-index order. */
  function ArchiveCounts(members: seq<Member>): seq<nat> {
    FlatMap(MemberCounts, members)
  }

  /** `f` of each element, one after the other. */
  function FlatMap<T>(f: T -> seq<nat>, xs: seq<T>): seq<nat> {
    if xs == [] then [] else f(xs[0]) + FlatMap(f, xs[1..])
  }

  /** `FlatMap` of two runs joined is the two results joined. */
  lemma {:induction false} FlatMapConcat<T>(f: T -> seq<nat>, a: seq<T>, b: seq<T>)
    ensures FlatMap(f, a + b) == FlatMap(f, a) + FlatMap(f, b)
    decreases |a|
  {
    if a == [] {
      assert a + b == b;
    } else {
      var ab := a + b;
      assert ab != [] && ab[0] == a[0] && ab[1..] == a[1..] + b;
      FlatMapConcat(f, a[1..], b);
      var x, y, z := f(a[0]), FlatMap(f, a[1..]), FlatMap(f, b);
      assert FlatMap(f, ab) == x + (y + z);
      assert FlatMap(f, a) == x + y;
      assert x + (y + z) == (x + y) + z;
    }
  }

  /** `FlatMap` of a run with one more element in front. */
  lemma FlatMapCons<T>(f: T -> seq<nat>, x: T, xs: seq<T>)
    ensures FlatMap(f, [x] + xs) == f(x) + FlatMap(f, xs)
  {
    assert ([x] + xs)[0] == x && ([x] + xs)[1..] == xs;
  }

  /** `FlatMap` of a run with one more element at the end. */
  lemma FlatMapSnoc<T>(f: T -> seq<nat>, xs: seq<T>, x: T)
    ensures FlatMap(f, xs + [x]) == FlatMap(f, xs) + f(x)
  {
    FlatMapConcat(f, xs, [x]);
    FlatMapCons(f, x, []);
    assert f(x) + [] == f(x);
  }

  /** The counts one regular file contributes. */
  function FileCounts(name: string, file: File): seq<nat> {
    match FileTypeOf(name)
    case Some(Text) => if file.contents.Some? then [WordCount(file.contents.value)] else []
    case Some(Zip) => ArchiveCounts(file.members)
    case None => []
  }

  /** What walking a directory yields: the counts it adds, in order, and whether it returns `Some(())`. */
  datatype Walk = Walk(counts: seq<nat>, completed: bool)

  /** Walking the entries of `dir` from index `i` on. */
  function WalkFrom(dir: Dir, i: nat): Walk
    decreases dir, if dir.Listing? && i < |dir.entries| then |dir.entries| - i else 0
  {
    if dir.Unlistable? || i >= |dir.entries| then Walk([], true)
    else
      var rest := WalkFrom(dir, i + 1);
      match dir.entries[i]
      case Unreadable => rest
      case Entry(name, meta) =>
        match meta
        case MetaError => Walk([], false)
        case IsDir(sub) => Walk(WalkFrom(sub, 0).counts + rest.counts, rest.completed)
        case IsFile(file) => Walk(FileCounts(name, file) + rest.counts, rest.completed)
        case IsOther => rest
  }

  function WalkDir(dir: Dir): Walk {
    WalkFrom(dir, 0)
  }

  /** The counts of two runs of members placed one after the other are the counts of each, in order. */
  lemma ArchiveCountsConcat(a: seq<Member>, b: seq<Member>)
    ensures ArchiveCounts(a + b) == ArchiveCounts(a) + ArchiveCounts(b)
  {
    FlatMapConcat(MemberCounts, a, b);
  }

  /**
   * A member whose name does not end in ".txt", a nested ".zip" archive
   * among them, contributes nothing wherever it stands: archives are not
   * opened recursively.
   */
  lemma SkippedMember(a: seq<Member>, m: Member, b: seq<Member>)
    requires !EndsWith(m.name, ".txt")
    ensures ArchiveCounts(a + [m] + b) == ArchiveCounts(a + b)
  {
    ArchiveCountsConcat(a + [m], b);
    ArchiveCountsConcat(a, b);
    FlatMapSnoc(MemberCounts, a, m);
    assert ArchiveCounts(a) + [] == ArchiveCounts(a);
  }

  /** A member named like a zip archive never ends in ".txt". */
  lemma NestedZipSkipped(name: string)
    requires EndsWith(name, ".zip")
    ensures !EndsWith(name, ".txt")
  {
    assert name[|name| - 1] == name[|name| - 4..][3];
  }

  /** An archive adds one count per readable `.txt` member, and nothing for the others. */
  lemma {:induction false} ArchiveCountsLength(members: seq<Member>)
    ensures |ArchiveCounts(members)| == |TextMembers(members)|
    ensures forall j :: 0 <= j < |ArchiveCounts(members)| ==>
      ArchiveCounts(members)[j] == WordCount(TextMembers(members)[j].contents.value)
  {
    if members != [] {
      var init, last := members[..|members| - 1], members[|members| - 1];
      assert members == init + [last];
      FlatMapSnoc(MemberCounts, init, last);
      ArchiveCountsLength(init);
    }
  }

  /** The members that contribute, in archive-index order. */
  function TextMembers(members: seq<Member>): (r: seq<Member>)
    ensures forall j :: 0 <= j < |r| ==> EndsWith(r[j].name, ".txt") && r[j].contents.Some?
  {
    if members == [] then []
    else
      var m := members[|members| - 1];
      TextMembers(members[..|members| - 1]) + (if EndsWith(m.name, ".txt") && m.contents.Some? then [m] else [])
  }

  /**
   * A text file adds one count when it can be read and none when it cannot;
   * a file with an unsupported name adds nothing.
   */
  lemma FileCountsByType(name: string, file: File)
    ensures EndsWith(name, "txt") ==> FileCounts(name, file) == if file.contents.Some? then [WordCount(file.contents.value)] else []
    ensures !EndsWith(name, "txt") && EndsWith(name, "zip") ==> FileCounts(name, file) == ArchiveCounts(file.members)
    ensures !EndsWith(name, "txt") && !EndsWith(name, "zip") ==> FileCounts(name, file) == []
  {
  }

  /** Whether an entry is one whose metadata cannot be read. */
  predicate IsMetaError(e: Entry) {
    e.Entry? && e.meta.MetaError?
  }

  /**
   * The walk returns `Some(())` exactly when no entry of this directory has
   * unreadable metadata; failures deeper down, in subdirectories, are not
   * propagated.
   */
  lemma {:induction false} CompletedIff(dir: Dir, i: nat)
    requires dir.Listing?
    ensures WalkFrom(dir, i).completed <==> forall j :: i <= j < |dir.entries| ==> !IsMetaError(dir.entries[j])
    decreases |dir.entries| - i
  {
    if i < |dir.entries| {
      CompletedIff(dir, i + 1);
    }
  }

  /** Two listings that agree before index `n`, where an entry with unreadable metadata stands, walk alike. */
  lemma {:induction false} StopsAtMetaError(d1: Dir, d2: Dir, n: nat, i: nat)
    requires d1.Listing? && d2.Listing? && n < |d1.entries| && n < |d2.entries|
    requires d1.entries[..n + 1] == d2.entries[..n + 1] && IsMetaError(d1.entries[n])
    requires i <= n
    ensures WalkFrom(d1, i) == WalkFrom(d2, i)
    decreases n - i
  {
    assert d1.entries[i] == d1.entries[..n + 1][i] == d2.entries[..n + 1][i] == d2.entries[i];
    if i < n {
      StopsAtMetaError(d1, d2, n, i + 1);
    }
  }

  /** Once an entry's metadata fails, the walk ends: no later sibling is processed. */
  lemma LaterSiblingsIgnored(before: seq<Entry>, name: string, after1: seq<Entry>, after2: seq<Entry>)
    ensures WalkDir(Listing(before + [Entry(name, MetaError)] + after1))
         == WalkDir(Listing(before + [Entry(name, MetaError)] + after2))
    ensures !WalkDir(Listing(before + [Entry(name, MetaError)] + after1)).completed
  {
    var e1, e2 := before + [Entry(name, MetaError)] + after1, before + [Entry(name, MetaError)] + after2;
    var n := |before|;
    assert e1[..n + 1] == before + [Entry(name, MetaError)] == e2[..n + 1];
    StopsAtMetaError(Listing(e1), Listing(e2), n, 0);
    CompletedIff(Listing(e1), 0);
    assert IsMetaError(e1[n]);
  }

  /**
   * A subdirectory's counts are all added even when its own walk stops early,
   * and the parent carries on with its later entries as if nothing failed.
   */
  lemma SubdirectoryResultDropped(before: seq<Entry>, name: string, sub: Dir, after: seq<Entry>)
    requires forall j :: 0 <= j < |before| ==> !IsMetaError(before[j])
    ensures var w := WalkDir(Listing(before + [Entry(name, IsDir(sub))] + after));
      w.counts == EntriesCounts(before) + WalkDir(sub).counts + WalkDir(Listing(after)).counts
      && w.completed == WalkDir(Listing(after)).completed
  {
    var mid := before + [Entry(name, IsDir(sub))];
    AppendEntry(before, Entry(name, IsDir(sub)));
    WalkPrefix(mid, after, 0);
    assert mid[0..] == mid;
  }

  /** One more entry with readable metadata at the end of a run adds its counts at the end. */
  lemma AppendEntry(before: seq<Entry>, e: Entry)
    requires !IsMetaError(e) && forall j :: 0 <= j < |before| ==> !IsMetaError(before[j])
    ensures forall j :: 0 <= j < |before + [e]| ==> !IsMetaError((before + [e])[j])
    ensures EntriesCounts(before + [e]) == EntriesCounts(before) + EntryCounts(e)
  {
    FlatMapConcat(EntryCounts, before, [e]);
    assert [e][1..] == [];
    assert FlatMap(EntryCounts, [e]) == EntryCounts(e) + FlatMap(EntryCounts, []);
  }

  /** The counts one entry contributes when its metadata can be read. */
  function EntryCounts(e: Entry): seq<nat> {
    match e
    case Unreadable => []
    case Entry(name, meta) =>
      match meta
      case MetaError => []
      case IsDir(sub) => WalkDir(sub).counts
      case IsFile(file) => FileCounts(name, file)
      case IsOther => []
  }

  /** The counts of a run of entries: each entry's counts, one after the other. */
  function EntriesCounts(es: seq<Entry>): seq<nat> {
    FlatMap(EntryCounts, es)
  }

  /**
   * Walking a listing whose first entries have readable metadata adds each of
   * their counts in turn and then walks the rest.
   */
  lemma {:induction false} WalkPrefix(a: seq<Entry>, b: seq<Entry>, i: nat)
    requires i <= |a| && forall j :: i <= j < |a| ==> !IsMetaError(a[j])
    ensures WalkFrom(Listing(a + b), i)
         == Walk(EntriesCounts(a[i..]) + WalkDir(Listing(b)).counts, WalkDir(Listing(b)).completed)
    decreases |a| - i
  {
    if i == |a| {
      assert (a + b)[|a|..] == b;
      ShiftedWalk(Listing(a + b), Listing(b), |a|, 0);
      assert a[i..] == [];
    } else {
      var ab := Listing(a + b);
      assert ab.entries[i] == a[i];
      WalkStep(ab, i);
      WalkPrefix(a, b, i + 1);
      assert a[i..][0] == a[i] && a[i..][1..] == a[i + 1..];
      var x, y, z := EntryCounts(a[i]), EntriesCounts(a[i + 1..]), WalkDir(Listing(b)).counts;
      assert FlatMap(EntryCounts, a[i..]) == x + FlatMap(EntryCounts, a[i + 1..]);
      assert x + (y + z) == (x + y) + z;
    }
  }

  /** An entry with readable metadata adds its counts ahead of the walk of the entries after it. */
  lemma WalkStep(d: Dir, i: nat)
    requires d.Listing? && i < |d.entries| && !IsMetaError(d.entries[i])
    ensures WalkFrom(d, i) == Walk(EntryCounts(d.entries[i]) + WalkFrom(d, i + 1).counts, WalkFrom(d, i + 1).completed)
  {
    assert [] + WalkFrom(d, i + 1).counts == WalkFrom(d, i + 1).counts;
  }

  /** `FlatMap` around the element at index `i`. */
  lemma FlatMapPick<T>(f: T -> seq<nat>, e: seq<T>, i: nat)
    requires i < |e|
    ensures FlatMap(f, e) == FlatMap(f, e[..i]) + (f(e[i]) + FlatMap(f, e[i + 1..]))
  {
    var pre, tail := e[..i], e[i..];
    assert pre + tail == e;
    FlatMapConcat(f, pre, tail);
    assert tail != [] && tail[0] == e[i] && tail[1..] == e[i + 1..];
    assert FlatMap(f, tail) == f(e[i]) + FlatMap(f, e[i + 1..]);
  }

  /** Reordering the elements reorders what `FlatMap` yields. */
  lemma {:induction false} FlatMapReordered<T>(f: T -> seq<nat>, e1: seq<T>, e2: seq<T>)
    requires multiset(e1) == multiset(e2)
    ensures multiset(FlatMap(f, e1)) == multiset(FlatMap(f, e2))
    decreases |e1|
  {
    if e1 == [] {
      EmptyMatch(e2);
    } else {
      var x := e1[0];
      var i := PickMatch(e1, e2);
      var pre, post := e2[..i], e2[i + 1..];
      FlatMapReordered(f, e1[1..], pre + post);
      FlatMapPick(f, e2, i);
      FlatMapConcat(f, pre, post);
      var cx, cpre, cpost := f(x), FlatMap(f, pre), FlatMap(f, post);
      assert multiset(FlatMap(f, e1[1..])) == multiset(cpre) + multiset(cpost);
      assert multiset(FlatMap(f, e2)) == multiset(cpre) + multiset(cx) + multiset(cpost);
      assert multiset(FlatMap(f, e1)) == multiset(cx) + multiset(FlatMap(f, e1[1..]));
    }
  }

  /**
   * When no entry of a listing has failing metadata, reordering the listing
   * reorders the counts the walk adds and keeps its result, so the histogram
   * comes out the same.
   */
  lemma ReorderedListing(e1: seq<Entry>, e2: seq<Entry>, binSize: nat, includeZeroes: bool)
    requires binSize >= 1
    requires multiset(e1) == multiset(e2) && forall j :: 0 <= j < |e1| ==> !IsMetaError(e1[j])
    ensures multiset(WalkDir(Listing(e1)).counts) == multiset(WalkDir(Listing(e2)).counts)
    ensures WalkDir(Listing(e1)).completed && WalkDir(Listing(e2)).completed
    ensures Tally(WalkDir(Listing(e1)).counts, binSize, includeZeroes)
         == Tally(WalkDir(Listing(e2)).counts, binSize, includeZeroes)
  {
    forall j | 0 <= j < |e2| ensures !IsMetaError(e2[j]) {
      assert e2[j] in multiset(e1);
    }
    WalkPrefix(e1, [], 0);
    WalkPrefix(e2, [], 0);
    assert e1 + [] == e1 && e1[0..] == e1;
    assert e2 + [] == e2 && e2[0..] == e2;
    FlatMapReordered(EntryCounts, e1, e2);
    TallyOrderIndependent(WalkDir(Listing(e1)).counts, WalkDir(Listing(e2)).counts, binSize, includeZeroes);
  }

  /**
   * Without that premise the order matters: an entry with failing metadata
   * hides the text file listed after it but not one listed before it.
   */
  lemma MetaErrorOrderMatters()
    ensures WalkDir(Listing([Entry("b", MetaError), Entry("a.txt", IsFile(File(Some(""), [])))])).counts == []
    ensures WalkDir(Listing([Entry("a.txt", IsFile(File(Some(""), []))), Entry("b", MetaError)])).counts == [0]
  {
    assert EndsWith("a.txt", "txt");
    assert Tokens("") == [];
  }

  /** Walking a listing from index `i + shift` is walking its tail from index `i`. */
  lemma {:induction false} ShiftedWalk(d: Dir, tail: Dir, shift: nat, i: nat)
    requires d.Listing? && tail.Listing? && shift <= |d.entries| && tail.entries == d.entries[shift..]
    ensures WalkFrom(d, shift + i) == WalkFrom(tail, i)
    decreases |tail.entries| - i
  {
    if i < |tail.entries| {
      ShiftedWalk(d, tail, shift, i + 1);
      assert d.entries[shift + i] == tail.entries[i];
    }
  }

  /** A directory that cannot be listed yields `Some(())` and adds nothing. */
  lemma UnlistableAddsNothing()
    ensures WalkDir(Unlistable) == Walk([], true)
  {
  }

  /** One text file "a b c" with one-count bins and no zero-fill: bin 3 holds 1 and no other bin exists. */
  lemma OneTextFileExample()
    ensures WalkDir(Listing([Entry("notes.txt", IsFile(File(Some("a b c"), [])))])) == Walk([3], true)
    ensures Tally([3], 1, false) == map[3 := 1]
  {
    ThreeWords();
    var d := Listing([Entry("notes.txt", IsFile(File(Some("a b c"), [])))]);
    assert EndsWith("notes.txt", "txt");
    assert WalkFrom(d, 1) == Walk([], true);
    var t := Tally([3], 1, false);
    assert [3][..0] == [];
    assert Occurrences([3], 1, 3) == 1;
    forall k: nat | k != 3 ensures k !in t {
      assert Occurrences([3], 1, k) == 0;
    }
    assert 3 in t;
  }

  /**
   * An archive "pack.zip" holding "note.txt" with "x y", "skip.md" and a
   * nested "inner.zip" contributes a single count of 2.
   */
  lemma ArchiveExample(inner: Option<string>, skipped: Option<string>)
    ensures FileCounts("pack.zip", File(None, [
      Member("note.txt", "note.txt", Some("x y")),
      Member("skip.md", "skip.md", skipped),
      Member("inner.zip", "inner.zip", inner)])) == [2]
  {
    var note := Member("note.txt", "note.txt", Some("x y"));
    var skip := Member("skip.md", "skip.md", skipped);
    var nested := Member("inner.zip", "inner.zip", inner);
    assert !EndsWith("skip.md", ".txt") && !EndsWith("inner.zip", ".txt");
    assert EndsWith("note.txt", ".txt");
    assert !EndsWith("pack.zip", "txt") && EndsWith("pack.zip", "zip");
    OneLetter('y');
    LetterThenSpace('x', "y");
    assert ['x', ' '] + "y" == "x y";
    assert WordCount("x y") == 2;
    FlatMapCons(MemberCounts, note, [skip, nested]);
    FlatMapCons(MemberCounts, skip, [nested]);
    FlatMapCons(MemberCounts, nested, []);
    assert [note] + [skip, nested] == [note, skip, nested];
    assert [skip] + [nested] == [skip, nested];
    assert [nested] + [] == [nested];
    assert ArchiveCounts([nested]) == [];
    assert ArchiveCounts([skip, nested]) == [];
    assert ArchiveCounts([note, skip, nested]) == [2];
    assert FileTypeOf("pack.zip") == Some(Zip);
  }

  class Processor {
    /** The histogram every count goes into. */
    const stats: Histogram

    constructor (binSize: nat, includeZeroes: bool)
      requires binSize >= 1
      ensures fresh(stats) && stats.Valid() && stats.Counts == []
      ensures stats.binSize == binSize && stats.includeZeroes == includeZeroes
    {
      stats := new Histogram(binSize, includeZeroes);
    }

    /**
     * `process`: visit every entry of the listing; recurse into directories
     * (dropping the result) and process regular files; stop with `None` at the
     * first entry whose metadata cannot be read.
     */
    method Process(dir: Dir) returns (r: Option<()>)
      requires stats.Valid()
      modifies stats
      ensures stats.Valid()
      ensures stats.Counts == old(stats.Counts) + WalkDir(dir).counts
      ensures r.Some? <==> WalkDir(dir).completed
      decreases dir
    {
      if dir.Listing? {
        var entries := dir.entries;
        var i := 0;
        while i < |entries|
          invariant 0 <= i <= |entries|
          invariant stats.Valid()
          invariant old(stats.Counts) + WalkDir(dir).counts == stats.Counts + WalkFrom(dir, i).counts
          invariant WalkDir(dir).completed == WalkFrom(dir, i).completed
        {
          var entry := entries[i];
          if entry.Entry? {
            match entry.meta
            case MetaError =>
              return None;
            case IsDir(sub) =>
              var _ := Process(sub);
            case IsFile(file) =>
              ProcessFile(entry.name, file);
            case IsOther =>
          }
          i := i + 1;
        }
      }
      r := Some(());
    }

    /** `process_file`: dispatch on the file type and add the counts the file yields. */
    method ProcessFile(name: string, file: File)
      requires stats.Valid()
      modifies stats
      ensures stats.Valid()
      ensures stats.Counts == old(stats.Counts) + FileCounts(name, file)
    {
      match FileTypeOf(name)
      case Some(Text) =>
        var count := CountWordsInFile(file);
        if count.Some? {
          stats.AddWordCount(count.value);
        }
      case Some(Zip) =>
        var members := file.members;
        for i := 0 to |members|
          invariant stats.Valid()
          invariant stats.Counts == old(stats.Counts) + ArchiveCounts(members[..i])
        {
          assert members[..i + 1] == members[..i] + [members[i]];
          FlatMapSnoc(MemberCounts, members[..i], members[i]);
          if !EndsWith(members[i].name, ".txt") {
            continue;
          }
          if members[i].contents.Some? {
            var count := CountWords(members[i].contents.value);
            stats.AddWordCount(count);
          }
        }
        assert members[..|members|] == members;
      case None =>
    }

    /** `count_words_in_file`: the word count of the file's text, or `None` when opening or reading it fails. */
    static method CountWordsInFile(file: File) returns (r: Option<nat>)
      ensures r.Some? <==> file.contents.Some?
      ensures r.Some? ==> r.value == WordCount(file.contents.value)
    {
      if file.contents.None? {
        return None;
      }
      var count := CountWords(file.contents.value);
      return Some(count);
    }
  }
}

# word-counter, modelled in Dafny

word-counter walks a directory tree and counts the words in each text file,
and in each `.txt` member of each zip archive it finds. It adds each word
count to a histogram: an ordered map from bin index (word count divided by
the bin size) to the number of documents in that bin. It then prints the
histogram as an ASCII table. A zero-fill option inserts every empty bin
below the highest bin reached. The repository also holds an earlier
processor that does not recurse into subdirectories. That processor
records a `(name, word count)` pair for each document, labelling an archive
member `<archive>[<member>]`, and prints one `name: count` line per pair.

The project contains these modules:

- `Wrappers` (`wrappers.dfy`) holds the `Option` type that stands for Rust's
  `Option`.
- `Reorderings` (`multisets.dfy`) holds two facts about sequences with
  equal multisets. The reordering lemmas use them.
- `Words` (`words.dfy`) covers whitespace tokenising, as Rust's
  `split_whitespace` does it with the Unicode White_Space set. It also holds
  the word-counting loop `CountWords` that both `count_words` functions run,
  and the `ends_with` suffix test.
- `Format` (`format.dfy`) covers the parts of `format!` the tables use:
  decimal printing and right alignment in a fixed-width field.
- `FileSystem` (`filesystem.dfy`) describes a directory as a value. A
  directory is either a listing of entries or one that cannot be listed.
  Each entry has either readable or unreadable metadata. A listing item can
  also be an error itself (`Unreadable`, src/processor/mod.rs:33,
  src/processor.rs:32), and both walks skip it. A regular file has
  text contents, which may be unreadable, and its archive members.
- `Histograms` (`histogram.dfy`) holds the `Histogram` class and `Tally`, the
  specification function it is proved against. `Tally` gives the map that a
  sequence of word counts produces. The module also proves properties of
  that map and of the rendered table.
- `Processor` (`processor.dfy`) models the live processor. The walk is the
  function `WalkDir`. The class `Processor` holds the histogram and is
  proved against that function.
- `LegacyProcessor` (`legacy.dfy`) models the earlier processor, with the
  scan function `ScanDir` and the record-keeping class.

Facts about the code that the model keeps:

- `count_words` counts every whitespace-separated token, repeats included,
  not distinct words.
- Type detection is a case-sensitive suffix test for `txt` or `zip` with no
  dot required. A text file is therefore also any file whose name merely
  ends in those letters (`Processor.FileTypeOf`).
- A nested `.zip` member of an archive is skipped like any other
  non-`.txt` member. It is never opened (`Processor.SkippedMember`).
- A failure inside a subdirectory is not propagated. Only an entry of the
  directory being walked whose metadata cannot be read makes the walk
  return `None` (`Processor.CompletedIff`).
- Only the earlier processor labels archive members `<archive>[<member>]`;
  the live one records bare counts.
- When no entry of a listing has failing metadata, reordering the listing
  leaves the histogram unchanged (`Processor.ReorderedListing`). With a
  failing entry the order can matter: a text file listed after it is not
  counted, while one listed before it is (`Processor.MetaErrorOrderMatters`).

## Model

| member | source | states |
|---|---|---|
| Words.IsWhitespace | src/processor/mod.rs:123 | the separator set of `split_whitespace`, Rust's `char::is_whitespace`: the Unicode White_Space characters; `Words.TokensAreWords` states that no token holds one |
| Words.EndsWith | src/processor/mod.rs:79 | `ends_with`, a case-sensitive comparison of the last characters; `Words.SuffixesExclusive` states that no name ends in both "txt" and "zip" |
| Words.Tokens | src/processor/mod.rs:123 | the items `split_whitespace` yields, in order; `Words.TokensAreWords` and `Words.TokensCountStarts` state that they are the non-empty whitespace-free runs, one per word start |
| Words.SuffixesExclusive | src/processor/mod.rs:109-113 | no name ends in both "txt" and "zip", so the order of the two suffix tests never matters |
| Words.CountWords | src/processor/mod.rs:119-128 | the counting loop over `split_whitespace` returns the number of whitespace-separated tokens of the text |
| Words.TokensCountStarts | src/processor/mod.rs:123-125 | the number of tokens equals the number of positions where a non-whitespace character starts the text or follows whitespace |
| Words.TokensAreWords | src/processor/mod.rs:123 | every token is non-empty and holds no whitespace character |
| Words.AllWhitespaceHasNoWords | src/processor/mod.rs:123-127 | a text made only of whitespace, the empty text included, has word count 0 |
| Words.ThreeWords | src/processor/mod.rs:156-159 | "a b c" splits into the tokens "a", "b", "c" and counts 3 words |
| Words.RepeatsCount | src/processor/mod.rs:119-128 | any text repeated after a space has its tokens twice and twice its word count: a repeated word is counted again |
| Words.TokensAtGap | src/processor/mod.rs:123 | when the second part of a text starts with whitespace, the tokens of the whole are those of the first part followed by those of the second |
| Words.FirstToken | src/processor/mod.rs:123 | a word that ends inside a text, or right before whitespace appended to it, is the first token of the longer text, and the scan goes on after it |
| Words.RunLengthMaximal | src/processor/mod.rs:123 | the leading run holds no whitespace and is followed by whitespace or the end of the text |
| Format.NatToString | src/processor/histogram.rs:52-62 | `{}` of an unsigned integer: non-empty, all decimal digits, no leading zero; `Format.DecimalRoundTrip` states that it reads back as the number |
| Format.DecimalRoundTrip | src/processor/histogram.rs:52-62 | reading the printed digits of a number back gives the number |
| Format.PadLeft | src/processor/histogram.rs:47 | right alignment: the field has the given width, or the text's length when that is longer; the text is at its end and spaces fill the rest |
| Histograms.Tally | src/processor/histogram.rs:19-42 | the map a sequence of `add_word_count` calls builds; `Histograms.TallyAppend`, `TallyKeysTouched`, `TallyKeysZeroFill` and `TallyTotal` state its keys, its values and its sum |
| Histograms.Label | src/processor/histogram.rs:52-59 | a row's label: the range label, replaced by the bin number when the bin size is 1; `Histograms.UnitLabels` states the unit case |
| Histograms.RangeLabel | src/processor/histogram.rs:52-54 | the label `<k*bin_size>-<(k+1)*bin_size>` of bin `k` |
| Histograms.RowLine | src/processor/histogram.rs:62 | a row `|<label>|<frequency>|`, each right-aligned in ten columns; `Histograms.TableShape` states where each row stands |
| Histograms.TopIsMaxBinPlusOne | src/processor/histogram.rs:22 | every count's bin lies below `Top`, and a non-empty sequence of counts reaches `Top - 1` |
| Histograms.TallyAppend | src/processor/histogram.rs:19-42 | one more count raises its bin by one, inserting it at 1 when it is new; with zero-fill it inserts each missing bin below it at 0; no other key appears and no other value changes |
| Histograms.TallyStep | src/processor/histogram.rs:27-40 | any map that changes from the tally as `add_word_count` changes it is the tally with the count appended |
| Histograms.TallyKeysTouched | src/processor/histogram.rs:27 | without zero-fill, a key is present exactly when some count falls into that bin |
| Histograms.OccurrencesPositive | src/processor/histogram.rs:27-30 | a bin has a positive frequency exactly when some count falls into it |
| Histograms.TallyKeysZeroFill | src/processor/histogram.rs:36-40 | with zero-fill, the keys are exactly 0 up to the highest bin reached |
| Histograms.ReorderedCounts | src/processor/histogram.rs:19-42 | two sequences of counts that are reorderings of each other give every bin the same frequency and reach the same highest bin |
| Histograms.TallyOrderIndependent | src/processor/histogram.rs:19-42 | the histogram does not depend on the order in which the counts were added |
| Histograms.TallyTotal | src/processor/histogram.rs:27-30 | the frequencies add up to the number of counts added |
| Histograms.AscendRowsSorted | src/processor/histogram.rs:49 | the rows come out in strictly ascending bin order, as a `BTreeMap` iterates |
| Histograms.AscendRowsFromMap | src/processor/histogram.rs:49 | each row is a key of the map with its own frequency |
| Histograms.AscendRowsCover | src/processor/histogram.rs:49 | every key of the map has a row |
| Histograms.RenderedTotal | src/processor/histogram.rs:49-63 | the frequency column of the printed table adds up to the number of documents counted |
| Histograms.RenderedNoGaps | src/processor/histogram.rs:36-40 | with zero-fill, the printed rows are bins 0, 1, 2, ... without gaps, up to the highest bin reached |
| Histograms.TableShape | src/processor/histogram.rs:44-66 | the table is border, header and border, then one row per bin in ascending order, then a closing border |
| Histograms.UnitLabels | src/processor/histogram.rs:56-59 | with bin size 1 a row's label is the bin's number, and distinct bins get distinct labels |
| Histograms.Histogram.constructor | src/processor/histogram.rs:11-17 | a new histogram is empty and keeps the given bin size and zero-fill flag |
| Histograms.Histogram.AddWordCount | src/processor/histogram.rs:19-42 | the map becomes the tally of the counts so far with this count appended; its bin is present and one higher than before |
| Histograms.Histogram.AsciiHistogram | src/processor/histogram.rs:44-66 | the printed lines are exactly `Table` of the map: header, one row per bin in ascending order with a range or unit label, closing border |
| Processor.FileTypeOf | src/processor/mod.rs:107-117 | `Text` exactly when the name ends in "txt"; `Zip` exactly when it ends in "zip" and not "txt"; `None` exactly when it ends in neither |
| Processor.ArchiveCounts | src/processor/mod.rs:75-92 | the counts the zip branch adds, member by member in index order; `Processor.ArchiveCountsLength` and `Processor.SkippedMember` state its properties |
| Processor.FileCounts | src/processor/mod.rs:58-99 | the counts `process_file` adds for a file; `Processor.FileCountsByType` states each case |
| Processor.WalkFrom | src/processor/mod.rs:30-56 | the entries of `process` from one index on: a metadata failure ends the walk with `None`, a directory's counts are added and its result dropped, a file's counts are added; `Processor.CompletedIff`, `LaterSiblingsIgnored` and `SubdirectoryResultDropped` state its properties |
| Processor.WalkDir | src/processor/mod.rs:30-56 | what `process` adds and returns for a directory; `Processor.Processor.Process` is proved against it |
| Processor.ReorderedListing | src/processor/mod.rs:31-53 | when no entry of a listing has failing metadata, any reordering of it adds the same counts in some order and gives the same histogram |
| Processor.MetaErrorOrderMatters | src/processor/mod.rs:47-50 | with a failing entry the order matters: a text file listed after it is not counted, one listed before it is |
| Processor.WalkPrefix | src/processor/mod.rs:32-53 | walking entries with readable metadata adds each entry's counts in turn, then walks the rest |
| Processor.FlatMapReordered | src/processor/mod.rs:32-53 | reordering a run of entries (or of archive members) reorders the counts they add, as multisets |
| Processor.FlatMapConcat | src/processor/mod.rs:32-53 | the counts of a run of entries (or of archive members) split with the run: those of the first part, then those of the second |
| Processor.FileCountsByType | src/processor/mod.rs:58-99 | a text file adds its word count when it can be read and nothing otherwise; a zip adds its archive's counts; any other name adds nothing |
| Processor.ArchiveCountsConcat | src/processor/mod.rs:75-92 | an archive's counts are built member by member, in index order |
| Processor.SkippedMember | src/processor/mod.rs:78-81 | a member whose name does not end in ".txt" adds nothing, wherever it stands |
| Processor.NestedZipSkipped | src/processor/mod.rs:78-81 | a nested ".zip" member never passes the ".txt" filter, so archives are not opened recursively |
| Processor.ArchiveCountsLength | src/processor/mod.rs:75-92 | an archive adds one count per readable ".txt" member, in order, each the word count of that member |
| Processor.CompletedIff | src/processor/mod.rs:30-56 | the walk returns `Some(())` exactly when no entry of the directory itself has metadata that cannot be read |
| Processor.StopsAtMetaError | src/processor/mod.rs:47-50 | two listings that agree up to an entry whose metadata fails walk alike |
| Processor.LaterSiblingsIgnored | src/processor/mod.rs:47-50 | after an entry whose metadata fails, no later sibling affects the result, and the walk returns `None` |
| Processor.SubdirectoryResultDropped | src/processor/mod.rs:39-41 | wherever a subdirectory stands after entries with readable metadata, its counts are all added and its result is ignored: the parent goes on as if it succeeded |
| Processor.ShiftedWalk | src/processor/mod.rs:32 | walking a listing from offset `shift + i` is walking its tail from `i` |
| Processor.UnlistableAddsNothing | src/processor/mod.rs:31 | a directory that cannot be listed adds nothing and gives `Some(())` |
| Processor.OneTextFileExample | src/processor/mod.rs:30-67 | one file "notes.txt" holding "a b c" gives the counts [3] and the histogram {3: 1} |
| Processor.ArchiveExample | src/processor/mod.rs:68-94 | an archive with "note.txt" holding "x y", a ".md" member and a nested zip gives just [2] |
| Processor.Processor.constructor | src/processor/mod.rs:24-28 | the processor starts with a fresh empty histogram with the given bin size and zero-fill flag |
| Processor.Processor.Process | src/processor/mod.rs:30-56 | the histogram's counts become the old counts followed by `WalkDir(dir).counts`, and the result is `Some` exactly when the walk completes |
| Processor.Processor.ProcessFile | src/processor/mod.rs:58-99 | the histogram's counts become the old counts followed by the file's counts for its type |
| Processor.Processor.CountWordsInFile | src/processor/mod.rs:130-145 | `Some(word count)` exactly when the file can be opened and read, else `None` |
| LegacyProcessor.FileTypeOf | src/processor.rs:100-109 | `Text` exactly when the name ends in "txt"; `Zip` exactly when it ends in "zip" and not "txt"; `Unknown` otherwise |
| LegacyProcessor.ZipLabel | src/processor.rs:81-83 | an archive member's record name `<archive>[<member>]`; `LegacyProcessor.ZipLabelInjective` states that it determines both parts |
| LegacyProcessor.ArchiveStats | src/processor.rs:61-87 | the records the zip branch adds, member by member; `LegacyProcessor.ArchiveRecords` states them |
| LegacyProcessor.FileStats | src/processor.rs:54-92 | the records `process_file` adds for a file; `LegacyProcessor.TextFileRecord` and `UnknownFileIgnored` state the text and unknown cases |
| LegacyProcessor.ScanFrom | src/processor.rs:29-46 | the entries of `process` from one index on: a metadata failure ends the scan with `false`, files add their records, nothing else does; `LegacyProcessor.CompletedIff`, `ScanConcat` and `SubdirectoryIgnored` state its properties |
| LegacyProcessor.ScanDir | src/processor.rs:29-46 | what `process` records and returns for a directory; `LegacyProcessor.Processor.Process` is proved against it |
| LegacyProcessor.ZipLabelInjective | src/processor.rs:81-83 | when archive names hold no '[', the label `<archive>[<member>]` determines both archive and member |
| LegacyProcessor.TextFileRecord | src/processor.rs:56-59 | a text file is recorded once, under its own name, with its word count |
| LegacyProcessor.UnknownFileIgnored | src/processor.rs:88-90 | a file with an unsupported name is recorded nowhere |
| LegacyProcessor.ArchiveRecords | src/processor.rs:61-87 | an archive adds one record per ".txt" member, in index order, labelled `<archive>[<sanitized member name>]` with the member's word count |
| LegacyProcessor.CompletedIff | src/processor.rs:29-46 | the scan returns `true` exactly when no entry of the listing has metadata that cannot be read |
| LegacyProcessor.ScanConcat | src/processor.rs:31-42 | scanning two runs of entries scans the second only when the first did not stop at a metadata failure |
| LegacyProcessor.SameSuffix | src/processor.rs:31 | listings that agree from some position on scan alike from there |
| LegacyProcessor.WithoutSubdirectory | src/processor.rs:33-36 | inserting a subdirectory entry changes neither what can be scanned nor the scan |
| LegacyProcessor.SubdirectoryIgnored | src/processor.rs:33-36 | the earlier processor does not recurse: a subdirectory adds nothing and does not stop the scan |
| LegacyProcessor.Processor.constructor | src/processor.rs:22-26 | the processor starts with no records |
| LegacyProcessor.Processor.Process | src/processor.rs:29-46 | the records become the old records followed by `ScanDir(dir).stats`, and the result is `true` exactly when the scan completes |
| LegacyProcessor.Processor.PrintHistogram | src/processor.rs:48-52 | one line per record, in order, each `<name>: <count>` |
| LegacyProcessor.Processor.ProcessFile | src/processor.rs:54-92 | the records become the old records followed by the file's records for its type |
| LegacyProcessor.Processor.AddStats | src/processor.rs:94-96 | exactly one record is appended at the end |
| LegacyProcessor.Processor.CountWordsInFile | src/processor.rs:123-133 | the word count of the file's text |

## Left out

- Command-line parsing (`src/args.rs`) and the entry point (`src/main.rs`) are not part of this model. The bin size and zero-fill flag are parameters.
- Real file-system and zip I/O are not modelled. A directory is a value of `FileSystem.Dir`: entries have readable metadata or not, files readable text or not, archive members readable text or not. A file's name stands for `path.file_name()`, and a member's sanitized name is a field supplied with it.
- Panics from `unwrap` are excluded by construction in both processors. An archive that fails `File::open(..).unwrap()`, `ZipArchive::new(..).unwrap()` or `by_index(i).unwrap()` cannot be represented (src/processor/mod.rs:71, 72, 76; src/processor.rs:64, 65, 69). Nor can a file name that is absent or not valid UTF-8 (src/processor/mod.rs:108; src/processor.rs:58, 82-83, 101).
- Console output is not modelled. `AsciiHistogram` and `PrintHistogram` return the lines they would print. The `println!` debug line in `add_word_count` and the `eprintln!` messages are left out.
- Integer widths are not modelled: `usize` and `u64` counters and the label products `count * bin_size` are unbounded integers, so overflow is not represented.
- Ownership of the tree walk is not modelled: directories are acyclic values, and symbolic links appear only as entries that are neither files nor directories.
- The `stats()` accessor of the live processor is the class's `stats` field.
- Processor.Processor.constructor: requires a bin size of at least 1, the precondition of the Histogram it creates. `Processor::new` itself places no condition on it.
- Histograms.Histogram.constructor: requires a bin size of at least 1. The source accepts 0 here and panics with a division by zero only at the first `add_word_count`.
- Histograms.Histogram.AddWordCount: its own `ensures` names only the new bin. The rest of what changes follows from `Valid()` (the map equals `Tally`) through `TallyAppend`: no other key changes, and zero-fill keys appear at 0.
- LegacyProcessor.Processor.Process: requires every text file it reaches to be readable and every `.txt` archive member to be readable. Otherwise the source panics: `count_words_in_file` asserts that `File::open` and the read succeed (src/processor.rs:126, 130), and the member loop asserts that each read succeeds (src/processor.rs:78).
- LegacyProcessor.Processor.CountWordsInFile: requires the file to be readable, because the source asserts that opening and reading succeed.
- LegacyProcessor.Processor.ProcessFile: requires `FileReadable`, for the same reason: a text file that cannot be opened or read, and a `.txt` member that cannot be read, would panic.

# presto_uchile time-series helpers, modelled in Dafny

This project models the core of four presto_uchile tools. They prepare
pulsar time series for PRESTO:

- `concatenate_dat.py` joins several `.dat` time series into one. It
  reads and rewrites the PRESTO `.inf` metadata and fills each gap between
  observations with the overall mean. It then pads the result to a length
  that FFTs handle well, which `choose_good_N` picks.
- `sum_profiles.py` reads a list of `.pfd` profiles. Each line of the list
  may carry ranges of sub-bands and sub-integrations to remove, written as
  `5,8,10-13,17` and parsed by `parse_vals`.
- `fits2dat.py` copies a template `.inf` file and rewrites ten numbered
  lines of the copy. It also derives an output file name, a pulsar name and
  its coordinates from the command line.
- `toas2dat.c` sorts a list of times of arrival (TOAs) and turns them into
  offsets from an epoch. It then histograms them into a time series of
  `numout` bins of width `dt`, written in blocks of 65536 samples. The
  `-inf` option can take `dt`, `numout` and the epoch from an `.inf` file.

Modules, one per concern:

| file | module | models |
|---|---|---|
| `wrappers.dfy` | `Wrappers` | `Option` and `Result` |
| `text.dfy` | `Text` | the Python string operations the scripts use (`strip`, `split`, `join`, `int()`, `str()` of an int, `lower`) |
| `good_length.dfy` | `GoodLength` | `choose_good_N` and `is_power_of_10` |
| `inf_file.dfy` | `InfFile` | `read_inf` and the `.inf` part of `write_dat`; a Python dict is an ordered list of distinct keys |
| `concatenate.dfy` | `Concatenate` | the assembly in `concatenate_dats`, from the bin-width check to the padding |
| `range_list.dfy` | `RangeList` | `parse_vals` and the loop that reads the profile list |
| `inf_edit.dfy` | `InfEdit` | `copy_inf_file`, `modify_inf_line`, `update_inf` over a file store (class `InfStore`), plus the naming rules of `main` |
| `toas2dat.dfy` | `Toas2Dat` | `compare_doubles`, the sort, the epoch offsets, the `-inf` override (class `Cmdline`) and the block-by-block histogram over arrays |

Numbers are exact: a Python float or C double is a Dafny `real`, and a
Python int is an `int`. Files are modelled as values:

- A file's lines are a `seq<string>`.
- The files the scripts can open are a `map` from path to lines.
- Whether a path exists is membership in a set.

`choose_good_N` is specified against an independent definition. A good
length is a power of two of at least 2, or an entry of the factor table
times a power of ten. `LeastGoodAtLeast(n, r)` says that `r` is the least
good length that is at least `n`. The method that follows the code's table
scan is proved to return exactly that value.

The TOA histogram is specified as `Series(toas, dt, numout)`. Bin `i` holds
the number of offsets `t` with `i*dt <= t < (i+1)*dt`. The block loop is
proved to write exactly that series, however `numout` splits into blocks of
65536. The count it prints is the number of offsets in
`[0, numwrites*65536*dt)`. That count includes TOAs that fall in the unused
tail of the last block, whose bins are never written
(`Toas2Dat.UnwrittenBinIsPlaced`).

## Notes on the code

- The `goodfactors` table has 114 entries, from 1000 to 10000
  (`GoodLength.TableFacts`).
- `choose_good_N(10001)` is 10080, the table entry 1008 times ten, which
  is smaller than the next power of two, 16384 (`GoodLength.Example10001`).
- The example path in `fits2dat.py`'s usage text holds a single `_`, so
  cutting the output name out of it raises `IndexError`
  (`InfEdit.UsagePathHasNoFilename`).

## Model

| member | source | states |
|---|---|---|
| `GoodLength.ChooseGoodN` | bin/concatenate_dat.py:26-130 | a length of 0 or less gives 0; otherwise the result is the least good length at least `orig_N` (a power of two ≥ 2, or a table entry times a power of ten) |
| `GoodLength.IsPowerOfTen` | bin/concatenate_dat.py:76-96 | true exactly when n = 10^k for some k ≥ 0; false for every n ≤ 0 |
| `GoodLength.PowerOf10Step` | bin/concatenate_dat.py:92-95 | for m > 1, m is a power of ten iff m ends in 0 and m // 10 is a power of ten, which is the loop's step |
| `GoodLength.ExactScaleMeansScaled` | bin/concatenate_dat.py:106 | `n % f == 0 and is_power_of_10(n // f)` holds iff n is f times a power of ten |
| `GoodLength.Leading4` | bin/concatenate_dat.py:99-100 | the first four digits form a number in 1..9999; it is n itself below 10000 and at least 1000 above |
| `GoodLength.Leading4Brackets` | bin/concatenate_dat.py:99-100 | n lies between the prefix times 10^d and the prefix plus one times 10^d, d being the number of digits dropped; d = 0 iff n < 10000 |
| `GoodLength.TableFacts` | bin/concatenate_dat.py:57-71 | the table has 114 entries, strictly ascending, from 1000 to 10000 |
| `GoodLength.ScanTable` | bin/concatenate_dat.py:103-115 | the scan always stops at a table entry (the fallback to the last entry is never needed), and it stops at the first entry that either equals the prefix with `orig_N` an exact scaling of it, or exceeds the prefix |
| `GoodLength.ScaledCandidateIsLeast` | bin/concatenate_dat.py:103-119 | the scaled entry the scan and the scaling loop produce is at most every table entry times a power of ten that reaches `orig_N` |
| `GoodLength.CandidatesAreLeast` | bin/concatenate_dat.py:117-130 | the smaller of the scaled entry and the first power of two reaching `orig_N` is the least good length at least `orig_N` |
| `GoodLength.LeastGoodUnique` | bin/concatenate_dat.py:31-33 | the least good length at least n is unique |
| `GoodLength.LeastGoodMonotone` | bin/concatenate_dat.py:31-33 | a larger request never gets a shorter length |
| `GoodLength.ScaledEntryIsFixedPoint` | bin/concatenate_dat.py:104-108 | a table entry times a power of ten is its own good length |
| `GoodLength.NoScaledFactorIn` | bin/concatenate_dat.py:57-71 | between two neighbouring scaled entries of one decade no scaled entry exists |
| `GoodLength.NoPowerOf2In` | bin/concatenate_dat.py:121-124 | strictly between two consecutive powers of two no power of two exists |
| `GoodLength.Example1500` | bin/concatenate_dat.py:50-51 | the good length for 1500 is the table entry 1536 (1440 < 1500 ≤ 1536 < 2048) |
| `GoodLength.Example2000And10000` | bin/concatenate_dat.py:52-55 | 2000 and 10000 are their own good lengths |
| `GoodLength.Example10001` | bin/concatenate_dat.py:57-71 | the good length for 10001 is 10080 (1008 × 10), below 10240 and 16384 |
| `InfFile.KeyIndex` | bin/concatenate_dat.py:172 | the position of a key in the ordered dict: its first occurrence, or -1 exactly when it is absent |
| `InfFile.GetMeaning` | bin/concatenate_dat.py:330 | `d[k]` finds nothing exactly when no entry has key k, and what it finds is the value of an entry with that key |
| `InfFile.GetDistinct` | bin/concatenate_dat.py:330 | with distinct keys, `d[k]` returns the value stored under k |
| `InfFile.GetSet` | bin/concatenate_dat.py:172 | after `d[k] = v`, `d[k]` is `v` and every other key reads as before |
| `InfFile.SetKeepsOrder` | bin/concatenate_dat.py:172 | `d[k] = v` appends a new key at the end and overwrites an existing one in place; no other entry moves or changes |
| `InfFile.SetDistinct` | bin/concatenate_dat.py:172 | assignment keeps the keys distinct |
| `InfFile.ReadInf` | bin/concatenate_dat.py:163-183 | the loop over the stripped lines gives the dict `InfOf(lines)` |
| `InfFile.CollectNotes` | bin/concatenate_dat.py:175-179 | the inner loop keeps the stripped non-blank lines after the header, in order |
| `InfFile.NotesNonBlank` | bin/concatenate_dat.py:176-179 | every kept note is non-empty, and there is at most one note per line read |
| `InfFile.FieldsAbsent` | bin/concatenate_dat.py:166-172 | a key is missing from the dict built from the first n lines iff none of them assigns it |
| `InfFile.FieldsLastWins` | bin/concatenate_dat.py:166-172 | when several lines assign one key, the value from the last of them is kept |
| `InfFile.FieldsDistinct` | bin/concatenate_dat.py:166-172 | the dict read from the lines has distinct keys |
| `InfFile.InfOfNotes` | bin/concatenate_dat.py:166-181 | with a notes header, the notes key holds the non-blank lines after it joined by newlines, and every other key reads as the lines before the header assign it |
| `InfFile.InfOfNoNotes` | bin/concatenate_dat.py:165-172 | without a notes header the dict is the key/value lines alone |
| `InfFile.Basename` | bin/concatenate_dat.py:269 | `os.path.basename`: the suffix of the path after its last `/`, holding no `/` |
| `InfFile.UpdatedInfGet` | bin/concatenate_dat.py:268-271 | the new data file name, epoch and number of bins are set; every other key reads as in the base dict |
| `InfFile.UpdatedInfKeepsOrder` | bin/concatenate_dat.py:268-271 | the copy keeps the base keys in order, adds at most the three new keys at the end, and leaves every other entry unchanged |
| `InfFile.UpdatedInfDistinct` | bin/concatenate_dat.py:268-271 | the updated dict has distinct keys when the base has |
| `InfFile.WriteInf` | bin/concatenate_dat.py:274-281 | the written text is `InfText(d)`: one ` key = value` line per entry in dict order, and the notes entry as its header, the version line and the original notes only when they are not empty |
| `Concatenate.Assemble` | bin/concatenate_dat.py:330-402 | mixed bin widths, or no file at all, raise the bin-width error; otherwise the first overlapping boundary raises the overlap error with its index; otherwise the result is the assembled series padded with the mean to the good length of the expected number of points |
| `Concatenate.Fill` | bin/concatenate_dat.py:380-383 | `fill_points` copies of the value when positive, and nothing otherwise |
| `Concatenate.FirstOverlap` | bin/concatenate_dat.py:358-373 | the first boundary whose earlier series runs past the next start, or -1 when there is none |
| `Concatenate.SegmentPlacement` | bin/concatenate_dat.py:355-387 | every series appears unchanged in the assembled output, at the offset given by the lengths and fills before it |
| `Concatenate.GapPlacement` | bin/concatenate_dat.py:376-383 | between two series there are exactly max(0, fill) samples, all equal to the mean |
| `Concatenate.AssembledLength` | bin/concatenate_dat.py:355-387 | the assembled length is the offset of the last series plus its length |
| `Concatenate.AssembledPrefix` | bin/concatenate_dat.py:383-387 | appending only grows the output: an earlier stage is a prefix of every later one |
| `Concatenate.PaddingOnlyAppends` | bin/concatenate_dat.py:398-402 | padding keeps the data as a prefix and appends the mean up to the target, never truncating |
| `RangeList.ParseVals` | bin/sum_profiles.py:33-55 | the result is `ParseValsSpec(s)`: None for an empty string or one non-digit character, ValueError for a malformed item, else the sorted union of the items |
| `RangeList.ParseValsNone` | bin/sum_profiles.py:44-45 | the empty string and a single non-digit character give None |
| `RangeList.ParseItem` | bin/sum_profiles.py:48-52 | an item with `-` after its first character is an inclusive range between two integers; any other item is one integer; anything else is ValueError |
| `RangeList.RangeItem` | bin/sum_profiles.py:48-50 | an item `lo-hi` contributes exactly the integers from lo to hi inclusive |
| `RangeList.SingleItem` | bin/sum_profiles.py:48-52 | an item with no `-` after its first character contributes its one integer |
| `RangeList.NumberItem` | bin/sum_profiles.py:51-52 | a number written out and parsed back contributes itself |
| `RangeList.RangeMembers` | bin/sum_profiles.py:50 | `range(lo, hi + 1)` holds exactly the integers lo..hi |
| `RangeList.UnionItems` | bin/sum_profiles.py:46-52 | the loop's set is the union of the items' values, or ValueError when any item fails |
| `RangeList.UnionOfItems` | bin/sum_profiles.py:46-52 | the union holds x iff some item contributes x, and it fails iff some item fails |
| `RangeList.SortSet` | bin/sum_profiles.py:53-54 | `list` then `sort` gives the sorted listing of the set |
| `RangeList.SortedListingExists` | bin/sum_profiles.py:53-54 | every finite set of integers has a strictly ascending listing |
| `RangeList.SortedListingUnique` | bin/sum_profiles.py:53-54 | two strictly ascending listings of one set are equal |
| `RangeList.DocstringExample` | bin/sum_profiles.py:40-42 | `5,8,10-13,17` gives 5, 8, 10, 11, 12, 13, 17 |
| `RangeList.NegativeExample` | bin/sum_profiles.py:48-52 | `-3` is a single negative value, because the `-` is at position 0 |
| `RangeList.EmptyItemExample` | bin/sum_profiles.py:47-52 | an empty item, as in `5,,6`, raises ValueError |
| `RangeList.ExtraDashExample` | bin/sum_profiles.py:48-49 | an item with two dashes, as in `1-2-3`, raises ValueError |
| `RangeList.ReadLine` | bin/sum_profiles.py:236-246 | a `#` line gives nothing; a line without words fails at `sline[0]`; otherwise the first word names the file and the second and third words, when present, are parsed as range lists |
| `RangeList.LineOfWords` | bin/sum_profiles.py:236-246 | a line written as its words reads back with the first word as the name and the range lists parsed from the second and third words, and it fails iff one of those fails |
| `RangeList.ReadProfilesList` | bin/sum_profiles.py:235-252 | the loop gives `ProfilesList(lines, existing)`: the entries of the existing files in order, or the first error |
| `RangeList.CollectedKept` | bin/sum_profiles.py:247-252 | every kept entry names an existing file, and no line gives more than one entry |
| `RangeList.CollectedStaysErr` | bin/sum_profiles.py:237-246 | once a line raises, the reading of the whole list has failed with that error |
| `InfEdit.EditedLineKeepsPrefix` | bin/fits2dat.py:117-124 | the rewritten line is the text up to the last `=`, then `=  `, the value and a newline |
| `InfEdit.LineEditEffect` | bin/fits2dat.py:107-130 | the edit succeeds iff the line number is in 1..len(lines) and the line holds `=`; on success only that line changes |
| `InfEdit.ReadBackWritten` | bin/fits2dat.py:103-134 | lines of the shape `readlines()` returns (non-empty, no `\r`, a `\n` only as the last character, and there on every line but the last) come back unchanged after `writelines()` and `readlines()` |
| `InfEdit.LineEditKeepsShape` | bin/fits2dat.py:117-137 | with a value holding no `\n` and no `\r`, the edited lines keep the shape `readlines()` returns, and writing them back then rereading gives them again |
| `InfEdit.PathJoin` | bin/fits2dat.py:78 | `os.path.join` ends with its second argument |
| `InfEdit.JoinedBasename` | bin/fits2dat.py:78 | the joined path starts with the folder, and its base name is the joined name |
| `InfEdit.CopyDestinationName` | bin/fits2dat.py:75-78 | the copy lands in the folder under the new name plus `.inf`, or under the source's base name plus `.inf` when no name is given |
| `InfEdit.InfStore.constructor` | bin/fits2dat.py:58-141 | the store starts with the given files |
| `InfEdit.InfStore.CopyInfFile` | bin/fits2dat.py:58-87 | the copy succeeds iff the source exists; the store then holds the source's lines at the destination path and is otherwise unchanged |
| `InfEdit.InfStore.ModifyInfLine` | bin/fits2dat.py:89-141 | the result is True iff the file exists and the line edit succeeds; the file is rewritten only then |
| `InfEdit.InfStore.UpdateInf` | bin/fits2dat.py:143-183 | the store becomes `UpdatedFiles`: the template copied, then the ten numbered lines edited in order |
| `InfEdit.TemplateValue` | bin/fits2dat.py:151-181 | exactly lines 1, 4, 5, 6, 8, 9, 10, 11, 12 and 18 receive a value |
| `InfEdit.TemplateEditsTable` | bin/fits2dat.py:151-181 | the ten edits touch distinct lines, and each line gets the value listed for it |
| `InfEdit.UpdatedFilesEdits` | bin/fits2dat.py:145-181 | `update_inf`'s calls are the template edits applied to the fresh copy |
| `InfEdit.UpdatedCopy` | bin/fits2dat.py:145-181 | when the template exists, the copy holds the template's lines with the ten edits applied |
| `InfEdit.UpdateInfFiles` | bin/fits2dat.py:145-181 | `update_inf` adds or replaces only the copy, which has as many lines as the template; every other file is unchanged |
| `InfEdit.UpdateInfLine` | bin/fits2dat.py:145-181 | each line of the copy is the template's line, rewritten with its value when it is one of the ten lines and holds `=` |
| `InfEdit.UpdateInfKeepsShape` | bin/fits2dat.py:145-181 | with values holding no `\n` and no `\r`, the copy keeps the shape `readlines()` returns and reads back unchanged |
| `InfEdit.Before` | bin/fits2dat.py:210 | `split(c)[0]`: a prefix of the text that holds no c and ends just before the first c, or is the whole text when there is none |
| `InfEdit.OutputFilenameFields` | bin/fits2dat.py:210 | a file name exists iff the path holds two `_`; it is the text after the first `_` cut at the next `_` or `-`, then `_`, then the text after the second `_` cut at the next `_` or `/` |
| `InfEdit.UsagePathHasNoFilename` | bin/fits2dat.py:210 | the usage example path has a single `_`, so the script raises IndexError |
| `InfEdit.SelectCoordinates` | bin/fits2dat.py:233-241 | RA and DEC come from the arguments when both are given |
| `InfEdit.KnownPulsarsFound` | bin/fits2dat.py:185-241 | otherwise a pulsar known under its lower-cased name gets the coordinates in the table |
| `InfEdit.UnknownPulsarExits` | bin/fits2dat.py:236-239 | when RA and DEC are not both given and the lower-cased name is not in the table, there are no coordinates: the script exits |
| `InfEdit.PathNameHasCoordinates` | bin/fits2dat.py:214-241 | a pulsar name taken from the path always has coordinates, because the name check already demanded a table entry |
| `Text.StripPadded` | bin/concatenate_dat.py:167-171 | `strip` removes exactly the surrounding white space |
| `Text.SplitOnceJoin` | bin/concatenate_dat.py:169 | `split('=', 1)` cuts at the first `=`: the key holds no `=`, and key, `=` and value give the line back |
| `Text.JoinSplitOn` | bin/fits2dat.py:117-123 | joining the pieces of a split with the separator gives the text back |
| `Text.SplitOnJoin` | bin/fits2dat.py:117-123 | splitting pieces joined by a separator they do not hold gives the pieces back |
| `Text.SplitWhitespaceJoin` | bin/sum_profiles.py:237 | `split()` of words joined by spaces gives the words back |
| `Text.ParseIntOfIntToString` | bin/sum_profiles.py:50-52 | `int(str(i)) == i` for every integer |
| `Toas2Dat.CompareDoubles` | src/toas2dat.c:41-48 | the comparison is 1, 0 or -1 exactly when a > b, a == b or a < b |
| `Toas2Dat.CompareIsTotalOrder` | src/toas2dat.c:41-48 | the comparison is antisymmetric and transitive, as `qsort` requires |
| `Toas2Dat.SortToas` | src/toas2dat.c:248 | the TOAs end ascending, and they are a permutation of the original ones |
| `Toas2Dat.InsertLast` | src/toas2dat.c:248 | with a sorted prefix of i elements, one insertion step leaves i+1 sorted elements, as a permutation |
| `Toas2Dat.ToOffsets` | src/toas2dat.c:252-261 | each TOA becomes its offset from the epoch (`t0` if given, else the first TOA), the difference left unscaled with `-sec` (the TOAs are then already in seconds), and the MJD difference times 86400 otherwise, so in seconds either way |
| `Toas2Dat.OffsetRoundTrip` | src/toas2dat.c:256-261 | the offset conversion is invertible: offset and time of offset undo each other |
| `Toas2Dat.OffsetMonotone` | src/toas2dat.c:256-261 | the conversion preserves order strictly in both directions |
| `Toas2Dat.OffsetsAscending` | src/toas2dat.c:248-261 | sorted TOAs give sorted offsets |
| `Toas2Dat.EpochIsEarliest` | src/toas2dat.c:252-261 | without `t0`, the first sorted offset is 0 and none is negative |
| `Toas2Dat.WithInf` | src/toas2dat.c:176-187 | `-inf` sets dt and numout from the file and marks all three flags; t0 is kept when given on the command line, else it becomes the file's MJD |
| `Toas2Dat.WithInfIdempotent` | src/toas2dat.c:176-187 | reading the same `.inf` twice changes nothing more |
| `Toas2Dat.WithInfKeepsEpoch` | src/toas2dat.c:180-183 | once an epoch is set, a second `.inf` only replaces dt and numout |
| `Toas2Dat.Cmdline.constructor` | src/toas2dat.c:158 | the command line holds the parsed settings |
| `Toas2Dat.Cmdline.LoadInf` | src/toas2dat.c:161-194 | the fields become `WithInf` of the old ones |
| `Toas2Dat.NumWrites` | src/toas2dat.c:267-268 | the number of writes is the least r with r·65536 ≥ numout |
| `Toas2Dat.BlockLen` | src/toas2dat.c:280-281 | each write has between 1 and 65536 samples |
| `Toas2Dat.BlocksCoverNumout` | src/toas2dat.c:274-304 | every write before the last is full, and all writes together are exactly numout samples |
| `Toas2Dat.LowTimeInBins` | src/toas2dat.c:270-279 | block ii starts at bin ii·65536 in time, and the next block starts one block length later |
| `Toas2Dat.BlockIndex` | src/toas2dat.c:269-294 | a TOA in block ii lands at an index 0..65535 of the buffer, which is its series bin minus ii·65536 |
| `Toas2Dat.SeriesBinRange` | src/toas2dat.c:294 | the bin of t is i iff i·dt ≤ t < (i+1)·dt |
| `Toas2Dat.BinAgainstEdge` | src/toas2dat.c:291-293 | t is below a block edge m·dt iff its bin is below m |
| `Toas2Dat.ZeroBlock` | src/toas2dat.c:285-286 | every buffer entry is 0 |
| `Toas2Dat.PlaceToa` | src/toas2dat.c:293-296 | placing one TOA adds 1 to its bin's count in the buffer, and 1 to the count of placed TOAs when it is not before the block |
| `Toas2Dat.PlaceBlock` | src/toas2dat.c:290-299 | the cursor stops at the first TOA at or after the block's end; the buffer then holds each bin's count for this block, and the placed count is the number of offsets in [0, hitime) |
| `Toas2Dat.WriteBlock` | src/toas2dat.c:278-303 | one pass of the block loop keeps its invariant: the output so far is the series up to the written length |
| `Toas2Dat.NextBlockOutput` | src/toas2dat.c:303 | the series up to the next written length is the series so far plus the block's first `numtowrite` counts |
| `Toas2Dat.SeriesExtends` | src/toas2dat.c:303 | the series of a longer length extends the shorter one by the block's counts |
| `Toas2Dat.BinToas` | src/toas2dat.c:262-308 | the written samples are exactly `Series(toas, dt, numout)`, and the placed count is the number of offsets in [0, numwrites·65536·dt) |
| `Toas2Dat.PlacedAreInRange` | src/toas2dat.c:290-299 | offsets at or after the cursor add nothing to the count below the cursor's bound |
| `Toas2Dat.UnwrittenBinIsPlaced` | src/toas2dat.c:280-308 | a TOA in the unwritten tail of the last block is counted as placed but appears in no written bin |
| `Toas2Dat.ToasToSeries` | src/toas2dat.c:248-308 | the TOAs are sorted as a permutation and turned into epoch offsets in place; the output is the series of those offsets and the placed count as in `BinToas` |

## Left out

- Reading and writing files, `numpy` arrays, `float32` storage, printing, `sys.exit`, `subprocess` and `fitsio` in `fits2dat.py`. Files are values: lines, a map from path to lines, or a set of existing names.
- Floating point: every float and double is an exact real. Rounding in `(toa - lotime) * dtfract` at `src/toas2dat.c:294`, which could give an index of 65536 for a TOA just below the block's end, is not modelled. Neither is the `float` buffer's counting beyond 2^24 per bin.
- `Concatenate.Assemble`: the epoch sort (`argsort`), the filter of non-finite values, the mean and the MJD arithmetic that gives each boundary's overlap and fill count are not modelled. The segments come already sorted, and each boundary's overlap flag and `int(gap seconds / dt)` fill count are inputs.
- `str()` of a float, as in the epoch written back at `bin/concatenate_dat.py:270`, is given as text. Only `str()` of an int is modelled.
- `InfFile.WriteInf`: the text it writes is not proved to read back as the same dict through `InfFile.ReadInf`.
- ParseVals (`RangeList.ParseVals`): only the ASCII digits 0-9 are digits. Python's `isdigit()` at `bin/sum_profiles.py:44` also accepts other Unicode digits such as `²`, and `int()` at lines 50-52 accepts every Unicode decimal digit such as `٣`. So `parse_vals('²')` raises where the model gives None, and `parse_vals('1,٣')` gives [1, 3] where the model gives ValueError.
- ParseValsNone (`RangeList.ParseValsNone`): a single non-ASCII digit character, such as `²`, is taken as a non-digit and gives None. Python goes on to `int()` and raises ValueError.
- ParseItem (`RangeList.ParseItem`): an item written with non-ASCII decimal digits is a ValueError in the model. Python's `int()` reads it as a number.
- ParseInt (`Text.ParseInt`): only ASCII decimal digits are read, for the same reason. Modelling Unicode's digit classes would need its character tables.
- OutputFilename and PulsarName (`InfEdit.OutputFilename`, `InfEdit.PulsarName`): the path they take is the text of `str(pathlib.Path(input_file))`. The normalisation `pathlib` makes first is not modelled: dropping `.` parts, merging repeated `/` and removing a trailing `/`. On a path that is not already normalised, such as `crab/./obs/x_1-2_3.fits`, the model splits different pieces than the script.
- InfStore.UpdateInf (`InfEdit.InfStore.UpdateInf`): the ten edits are applied to the stored list of lines. The script instead writes the file and reads it again with `readlines()` before each edit (`bin/fits2dat.py:103-104`). The two agree when no value holds a `\n` or `\r`: each intermediate file then reads back unchanged (`InfEdit.LineEditKeepsShape`, `InfEdit.UpdateInfKeepsShape`). A value that holds a line break splits its line in the script's next read. The later edits then land on shifted lines, and the model does not follow that.
- `Text.Lower` is ASCII-only. Python's `lower()` also folds other letters, but the table keys are ASCII.
- The numerical work of `sum_profiles.py` (reading `.pfd` files, summing, plotting) is not modelled. Only `parse_vals` and the list-reading loop are.
- `os.path.exists` is membership in a set of existing names.
- In `fits2dat.py`, the conversion of the FITS data and `shutil.copy` failures other than a missing source are not modelled. `InfEdit.PathJoin` is `posixpath.join` for two arguments, an absolute second argument included.
- `Toas2Dat.SortToas`: `qsort`'s own algorithm is replaced by an insertion sort. Only its result is modelled: ascending, as a permutation.
- `Toas2Dat.BinToas` and `Toas2Dat.ToasToSeries` require at least one TOA. With none, the C code reads `ddata[0]` at `src/toas2dat.c:255` and `src/toas2dat.c:263` outside the array.
- `Toas2Dat.PlaceBlock` reads a TOA only while the cursor is inside the array. The C loop reads `*toaptr` one past the last TOA at `src/toas2dat.c:298`; that value is never used, and the model does not perform the read.
- `Toas2Dat.BinToas` requires `dt > 0`. With `dt <= 0` the C code divides by zero or runs its blocks backwards.
- `Toas2Dat.NumWrites` takes `numout` as a natural number. The C `long` could be negative, where `%` and `/` truncate toward zero.
- `toas2dat.c`: command-line parsing, `readinf`, `read_toas`, the `-f` float input, `malloc`, the cutting of `.inf` off the file root and all output are not modelled. The `.inf` values arrive as an `InfData` value.

# fiberseq-smk core scripts in Dafny

fiberseq-smk is a Snakemake pipeline for PacBio Fiber-seq data. Adenines
that an over-expressed methyltransferase marked with m6A are called on each
read. From those calls the pipeline derives nucleosomes and methyltransferase-
sensitive patches (MSPs), and it writes them in two forms: as base-modification
tags on BAM records and as BED12 tracks. This project models the integer and
sequence logic of six of its scripts and proves properties of that model:

- `extract_bed_from_bam.py` (module `ExtractBed`): the sorted modification
  positions of a read; the nucleosome (ns/nl) and MSP (as/al) tag pairs; the
  liftover of fiber intervals onto the reference through the matched aligned
  pairs, with the reverse-strand mirror; and the BED12 block columns with
  their 1-bp bookend blocks.
- `push_m6a_to_bam.py` (module `PushM6a`): the MM delta encoder of section
  1.7 of the SAMtags specification, with its decoder as partner. Also the
  per-record A/T checks, the MM suffix and ML values, and the merge into the
  record's tag list, over the whole input BAM.
- `split_zmws.py` (module `SplitZmws`): the near-equal `divmod` partition of
  the ZMW list into one chunk per output file.
- `add_nucleosomes.py` (module `AddNucleosomes`): the merged, sorted m6A
  positions of a read, and their rasterisation into a per-base boolean
  signal, optionally masked to the A/T bases.
- `add_m6A_bam.py` (module `AddM6aBam`): the BED-to-dictionary load, the
  "zmw/movie" lookup name, the matching of genomic calls to query positions,
  this script's own MM encoder, and the retagging loop.
- `per_molecule_train_gmm.v3.py` (module `PerMoleculeGmm`): the unaligned BED12
  line and dictionary entry of every molecule with at least 25 csv rows, and
  the aligned line of every read of a known molecule.

Shared modules:

- `Common`: Python and numpy primitives on integers and strings. These are
  negative-index wrap, the mergesort result as the unique sorted permutation,
  `np.concatenate`, occurrence counts, `str()`, `",".join`, `str.split`,
  `[v] * n` and `Option`/`Result` with the Python exceptions the scripts can
  raise.
- `Records`: a pysam alignment record as a class whose only mutable field is
  its tag list.
- `ModCalls`: the loop shared by both position extractors.

The mixture model's methylation verdicts are inputs. A csv row's "called"
flag and a molecule's m6A positions are given, not computed. Exceptions the
source can raise become `Err` values of `Common.Result`. Loops that stop at the
first exception are modelled up to that record.

## Model

| member | source | states |
|---|---|---|
| SplitZmws.Split | workflow/scripts/split_zmws.py:6-8 | exactly n chunks for n > 0, none for a negative n, and ZeroDivisionError from `divmod` for n = 0 |
| SplitZmws.BoundRange | workflow/scripts/split_zmws.py:7-8 | the chunk bounds start at 0, end at len(a) and never lie past it |
| SplitZmws.ChunkSizes | workflow/scripts/split_zmws.py:7-8 | chunk i has k + 1 elements when i < m and k otherwise, with (k, m) = divmod(len(a), n) |
| SplitZmws.ChunksBalanced | workflow/scripts/split_zmws.py:7-8 | any two chunks differ in size by at most one |
| SplitZmws.TrailingChunksEmpty | workflow/scripts/split_zmws.py:7-8 | with more chunks than lines, the chunks from len(a) on are empty and the others hold one line |
| SplitZmws.ChunksPrefix | workflow/scripts/split_zmws.py:8 | the first i chunks, concatenated in order, are exactly the prefix of the list up to chunk i's start |
| SplitZmws.ChunksAdjacent | workflow/scripts/split_zmws.py:8 | chunk i + 1 starts where chunk i ends, with no gap or overlap |
| SplitZmws.SplitFlatten | workflow/scripts/split_zmws.py:37-40 | concatenating the chunks gives the ZMW list back, so every line goes to exactly one file, in order |
| Common.Wrap | workflow/scripts/push_m6a_to_bam.py:25 | numpy's index c (from -n to n - 1) reads element c, or c + n when negative |
| Common.SortSeq | workflow/scripts/extract_bed_from_bam.py:27 | the sorted array is ascending and a permutation of its input, repeats kept |
| Common.SortedPermutationUnique | workflow/scripts/extract_bed_from_bam.py:27 | two ascending permutations of the same array are equal, so the sort's result is determined by its input |
| Common.FlattenLength | workflow/scripts/extract_bed_from_bam.py:26 | the concatenation is as long as the parts together |
| Common.IntToStringShape | workflow/scripts/extract_bed_from_bam.py:104 | `str(x)` is non-empty, holds no comma, and starts with '0' exactly when x is 0 |
| Common.JoinCommas | workflow/scripts/push_m6a_to_bam.py:35 | a join of n >= 1 fields has n - 1 commas, and the join is "" exactly when there is no field |
| Common.JoinFirstChar | workflow/scripts/extract_bed_from_bam.py:147 | the joined string starts with '0' exactly when its first field is 0 |
| Common.SplitOn | workflow/scripts/add_m6A_bam.py:58 | `s.split(sep)` has one field more than s has separators, and no field holds the separator |
| Common.SplitOnJoin | workflow/scripts/add_m6A_bam.py:58 | joining the fields with the separator gives the string back |
| Records.GetTag | workflow/scripts/push_m6a_to_bam.py:134 | `get_tag` returns the value of the first tag with that name |
| Records.OtherTags | workflow/scripts/push_m6a_to_bam.py:143-145 | the tags kept by the rebuild hold no MM and no ML |
| Records.OtherTagsMembers | workflow/scripts/push_m6a_to_bam.py:143-145 | the kept tags are exactly the tags that are neither MM nor ML |
| Records.RebuildModTags | workflow/scripts/push_m6a_to_bam.py:142-146 | the rebuilt list is the new MM, the new ML, then every other tag in its original order |
| Records.Record.SetTags | workflow/scripts/push_m6a_to_bam.py:146 | `set_tags` replaces the whole tag list |
| Records.Record.AppendTags | workflow/scripts/push_m6a_to_bam.py:148-149 | `rec.tags += ...` appends to the tag list and keeps the old tags |
| ModCalls.PresentCalls | workflow/scripts/extract_bed_from_bam.py:19-23 | none exactly when no requested key is present; each list is a present key's list |
| ModCalls.PresentKeys | workflow/scripts/extract_bed_from_bam.py:19-21 | the indices of the requested keys the read reports: strictly increasing, and every such index is listed |
| ModCalls.PresentCallsAt | workflow/scripts/extract_bed_from_bam.py:19-23 | the k-th gathered list is the calls of the k-th present requested key: one list per present key, in key order |
| ModCalls.PresentCallsTotal | workflow/scripts/extract_bed_from_bam.py:19-23 | the lists together hold as many calls as the present keys have |
| ModCalls.PresentCallsMultiset | workflow/scripts/extract_bed_from_bam.py:19-23 | the concatenated lists are, as a multiset, every call of every present requested key: nothing lost or deduplicated |
| ModCalls.Gather | workflow/scripts/add_nucleosomes.py:17-21 | the loop collects exactly the present keys' lists, KeyCallCount calls in all, the multiset of the present keys' calls |
| ExtractBed.GetModPosFromRec | workflow/scripts/extract_bed_from_bam.py:16-28 | None without a forward modification map or when no requested key is present; otherwise ascending, and as a multiset exactly every call of the present requested keys (repeats kept) |
| ExtractBed.GetStartLengthTags | workflow/scripts/extract_bed_from_bam.py:31-36 | the two arrays exactly when both tags are present, each the value of its tag |
| ExtractBed.GetNucleosomes | workflow/scripts/extract_bed_from_bam.py:39-40 | nucleosomes exist exactly when both ns and nl are present |
| ExtractBed.GetAccessible | workflow/scripts/extract_bed_from_bam.py:43-44 | MSPs exist exactly when both as and al are present |
| ExtractBed.Mirror | workflow/scripts/extract_bed_from_bam.py:59-63 | on a read of length L, interval k of the result is [L - e, L - s) of interval n - 1 - k of the input |
| ExtractBed.MirrorInvolution | workflow/scripts/extract_bed_from_bam.py:59-63 | mirroring twice gives the intervals back |
| ExtractBed.MirrorExample | workflow/scripts/extract_bed_from_bam.py:47-52 | the worked example: with L = 7, [1, 5) becomes [2, 6) |
| ExtractBed.SearchSortedLeft | workflow/scripts/extract_bed_from_bam.py:66-67 | the least index whose element is at least the target, or len(a) when there is none |
| ExtractBed.SearchSortedMonotone | workflow/scripts/extract_bed_from_bam.py:66-67 | a larger target is never found at a smaller index |
| ExtractBed.LiftPositionMeaning | workflow/scripts/extract_bed_from_bam.py:66-73 | a lifted endpoint is the reference position of the first pair whose read position is at least the target, or of the last pair when there is none |
| ExtractBed.LiftMonotone | workflow/scripts/extract_bed_from_bam.py:66-73 | with ascending reference positions, lifting keeps the order of endpoints |
| ExtractBed.KeptIndices | workflow/scripts/extract_bed_from_bam.py:76 | `keep_idx` selects, in increasing order, only intervals whose lifted length is positive |
| ExtractBed.KeptIndicesComplete | workflow/scripts/extract_bed_from_bam.py:76 | no interval with a positive lifted length is left out |
| ExtractBed.LiftoverHelper | workflow/scripts/extract_bed_from_bam.py:54-79 | starts and ends of equal length, no more than the input intervals, and every kept end after its start |
| ExtractBed.LiftoverKeepsPositive | workflow/scripts/extract_bed_from_bam.py:72-79 | the output is exactly the lifted intervals of positive length, in their input order |
| ExtractBed.LiftoverStrandSymmetry | workflow/scripts/extract_bed_from_bam.py:59-63 | lifting the mirrored intervals as a reverse read gives what lifting the originals as a forward read gives |
| ExtractBed.LiftedLengthsNonNegative | workflow/scripts/extract_bed_from_bam.py:72-76 | with ascending reference positions and start <= end, no lifted length is negative, so only zero-length liftovers are dropped |
| ExtractBed.Liftover | workflow/scripts/extract_bed_from_bam.py:82-91 | the record's pairs, length and strand give intervals of positive length, no more than the input |
| ExtractBed.BlocksShape | workflow/scripts/extract_bed_from_bam.py:99-111 | starts and sizes have one field per block, and the first start is 0 however the blocks begin |
| ExtractBed.MakeBedBlocks | workflow/scripts/extract_bed_from_bam.py:95-111 | bc counts the blocks: the 0 bookend when starts[0] != 0, every block, then the en - st - 1 bookend when the last block does not end at en. Both strings are these lists joined by commas, and the starts begin with "0" |
| ExtractBed.FinalBlocks | workflow/scripts/extract_bed_from_bam.py:130-140 | unaligned, the blocks are the starts with the given lengths or all 1. Aligned, they are the intervals `liftover` keeps for [start, start + length): each lifted start less reference_start, with the lifted length, which is positive |
| ExtractBed.WriteBed12 | workflow/scripts/extract_bed_from_bam.py:114-156 | nothing without starts; KeyError exactly when the ec tag is missing; TypeError exactly when an aligned row is asked of a read without a reference end; AssertionError exactly when a block ends past en; IndexError exactly when no block is left; no other exception. A row is written exactly when no block ends past en and one is left, with the row's span, name, strand and block columns. The "First block start is not 0" return never happens |
| PushM6a.KeptCoords | workflow/scripts/push_m6a_to_bam.py:24-26 | only positions on the read that fall on the base are kept, in order |
| PushM6a.KeptCoordsMembers | workflow/scripts/push_m6a_to_bam.py:24-26 | the kept positions are exactly the positions that fall on the base |
| PushM6a.Rank | workflow/scripts/push_m6a_to_bam.py:30 | at a position on the base, the cumulative count minus one is the number of that base's occurrences before it |
| PushM6a.Deltas | workflow/scripts/push_m6a_to_bam.py:31-35 | the first field is the first rank and each later field is the rank gap minus one |
| PushM6a.CoordinateConversion | workflow/scripts/push_m6a_to_bam.py:17-37 | IndexError exactly for an index outside the read; otherwise the count is the number of kept positions and of fields, with ("", 0) for none |
| PushM6a.ConversionFieldCount | workflow/scripts/push_m6a_to_bam.py:32-37 | the MM string is "" exactly when the count is 0 and otherwise has count - 1 commas |
| PushM6a.ConversionFirstField | workflow/scripts/push_m6a_to_bam.py:30-35 | the first field counts the base's occurrences before the first kept position |
| PushM6a.ConversionLaterField | workflow/scripts/push_m6a_to_bam.py:30-31 | each later field counts the base's occurrences strictly between consecutive kept positions |
| PushM6a.KeptIncreasing | workflow/scripts/push_m6a_to_bam.py:24-26 | filtering keeps strictly increasing positions strictly increasing |
| PushM6a.ConversionFieldsNonNegative | workflow/scripts/push_m6a_to_bam.py:30-31 | for strictly increasing positions no field is negative |
| PushM6a.NthOccurrence | workflow/scripts/push_m6a_to_bam.py:30 | the decoder's lookup: the position of the n-th occurrence of the base, when there is one |
| PushM6a.RunningRanks | workflow/scripts/push_m6a_to_bam.py:30-31 | running sums of (field + 1), minus one, undo the delta coding |
| PushM6a.Locate | workflow/scripts/push_m6a_to_bam.py:30 | each rank designates a position on the base with exactly that many occurrences before it |
| PushM6a.ConversionRoundTrip | workflow/scripts/push_m6a_to_bam.py:17-37 | decoding the fields gives back exactly the kept positions, in order |
| PushM6a.CountAT | workflow/scripts/push_m6a_to_bam.py:105 | mod_count is at most the number of called positions |
| PushM6a.CountATAll | workflow/scripts/push_m6a_to_bam.py:105-106 | mod_count equals the number of calls exactly when every call is on an A or a T |
| PushM6a.CountATSplit | workflow/scripts/push_m6a_to_bam.py:112-126 | the A count and the T count add up to mod_count, so the assertion at line 124 holds |
| PushM6a.SuffixShape | workflow/scripts/push_m6a_to_bam.py:117-121 | the suffix has one ';'-closed section per base with calls and one comma per encoded position |
| PushM6a.GmmUnchanged | workflow/scripts/push_m6a_to_bam.py:77-109 | a record is written unchanged exactly when it is missing from the csv, has fewer than min_number_of_calls rows, or has no call |
| PushM6a.GmmEveryCallOnAT | workflow/scripts/push_m6a_to_bam.py:104-106 | IndexError exactly for a call outside the read; otherwise AssertionError exactly when some call is not on an A or a T |
| PushM6a.GmmRetagged | workflow/scripts/push_m6a_to_bam.py:112-149 | the A and T counts add up to mod_count, with one MM field per new ML value. With MM and ML: MM = old MM + suffix and ML = old ML + one 255 per call, first, then the other tags in order. KeyError with MM but no ML. Without MM: the old tags, then a new MM holding the suffix and a new ML of 255s |
| PushM6a.MergeModTags | workflow/scripts/push_m6a_to_bam.py:133-149 | the record's tags become the merge, or stay as they were on KeyError |
| PushM6a.PushRecord | workflow/scripts/push_m6a_to_bam.py:76-150 | one pass of the loop: the exception raised, or the tags written and whether they changed |
| PushM6a.ApplyGmm | workflow/scripts/push_m6a_to_bam.py:68-150 | every record up to the first exception is written, in order, with the tags its pass gives it; the record that raised and the ones after it keep their tags |
| AddNucleosomes.Rasterise | workflow/scripts/add_nucleosomes.py:25-26 | a flag per base, set exactly where some position points (after numpy's wrap) |
| AddNucleosomes.MaskAT | workflow/scripts/add_nucleosomes.py:27-29 | the masked signal has one flag per A or T base |
| AddNucleosomes.MaskATAt | workflow/scripts/add_nucleosomes.py:27-29 | the flag of the A/T base at j lands at j's rank among the A/T bases |
| AddNucleosomes.MarkedIsCalled | workflow/scripts/add_nucleosomes.py:24-26 | for positions on the read, a flag is set exactly at a called position |
| AddNucleosomes.SameMarks | workflow/scripts/add_nucleosomes.py:23-26 | the flags do not depend on the order of the positions |
| AddNucleosomes.GetModsFromRec | workflow/scripts/add_nucleosomes.py:15-31 | TypeError without a modification map, ValueError when no key is present, IndexError for a position off the read. Otherwise the calls are exactly the multiset of the present keys' calls, and the result is those positions sorted, or the per-base signal, masked to A/T on request |
| AddM6aBam.BedDictKeys | workflow/scripts/add_m6A_bam.py:23-29 | its keys are exactly the interval names |
| AddM6aBam.BedDictLastWins | workflow/scripts/add_m6A_bam.py:29 | a name maps to the offsets and start of the last interval with that name |
| AddM6aBam.BuildBedDict | workflow/scripts/add_m6A_bam.py:18-29 | the loop builds that dictionary |
| AddM6aBam.LookupName | workflow/scripts/add_m6A_bam.py:58-59 | IndexError exactly when the name has no '/' |
| AddM6aBam.LookupNameSwaps | workflow/scripts/add_m6A_bam.py:58-59 | "movie/zmw" is looked up as "zmw/movie" |
| AddM6aBam.LookupNameSwapsLonger | workflow/scripts/add_m6A_bam.py:58-59 | "movie/zmw/rest" is looked up as "zmw/movie" as well |
| AddM6aBam.GenomicTargets | workflow/scripts/add_m6A_bam.py:73 | the targets are the bed offsets plus the interval start |
| AddM6aBam.MatchIndices | workflow/scripts/add_m6A_bam.py:75-77 | `np.isin` on the reference side selects exactly the pairs whose reference position is a target, in increasing order |
| AddM6aBam.MatchedQueryPositions | workflow/scripts/add_m6A_bam.py:75-77 | the k-th matched position is the query side of the k-th selected pair: pair order, at most one per pair |
| AddM6aBam.MatchedMembers | workflow/scripts/add_m6A_bam.py:75-77 | the matched positions are exactly the query sides of pairs whose reference side is a target |
| AddM6aBam.Interior | workflow/scripts/add_m6A_bam.py:98-99 | `xs[1:-1]` drops the first and the last matched position |
| AddM6aBam.AddCoordinateConversion | workflow/scripts/add_m6A_bam.py:32-49 | IndexError exactly for an index outside the read; otherwise one field fewer than kept positions |
| AddM6aBam.AddEncoderIsTail | workflow/scripts/add_m6A_bam.py:47 | its fields are those of the push_m6a_to_bam encoder without the first |
| AddM6aBam.AddEncoderLosesFirstPosition | workflow/scripts/add_m6A_bam.py:47 | on "AAA" with calls 0 and 2 the fields decode to position 1 only |
| AddM6aBam.SectionCountIs | workflow/scripts/add_m6A_bam.py:106 | the per-section count is the number of fields, or 1 for a section with none |
| AddM6aBam.AddModCountOvercounts | workflow/scripts/add_m6A_bam.py:106 | on "AT" with calls 0 and 1 neither section has a field, yet two ML values are written |
| AddM6aBam.AddModsSections | workflow/scripts/add_m6A_bam.py:108 | the mods string always has both sections, each closed by ';' |
| AddM6aBam.AddStepWrittenIff | workflow/scripts/add_m6A_bam.py:63-65 | a read is written exactly when its lookup name is in the dictionary and nothing raises |
| AddM6aBam.AddStepErrors | workflow/scripts/add_m6A_bam.py:58-143 | IndexError for a name without '/', ValueError for an empty pair list, IndexError off the read, KeyError for MM without ML |
| AddM6aBam.AddStepTags | workflow/scripts/add_m6A_bam.py:106-141 | with MM: MM and ML extended and first, then the other tags. Without MM: only a new MM tag, no ML |
| AddM6aBam.AddRetagTags | workflow/scripts/add_m6A_bam.py:106-141 | the retagging of one read from its two field lists |
| AddM6aBam.TagRead | workflow/scripts/add_m6A_bam.py:58-143 | the loop body: the exception raised with the tags unchanged, or the new tags and whether the read is written |
| AddM6aBam.TagReads | workflow/scripts/add_m6A_bam.py:56-143 | every read up to the first exception handled as its step says, in order; the read that raised and the ones after it keep their tags |
| AddM6aBam.AddM6aToReads | workflow/scripts/add_m6A_bam.py:18-143 | the dictionary built from the bed, then every read handled against it; reads from the one that raised on keep their tags |
| PerMoleculeGmm.ParseInt | workflow/scripts/per_molecule_train_gmm.v3.py:55 | `int()` succeeds only on a non-empty string, else ValueError |
| PerMoleculeGmm.ParseIntToString | workflow/scripts/per_molecule_train_gmm.v3.py:70 | `int(str(i)) == i` |
| PerMoleculeGmm.ParseIntRejects | workflow/scripts/per_molecule_train_gmm.v3.py:55 | a string with a non-digit past the sign raises ValueError |
| PerMoleculeGmm.CalledRows | workflow/scripts/per_molecule_train_gmm.v3.py:51 | the rows called methylated: strictly increasing, and every such row is listed |
| PerMoleculeGmm.Selected | workflow/scripts/per_molecule_train_gmm.v3.py:51 | the k-th selected position is the tpl of the k-th row called methylated: row order, at most one per row |
| PerMoleculeGmm.SelectedMembers | workflow/scripts/per_molecule_train_gmm.v3.py:51 | every selected position is the tpl of a row called methylated, and every such row's tpl is selected |
| PerMoleculeGmm.SeqMin | workflow/scripts/per_molecule_train_gmm.v3.py:60 | `min(tpl)` is an element no larger than any |
| PerMoleculeGmm.SeqMax | workflow/scripts/per_molecule_train_gmm.v3.py:60 | `max(tpl)` is an element no smaller than any |
| PerMoleculeGmm.MoleculeKey | workflow/scripts/per_molecule_train_gmm.v3.py:54-56 | the key is the integer second '/' field; IndexError without '/', ValueError when not a numeral |
| PerMoleculeGmm.UnalignedRowShape | workflow/scripts/per_molecule_train_gmm.v3.py:60-70 | count = calls + 2, sizes all 1. Starts are 0, each call minus 1, then (stop - start) - 1 with start/stop the min/max of tpl, and each call lies in that span |
| PerMoleculeGmm.TrainSpecStops | workflow/scripts/per_molecule_train_gmm.v3.py:29-56 | once a molecule raised, later molecules change nothing |
| PerMoleculeGmm.TrainSucceeds | workflow/scripts/per_molecule_train_gmm.v3.py:40-56 | training finishes exactly when every molecule with at least 25 rows has an integer key |
| PerMoleculeGmm.TrainRows | workflow/scripts/per_molecule_train_gmm.v3.py:40-89 | one unaligned line per molecule with at least 25 rows, in order, and none for a smaller one |
| PerMoleculeGmm.TrainDictKeys | workflow/scripts/per_molecule_train_gmm.v3.py:54-56 | the dictionary's keys are exactly the keys of molecules with at least 25 rows |
| PerMoleculeGmm.TrainDictLastWins | workflow/scripts/per_molecule_train_gmm.v3.py:54-56 | a key maps to the calls of the last such molecule with that key |
| PerMoleculeGmm.MoleculeRow | workflow/scripts/per_molecule_train_gmm.v3.py:58-87 | the line built in the loop, sizes read back through `int(blockCount)`: calls + 2 blocks of size 1, at 0, at each call minus 1 and at the molecule's last base, each call inside the span; it is the molecule's unaligned line |
| PerMoleculeGmm.TrainGmms | workflow/scripts/per_molecule_train_gmm.v3.py:25-91 | the loop of trainGMMs ends with the dictionary and lines of the molecules in order, or the first exception |
| PerMoleculeGmm.ZmwId | workflow/scripts/per_molecule_train_gmm.v3.py:134 | KeyError without a zm tag; an integer tag's value; `int()` of a text tag, with its ValueError; TypeError for an array tag |
| PerMoleculeGmm.QueryPositions | workflow/scripts/per_molecule_train_gmm.v3.py:148-155 | on a reverse read each position p becomes abs(p - read length); unchanged on a forward read |
| PerMoleculeGmm.QueryPositionsIn | workflow/scripts/per_molecule_train_gmm.v3.py:155-156 | a query position is matched exactly when it is a csv position, or its reverse-read image |
| PerMoleculeGmm.HitIndices | workflow/scripts/per_molecule_train_gmm.v3.py:156 | `np.isin` selects exactly the pairs whose query position is in pos, in increasing order |
| PerMoleculeGmm.ReferenceHits | workflow/scripts/per_molecule_train_gmm.v3.py:156-162 | the reference positions of those pairs, less the offset, in pair order |
| PerMoleculeGmm.AlignedRowShape | workflow/scripts/per_molecule_train_gmm.v3.py:146-189 | a written read has a reference end and matched pairs; count = ref_coords + 2, sizes all 1, starts 0, ref_coords, (stop - start) - 1, named "zmw/movie" |
| PerMoleculeGmm.AlignedStepErrors | workflow/scripts/per_molecule_train_gmm.v3.py:146-181 | for a read of a known molecule: TypeError without a reference end, or on a reverse read without an inferred length; then IndexError exactly when no pair matched; then KeyError exactly when the ec tag is missing, and no other exception |
| PerMoleculeGmm.AlignedWrittenIff | workflow/scripts/per_molecule_train_gmm.v3.py:136 | a read gets a line exactly when its zm value is a dictionary key (and nothing raises) |
| PerMoleculeGmm.AlignedSpecStops | workflow/scripts/per_molecule_train_gmm.v3.py:132-191 | once a read raised, later reads change nothing |
| PerMoleculeGmm.AlignedBed | workflow/scripts/per_molecule_train_gmm.v3.py:132-191 | the loop gives the aligned lines in read order, or the first exception |

## Left out

- Mixture-model fitting and prediction (`train_gmm`, `apply_model`, `GaussianMixture`), the 0.99999999 threshold, and the pomegranate HMM of add_nucleosomes.py are floating point or foreign code. Each csv row's or record's methylation verdict is an input.
- The effective coverage `ec`, `round(rec.get_tag("ec"))`, the score, strand-dot, thick and rgb columns are left out: they are float or constant columns. In extract_bed_from_bam.py and per_molecule_train_gmm.v3.py only the presence of the ec tag is modelled, because its absence raises KeyError.
- File and BAM I/O is left out: pysam opening, fetching and writing, pandas csv reading, BedTool parsing, pickle, argparse, logging, tqdm and the rendering of BED lines as tab-separated text. The records, csv groups and BED intervals are given as sequences.
- pysam's guarantees are preconditions, not code. These are: a reported modification key has at least one call (`ModCalls.CallsNonEmpty`); MM is a string and ML an integer array (`Records.ModTagsTyped`); the reads of a BAM are distinct objects; csv tpl and call flags have equal length (`PerMoleculeGmm.GroupsWellFormed`); aligned pairs are non-empty and ascending for the liftover (`ExtractBed.LiftableAlignment`); a start array and its length array (ns/nl, as/al) have equal length; ns, nl, as and al, when present, hold integer arrays (`ExtractBed.IntArrayIfPresent`; `np.array(..., dtype=D_TYPE)` on a text tag would raise ValueError); a record's query sequence is never None (`Records.Record.querySequence` is a sequence), where `bytes(None, "utf-8")` in add_nucleosomes.py and push_m6a_to_bam.py would raise TypeError.
- The `extract` loop of extract_bed_from_bam.py (lines 159-183) is left out. It only skips unmapped reads and hands each record's arrays to the modelled functions and to files.
- pandas `groupby` order and `csv.loc` returning a single row as a Series are left out. The groups and the per-read csv entry are inputs in their given order.
- `str(original_mods)` is modelled only for a string MM value.
- `int()` is modelled on an optional sign and ASCII digits. Surrounding whitespace and digit-group underscores are not accepted.
- `@njit` is left out. The plain Python semantics are modelled, so `starts[0]` of an empty array is an IndexError.
- `rec.query_length` is taken as the length of the query sequence.
- The in-place mergesort and `binary[...] = 1` are modelled on values. `AddNucleosomes.Rasterise` keeps the array; the sort is a function whose result is unique by `Common.SortedPermutationUnique`.
- The fancy-index assignment `st_idxs[...] = ...` of liftover_helper is modelled as a clamp on values. The numpy arrays are fresh, so no caller sees the difference.
- pysam's packing of tag names is not modelled: the scripts append ("MM:Z:", ...) and ("ML:C:", ...), which pysam stores under their first two characters, so the model writes the tags MM and ML directly.
- AddM6aBam.TagReads: which reads reach the output BAM is reported as one flag per read, not as a file.
- ExtractBed.LiftoverHelper: its ensures gives only lengths and positivity. That the result is exactly the kept lifted intervals is stated separately, as ExtractBed.LiftoverKeepsPositive.
- ExtractBed.Liftover: likewise, its ensures gives only lengths and positivity. Its value is ExtractBed.LiftoverHelper on the record's matched pairs, query length and strand, so ExtractBed.LiftoverKeepsPositive gives the exact result.

## Findings

| source | as written | input that shows it | evidently intended | confidence | as-written member | corrected member |
|---|---|---|---|---|---|---|
| workflow/scripts/add_m6A_bam.py:47 | the MM fields are only `np.diff` of the cumulative counts, so the rank of the first kept position is never written | "AAA" with calls at 0 and 2 gives the field list [1], which an MM reader decodes as position 1 only | the leading rank first, as push_m6a_to_bam.py:35 writes it, so that decoding gives back every kept position | not executed | AddM6aBam.AddEncoderLosesFirstPosition | PushM6a.ConversionRoundTrip |
| workflow/scripts/add_m6A_bam.py:106 | `A_mods.count(",") + 1` counts a section without fields as one call, and both sections are always written | "AT" with calls at 0 and 1: neither section has a field, yet two ML values of 255 are appended | one ML value per MM field, with a base without calls left out of MM, as push_m6a_to_bam.py:117-122 does | not executed | AddM6aBam.AddModCountOvercounts | PushM6a.SuffixShape |

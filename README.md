# RustLTFS core, modelled in Dafny

RustLTFS reads and writes LTO tapes formatted with LTFS without mounting them.
It talks to the drive directly through SCSI pass-through commands.
This project models the core of that tool in Dafny and proves properties of the model:

- **The SCSI layer.**
  - Command descriptor blocks (LOCATE(10)/(16), SPACE(6), READ(6), READ POSITION, MODE SENSE, LOG SENSE), built byte by byte.
  - Fixed-format sense data and the drive's decision on it.
  - Parsers for the mode and log pages.
  - The block reads that carry tape data: chunked reads, direct reads, and the index read loop with its filemark and long-block handling.
  - The drive itself is an abstract tape of partitions of records, blocks and filemarks (`TapeDevice`). It answers each command's bytes.
- **The LTFS index.**
  - The record types of the index (directories, files, extents, extended attributes).
  - Path lookup in the directory tree.
  - Extraction of the `<ltfsindex>` section from raw tape data, and the validators that judge it.
  - Insertion of written files with the UID allocator and generation counter (UID: the file identifier the index assigns).
  - Location of the index: the VOL1 label, the index location scans, and the partition mapping of single- and dual-partition tapes.
- **The extent-based data path.**
  - Locating and reading a file's extents, with the partition letter mapped to a drive partition and the read clipped to the request.
  - Block counts and padding on the write side.
  - The MKLTFS format parameters and their validation.
- **Bookkeeping.**
  - The deduplication database of file hashes and its statistics.
  - The LTFS performance cache and the batch queues of read and write requests.
  - The capacity figures and the volume information record.

Each source file is one module, named after it. The exception is `src/scsi/mod.rs`, which is split over `ScsiModePages`, `ScsiReads` and `ScsiPositioning`.
Pure code becomes datatypes, functions and lemmas.
Objects whose methods update their fields become classes with `modifies` frames:
- the performance cache and the batch queue manager;
- the deduplication database and its manager;
- the volume information manager;
- the tape operations state and its in-memory index;
- the index validator and the MKLTFS parameter set.

Loops of the source are methods with loop invariants, each proved against a specification function.

The drive, the clock, random UUIDs, file contents and the XML deserialiser are parameters.
A device is a function from the tape state and the CDB bytes to a reply.
A scripted reader stands for a sequence of drive answers.
Integer widths follow a release build of the Rust code: `u8`/`u32`/`u64` arithmetic wraps where the source can overflow, and this is stated in the contracts.

## Model

| member | source | states |
|---|---|---|
| TapeOpsCore.ValidatedExtraCount | src/tape_ops/core.rs:688-689 | the count is at most 1 and at most the drive's allowed maximum, and equals the smaller of the three |
| TapeOpsCore.TargetPartitionShape | src/tape_ops/core.rs:735-769 | the mapping names only partition 0 or 1, and 1 exactly for a data request on a multi-partition tape |
| TapeOpsCore.SaturatingSub | src/tape_ops/core.rs:1027 | a - b when b <= a, else 0 |
| TapeOpsCore.SpaceInfo | src/tape_ops/core.rs:1021-1040 | partition 1's figures on a multi-partition tape, partition 0's otherwise; used = maximum - remaining (saturating) and total shifted left by 20 in u64; available = total - used (saturating) |
| TapeOpsCore.SpaceInfoSums | src/tape_ops/core.rs:1021-1040 | while the maximum fits in 44 bits, used + available = total and used is (maximum - remaining) MiB |
| TapeOpsCore.CountsMatchUids | src/tape_ops/core.rs:1072-1086 | the files and directories counted below a directory add up to the UIDs collected below it |
| TapeOpsCore.ChildCountsMatchUids | src/tape_ops/core.rs:1072-1086 | the same over the subdirectories from index i on |
| TapeOpsCore.FilesSizeWraps | src/tape_ops/core.rs:1091-1093 | the step-by-step u64 additions of the file lengths equal their exact sum modulo 2^64 |
| TapeOpsCore.TotalSizeWraps | src/tape_ops/core.rs:1088-1099 | the recursive total size equals the exact sum of all lengths below the directory modulo 2^64 |
| TapeOpsCore.ChildTotalSizeWraps | src/tape_ops/core.rs:1095-1097 | the same over the subdirectories from index i on |
| TapeOpsCore.TapeOperations.constructor | src/tape_ops/core.rs:180-214 | a new object: no partition count detected, not modified, flags clear |
| TapeOpsCore.TapeOperations.ExtraPartitionCount | src/tape_ops/core.rs:729-731 | an undetected count reads as 0 |
| TapeOpsCore.TapeOperations.InitializePartitionDetection | src/tape_ops/core.rs:665-726 | offline the count is 1; a reply of at least 4 bytes sets the validated count from byte 3 and `modified` exactly when it is positive; a short reply or an error sets 0 and clears `modified` |
| TapeOpsCore.TapeOperations.CheckPauseAndStop | src/tape_ops/core.rs:356-372 | a raised stop flag returns OperationCancelled; a raised pause flag with stop clear never returns (the flags cannot change under the call); otherwise Ok |
| TapeOpsCore.WaitLoop | src/tape_ops/core.rs:361-369 | the pause wait run for a number of turns; the only error it ends with is the cancellation |
| TapeOpsCore.PausedWaitNeverEnds | src/tape_ops/core.rs:361-369 | with the pause raised and stop clear the wait ends after no number of turns |
| TapeOpsCore.PauseCheckMatchesWait | src/tape_ops/core.rs:356-372 | with stop clear, the check hangs exactly when the wait never ends, and otherwise returns what the wait returns |
| TapeOpsCore.TapeOperations.GetTargetPartition | src/tape_ops/core.rs:735-769 | on the detected count: partition 0 or 1, and 1 exactly for a data request on a multi-partition tape |
| TapeOpsCore.TapeOperations.StopWrite | src/tape_ops/core.rs:648-651 | the stop flag is raised and nothing else changes |
| TapeOpsCore.TapeOperations.SetPause | src/tape_ops/core.rs:654-661 | the pause flag takes the given value and nothing else changes |
| TapeOpsCore.DetectionOutcome | src/tape_ops/core.rs:688-705 | after detection the count is 0 or 1 and `modified` says whether it is 1 |
| PartitionManager.DeterminePartitionStrategy | src/tape_ops/partition_manager.rs:126-149 | only a count of 0 gives the single-partition strategy |
| PartitionManager.MapAgreesWithTapeOperations | src/tape_ops/partition_manager.rs:153-192 | the partition manager's mapping equals `get_target_partition` of the tape operations for every input |
| PartitionManager.ValidateExtraPartitionCount | src/tape_ops/partition_manager.rs:196-211 | min(1, value), then min with the allowed maximum |
| PartitionManager.LabelBlockSize | src/tape_ops/partition_manager.rs:672-682 | the block size in ASCII digits at bytes 40-43, only when it is one of the known sizes |
| PartitionManager.HeuristicBlockSize | src/tape_ops/partition_manager.rs:761-788 | more than 80% zero bytes gives 512 KiB, more than 32768 non-zero bytes 64 KiB, otherwise 512 KiB |
| PartitionManager.NonZeroCount | src/tape_ops/partition_manager.rs:768 | the number of non-zero bytes, at most the length |
| PartitionManager.ParseLtfsVolumeLabel | src/tape_ops/partition_manager.rs:657-690 | a VOL1 label may set the block size; without one the heuristic decides |
| PartitionManager.LabelBlockSizeKnown | src/tape_ops/partition_manager.rs:657-788 | whatever the buffer holds, the block size is one of the known sizes |
| PartitionManager.Vol1KeepsDefaultBlockSize | src/tape_ops/partition_manager.rs:672-682 | four digits cannot spell a known size, so a VOL1 label always keeps 64 KiB |
| PartitionManager.DigitsValueBound | src/tape_ops/partition_manager.rs:673-676 | n digits have a value below 10^n |
| PartitionManager.SearchArea | src/tape_ops/partition_manager.rs:1349 | up to 1024 bytes from the "LTFS" signature |
| PartitionManager.FirstWordIn | src/tape_ops/partition_manager.rs:1352-1371 | the first little-endian u32 at a multiple of four below the bound whose value lies in [lo, hi] |
| PartitionManager.SignatureAtEndPanics | src/tape_ops/partition_manager.rs:1349-1352 | a buffer ending in the signature makes `search_area.len() - 8` underflow: the scan panics |
| PartitionManager.IndexLocationSpec | src/tape_ops/partition_manager.rs:1334-1400 | corrected scan: an area too short for a word plus eight spare bytes has no candidate; partition "a" for a block in 5..1000, else "b" for one in 1000..1000000 |
| PartitionManager.AsWrittenAgrees | src/tape_ops/partition_manager.rs:1334-1400 | where the written scan returns, it returns what the corrected one does |
| PartitionManager.ScanWords | src/tape_ops/partition_manager.rs:1352-1371 | the stepped for loop returns `FirstWordIn` |
| PartitionManager.ParseIndexLocationFromBuffer | src/tape_ops/partition_manager.rs:1334-1400 | corrected (see Findings): the two scans in turn return `IndexLocationSpec` |
| PartitionManager.MapPartitionNumber | src/tape_ops/partition_manager.rs:153-192 | partition 0 or 1, and 1 exactly for a logical partition other than 0 on a tape with extra partitions |
| PartitionManager.HandleScsiReadError | src/tape_ops/partition_manager.rs:1615-1674 | by the error's text: a failed direct read ends a read with data and allows two retries; a device-status error goes on when the unit is ready, else one retry; a medium error ends a read past 10 blocks, else one retry; a command error stops; a hardware error allows one retry |
| PartitionManager.ThirdErrorStops | src/tape_ops/partition_manager.rs:1615-1674 | after three errors only a device-status error cleared by TEST UNIT READY goes on |
| PartitionManager.CleanedXml | src/tape_ops/partition_manager.rs:1466-1474 | NULs removed, then trimmed; empty text is an error with the given message |
| PartitionManager.TrimKeepsNoNul | src/tape_ops/partition_manager.rs:1466 | trimming text without NUL leaves no NUL |
| PartitionManager.TryReadIndexAtCurrentPosition | src/tape_ops/partition_manager.rs:1411-1475 | the for loop of at most 50 one-block reads returns `PositionRead` |
| PartitionManager.PositionReadBounded | src/tape_ops/partition_manager.rs:1413-1418 | only the first 50 replies matter |
| PartitionManager.PositionTextExtends | src/tape_ops/partition_manager.rs:1439-1442 | the text only grows: what was gathered is a prefix of the final text |
| PartitionManager.NothingReadIsError | src/tape_ops/partition_manager.rs:1421-1471 | a first read that returns no block, or fails, gives an error |
| Deduplication.FromLtfsKey | src/tape_ops/deduplication.rs:41-50 | a recognised name maps to the hash type whose attribute name it is |
| Deduplication.LtfsKeyRoundTrip | src/tape_ops/deduplication.rs:30-50 | every hash type is recognised from its own attribute name |
| Deduplication.EnabledAlgorithms | src/tape_ops/deduplication.rs:312-343 | never empty and without repeats; holds exactly the switched-on types (the extended ones only with extended hashing), or SHA1 alone when none is on; SHA1 comes first when present |
| Deduplication.AlgorithmOrderComplete | src/tape_ops/deduplication.rs:312-343 | the order in which the switches are read names every hash type once |
| Deduplication.Selected | src/tape_ops/deduplication.rs:312-337 | the switched-on entries of the order, kept in order and without repeats |
| Deduplication.AddThenCheck | src/tape_ops/deduplication.rs:662-678 | after adding a record its SHA1 list is the old list with the record appended; without a SHA1 the hash index is unchanged; other lists are untouched; every list stays non-empty and holds only records with its digest |
| Deduplication.ExtraCopiesCount | src/tape_ops/deduplication.rs:681-705 | with non-empty lists, the duplicates counted are the records beyond one per digest |
| Deduplication.SingleGroupStats | src/tape_ops/deduplication.rs:681-705 | one digest with n records gives one group and n-1 duplicates when n > 1, none otherwise, and the first record's size times n-1 saved |
| Deduplication.Without | src/tape_ops/deduplication.rs:726 | the records kept are exactly those with a different path |
| Deduplication.KeepList | src/tape_ops/deduplication.rs:719-735 | a SHA1 list keeps exactly the records the removed paths do not purge from it |
| Deduplication.KeepListStep | src/tape_ops/deduplication.rs:719-735 | removing one more path filters the list once more |
| Deduplication.TouchedStep | src/tape_ops/deduplication.rs:722-730 | a list is touched by one more path exactly when it was already, or that path's record has its digest |
| Deduplication.PurgedStepAt | src/tape_ops/deduplication.rs:719-735 | one loop turn and the closed form agree on each digest |
| Deduplication.PurgedStep | src/tape_ops/deduplication.rs:719-735 | one loop turn takes the closed form for the removed paths to the closed form with one path more |
| Deduplication.PurgedKeyed | src/tape_ops/deduplication.rs:708-739 | cleanup leaves a well-keyed hash index well keyed, with no removed path's record under its own digest |
| Deduplication.KeepIndexed | src/tape_ops/deduplication.rs:491-497 | a list keeps exactly its records whose path is indexed |
| Deduplication.KeepIndexedAll | src/tape_ops/deduplication.rs:491-497 | a list whose paths are all indexed is kept whole |
| Deduplication.CompactedConsistent | src/tape_ops/deduplication.rs:485-518 | after compaction the two indexes agree, no list is empty and no path is added |
| Deduplication.CompactedHashesIdentity | src/tape_ops/deduplication.rs:490-504 | lists whose paths are all indexed and none empty survive compaction unchanged |
| Deduplication.CompactConsistentIsIdentity | src/tape_ops/deduplication.rs:485-518 | a consistent database without empty lists is left as it is and nothing is counted as removed |
| Deduplication.CompactedPathsIdentity | src/tape_ops/deduplication.rs:506-514 | when every indexed path is listed the path index is kept whole |
| Deduplication.NothingDropped | src/tape_ops/deduplication.rs:490-497 | when every listed record's path is indexed the first loop removes nothing |
| Deduplication.RemainingStep | src/tape_ops/deduplication.rs:719-721 | removing one more path from the path index takes exactly that path out |
| Deduplication.CompactedExceptStep | src/tape_ops/deduplication.rs:490-502 | one turn of compaction's first loop settles one more digest |
| Deduplication.DeduplicationDatabase.constructor | src/tape_ops/deduplication.rs:387-396 | both indexes empty, version 1, created and updated now |
| Deduplication.DeduplicationDatabase.AddFileRecord | src/tape_ops/deduplication.rs:662-673 | the record replaces any record for its path in the path index and is appended to its SHA1 list when it has one; a well-keyed index stays so |
| Deduplication.DeduplicationDatabase.CheckDuplicate | src/tape_ops/deduplication.rs:676-678 | the list stored under the digest, present exactly when the digest is |
| Deduplication.DeduplicationDatabase.CountGroup | src/tape_ops/deduplication.rs:687-697 | one loop turn adds one group and n-1 duplicates for a list of n > 1 records, and the first record's size times n-1 saved, wrapping at 64 bits |
| Deduplication.DeduplicationDatabase.GetDuplicateStats | src/tape_ops/deduplication.rs:681-705 | the statistics equal the sums over all lists, whatever order the map yields them in |
| Deduplication.DeduplicationDatabase.Tally | src/tape_ops/deduplication.rs:686-698 | groups, duplicates and saved bytes (modulo 2^64) are the sums over every list |
| Deduplication.DeduplicationDatabase.CleanupStaleRecords | src/tape_ops/deduplication.rs:708-739 | exactly the paths first seen before the cutoff leave the path index, their records leave their SHA1 lists (empty lists go), and the count is their number |
| Deduplication.DeduplicationDatabase.RemovePaths | src/tape_ops/deduplication.rs:719-735 | the loop removes the given paths from the path index and their records from the hash lists, counting each once |
| Deduplication.DeduplicationDatabase.RemoveRecord | src/tape_ops/deduplication.rs:721-731 | one loop turn filters the path out of its record's SHA1 list and drops the list if emptied |
| Deduplication.DeduplicationDatabase.Compact | src/tape_ops/deduplication.rs:485-518 | lists keep only indexed records and empty ones go; then unlisted paths leave the path index; the count is the records and paths removed; afterwards the indexes agree |
| Deduplication.DeduplicationDatabase.RetainIndexed | src/tape_ops/deduplication.rs:487-504 | compaction's first loop yields the compacted lists and counts every record dropped |
| Deduplication.PurgedNone | src/tape_ops/deduplication.rs:708-739 | removing no paths leaves the hash index as it was |
| Deduplication.KeepListNone | src/tape_ops/deduplication.rs:708-739 | removing no paths leaves a list as it was |
| Deduplication.TypedHashes | src/tape_ops/deduplication.rs:817-820 | a hash type is in the record exactly when its attribute name is in the input, with that name's digest |
| Deduplication.TypedHashesComplete | src/tape_ops/deduplication.rs:817-820 | every recognised attribute of the input ends up in the record under the type its name denotes |
| Deduplication.DeduplicationManager.constructor | src/tape_ops/deduplication.rs:775-784 | the given database and switch, with SHA1 as the primary hash type |
| Deduplication.DeduplicationManager.CheckFileExists | src/tape_ops/deduplication.rs:787-801 | nothing when disabled; otherwise the list under the file's SHA1 digest, present exactly when that digest is given and stored |
| Deduplication.DeduplicationManager.RegisterFile | src/tape_ops/deduplication.rs:804-847 | when disabled the database is unchanged; otherwise it gains the record built from the arguments as add_file_record does |
| Deduplication.DeduplicationManager.SetEnabled | src/tape_ops/deduplication.rs:865-872 | the switch takes the given value |
| Deduplication.DeduplicationManager.IsEnabled | src/tape_ops/deduplication.rs:875-877 | the current switch |
| Deduplication.RegisterThenCheck | src/tape_ops/deduplication.rs:787-847 | a file registered with a SHA1 attribute is the last record of the list the next check finds |
| FormatOperations.AsciiOnly | src/tape_ops/format_operations.rs:58-61 | the filter keeps only ASCII characters, no more than there were, and leaves ASCII text unchanged |
| FormatOperations.AsciiOnlyConcat | src/tape_ops/format_operations.rs:58-61 | filtering a concatenation is the concatenation of the filtered parts |
| FormatOperations.BarcodeOf | src/tape_ops/format_operations.rs:57-65 | the stored barcode is the first min(20, n) of the n ASCII characters of the input |
| FormatOperations.AsciiEncode | src/tape_ops/format_operations.rs:114-119 | ASCII text encodes to one byte per character, each byte the character's code |
| FormatOperations.BarcodeFits | src/tape_ops/format_operations.rs:57-65 | a barcode stored by set_barcode is never more than the 20 bytes validate allows |
| FormatOperations.OtherSize | src/tape_ops/format_operations.rs:68-87 | the partner size is "rest of tape" exactly when the given size is not, and 1 GB otherwise |
| FormatOperations.ValidateValues | src/tape_ops/format_operations.rs:90-123 | Ok exactly when the block length is within 512..2097152, at most one extra partition, not both sizes 65535, and the barcode at most 20 bytes; every failure is a parameter-validation error, the block length first with its message |
| FormatOperations.MkltfsParams.Default | src/tape_ops/format_operations.rs:32-44 | one extra partition, 512 KiB blocks, immediate mode, capacity 65535, a 1 GB index partition and the rest for data; the defaults validate |
| FormatOperations.MkltfsParams.New | src/tape_ops/format_operations.rs:49-54 | the defaults with the extra partition count capped by the drive's maximum; still valid |
| FormatOperations.MkltfsParams.Validate | src/tape_ops/format_operations.rs:90-123 | validation of the current field values |
| FormatOperations.MkltfsParams.SetBarcode | src/tape_ops/format_operations.rs:57-65 | the filtered barcode is stored and fits the 20-byte limit; the block length and sizes are unchanged |
| FormatOperations.MkltfsParams.SetP0Size | src/tape_ops/format_operations.rs:68-76 | the index partition takes the size and the data partition the partner size, so the two are never both 65535 |
| FormatOperations.MkltfsParams.SetP1Size | src/tape_ops/format_operations.rs:79-87 | the data partition takes the size and the index partition the partner size, so the two are never both 65535 |
| FormatOperations.SettersKeepValid | src/tape_ops/format_operations.rs:57-123 | parameters that validate still validate after set_barcode, set_p0_size or set_p1_size, whatever they are given |
| FormatOperations.TruncatedRem | src/tape_ops/format_operations.rs:408 | Rust's `%`: the remainder lies strictly between -m and m, equals the Euclidean one for a non-negative dividend, and takes the dividend's sign |
| FormatOperations.ZeroPad | src/tape_ops/format_operations.rs:408 | `{:06}` padding: the width is reached and digits stay digits |
| FormatOperations.NatToDecimalLength | src/tape_ops/format_operations.rs:408 | a number below 10^(k+1) has at most k+1 decimal digits |
| FormatOperations.LeadingZeroValue | src/tape_ops/format_operations.rs:408 | a leading zero does not change a numeral's value |
| FormatOperations.ZeroPadValue | src/tape_ops/format_operations.rs:408 | zero padding does not change a numeral's value |
| FormatOperations.GeneratedIdDigits | src/tape_ops/format_operations.rs:407-411 | with the clock at or after the epoch the generated identifier is six digits whose value is the time modulo 10^6 |
| FormatOperations.VolumeLabel | src/tape_ops/format_operations.rs:398-425 | 80 bytes: "VOL1", up to six identifier bytes at offset 4, "LTFS" at 24..28, zeros elsewhere |
| FormatOperations.VolumeLabelIsVol1 | src/tape_ops/format_operations.rs:398-425 | every label this writes is one the partition-label reader accepts as VOL1 |
| FormatOperations.VolumeIdReadsBack | src/tape_ops/format_operations.rs:407-415 | a volume label of at most six bytes, or a generated identifier, is stored whole at offset 4 |
| FormatOperations.CopyInto | src/tape_ops/format_operations.rs:404-421 | `copy_from_slice` at an offset: the source lands there and every other byte keeps its value |
| FormatOperations.CreateLtfsVolumeLabel | src/tape_ops/format_operations.rs:398-425 | a fresh 80-byte array equal to the label of the encoded identifier |
| FormatOperations.CeilDiv | src/tape_ops/format_operations.rs:386 | the rounded-up block count times the block size is the least multiple of the block size covering the label |
| FormatOperations.PadToBlocks | src/tape_ops/format_operations.rs:372-395 | a whole number of blocks, less than one block longer than the label, starting with the label and zero after it |
| FormatOperations.LtfsFormatStatus.Description | src/tape_ops/format_operations.rs:822-828 | each status has a non-empty description |
| FormatOperations.DescriptionInjective | src/tape_ops/format_operations.rs:822-828 | distinct statuses have distinct descriptions |
| FormatOperations.DetectLtfsFormatStatus | src/tape_ops/format_operations.rs:759-803 | formatted exactly when block 0 of partition 0 reads and contains "LTFS"; empty exactly when it does not and TEST UNIT READY fails; otherwise unknown format |
| FormatOperations.LabelledTapeIsFormatted | src/tape_ops/format_operations.rs:372-425 | a tape whose first block is a label written by mkltfs is detected as formatted |
| IndexDataValidator.BasicXmlParseCheckLoop | src/tape_ops/index_validator.rs:359-418 | the character loop over the text reaches the recursive scan's verdict |
| IndexDataValidator.ScanChar | src/tape_ops/index_validator.rs:366-409 | one character of the scan; its only failures are parse errors |
| IndexDataValidator.Run | src/tape_ops/index_validator.rs:366-409 | the scan over a text fails only with a parse error |
| IndexDataValidator.BasicXmlParseCheck | src/tape_ops/index_validator.rs:359-418 | the scan as written, then a tag left open is an error; every failure is a parse error |
| IndexDataValidator.FixedScanChar | src/tape_ops/index_validator.rs:366-409 | one character of the corrected scan; its only failures are parse errors |
| IndexDataValidator.FixedRun | src/tape_ops/index_validator.rs:366-409 | the corrected scan over a text fails only with a parse error |
| IndexDataValidator.BasicXmlParseCheckFixed | src/tape_ops/index_validator.rs:359-418 | the corrected scan, then a tag left open is an error; every failure is a parse error |
| IndexDataValidator.RunConcat | src/tape_ops/index_validator.rs:366-409 | scanning a concatenation scans the first part and then the second from where it stopped, or stops at the first part's error |
| IndexDataValidator.NameRun | src/tape_ops/index_validator.rs:402-406 | inside a tag, name characters are appended to the tag name |
| IndexDataValidator.OpenPushes | src/tape_ops/index_validator.rs:368-395 | an opening tag `<t>` pushes t |
| IndexDataValidator.NameThenClose | src/tape_ops/index_validator.rs:373-406 | a name then '>' is the '>' step with the name gathered |
| IndexDataValidator.CloseGathers | src/tape_ops/index_validator.rs:368-401 | `</t>` reaches '>' as a closing tag named t |
| IndexDataValidator.ClosePops | src/tape_ops/index_validator.rs:379-391 | a closing tag pops a matching top of stack, and fails on an empty stack or a different top |
| IndexDataValidator.RenderNeutral | src/tape_ops/index_validator.rs:359-418 | a well-named nested element passes the scan and leaves the stack as it found it |
| IndexDataValidator.RenderAllNeutral | src/tape_ops/index_validator.rs:359-418 | a run of well-named elements passes and leaves the stack as it found it |
| IndexDataValidator.NestedElementsPass | src/tape_ops/index_validator.rs:359-418 | a well-named nested document passes the scan as written |
| IndexDataValidator.UnclosedTagFails | src/tape_ops/index_validator.rs:411-415 | a tag left open fails the scan |
| IndexDataValidator.ExtraClosingTagFails | src/tape_ops/index_validator.rs:387-390 | a closing tag with nothing open fails |
| IndexDataValidator.MismatchedCloseFails | src/tape_ops/index_validator.rs:381-386 | a closing tag naming another element fails |
| IndexDataValidator.NameChars | src/tape_ops/index_validator.rs:402-406 | only name characters are kept |
| IndexDataValidator.FilteredRun | src/tape_ops/index_validator.rs:399-406 | inside a tag, plain text adds its name characters to the tag name |
| IndexDataValidator.TagPushesNameChars | src/tape_ops/index_validator.rs:368-406 | a tag with plain text pushes the name characters of all its text, attributes included |
| IndexDataValidator.DeclarationLeftOpen | src/tape_ops/index_validator.rs:375-406 | as written, '?' is never kept in the name, so an XML declaration is pushed as an open tag and a declared document fails the scan |
| IndexDataValidator.AttributeBreaksMatch | src/tape_ops/index_validator.rs:379-406 | as written, an attribute's characters join the tag name, so `<t a>` ... `</t>` fails as a mismatch |
| IndexDataValidator.AttributeTag | src/tape_ops/index_validator.rs:402-406 | a tag with an attribute gathers a name different from the element's own |
| IndexDataValidator.NameCharsConcat | src/tape_ops/index_validator.rs:402-406 | filtering a concatenation filters each part |
| IndexDataValidator.NameCharsOfName | src/tape_ops/index_validator.rs:402-406 | a name made of name characters is kept whole |
| IndexDataValidator.FixedRunConcat | src/tape_ops/index_validator.rs:366-409 | the corrected scan of a concatenation is the scan of the second part after the first |
| IndexDataValidator.FixedNameRun | src/tape_ops/index_validator.rs:402-406 | in the corrected scan a name is gathered until the first character that cannot be in it |
| IndexDataValidator.FixedOpenPushes | src/tape_ops/index_validator.rs:392-395 | the corrected scan pushes t for `<t>` |
| IndexDataValidator.FixedClosePops | src/tape_ops/index_validator.rs:379-386 | the corrected scan pops t for `</t>` on a matching top |
| IndexDataValidator.FixedNameThenClose | src/tape_ops/index_validator.rs:373-406 | a name then '>' is the corrected '>' step with the name gathered |
| IndexDataValidator.FixedRenderNeutral | src/tape_ops/index_validator.rs:359-418 | a well-named nested element passes the corrected scan and leaves the stack as it found it |
| IndexDataValidator.FixedRenderAllNeutral | src/tape_ops/index_validator.rs:359-418 | a run of well-named elements passes the corrected scan |
| IndexDataValidator.FixedSkipRun | src/tape_ops/index_validator.rs:402-406 | after the name, the rest of a tag's text leaves the name unchanged |
| IndexDataValidator.FixedDeclarationSkipped | src/tape_ops/index_validator.rs:375-376 | the corrected scan skips an XML declaration without touching the stack |
| IndexDataValidator.FixedDeclarationPasses | src/tape_ops/index_validator.rs:359-418 | a declaration followed by a well-named document passes the corrected scan |
| IndexDataValidator.FixedAttributePasses | src/tape_ops/index_validator.rs:359-418 | `<t a>` ... `</t>` passes the corrected scan |
| IndexDataValidator.Between | src/tape_ops/index_validator.rs:421-441 | text is found between the tags only when the opening one occurs |
| IndexDataValidator.BetweenEnclosed | src/tape_ops/index_validator.rs:421-441 | the text found lies between the opening tag and a closing tag in the document, and holds no closing tag |
| IndexDataValidator.BetweenAt | src/tape_ops/index_validator.rs:433-441 | the text read runs from the end of the first opening tag up to the first closing tag after it |
| IndexDataValidator.Enclosed | src/tape_ops/index_validator.rs:433-441 | the text after an opening tag up to the first closing tag after it is enclosed by the two |
| IndexDataValidator.NoEarlierMatch | src/tape_ops/index_validator.rs:433-441 | before the first match of a non-empty pattern the text holds no match of it |
| IndexDataValidator.ExtractLtfsVersion | src/tape_ops/index_validator.rs:421-430 | a version found is quoted as `version="v"` in the document and holds no quote |
| IndexDataValidator.ExtractVolumeUuid | src/tape_ops/index_validator.rs:433-441 | a UUID found stands between `<volumeuuid>` and `</volumeuuid>` and holds no closing tag |
| IndexDataValidator.ExtractGenerationNumber | src/tape_ops/index_validator.rs:444-453 | a number found is the u64 value of a text that stands between the generation-number tags |
| IndexDataValidator.BetweenReadsBack | src/tape_ops/index_validator.rs:433-441 | with no earlier opening tag and no closing tag inside v, the text between the tags is v |
| IndexDataValidator.GenerationNumberReadsBack | src/tape_ops/index_validator.rs:444-453 | a generation number written between its tags is read back |
| IndexDataValidator.DigitsBetween | src/tape_ops/index_validator.rs:444-453 | a run of digits between the tags is what lies between them |
| IndexDataValidator.EstimateFileCount | src/tape_ops/index_validator.rs:456-463 | none exactly when there is no `<file>`; otherwise the number of `<file>` occurrences |
| IndexDataValidator.Flag | src/tape_ops/index_validator.rs:141-155 | a failed check fails in strict mode and otherwise records exactly one error |
| IndexDataValidator.PrintableCount | src/tape_ops/index_validator.rs:165 | at most one printable byte per byte |
| IndexDataValidator.BasicData | src/tape_ops/index_validator.rs:137-174 | strict mode passes exactly data that is not all zero (empty data included); lenient mode always passes; an error is recorded exactly when the check fails; nothing else of the verdict changes |
| IndexDataValidator.XmlFormat | src/tape_ops/index_validator.rs:177-220 | strict mode passes exactly when '<' and '>' balance and the scan passes; an error is recorded exactly when one fails; the scan's success marks the XML well formed |
| IndexDataValidator.LtfsIdentifier | src/tape_ops/index_validator.rs:223-263 | strict mode passes exactly when both root tags are present; an error is recorded exactly when one is missing; "<ltfsindex" marks the identifier |
| IndexDataValidator.MissingElements | src/tape_ops/index_validator.rs:272-283 | nothing is missing exactly when volumeuuid, generationnumber, updatetime and directory each appear as `<e>` or `<e ` |
| IndexDataValidator.LtfsStructure | src/tape_ops/index_validator.rs:266-313 | strict mode passes exactly when no required element is missing; an error is recorded exactly when one is |
| IndexDataValidator.ContentIntegrity | src/tape_ops/index_validator.rs:316-356 | strict mode passes exactly when the trimmed text ends with "</ltfsindex>"; an error is recorded exactly when it does not |
| IndexDataValidator.TextChecks | src/tape_ops/index_validator.rs:108-118 | the four text checks in order: strict passes exactly when all pass, and no error is recorded exactly when all pass |
| IndexDataValidator.Validate | src/tape_ops/index_validator.rs:87-134 | lenient mode always returns a result; strict mode fails exactly when a check fails; the data is judged valid exactly when every check passes; the data size is the input's length |
| IndexDataValidator.StrictRejectsBlank | src/tape_ops/index_validator.rs:141-155 | strict mode rejects empty and all-zero data |
| IndexDataValidator.DeclaredDocumentWellFormed | src/tape_ops/index_validator.rs:204-217 | with the corrected scan a declared document is judged well formed, where the scan as written rejects it |
| IndexDataValidator.IndexValidator.constructor | src/tape_ops/index_validator.rs:61-66 | strict, without debug output |
| IndexDataValidator.IndexValidator.Lenient | src/tape_ops/index_validator.rs:69-74 | lenient, without debug output |
| IndexDataValidator.IndexValidator.SetStrictMode | src/tape_ops/index_validator.rs:77-79 | the strict switch takes the value; the debug switch is unchanged |
| IndexDataValidator.IndexValidator.SetDebugMode | src/tape_ops/index_validator.rs:82-84 | the debug switch takes the value; the strict switch is unchanged |
| IndexDataValidator.IndexValidator.ValidateIndexData | src/tape_ops/index_validator.rs:87-134 | in the object's mode: lenient always returns a result; strict fails exactly when a check fails; the data is valid exactly when every check passes; the size is the data length |
| IndexDataValidator.IsValidIndexData | src/tape_ops/index_validator.rs:525-530 | true exactly when every check passes |
| IndexWrite.NextUidNoWrap | src/tape_ops/index/write.rs:174 | below the 64-bit limit the next UID is one above the highest (0 when none) |
| IndexWrite.Step | src/tape_ops/index/write.rs:162-200 | one component: the cursor moves one level down, into an existing directory or a new one |
| IndexWrite.WalkPath | src/tape_ops/index/write.rs:162-205 | the cursor moves one level down per component |
| IndexWrite.EnsureDirectoryPathExists | src/tape_ops/index/write.rs:129-211 | the loop reaches the walk's tree, cursor and highest UID, all else of the index kept |
| IndexWrite.LookupPath | src/tape_ops/index/write.rs:214-239 | a found cursor names a directory of the tree |
| IndexWrite.GetDirectoryByPath | src/tape_ops/index/write.rs:214-239 | the loop reaches the lookup's result |
| IndexWrite.LookupErrorSticks | src/tape_ops/index/write.rs:225-236 | once a prefix of the path fails, the whole lookup fails with the same error |
| IndexWrite.LookupResolve | src/tape_ops/index/write.rs:214-239 | the lookup succeeds exactly when the path resolves, at the same cursor |
| IndexWrite.LookupError | src/tape_ops/index/write.rs:230-233 | a failed lookup names the first component that does not resolve: "Directory '<part>' not found in path" |
| IndexWrite.TrimSlashesSpec | src/tape_ops/index/write.rs:67 | the trimmed path has no '/' at either end and is a slice of the input with only '/' removed |
| IndexWrite.AddFileToTargetDirectory | src/tape_ops/index/write.rs:55-126 | the method reaches the add's specification |
| IndexWrite.WalkResolves | src/tape_ops/index/write.rs:129-211 | after the walk, the path resolves to the walk's cursor |
| IndexWrite.WalkExisting | src/tape_ops/index/write.rs:177-181 | existing directories are followed, never recreated, and use no UID |
| IndexWrite.StepCreates | src/tape_ops/index/write.rs:182-200 | a missing component becomes a new empty directory with the next UID, and the cursor points at it |
| IndexWrite.StepKeeps | src/tape_ops/index/write.rs:162-200 | a step keeps every directory of the tree where it was, with its UID |
| IndexWrite.WalkCreates | src/tape_ops/index/write.rs:162-205 | past the first missing component the walk creates the rest with UIDs base+1, base+2, ... in path order, ending at the highest UID |
| IndexWrite.ChainStep | src/tape_ops/index/write.rs:174-193 | creating the next component extends the chain of created UIDs by one |
| IndexWrite.NewDirectoryUids | src/tape_ops/index/write.rs:176-191 | a new directory holds exactly one UID, its own |
| IndexWrite.WalkKeepsUids | src/tape_ops/index/write.rs:129-211 | distinct UIDs bounded by the highest stay distinct and bounded by the new highest |
| IndexWrite.AddFileToRoot | src/tape_ops/index/write.rs:70-88 | an empty or all-'/' target puts the file at the end of the root's files with the next UID |
| IndexWrite.AddFileSucceeds | src/tape_ops/index/write.rs:96-118 | the walk always reaches the target, so the add never fails |
| IndexWrite.AddFilePlacement | src/tape_ops/index/write.rs:89-126 | the file, with the UID after the walk's highest, is appended to the files of the directory the path resolves to |
| IndexWrite.AddFileExistingPath | src/tape_ops/index/write.rs:89-126 | along an existing path only the file uses a UID, and nothing else changes in the tree's shape |
| IndexWrite.AddFileUidOrder | src/tape_ops/index/write.rs:96-108 | the directories created get consecutive UIDs in path order and the file gets the next |
| IndexWrite.ChainAfterFile | src/tape_ops/index/write.rs:117 | appending a file keeps a chain of UIDs |
| IndexWrite.AppendFileAtKeeps | src/tape_ops/index/write.rs:117 | appending a file keeps every directory where it was, with its UID |
| IndexWrite.AddFileToRootKeepsUids | src/tape_ops/index/write.rs:70-88 | adding to the root keeps UIDs distinct and bounded by the new highest |
| IndexWrite.AddFileToPathKeepsUids | src/tape_ops/index/write.rs:89-126 | adding along a path keeps UIDs distinct and bounded by the new highest |
| IndexWrite.AddFileKeepsUids | src/tape_ops/index/write.rs:55-126 | no duplicate UIDs: distinct and bounded before the add stay distinct and bounded after, the file's UID being the new highest |
| IndexWrite.AddFileLands | src/tape_ops/index/write.rs:55-126 | the added file is the last file of the directory its target names, with the new highest UID |
| IndexWrite.ExamplePath | src/tape_ops/index/write.rs:67-91 | "/a/b" splits into "a" and "b" |
| IndexWrite.ExampleWalk | src/tape_ops/index/write.rs:129-211 | on a fresh index the walk over "a", "b" creates a with UID 2 and b with UID 3 |
| IndexWrite.ExampleAppend | src/tape_ops/index/write.rs:117 | appending at a cursor changes only the files of that directory |
| IndexWrite.AddFileExample | src/tape_ops/index/write.rs:55-126 | adding at "/a/b" to a fresh index creates a (UID 2) and b (UID 3) and gives the file UID 4 |
| IndexWrite.WriteExtent | src/tape_ops/index/write.rs:281-291 | one extent at the write position for the whole file: partition "a" exactly when the write was on partition 0, "b" otherwise |
| IndexWrite.HashXattrs | src/tape_ops/index/write.rs:330-346 | the hashes as extended attributes in the order given, then the capacity placeholder "12" |
| IndexWrite.CreateNewIndex | src/tape_ops/index/write.rs:16-51 | generation 1 on data partition "b" with the given UUID; an empty root with UID 1 and highest UID 1, so the UID invariant holds |
| IndexWrite.UpdateIndexForFileWrite | src/tape_ops/index/write.rs:385-461 | always succeeds and returns the new index: the update time is now, a UID is allocated and the generation goes up by one (mod 2^64) from the current index, or to 2 on a fresh one; storing it as `index` is not modelled (see Left out) |
| IndexWrite.UpdateIndexForFileWriteEnhanced | src/tape_ops/index/write.rs:249-382 | fails exactly when the source metadata cannot be read, with a file-operation error "Cannot get file metadata: ..."; when it can, returns the new index: its update time is now, a UID is allocated, and the generation goes up by one (mod 2^64) from the current index, or to 2 on a fresh one; storing it as `index` and `schema` and setting `modified` are not modelled (see Left out) |
| IndexWrite.CommitWriteSpec | src/tape_ops/index/write.rs:366-373 | a committed write raises the generation by one (mod 2^64), stamps the time, lands the file with its extent and the new UID, and keeps the UID invariant |
| IndexWrite.CommitWriteShape | src/tape_ops/index/write.rs:366-373 | the commit is the add followed by the generation bump and the time stamp; the add leaves the generation alone |
| IndexWrite.UpdateOnFreshIndex | src/tape_ops/index/write.rs:385-461 | a basic write into a fresh index succeeds at generation 2 and records the file with its one extent |
| Ltfs.CheckAvailableSpace | src/ltfs.rs:284-308 | a failed capacity query is passed on; otherwise true exactly when the available bytes cover the request plus a tenth of it |
| Ltfs.SpaceCheckCoversRequest | src/ltfs.rs:290-300 | without wrap-around the check passes exactly when the available bytes cover the request plus its margin, and a pass implies room for the request itself |
| Ltfs.PartitionId | src/ltfs.rs:628-634 | "a"/"A" is partition 0, "b"/"B" partition 1, anything else none |
| Ltfs.Fill | src/ltfs.rs:639 | the buffer has the block count's size: the drive's bytes first, zeros after |
| Ltfs.SpanOf | src/ltfs.rs:621-624 | the in-block offset is below the block size, and the blocks asked for hold at most one block less a byte beyond the request |
| Ltfs.SpanCovers | src/ltfs.rs:621-624 | the span starts at the block holding the requested byte and takes the fewest blocks that cover the request |
| Ltfs.DivBounds | src/ltfs.rs:621-624 | quotient and remainder of a division by the block size bracket the value |
| Ltfs.ReadExtentData | src/ltfs.rs:617-655 | an unknown partition letter is "Unknown partition: ..."; a result is exactly length bytes and comes only after the drive read every block asked for |
| Ltfs.ExtentReadSucceeds | src/ltfs.rs:617-655 | the read succeeds exactly when the letter is known and the drive reads every block asked for; the bytes are the requested run of the filled buffer |
| Ltfs.ReadOfFullReply | src/ltfs.rs:641-654 | when the drive fills the whole buffer the read is the requested run of it |
| Ltfs.ExtentReadFromImage | src/ltfs.rs:617-655 | for an ideal drive only (see Left out): played back from a tape image, the read returns the length bytes stored offset bytes past the extent's start on its partition |
| Ltfs.SliceOfSlice | src/ltfs.rs:654 | a slice of a slice is one slice of the whole |
| Ltfs.ReadStart | src/ltfs.rs:486 | the read starts at the later of the request's start and the extent's start |
| Ltfs.ReadEnd | src/ltfs.rs:488 | the read stops at the earlier of the extent's end and the request's end, and reads nothing from an extent starting at or past the end |
| Ltfs.ReadEndAsWritten | src/ltfs.rs:488 | at most the extent's length, and equal to the corrected end whenever the extent starts at or before the request's end |
| Ltfs.ExtentPastEndIsReadWhole | src/ltfs.rs:488 | an extent at file offset 100 of 10 bytes: the source reads all 10 for a request ending at 5, where the corrected end reads none |
| Ltfs.ContentStep | src/ltfs.rs:470-494 | one turn of the extent loop: the content from extent i on is its piece followed by the rest |
| Ltfs.ReadFileContent | src/ltfs.rs:450-500 | symlinks and files without extents are refused with their messages; a start at or past the length gives no bytes; otherwise the content of the sorted extents over the request |
| Ltfs.ReadExtents | src/ltfs.rs:468-495 | the loop over the sorted extents reaches the content specification |
| Ltfs.ExtentPiece | src/ltfs.rs:474-494 | the loop body reaches the piece specification for one extent |
| Ltfs.SortedFit | src/ltfs.rs:462 | sorting keeps the extents, so each still fits the machine word |
| Ltfs.TileEnd | src/ltfs.rs:470-495 | a tiling ends no earlier than it starts |
| Ltfs.OverlapSplit | src/ltfs.rs:470-495 | the overlap of the request with a range is the sum over its two halves |
| Ltfs.PieceLength | src/ltfs.rs:484-491 | a piece read from an extent starting before the end is the extent's overlap with the request |
| Ltfs.TiledContentLength | src/ltfs.rs:470-495 | over extents that tile a range, the content has as many bytes as the request shares with the range |
| Ltfs.ContiguousFileRead | src/ltfs.rs:450-500 | reading [start, end) of a file whose extents tile it yields exactly end - start bytes |
| Ltfs.FindXmlEnd | src/ltfs.rs:683-698 | found exactly when the buffer holds a '>'; the first "</ltfsindex>" end when there is one, else one past the last '>' |
| LtfsUtils.FindXmlEnd | src/ltfs/utils.rs:4-15 | found exactly when the buffer holds "</ltfsindex>"; the position just past its first occurrence |
| LtfsUtils.NoSlashNoEnd | src/ltfs/utils.rs:54-58 | a buffer without '/' has no end tag |
| LtfsUtils.EndAfterSlashFreePrefix | src/ltfs/utils.rs:46-51 | a prefix without '/' followed by the tag ends at the buffer's end |
| ScsiModePages.PageCode | src/scsi/mod.rs:2612 | the page code is the byte without its top two bits (below 64) |
| ScsiModePages.MediumConfigurationPage | src/scsi/mod.rs:2638-2693 | shorter than 16 bytes is "too short", 16-23 bytes "insufficient data", otherwise partition 0's size is bytes 8-15 and partition 1's bytes 16-23, big-endian |
| ScsiModePages.ScanPages | src/scsi/mod.rs:2610-2630 | the first page along the walk (code at offset, length at offset + 1, step length + 2, while offset < len - 1) whose code is 1Dh |
| ScsiModePages.ParsePartitionInfo | src/scsi/mod.rs:2589-2635 | the while loop returns what the page walk and `MediumConfigurationPage` give, with the header errors first |
| ScsiModePages.PartitionInfoOkShape | src/scsi/mod.rs:2589-2635 | success needs a sound header and a reachable Medium Configuration page that fits and has at least 24 bytes; the sizes are its bytes 8-15 and 16-23 |
| ScsiModePages.PartitionInfoOkWhen | src/scsi/mod.rs:2589-2635 | conversely such a reply is accepted |
| ScsiModePages.ShortReplyRefused | src/scsi/mod.rs:2600-2607 | a reply shorter than its declared mode data length plus 2 is refused |
| ScsiModePages.ScanNoneWhenAbsent | src/scsi/mod.rs:2610-2634 | a walk that meets no Medium Configuration page finds nothing |
| ScsiModePages.FirstPageSizes | src/scsi/mod.rs:2610-2685 | with a 24-byte Medium Configuration page first, the sizes are reply bytes 16-23 and 24-31 |
| ScsiModePages.NulEnd | src/scsi/mod.rs:2786 | the index of the first NUL byte, or the length when there is none |
| ScsiModePages.BytesToStringTrimmed | src/scsi/mod.rs:2785-2788 | the text neither starts nor ends with white space |
| ScsiModePages.BytesAfterNulIgnored | src/scsi/mod.rs:2786-2787 | bytes after the first NUL have no effect |
| ScsiModePages.AsciiBytesToString | src/scsi/mod.rs:2785-2788 | ASCII bytes without NUL and surrounding blanks read as the same characters |
| CapacityManager.EntryValue | src/tape_ops/capacity_manager.rs:82-137 | a value running past the page gives a u32 from four available bytes or 0; otherwise length ≥ 8 a big-endian u64, 4-7 a u32, shorter 0 |
| CapacityManager.CapacityValue | src/tape_ops/capacity_manager.rs:47-151 | pages shorter than 4 bytes read as 0; otherwise the value of the first entry with the code, or 0 |
| CapacityManager.ExtractCapacityValue | src/tape_ops/capacity_manager.rs:47-151 | the while loop returns `CapacityValue` |
| CapacityManager.AbsentCodeReadsZero | src/tape_ops/capacity_manager.rs:62-150 | a code that no entry carries reads as 0 |
| CapacityManager.EntryDecodes | src/tape_ops/capacity_manager.rs:74-78 | the header of an encoded entry decodes to its code, length 8 and value |
| CapacityManager.ScanEncoded | src/tape_ops/capacity_manager.rs:62-147 | over encoded entries running to the end of the page, the walk finds the first entry with the code |
| CapacityManager.ScanStep | src/tape_ops/capacity_manager.rs:64-146 | at an encoded entry the walk stops with its value on a match and moves 12 bytes on otherwise |
| CapacityManager.CapacityPageReadsBack | src/tape_ops/capacity_manager.rs:47-151 | a page written with 12-byte entries reads back, for any code, the value of its first entry, or 0 |
| CapacityManager.PartitionCodes | src/tape_ops/capacity_manager.rs:29-44 | partitions 0 and 1 read remaining capacity from codes 1 and 2 and maximum capacity from codes 3 and 4 |
| LtfsIndexParser.DeclarationFirst | src/ltfs_index/parser.rs:68-71 | the section afterwards starts with an XML declaration and ends with the original section; a section with one is unchanged |
| LtfsIndexParser.ExtractSectionWith | src/ltfs_index/parser.rs:56-92 | corrected (see Findings): the extraction fails exactly when there is no opening tag, with the parse error "No LTFS index section found in XML content" |
| LtfsIndexParser.ExtractSection | src/ltfs_index/parser.rs:56-92 | corrected (see Findings): fails exactly when there is no `<ltfsindex` tag, with the parse error "No LTFS index section found in XML content" |
| LtfsIndexParser.ExtractPanicsIff | src/ltfs_index/parser.rs:60-66 | as written, the slice panics exactly when the first closing tag ends before the first opening tag |
| LtfsIndexParser.ExtractPanicExample | src/ltfs_index/parser.rs:60-66 | "</ltfsindex> <ltfsindex>" makes the extraction as written panic |
| LtfsIndexParser.ExtractSectionShape | src/ltfs_index/parser.rs:60-79 | the section cut out runs from the opening tag through the closing tag after it |
| LtfsIndexParser.SectionValue | src/ltfs_index/parser.rs:60-79 | with both tags found, the result is the declared section between them |
| LtfsIndexParser.SectionBounds | src/ltfs_index/parser.rs:62-66 | the cut lies within the text and is not empty |
| LtfsIndexParser.DeclarationAlwaysAdded | src/ltfs_index/parser.rs:69-71 | a section starting with "<ltfsindex" always gets the declaration and a newline in front |
| LtfsIndexParser.ExtractedSection | src/ltfs_index/parser.rs:56-92 | the extracted section is the declaration, a newline and the text from "<ltfsindex" through the next "</ltfsindex>" |
| LtfsIndexParser.ExtractSectionWhole | src/ltfs_index/parser.rs:84-87 | corrected (see Findings): with an opening tag but no closing tag after it, the whole text is taken |
| LtfsIndexParser.ExtractAgrees | src/ltfs_index/parser.rs:56-92 | when the first closing tag is not before the first opening tag, the extraction as written does not panic and agrees with the corrected one |
| LtfsIndexParser.ParseSection | src/ltfs_index/parser.rs:17-49 | the steps after the extraction: every failure is a parse error |
| LtfsIndexParser.FromXml | src/ltfs_index/parser.rs:11-50 | corrected (see Findings): every failure is a parse error; it never panics |
| LtfsIndexParser.FromXmlSteps | src/ltfs_index/parser.rs:11-50 | corrected (see Findings): the parse succeeds exactly when extraction, the structure check and deserialisation succeed and the index is valid, and it returns the deserialised index |
| LtfsIndexParser.FromXmlNoIndex | src/ltfs_index/parser.rs:11-15 | text without "<ltfsindex" fails with the no-section error before deserialisation |
| LtfsIndexParser.FromXmlAsWritten | src/ltfs_index/parser.rs:11-50 | the parse as written: it panics where the extraction as written panics, and where the deserialiser fails and byte min(1000, length) of the section falls inside a character; whenever it returns an error, that is a parse error |
| LtfsIndexParser.OnBoundaryIff | src/ltfs_index/parser.rs:33 | byte n is off a character boundary exactly when no prefix of the characters takes exactly n bytes |
| LtfsIndexParser.PreviewSafe | src/ltfs_index/parser.rs:33 | the preview slice never splits a character of ASCII text, nor of a section of at most 1000 bytes |
| LtfsIndexParser.SplitCharOffBoundary | src/ltfs_index/parser.rs:33 | 999 bytes followed by "é" put byte 1000 inside that character |
| LtfsIndexParser.PreviewPanics | src/ltfs_index/parser.rs:22-36 | a section that passes the structure check, fails to deserialise and has "é" across byte 1000 makes the parse as written panic |
| LtfsIndexParser.FromXmlTagOrderPanics | src/ltfs_index/parser.rs:60-66 | "</ltfsindex> <ltfsindex>" makes the whole parse as written panic |
| LtfsIndexParser.ExtractAsWrittenAgrees | src/ltfs_index/parser.rs:56-92 | with no closing tag before the first opening tag, the extraction as written returns what the corrected one does |
| LtfsIndexParser.FromXmlAgrees | src/ltfs_index/parser.rs:11-92 | with no closing tag before the first opening tag, the parse as written, whenever it returns, returns what `FromXml` does |
| Performance.RemoveKeyCard | src/ltfs/performance.rs:112 | taking a present key out of the cache leaves one entry fewer |
| Performance.TotalRemove | src/ltfs/performance.rs:167-168 | taking one entry out takes exactly its bytes out of the total |
| Performance.TotalStore | src/ltfs/performance.rs:139-146 | storing under a key adds the new bytes to the total of the other entries |
| Performance.NothingUnevictable | src/ltfs/performance.rs:152-180 | when every entry could be evicted, no entry is left that cannot |
| Performance.LtfsPerformanceCache.WithConfig | src/ltfs/performance.rs:93-101 | an empty cache with the given configuration, no bytes, no hits, no misses |
| Performance.LtfsPerformanceCache.EvictLru | src/ltfs/performance.rs:152-180 | false only when no entry can be taken (the empty cache included), and then nothing changes; otherwise one entry that is oldest, then least accessed, is removed and its bytes come off the counter |
| Performance.LtfsPerformanceCache.CleanupExpired | src/ltfs/performance.rs:183-198 | exactly the expired entries are removed, and the counter keeps matching the bytes held |
| Performance.LtfsPerformanceCache.Get | src/ltfs/performance.rs:104-123 | corrected (see Findings): a hit exactly when the key is present and fresh: its data, one more access, one more hit; otherwise a miss and the key is gone; only expired entries disappear, and the counter keeps matching the bytes held |
| Performance.LtfsPerformanceCache.GetAsWritten | src/ltfs/performance.rs:104-123 | as written: the same hits and misses, but an expired entry removed by the lookup leaves its bytes on the counter |
| Performance.LtfsPerformanceCache.Put | src/ltfs/performance.rs:126-149 | evicts oldest-first until the data fits; when nothing more can be evicted nothing is stored; otherwise the entry under the key is replaced by the new one; data larger than the cache is never stored |
| Performance.LtfsPerformanceCache.Store | src/ltfs/performance.rs:138-146 | once the data fits, the entry under the key is replaced and the counter follows |
| Performance.LtfsPerformanceCache.Clear | src/ltfs/performance.rs:220-226 | no entries, no bytes, no hits and no misses |
| Performance.LtfsPerformanceCache.GetStats | src/ltfs/performance.rs:201-217 | the entry count, the byte counter and the limit, the hit count and the miss count each as counted; the bytes never pass the limit |
| Performance.Unexpired | src/ltfs/performance.rs:183-198 | exactly the entries that have not expired, unchanged |
| Performance.ExpiredGetBlocksPut | src/ltfs/performance.rs:104-149 | as written, after a lookup of an expired 100-byte entry empties a 100-byte cache, a one-byte entry can no longer be stored |
| Performance.ExpiredGetThenPut | src/ltfs/performance.rs:104-149 | with the corrected lookup the same calls store the one-byte entry |
| Performance.Rank | src/ltfs/performance.rs:298-312 | the priority's discriminant, 0 to 3 |
| Performance.ReadQueueOrder | src/ltfs/performance.rs:396-415 | in an ordered read queue no request waits behind one of lower priority, and within a priority one file's requests come in offset order |
| Performance.WriteQueueOrder | src/ltfs/performance.rs:418-425 | in an ordered write queue no request waits behind one of lower priority |
| Performance.ReadStamps | src/ltfs/performance.rs:428-439 | the read requests' queueing times, in queue order |
| Performance.WriteStamps | src/ltfs/performance.rs:428-439 | the write requests' queueing times, in queue order |
| Performance.OldestWait | src/ltfs/performance.rs:428-439 | the longest wait of any request, zero for an empty queue |
| Performance.FrontWaitUnderReports | src/ltfs/performance.rs:433-438 | the front request's wait, which the source reports, never exceeds the longest wait |
| Performance.FrontWaitMissesOldest | src/ltfs/performance.rs:433-438 | a high-priority request sorted in front of an older low-priority one hides the longer wait |
| Performance.TakeFront | src/ltfs/performance.rs:366-378 | the batch is the first min(size, length) requests and the rest is what follows |
| Performance.BatchOperationManager.WithConfig | src/ltfs/performance.rs:321-327 | both queues empty |
| Performance.BatchOperationManager.QueueRead | src/ltfs/performance.rs:330-337 | the request joins the queue, which is sorted again: a permutation of the old queue plus the request, in order |
| Performance.BatchOperationManager.QueueWrite | src/ltfs/performance.rs:340-347 | the request joins the queue, which is sorted again: a permutation of the old queue plus the request, in order |
| Performance.BatchOperationManager.ShouldProcessBatch | src/ltfs/performance.rs:350-363 | true exactly when either queue holds the minimum batch or the request at the front of either queue has waited longer than allowed; with both queues empty, only when the minimum is zero |
| Performance.BatchOperationManager.GetReadBatch | src/ltfs/performance.rs:366-378 | up to the maximum batch size of requests from the front; the queue keeps the rest, and no request left behind outranks one taken |
| Performance.BatchOperationManager.GetWriteBatch | src/ltfs/performance.rs:381-393 | up to the maximum batch size of requests from the front; the queue keeps the rest, and no request left behind outranks one taken |
| Performance.BatchOperationManager.GetQueueStats | src/ltfs/performance.rs:428-439 | the queue lengths and, corrected, the longest wait in each queue: no request has waited longer, and some queued request has waited exactly that long (zero for an empty queue) |
| ScsiPositioning.AddCode | src/scsi/mod.rs:1628 | the additional sense code is ASC·256 + ASCQ of sense bytes 12 and 13 |
| ScsiPositioning.LocateBlockCdb | src/scsi/mod.rs:1206-1228 | LOCATE(10) of `locate_block`: opcode 2Bh, byte 1 is 02h, or 03h with the partition in byte 2 when the partition is not 0; the low 32 address bits big-endian in bytes 4-7 |
| ScsiPositioning.BuildLocateBlockCdb | src/scsi/mod.rs:1206-1228 | the array the driver fills holds exactly `LocateBlockCdb` |
| ScsiPositioning.SpaceCdb | src/scsi/mod.rs:1264-1282 | SPACE(6): the space code in byte 1, end of data always with count 1, the count's low 24 bits (two's complement) in bytes 2-4 |
| ScsiPositioning.BuildSpaceCdb | src/scsi/mod.rs:1264-1282 | the array the driver fills holds exactly `SpaceCdb` |
| ScsiPositioning.Space6Field | src/scsi/mod.rs:1599-1615 | a negative count is written as the 24-bit two's complement of its magnitude |
| ScsiPositioning.Space6Cdb | src/scsi/mod.rs:1599-1615 | SPACE(6) of `space6`: the caller's code in byte 1 and the 24-bit count in bytes 2-4 |
| ScsiPositioning.BuildSpace6Cdb | src/scsi/mod.rs:1599-1615 | the array the driver fills holds exactly `Space6Cdb` |
| ScsiPositioning.SpaceAgreesWithSpace6 | src/scsi/mod.rs:1256-1311 | `space(Blocks, n)` and `space6(n, 0)` send the same six bytes, negative counts included |
| ScsiPositioning.Signed24RoundTrip | src/scsi/mod.rs:1599-1615 | a count in the 24-bit range is read back unchanged by the drive's signed reading of bytes 2-4 |
| ScsiPositioning.Locate16Cdb | src/scsi/mod.rs:2094-2108 | LOCATE(16): destination type in bits 3-5 and CP in bit 1 of byte 1, partition in byte 3, 64-bit address big-endian in bytes 4-11 |
| ScsiPositioning.Locate16Mode | src/scsi/mod.rs:2096 | byte 1 is the destination type shifted left by 3, OR the CP flag shifted left by 1 |
| ScsiPositioning.BuildLocate16Cdb | src/scsi/mod.rs:2094-2108 | the array the driver fills holds exactly `Locate16Cdb` |
| ScsiPositioning.PutBe64 | src/scsi/mod.rs:2101-2108 | bytes at..at+7 receive the 64-bit address most significant byte first; nothing else changes |
| ScsiPositioning.Locate10Cdb | src/scsi/mod.rs:2113-2123 | LOCATE(10) of `locate_standard`: byte 1 clear, the low 32 address bits in bytes 3-6 |
| ScsiPositioning.BuildLocate10Cdb | src/scsi/mod.rs:2113-2123 | the array the driver fills holds exactly `Locate10Cdb` |
| ScsiPositioning.RetryCdb | src/scsi/mod.rs:2291-2310 | the retry LOCATE(10) takes bytes 8-11 of the failed LOCATE(16) into bytes 3-6 and `(cdb[1] & 7) << 3` into byte 1 |
| ScsiPositioning.BuildRetryCdb | src/scsi/mod.rs:2291-2310 | the array the driver fills holds exactly `RetryCdb` |
| ScsiPositioning.Slr1LocateCdb | src/scsi/mod.rs:2188-2235 | the SLR1 locate (opcode 0Ch) carries the low 20 address bits in bytes 2-4 |
| ScsiPositioning.Mod20 | src/scsi/mod.rs:2198-2202 | bits 16-19, 8-15 and 0-7 put together are the address modulo 2^20 |
| ScsiPositioning.Slr3LocateCdb | src/scsi/mod.rs:2133-2184 | the SLR3 LOCATE(10) has byte 1 = 4 and the low 32 address bits in bytes 3-6 |
| ScsiPositioning.DecodePosition | src/scsi/mod.rs:1394-1429 | the long-form reply gives partition (bytes 4-7 cut to 8 bits), block (8-15), file (16-23), set (24-31), the end-of-data flag from bit 04h of byte 0 and the beginning-of-partition flag from bit 08h |
| ScsiPositioning.ReadPosition | src/scsi/mod.rs:1314-1467 | succeeds exactly when READ POSITION is delivered; the tape is where the drive left it; a failure is a SCSI error |
| ScsiPositioning.Space | src/scsi/mod.rs:1256-1311 | succeeds exactly when the SPACE(6) is delivered; the tape is where the drive left it; a failure is a SCSI error |
| ScsiPositioning.Space6 | src/scsi/mod.rs:1594-1643 | succeeds exactly when the SPACE(6) is delivered; the tape is where the drive left it; a failure is a SCSI error |
| ScsiPositioning.Locate | src/scsi/mod.rs:2004-2052 | every failure of the locate of any drive type is a SCSI error |
| ScsiPositioning.LocateStandard | src/scsi/mod.rs:2056-2129 | every failure is a SCSI error |
| ScsiPositioning.LocateSlr | src/scsi/mod.rs:2133-2235 | every failure is a SCSI error |
| ScsiPositioning.ExecuteLocateCommand | src/scsi/mod.rs:2239-2272 | an undelivered command fails; every failure is a SCSI error |
| ScsiPositioning.LocateBlock | src/scsi/mod.rs:1206-1253 | succeeds exactly when the command is delivered; the tape is where the drive left it; a failure is a SCSI error |
| ScsiPositioning.LocateToFilemark | src/scsi/mod.rs:2346-2361 | succeeds only after the locate to block 0 succeeded; a failure is a SCSI error |
| ScsiPositioning.LocateToEod | src/scsi/mod.rs:2364-2367 | succeeds exactly when the locate to end of data does, leaving the tape where it left it; a failure is a SCSI error |
| ScsiPositioning.ShiftInField | src/scsi/mod.rs:1395-1419 | the shift-and-OR loop leaves the big-endian value of the field, modulo the integer width |
| ScsiPositioning.ShiftStep | src/scsi/mod.rs:1396-1397 | one step shifts without wrapping and appends the next byte |
| ScsiPositioning.DecodePositionBuffer | src/scsi/mod.rs:1394-1429 | the loop-by-loop decoding equals `DecodePosition` |
| ScsiPositioning.ReadPositionExecutes | src/scsi/mod.rs:1314-1393 | the drive answers READ POSITION with its own position and does not move |
| ScsiPositioning.DecodePositionData | src/scsi/mod.rs:1394-1429 | the reply decodes to the drive's partition (low 8 bits), block and file number |
| ScsiPositioning.ReadPositionReports | src/scsi/mod.rs:1314-1467 | READ POSITION reports partition (low 8 bits), block and file number and leaves the tape unchanged |
| ScsiPositioning.RetryLocateOnError | src/scsi/mod.rs:2276-2343 | a failed LOCATE(16) is resent as LOCATE(10) and its new code reported; any other command fails with the first code |
| ScsiPositioning.NeedsRetryIff | src/scsi/mod.rs:2239-2272 | a retry happens exactly for a nonzero additional sense code other than BLANK CHECK |
| ScsiPositioning.Locate16Executes | src/scsi/mod.rs:2094-2110 | the drive executes LOCATE(16) as the CDB reads |
| ScsiPositioning.Locate10Executes | src/scsi/mod.rs:2113-2125 | the drive executes LOCATE(10) as the CDB reads |
| ScsiPositioning.NoRetryOnGood | src/scsi/mod.rs:2239-2272 | a locate that completes with code 0000h or BLANK CHECK is not retried |
| ScsiPositioning.Locate16Path | src/scsi/mod.rs:2085-2110 | on a standard drive LOCATE(16) is sent for a block when partitions are allowed and always for end of data, CP set exactly when the reported partition differs |
| ScsiPositioning.Locate10Path | src/scsi/mod.rs:2111-2126 | otherwise LOCATE(10) is sent and the position is not read |
| ScsiPositioning.Locate16Target | src/scsi/mod.rs:2085-2110 | with at most 256 partitions LOCATE(16) moves to the partition it names |
| ScsiPositioning.LocateBlockAllowed | src/scsi/mod.rs:2004-2129 | with partitions allowed a block locate lands on the requested block of the requested partition |
| ScsiPositioning.LocateBlockSinglePartition | src/scsi/mod.rs:2111-2126 | without partitions a block locate stays in the current partition at the low 32 address bits |
| ScsiPositioning.LocateEodLands | src/scsi/mod.rs:2364-2367 | a locate to end of data uses LOCATE(16) and ends at the end of the requested partition |
| ScsiPositioning.SpaceFileMarksExecutes | src/scsi/mod.rs:1256-1311 | spacing over n filemarks from block 0 ends just past the n-th filemark |
| ScsiPositioning.LocateToFilemarkLands | src/scsi/mod.rs:2346-2361 | `locate_to_filemark` ends just past the n-th filemark of the partition |
| ScsiPositioning.LocateFileMarkLands | src/scsi/mod.rs:2067-2082 | a filemark locate goes to block 0 and spaces forward, ending where `locate_to_filemark` does |
| ScsiPositioning.ReadFileMark | src/scsi/mod.rs:1647-1725 | as written: READ(6) of one block into a 64 KiB buffer; only an undelivered request counts as a filemark; otherwise the tape is backed up one block |
| ScsiPositioning.ReadFileMarkFixed | src/scsi/mod.rs:1647-1725 | corrected: an empty transfer means a filemark or end of data, and only a data block is backed over |
| ScsiPositioning.ReadOneExecutes | src/scsi/mod.rs:1654-1663 | the READ(6) probe moves past the record it reads and transfers data only from a data block |
| ScsiPositioning.Space6BackOne | src/scsi/mod.rs:1706 | SPACE(6) one block back moves back one record |
| ScsiPositioning.BackUpOneSteps | src/scsi/mod.rs:1688-1707 | the back-up step returns to the previous block on a standard drive in either mode |
| ScsiPositioning.BackUpByLocate | src/scsi/mod.rs:1688-1702 | backing up by locate returns to the previous block |
| ScsiPositioning.BackUpBySpace | src/scsi/mod.rs:1703-1707 | backing up by SPACE(6) -1 returns to the previous block |
| ScsiPositioning.BackUpAfterReadSteps | src/scsi/mod.rs:1681-1716 | after a read, the position reads around the back-up step leave the tape on the previous block |
| ScsiPositioning.ReadFileMarkOnData | src/scsi/mod.rs:1647-1725 | over a data block both versions report false and leave the tape where it was |
| ScsiPositioning.ReadFileMarkMissesFileMark | src/scsi/mod.rs:1657-1716 | as written, a filemark under the head is reported as no filemark and the tape is put back in front of it |
| ScsiPositioning.ReadFileMarkAtEndMoves | src/scsi/mod.rs:1657-1716 | as written, at end of data the probe backs the tape up one block |
| ScsiPositioning.ReadFileMarkFixedSkips | src/scsi/mod.rs:1647-1725 | corrected, a filemark is skipped and reported, and end of data reports true without moving |
| ScsiPositioning.LocateBlockAsWritten | src/scsi/mod.rs:1212-1225 | as written, CP is set, the partition field (byte 8) stays 0 and the address is one byte too far right: the drive goes to partition 0, block `block >> 8` |
| ScsiPositioning.LocateBlockCdbFields | src/scsi/mod.rs:1212-1225 | a drive reads the CDB as CP set, partition 0, address `block >> 8` |
| ScsiPositioning.LocateBlockPartitionOneExample | src/tape_ops/data_partition_reader.rs:93 | the call `locate_block(1, 38)` lands on block 0 of partition 0 |
| ScsiPositioning.LocateBlockFixedCdb | src/scsi/mod.rs:1206-1228 | corrected LOCATE(10): CP in byte 1, address in bytes 3-6, partition in byte 8 |
| ScsiPositioning.LocateBlockFixedLands | src/scsi/mod.rs:1206-1253 | corrected, the locate lands on the requested block (low 32 bits) of the requested partition |
| ScsiPositioning.Locate16LowAddress | src/scsi/mod.rs:2101-2108 | bytes 8-11 of LOCATE(16) hold the low 32 address bits |
| ScsiPositioning.RetryDropsPartition | src/scsi/mod.rs:2291-2310 | as written, the retry keeps the low 32 address bits but drops CP, partition and destination type: a block locate in the current partition |
| ScsiPositioning.RetryFields | src/scsi/mod.rs:2291-2310 | the fields a drive reads from the retry CDB |
| ScsiPositioning.RetryCdbFixed | src/scsi/mod.rs:2291-2310 | corrected retry: CP and the partition carried over to their LOCATE(10) places |
| ScsiPositioning.RetryFixedAgrees | src/scsi/mod.rs:2276-2343 | corrected, the retry of a block LOCATE(16) with a 32-bit address does what the original asked |
| ScsiPositioning.RetryFixedFields | src/scsi/mod.rs:2291-2310 | the fields a drive reads from the corrected retry CDB |
| ScsiPositioning.RetryFixedAddress | src/scsi/mod.rs:2291-2310 | the corrected retry carries the low 32 address bits |
| IndexRead.FromSchemaText | src/tape_ops/index_io/read.rs:580-638 | succeeds exactly when the text without NULs takes at least 20 bytes and, with the wrapper tags dropped and "%25" unescaped, names one of "ltfsindex", "directory" or "file"; the result is that normalised text; failures are index errors, whose messages give the byte counts |
| IndexRead.UnwrappedClean | src/tape_ops/index_io/read.rs:593-619 | the normalised text holds no NUL and is never longer than the input |
| IndexRead.StandardTextUnchanged | src/tape_ops/index_io/read.rs:580-638 | a standard index without NULs, wrapper tags or "%25" comes back unchanged |
| IndexRead.EodTarget | src/tape_ops/index_io/read.rs:336-355 | a target exists exactly when the end-of-data file number exceeds 1; it is at least 1 and, off the index partition, before the last filemark |
| IndexRead.LatestIndexFromEod | src/tape_ops/index_io/read.rs:305-413 | a failed first locate is passed on and a failed end-of-data locate is an index error; a latest index is returned only after every positioning step succeeded past filemark 1; it is the text read at filemark 3 on partition 0 and at the filemark before the last elsewhere, and it holds both index tags |
| IndexRead.DataPartitionReadsLastIndex | src/tape_ops/index_io/read.rs:347-381 | on a data partition the index read is the one at the filemark before the last |
| IndexRead.Fit | src/tape_ops/index_io/read.rs:451-454 | the block buffer keeps its size: the drive's bytes first, zeros after |
| IndexRead.ReadLoop | src/tape_ops/index_io/read.rs:444-533 | the limit is 50 or 200 and never passed; the file is whole blocks and only grows; it fails only when the first read fails |
| IndexRead.LimitRaisedOnXml | src/tape_ops/index_io/read.rs:490-512 | the limit reaches 200 only after the last 4096 bytes of the file showed "<?xml" |
| IndexRead.ReadLoopContinues | src/tape_ops/index_io/read.rs:455-512 | a delivered block is appended whole and the loop goes on |
| IndexRead.ReadLoopStops | src/tape_ops/index_io/read.rs:446-465 | the loop stops at the limit, on a zero count, and on an error after some data |
| IndexRead.RunReadLoop | src/tape_ops/index_io/read.rs:431-533 | the imperative loop reaches the loop's specification |
| IndexRead.ReadToFileMarkWithTempFile | src/tape_ops/index_io/read.rs:416-566 | the loop, then the file decoded, NULs dropped, trimmed, and an error when nothing is left |
| IndexRead.ReadsToHardLimit | src/tape_ops/index_io/read.rs:444-449 | at the 200-block limit a drive that keeps delivering is read to the limit |
| IndexRead.XmlStartRaisesLimit | src/tape_ops/index_io/read.rs:490-512 | when the first block shows "<?xml" and the drive keeps delivering, 200 blocks are read |
| IndexRead.ZerosDecodeToNul | src/tape_ops/index_io/read.rs:502 | zero bytes decode to NULs |
| IndexRead.NoXmlInZeros | src/tape_ops/index_io/read.rs:502 | zeros never show "<?xml" |
| IndexRead.BlankTapeStaysAtInitial | src/tape_ops/index_io/read.rs:490-512 | over blank tape the limit stays at 50 blocks |
| IndexRead.FirstReadFailureFatal | src/tape_ops/index_io/read.rs:518-526 | a failing first read is an error |
| IndexRead.FileMarkFirstIsEmpty | src/tape_ops/index_io/read.rs:460-558 | a filemark at the first read gives "Cleaned XML is empty" |
| IndexRead.CloseAfterOpen | src/tape_ops/index_io/read.rs:90-93 | the closing tag searched from the opening tag lies after it, so the slice is in bounds |
| IndexRead.NoCloseInsideOpen | src/tape_ops/index_io/read.rs:90-93 | no closing tag starts inside the opening tag |
| IndexRead.LabelBlockSize | src/tape_ops/index_io/read.rs:89-101 | 524288 when there is no opening tag |
| IndexRead.DigitsHaveNoTag | src/tape_ops/index_io/read.rs:91 | a run of digits holds no '<' |
| IndexRead.BlockSizeElement | src/tape_ops/index_io/read.rs:89-101 | the element is the two tags around the decimal digits |
| IndexRead.CloseTagAfterDigits | src/tape_ops/index_io/read.rs:91 | in an element the closing tag is found right after the digits |
| IndexRead.DecimalParsesBack | src/tape_ops/index_io/read.rs:93 | the decimal rendering of a u32 parses back |
| IndexRead.LabelBlockSizeFound | src/tape_ops/index_io/read.rs:89-95 | the number between the tags the search finds is the block size |
| IndexRead.BlockSizeReadsBack | src/tape_ops/index_io/read.rs:74-104 | a label whose first block-size element holds n reads back n |
| IndexRead.ValidateAndProcessIndex | src/tape_ops/index_io/read.rs:14-61 | corrected (see Findings): returns Ok wherever the corrected parse returns, where the source can panic inside `from_xml` (see Left out); true exactly when both index tags are present and the text parses; then the parsed index replaces the current one, otherwise it stays; nothing else changes |
| ScsiReads.Read6Cdb | src/scsi/mod.rs:834-850 | READ(6) in variable-length mode: opcode 08h, byte 1 clear, the low 24 bits of the byte count in bytes 2-4 |
| ScsiReads.BuildRead6Cdb | src/scsi/mod.rs:834-850 | the array the driver fills holds exactly `Read6Cdb` |
| ScsiReads.DirectLength | src/scsi/mod.rs:843-846 | the byte count is the smaller of the buffer length and the request in bytes (the product taken in u32) |
| ScsiReads.Transferred | src/scsi/mod.rs:868-874 | a transfer of at most n bytes fills the start of the buffer with the data and leaves zeros after it |
| ScsiReads.ReadBlocksDirect | src/scsi/mod.rs:827-916 | a delivered READ(6) counts as all blocks read; otherwise a filemark in the sense data gives the blocks it accounts for, anything else the error "Direct block read operation failed: ..." |
| ScsiReads.Overlay | src/scsi/mod.rs:1035-1036 | the buffer with the chunk's bytes written from its offset |
| ScsiReads.OverlayAt | src/scsi/mod.rs:1035-1036 | the overlaid bytes are the chunk; every other byte is unchanged |
| ScsiReads.ChunkStep | src/scsi/mod.rs:1026-1038 | one pass reads min(remaining, 128) blocks into the slice at byte `total * 65536` |
| ScsiReads.Chunked | src/scsi/mod.rs:1025-1069 | a full chunk goes on; a short chunk ends with its blocks counted; an error ends with what was read, or fails when nothing was |
| ScsiReads.ChunkedGoesOn | src/scsi/mod.rs:1039-1049 | a pass that reads its whole chunk continues with the rest of the request |
| ScsiReads.ChunkedEnds | src/scsi/mod.rs:1040-1061 | a short chunk or an error ends the loop |
| ScsiReads.ReadBlocksChunked | src/scsi/mod.rs:1018-1070 | the loop over the array buffer returns what `Chunked` gives and leaves the buffer it describes |
| ScsiReads.ChunkLoop | src/scsi/mod.rs:1025-1063 | the while loop, for any direct read of a chunk, equals `Chunked` |
| ScsiReads.ChunkPassStep | src/scsi/mod.rs:1026-1062 | one pass either ends the loop with its outcome or continues from the new counts and drive state |
| ScsiReads.ChunkInto | src/scsi/mod.rs:1035-1038 | one pass copies the chunk's bytes into the buffer at its offset |
| ScsiReads.CopyInto | src/scsi/mod.rs:1035-1036 | the array slice from the offset receives the data; every other byte is unchanged |
| ScsiReads.ChunkSizes | src/scsi/mod.rs:1021-1026 | every READ(6) of a chunked read asks for 1 to 128 blocks, together for at most the request |
| ScsiReads.ChunkSizesGoOn | src/scsi/mod.rs:1048-1049 | the step of `ChunkSizes` where a full chunk is read and the loop goes on |
| ScsiReads.ChunkedWithinRequest | src/scsi/mod.rs:1025-1069 | a chunked read never reports more than asked nor less than it had already read |
| ScsiReads.ChunkedFails | src/scsi/mod.rs:1054-1060 | a chunked read fails exactly when its first READ fails, with that error |
| ScsiReads.DriveDirectBounded | src/scsi/mod.rs:876-881 | on the drive every READ(6) is delivered, so a direct read reports exactly the blocks asked for |
| ScsiReads.Read6Delivered | src/scsi/mod.rs:868-874 | the drive answers every READ(6) |
| ScsiReads.DeliveredDirect | src/scsi/mod.rs:876-881 | a READ(6) that reached the drive counts as all blocks read |
| ScsiReads.ReadBlocks | src/scsi/mod.rs:801-824 | up to 256 blocks are read directly, more in chunks of 128 |
| ScsiReads.DirectLengthEncoded | src/scsi/mod.rs:843-849 | below 256 blocks the READ(6) carries exactly the byte count |
| ScsiReads.ReadBlocks256 | src/scsi/mod.rs:813-849 | as written, 256 blocks into a 16 MiB buffer encode a byte count of 2^24, whose low 24 bits are 0: nothing is transferred, the tape does not move, and 256 blocks are reported |
| ScsiReads.ReadBlocksFixed | src/scsi/mod.rs:801-824 | corrected: the direct path only for requests whose byte count fits the 24-bit field |
| ScsiReads.ReadBlocksFixedEncoded | src/scsi/mod.rs:801-849 | corrected, every READ(6) sent carries its full byte count |
| ScsiReads.DirectReadAtFileMark | src/scsi/mod.rs:876-881 | as written, a direct read at a filemark reports all blocks requested |
| ScsiReads.ReadBlocksDirectFixed | src/scsi/mod.rs:876-906 | corrected: a reply with non-zero sense is analysed too, so a filemark ends the count |
| ScsiReads.DirectReadFixedAtFileMark | src/scsi/mod.rs:876-906 | corrected, a direct read at a filemark reports 0 blocks and moves past the mark |
| ScsiReads.DirectFixedAnalysed | src/scsi/mod.rs:886-895 | corrected, a reply with non-zero sense reports what the sense analysis accounts for |
| ScsiReads.FileMarkSenseAnalysis | src/scsi/sense.rs:51-146 | a filemark sense whose residue is the whole request accounts for 0 blocks and a filemark |
| ScsiReads.RunPassLoop | src/scsi/mod.rs:1742-1984 | the loop, extending its buffer pass by pass, returns what `PassLoop` gives |
| ScsiReads.ReadToFileMarkLoop | src/scsi/mod.rs:1729-2000 | the loop as written returns `ReadToFileMark` |
| ScsiReads.ReadToFileMark | src/scsi/mod.rs:1729-2000 | no pass without fuel; a loop that ends within the fuel ends the same way with any more fuel |
| ScsiReads.PassLoopMoreFuel | src/scsi/mod.rs:1729-2000 | more passes allowed do not change a loop that has ended |
| ScsiReads.PassStopRule | src/scsi/mod.rs:1961-1983 | without a backtrack a pass appends its buffer and stops on ASC/ASCQ ≥ 1 and ≠ 4, or on a failed read with an empty buffer |
| ScsiReads.Padded | src/scsi/mod.rs:1744 | each block of a run padded with zeros to the limit |
| ScsiReads.PaddedCons | src/scsi/mod.rs:1744 | padding a run is padding its first block, then the rest |
| ScsiReads.LoopOverRun | src/scsi/mod.rs:1742-1984 | a pass that appends each block of a run and stops at its end with a zeroed buffer drains the run |
| ScsiReads.ReadShortBlock | src/scsi/mod.rs:1747-1763 | READ(6) of `limit` bytes over a block no longer than that: delivered, the block, no stop code, no backtrack |
| ScsiReads.ReadExactBlock | src/scsi/mod.rs:1747-1763 | the same for a block of exactly `limit` bytes |
| ScsiReads.ReadShorterBlock | src/scsi/mod.rs:1747-1763 | the same for a block shorter than `limit` |
| ScsiReads.ZeroSenseFields | src/scsi/mod.rs:1767-1775 | an untouched sense buffer gives no stop code and no residue |
| ScsiReads.AllZeroSense | src/scsi/mod.rs:1743 | the zeroed sense buffer is all zero |
| ScsiReads.AllZeroValue | src/scsi/mod.rs:1771-1775 | zero bytes have value 0 |
| ScsiReads.ReadAtMarkOrEnd | src/scsi/mod.rs:1747-1775 | READ(6) at a filemark or end of data: delivered, no data, a stop code, no backtrack |
| ScsiReads.PassWithoutBacktrack | src/scsi/mod.rs:1784-1983 | a delivered read without backtrack appends the buffer and stops on the ASC/ASCQ rule |
| ScsiReads.PassWithBacktrack | src/scsi/mod.rs:1795-1955 | a pass that calls for the backtrack is the backtrack from the state after the read |
| ScsiReads.PassOverShortBlock | src/scsi/mod.rs:1742-1984 | a pass over a short data block appends it padded and goes on |
| ScsiReads.PassAtMarkOrEnd | src/scsi/mod.rs:1742-1984 | a pass at a filemark or end of data appends a zeroed buffer and stops |
| ScsiReads.ReadToFileMarkOnDrive | src/scsi/mod.rs:1729-2000 | over blocks no longer than the limit up to a filemark, the loop returns every block padded plus one zeroed buffer and stops just past the mark |
| ScsiReads.LongRead | src/scsi/mod.rs:1747-1775 | READ(6) of 64 KiB over a longer block: its first 64 KiB, residue 64 KiB less its length, no stop code |
| ScsiReads.OverlengthSense | src/scsi/mod.rs:1771-1775 | an overlength residue is read back as the negative value it is |
| ScsiReads.BacktrackWith | src/scsi/mod.rs:1826-1951 | once LOCATE to the previous block succeeds, the re-read decides the pass |
| ScsiReads.BacktrackOnDrive | src/scsi/mod.rs:1826-1951 | after an overlength block, LOCATE goes back to it and the re-read returns its first 64 KiB and moves past it again |
| ScsiReads.LocateBack | src/scsi/mod.rs:1826-1841 | one block past t, the drive reports that position and LOCATE to the block before returns to t |
| ScsiReads.PositionPastBlock | src/scsi/mod.rs:1826-1827 | one block past t, READ POSITION reports that block in t's partition |
| ScsiReads.PassOverLongBlock | src/scsi/mod.rs:1795-1951 | a pass over a block longer than 64 KiB reads it, backs up, re-reads and goes on; as written nothing is appended |
| ScsiReads.TwoPasses | src/scsi/mod.rs:1742-1984 | two passes, one going on and one stopping, return the two appended parts |
| ScsiReads.LongBlockLost | src/scsi/mod.rs:1930-1951 | as written, a long block followed by a filemark yields only the mark's zeroed buffer: the long block's data is lost |
| ScsiReads.LongBlockKept | src/scsi/mod.rs:1930-1963 | corrected, the long block's first 64 KiB come before the mark's buffer |
| ScsiReads.FailingDriveSpins | src/scsi/mod.rs:1744-1983 | as written, with a non-zero limit the loop never ends on a drive that fails every request |
| ScsiReads.FailingDriveStops | src/scsi/mod.rs:1980-1983 | corrected, the first failed read ends the loop with nothing read |
| ScsiTypes.MediaCode | src/scsi/types.rs:5-29 | each known generation/access variant has its 16-bit code: access in the high byte (0 RW, 1 WORM, 2 RO), generation in the low byte |
| ScsiTypes.FromMediaTypeCode | src/scsi/types.rs:35-63 | the 24 listed codes map to their variant; every other code becomes `Unknown(code)` |
| ScsiTypes.MediaCodeRoundTrip | src/scsi/types.rs:35-63 | every known variant's code maps back to that variant |
| ScsiTypes.GenCodeInjective | src/scsi/types.rs:5-29 | distinct generations have distinct low-byte codes |
| ScsiTypes.Description | src/scsi/types.rs:66-95 | "No tape loaded", "Unknown media type", or "LTO", the generation, a space and RW, WORM or RO |
| ScsiTypes.DescriptionAccess | src/scsi/types.rs:35-95 | a known code's description ends in " RW", " WORM" or " RO" exactly as its high byte is 0, 1 or 2 |
| ScsiTypes.SpaceTypeCode | src/scsi/types.rs:120-125 | the SPACE codes of blocks, filemarks, sequential filemarks and end of data are 0, 1, 2, 3 |
| ScsiTypes.SpaceTypeOf | src/scsi/types.rs:120-125 | only codes 0-3 name a SPACE type |
| ScsiTypes.SpaceTypeRoundTrip | src/scsi/types.rs:120-125 | each SPACE type's code decodes back to it |
| ScsiTypes.DestCode | src/scsi/types.rs:129-133 | the locate destination codes of block, filemark and end of data are 0, 1 and 3 |
| ScsiTypes.DestOf | src/scsi/types.rs:129-133 | only codes 0, 1 and 3 name a destination |
| ScsiTypes.DestRoundTrip | src/scsi/types.rs:129-133 | each destination's code decodes back to it |
| ScsiSense.SenseKey | src/scsi/sense.rs:18 | the sense key is the low nibble of byte 2, below 16 |
| ScsiSense.NotReadyTextFields | src/scsi/sense.rs:42-45 | the fallback text carries key, ASC and ASCQ as hexadecimal at fixed places, and they read back |
| ScsiSense.NoTapeLoadedIff | src/scsi/sense.rs:14-46 | "No tape loaded" exactly for sense key 2, ASC 3Ah, ASCQ 0, a missing byte 13 reading as 0 |
| ScsiSense.ReadyAndShort | src/scsi/sense.rs:14-36 | fewer than 3 bytes give "Invalid sense data (too short)"; sense key 0 always gives "Device ready" |
| ScsiSense.DiffBytes | src/scsi/sense.rs:73-83 | the residue is bytes 3-6 as a big-endian signed 32-bit integer |
| ScsiSense.BytesRead | src/scsi/sense.rs:92-98 | without wrap-around: the request for a negative residue, else the request less the residue, at least 0; never more than requested |
| ScsiSense.BlocksFor | src/scsi/sense.rs:101-110 | the block count is the ceiling of bytes / 65536 |
| ScsiSense.AddKey | src/scsi/sense.rs:119 | the additional key is ASC·256 + ASCQ |
| ScsiSense.AnalyzeReadSense | src/scsi/sense.rs:51-146 | always Ok; sense data shorter than 18 bytes gives (0, false); with 18 bytes or more, a filemark is reported exactly when the additional sense code is not 00h with qualifier 00h or 04h, or the sense key is at most 1 |
| ScsiSense.FileMarkIff | src/scsi/sense.rs:117-136 | a filemark is reported exactly for an ASC/ASCQ pair other than 0000h and 0004h, or sense key 0 or 1 |
| ScsiSense.AnalyzeReadSenseBlocks | src/scsi/sense.rs:90-110 | the blocks reported cover the bytes transferred and never exceed the blocks requested |
| TapeOps.GetPartitionId | src/tape_ops.rs:2839-2848 | "a"/"A" is partition 0, "b"/"B" partition 1, anything else "Invalid partition: ..." |
| TapeOps.PartitionIdsAgree | src/tape_ops.rs:2839-2848 | the tape-operations layer and the direct-access layer map the letters to the same partitions |
| TapeOps.ValidateIndexXml | src/tape_ops.rs:1331-1351 | passes exactly when the text is non-empty and holds the opening index tag; empty text and a missing tag each have their message |
| TapeOps.ValidIndexValidates | src/tape_ops.rs:1331-1351 | text the index search accepts always passes validation, and so does an index without its closing tag, which the search rejects |
| TapeOps.ClassifyFormatDetectionError | src/tape_ops.rs:1313-1328 | blank tape exactly when the error text says "No data could be read"; an error that mentions "SCSI" or "communication" is never unknown |
| TapeOps.ScsiErrorsAreClassified | src/tape_ops.rs:1313-1328 | every SCSI error displays with "SCSI operation error", so it is never classified as unknown |
| TapeOps.DetectPartitionCountAsWritten | src/tape_ops.rs:5415-5468 | without MODE SENSE data, 2 exactly when partition 1 can be located, else 1; data shorter than 4 bytes gives 1 |
| TapeOps.MaxExtraPartitionsGiveZero | src/tape_ops.rs:5428-5440 | a report of 255 extra partitions wraps the sum to 0, so the tape looks as if it had no partition |
| TapeOps.DetectPartitionCount | src/tape_ops.rs:5415-5468 | corrected (see Findings): always 1 or 2: with MODE SENSE data of at least 4 bytes, 2 exactly when an extra partition is reported; short data gives 1; without data, 2 exactly when partition 1 can be located |
| TapeOps.PartitionCountsAgree | src/tape_ops.rs:5415-5468 | the corrected count and the count as written agree except on a report of 255 extra partitions |
| TapeOps.BlocksNeeded | src/tape_ops.rs:3262-3268 | the fewest blocks that cover the extent's in-block offset and its bytes |
| TapeOps.Clip | src/tape_ops.rs:3267-3275 | the slice stops at the buffer's end when it would run past it |
| TapeOps.ReadExtentFromTape | src/tape_ops.rs:3212-3275 | an unknown letter is passed on as the error; a result is exactly the extent's bytes, cut from the zeroed buffer at its byte offset after a read of at least one block |
| TapeOps.ExtentFromImage | src/tape_ops.rs:3212-3275 | for an ideal drive only (see Left out): from a tape image a non-empty extent reads back the bytes stored at its byte offset into its first block |
| TapeOps.ReadPathsAgree | src/tape_ops.rs:3212-3275 | for an ideal drive only (see Left out): on a tape image this read path and the direct-access one return the same bytes for a whole extent |
| TapeOps.ExtentsData | src/tape_ops.rs:3200-3203 | the extents' bytes in index order, as many as their counts add up to |
| TapeOps.FailureSticks | src/tape_ops.rs:3200-3203 | once a prefix of the extents fails, the whole read fails with the same error |
| TapeOps.Truncate | src/tape_ops.rs:3206 | at most n bytes, a prefix of the input |
| TapeOps.CompleteFile | src/tape_ops.rs:3182-3209 | a file without extents is "File has no extent information"; a result has the smaller of the extents' total and the file length |
| TapeOps.ReadCompleteFile | src/tape_ops.rs:3182-3209 | the loop reaches the complete-file specification |
| Utils.EncodeConcat | src/utils.rs:54-62 | the UTF-8 encoding of a concatenation is the concatenation of the encodings |
| Utils.PrefixLenMonotone | src/utils.rs:54-62 | a longer prefix takes at least as many bytes, and one more character at most 4 more |
| Utils.CharsWithin | src/utils.rs:60 | the longest prefix whose encoding fits the budget |
| Utils.TruncateStringAsWritten | src/utils.rs:54-62 | a string within the budget comes back unchanged; a budget of at most 3 gives "..."; a result otherwise is a prefix of exactly budget - 3 bytes followed by "..." |
| Utils.PanicsOffBoundary | src/utils.rs:60 | the slice as written panics exactly when byte budget - 3 falls inside a character |
| Utils.AccentedTextPanics | src/utils.rs:60 | "ééé" with a budget of 4 panics |
| Utils.TruncateString | src/utils.rs:54-62 | corrected (see Findings): a string within the budget comes back unchanged; a budget of at most 3 gives "..."; otherwise a prefix followed by "...", never over the budget |
| Utils.TruncationKeepsLongestPrefix | src/utils.rs:54-62 | the kept prefix is the longest that fits, leaving at most 3 bytes of the budget unused |
| Utils.TruncationsAgree | src/utils.rs:54-62 | wherever the slice as written does not panic, it agrees with the corrected truncation |
| Utils.AsciiNeverPanics | src/utils.rs:60 | on ASCII text the slice as written never panics |
| Utils.AsciiLen | src/utils.rs:60 | ASCII text takes one byte per character |
| IndexTypes.ChildIndex | src/ltfs_index.rs:330-340 | the first subdirectory with the name, or none exactly when no subdirectory has it |
| IndexTypes.Resolve | src/ltfs_index.rs:322-352 | a resolved name path gives one cursor step per name and leads to an existing directory |
| IndexTree.SqueezeReplace | src/ltfs_index.rs:390-404 | one replace of "//" by "/" does not change the fully squeezed string, so the replace loop reaches it |
| IndexTree.SqueezeShape | src/ltfs_index.rs:394-397 | the squeezed string never holds "//" |
| IndexTree.SqueezeIdentity | src/ltfs_index.rs:394-397 | a string without "//" is already squeezed |
| IndexTree.SqueezeChars | src/ltfs_index.rs:394-397 | squeezing adds no character |
| IndexTree.NoBackslashAfterReplace | src/ltfs_index.rs:391 | no backslash is left after the separators are replaced |
| IndexTree.DoubleSlashIff | src/ltfs_index.rs:394 | the loop test `contains("//")` holds exactly when two slashes are adjacent |
| IndexTree.NormalizePath | src/ltfs_index.rs:390-404 | the replace loop ends in the normal form: backslashes replaced, slashes squeezed, a trailing slash dropped unless the path is "/" |
| IndexTree.NormalizedShape | src/ltfs_index.rs:390-404 | a normalised path has no backslash, no "//", and ends in a slash only when it is "/" |
| IndexTree.NormalizeIdempotent | src/ltfs_index.rs:390-404 | normalising twice is normalising once |
| IndexTree.NormalFormFixed | src/ltfs_index.rs:390-404 | a path without backslashes or "//" only loses its trailing slash |
| IndexTree.NormalizeRoot | src/ltfs_index.rs:443 | "/" stays "/" |
| IndexTree.NormalizeTrailing | src/ltfs_index.rs:446 | "/test/path/" becomes "/test/path" |
| IndexTree.BackslashSeparators | src/ltfs_index.rs:391 | backslash separators become slashes |
| IndexTree.NormalizeBackslashes | src/ltfs_index.rs:445 | "\test\path" becomes "/test/path" |
| IndexTree.SqueezeConcat | src/ltfs_index.rs:394-397 | squeezing a concatenation squeezes each part, carrying whether the first ended in a slash |
| IndexTree.SqueezeDoubled | src/ltfs_index.rs:394-397 | "//test//path//" squeezes to "/test/path/" |
| IndexTree.NormalizeDoubled | src/ltfs_index.rs:444 | "//test//path//" becomes "/test/path" |
| IndexTree.NonEmpty | src/ltfs_index.rs:235-238 | the components kept are exactly the non-empty parts, in order |
| IndexTree.FileIndex | src/ltfs_index.rs:342-349 | the first file with the name, or none exactly when no file has it |
| IndexTree.LookupRefStep | src/ltfs_index.rs:330-338 | descending into the first subdirectory of the name continues the lookup there |
| IndexTree.FindPathFromRef | src/ltfs_index.rs:322-352 | the recursive search from component k is the reference lookup of the remaining components |
| IndexTree.FindPath | src/ltfs_index.rs:231-246 | find_path is the reference lookup of the normalised path's non-empty components |
| IndexTree.ListDirectory | src/ltfs_index.rs:249-283 | a directory lists its subdirectories and files sorted by name; a file or a missing path gives the file-operation error with the source's message |
| IndexTree.ListingSorted | src/ltfs_index.rs:253-268 | the listing holds every subdirectory and file once, as a permutation, in non-decreasing name order |
| IndexTree.GetFileInfo | src/ltfs_index.rs:286-302 | a file is found only as the last component: its parent path resolves, no subdirectory there has the name, and it is the first file of that name; conversely it succeeds exactly when the reference lookup of the path's components ends at a file |
| IndexTree.RootPath | src/ltfs_index.rs:240-243 | a path without components is the root directory, and get_file_info on it fails |
| IndexTree.MaxOf | src/ltfs_index.rs:179-203 | the maximum is one of the values and no value exceeds it |
| IndexTree.MaxOfUnique | src/ltfs_index.rs:179-203 | any value that bounds all and is among them is the maximum |
| IndexTree.ChildUidsMembers | src/ltfs_index.rs:192-194 | the UIDs under the subdirectories from i on are exactly those of those subdirectories' trees |
| IndexTree.FileUidsMembers | src/ltfs_index.rs:197-201 | the file UIDs are exactly the files' UIDs |
| IndexTree.AllUidsMembers | src/ltfs_index.rs:186-203 | a tree's UIDs are its own, its subtrees' and its files' |
| IndexTree.CollectAllUids | src/ltfs_index.rs:186-203 | the result is at least the start value, bounds every UID in the tree, and is the start value or one of the UIDs |
| IndexTree.GetNextFileUid | src/ltfs_index.rs:179-183 | one more than the largest UID in the tree, wrapping at 2^64 |
| IndexTree.NextUidAboveAll | src/ltfs_index.rs:179-183 | below the wrap, the next UID exceeds every UID in use |
| IndexTree.SortedExtents | src/ltfs_index.rs:362-366 | the sorted extents are a permutation of the file's extents in non-decreasing file offset |
| IndexTree.LtfsIndex.constructor | src/ltfs_index.rs:152-162 | holds the given index |
| IndexTree.LtfsIndex.InsertFile | src/ltfs_index.rs:206-221 | always Ok; the file is appended to the root's files whatever the parent path, and nothing else changes |
| IndexTree.LtfsIndex.IncrementGeneration | src/ltfs_index.rs:224-228 | the generation grows by one (wrapping at 2^64), the update time becomes now, and nothing else changes |
| LtfsIndexValidator.TagAt | src/ltfs_index/validator.rs:42-45 | the tag found at a '<' runs up to and including the first '>' after it |
| LtfsIndexValidator.TagsBefore | src/ltfs_index/validator.rs:42-64 | the tags of one kind counted before position n are at most n |
| LtfsIndexValidator.XmlStructureCheck | src/ltfs_index/validator.rs:11-79 | every failure is a parse error |
| LtfsIndexValidator.XmlStructureOk | src/ltfs_index/validator.rs:11-79 | the text passes exactly when it has at least 50 bytes, both root tags, and as many opening tags as "</" |
| LtfsIndexValidator.AnglesBefore | src/ltfs_index/validator.rs:42 | the '<' counted before position n are at most n |
| LtfsIndexValidator.TagsAtAngles | src/ltfs_index/validator.rs:42-64 | opening and self-closing tags together never outnumber the '<' characters |
| LtfsIndexValidator.ValidateXmlStructure | src/ltfs_index/validator.rs:11-79 | the check built on the tag counts reaches the same verdict as the counting definition |
| LtfsIndexValidator.CountTags | src/ltfs_index/validator.rs:42-64 | the loop over every '<' counts exactly the opening and the self-closing tags the counting definitions give, skipping declarations, comments and closing tags |
| LtfsIndexValidator.FileNamesCheck | src/ltfs_index/validator.rs:134-147 | every failure is a parse error |
| LtfsIndexValidator.SubdirsCheck | src/ltfs_index/validator.rs:149-173 | every failure is a parse error |
| LtfsIndexValidator.DirectoryStructureCheck | src/ltfs_index/validator.rs:119-176 | every failure is a parse error |
| LtfsIndexValidator.FileNamesCheckOk | src/ltfs_index/validator.rs:134-147 | the file loop passes exactly when the remaining files have non-empty names new to the directory, and then yields all the file names |
| LtfsIndexValidator.SubdirsFromStep | src/ltfs_index/validator.rs:149-173 | the subdirectory rules from i hold exactly when subdirectory i passes and the rules hold from i + 1 |
| LtfsIndexValidator.SubdirsCheckOk | src/ltfs_index/validator.rs:149-173 | the subdirectory loop passes exactly when the remaining subdirectories have non-empty, unrepeated names clashing with no file, and are well structured |
| LtfsIndexValidator.DirectoryStructureOk | src/ltfs_index/validator.rs:119-176 | the structure check passes exactly when the tree is well structured: non-zero directory UIDs, non-empty names, no name twice in a directory, no file and directory sharing a name |
| LtfsIndexValidator.ExtentsCheck | src/ltfs_index/validator.rs:201-243 | every failure is a parse error |
| LtfsIndexValidator.FileExtentsCheck | src/ltfs_index/validator.rs:182-243 | every failure is a parse error |
| LtfsIndexValidator.SumStep | src/ltfs_index/validator.rs:234 | the wrapped running total after extent k is the wrapped sum of the first k + 1 counts |
| LtfsIndexValidator.ExtentsFromStep | src/ltfs_index/validator.rs:204-235 | the extent rules from k hold exactly when extent k obeys them and they hold from k + 1 |
| LtfsIndexValidator.ExtentsCheckOk | src/ltfs_index/validator.rs:201-243 | the extent loop from k passes exactly when the remaining extents have a known partition, a non-zero size and an offset not before the previous end, and the counts sum to the length modulo 2^64 |
| LtfsIndexValidator.ExtentsCheckGoesOn | src/ltfs_index/validator.rs:204-235 | an extent that obeys the rules hands on to the next with the total and end updated |
| LtfsIndexValidator.ExtentsCheckStops | src/ltfs_index/validator.rs:205-231 | an extent that breaks a rule stops the loop with an error |
| LtfsIndexValidator.FileExtentsOk | src/ltfs_index/validator.rs:182-243 | a file passes exactly when it is a symlink or its extents obey the rules and add up to its length |
| LtfsIndexValidator.ValidateExtents | src/ltfs_index/validator.rs:182-243 | the loop over one file's extents reaches the recursive check's verdict |
| LtfsIndexValidator.FilesExtentsCheck | src/ltfs_index/validator.rs:182-244 | every failure is a parse error |
| LtfsIndexValidator.SubdirsExtentsCheck | src/ltfs_index/validator.rs:247-249 | every failure is a parse error |
| LtfsIndexValidator.TreeExtentsCheck | src/ltfs_index/validator.rs:179-252 | every failure is a parse error |
| LtfsIndexValidator.FilesExtentsOk | src/ltfs_index/validator.rs:182-244 | the file loop from i passes exactly when each remaining file has consistent extents |
| LtfsIndexValidator.SubdirsExtentsOk | src/ltfs_index/validator.rs:247-249 | the subdirectory loop from i passes exactly when each remaining subtree is consistent |
| LtfsIndexValidator.TreeExtentsOk | src/ltfs_index/validator.rs:179-252 | the extent check passes exactly when every file of the tree has consistent extents |
| LtfsIndexValidator.UidFilesCheck | src/ltfs_index/validator.rs:295-302 | every failure is a parse error |
| LtfsIndexValidator.UidSubdirsCheck | src/ltfs_index/validator.rs:283-292 | every failure is a parse error |
| LtfsIndexValidator.UidTreeCheck | src/ltfs_index/validator.rs:278-305 | every failure is a parse error |
| LtfsIndexValidator.UidUniquenessCheck | src/ltfs_index/validator.rs:255-275 | every failure is a parse error |
| LtfsIndexValidator.FreshCons | src/ltfs_index/validator.rs:284-300 | inserting x and then a sequence into the used set never collides exactly when x is new and the rest are new after x |
| LtfsIndexValidator.FreshConcat | src/ltfs_index/validator.rs:283-302 | two runs of insertions never collide exactly when the first does not and the second does not after the first |
| LtfsIndexValidator.UidFilesOk | src/ltfs_index/validator.rs:295-302 | the file loop passes exactly when the files' UIDs are new and distinct, and then adds them all |
| LtfsIndexValidator.UidSubdirsOk | src/ltfs_index/validator.rs:283-302 | the subdirectory loop passes exactly when the UIDs of the remaining subtrees and of the files are new and distinct |
| LtfsIndexValidator.UidTreeOk | src/ltfs_index/validator.rs:278-305 | the recursive collection passes exactly when the UIDs below a directory are new and distinct, and then adds them all |
| LtfsIndexValidator.UidUniquenessOk | src/ltfs_index/validator.rs:255-305 | the UID check passes exactly when all UIDs of the tree, the root's included, are distinct |
| LtfsIndexValidator.CollectAndValidateUids | src/ltfs_index/validator.rs:278-305 | the loops over subdirectories and files reach the recursive definition's verdict and used set |
| LtfsIndexValidator.ValidateUidUniqueness | src/ltfs_index/validator.rs:255-275 | Ok exactly when all UIDs of the tree are distinct |
| LtfsIndexValidator.Then | src/ltfs_index/validator.rs:109-112 | `?` sequencing: Ok exactly when both are, else the first error |
| LtfsIndexValidator.TimestampCheck | src/ltfs_index/validator.rs:351-373 | Ok exactly when the timestamp has at least 20 bytes, ends in 'Z' and holds a 'T'; failures are parse errors |
| LtfsIndexValidator.TimesCheck | src/ltfs_index/validator.rs:312-316 | Ok exactly when all five timestamps have the shape |
| LtfsIndexValidator.FilesTimesCheck | src/ltfs_index/validator.rs:319-340 | Ok exactly when every remaining file's five timestamps have the shape |
| LtfsIndexValidator.SubdirsTimesCheck | src/ltfs_index/validator.rs:343-345 | Ok exactly when every remaining subtree's timestamps have the shape |
| LtfsIndexValidator.TimestampsCheck | src/ltfs_index/validator.rs:308-348 | Ok exactly when every timestamp of the tree has the shape |
| LtfsIndexValidator.ParsedIndexCheck | src/ltfs_index/validator.rs:82-116 | every failure is a parse error |
| LtfsIndexValidator.ParsedIndexOk | src/ltfs_index/validator.rs:82-116 | the parsed-index check passes exactly on a valid index: UUID present, generation non-zero, root unnamed, tree well structured, extents consistent, UIDs distinct, timestamps shaped |
| VolumeInfo.LtfsVolumeInfo.IncrementGeneration | src/ltfs/volume_info.rs:67-70 | one more generation, wrapping to 0 at the 32-bit limit; the other fields unchanged |
| VolumeInfo.LtfsVolumeInfo.UpdateFormatTime | src/ltfs/volume_info.rs:73-76 | the format time becomes the current timestamp; the other fields unchanged |
| VolumeInfo.FromIndex | src/ltfs/volume_info.rs:28-35 | the volume UUID as name, the update time as format time, the generation cut to 32 bits, 65536-byte blocks |
| VolumeInfo.ValidateVolumeName | src/ltfs/volume_info.rs:79-94 | empty, then longer than 32 bytes, then holding a bad character, each with its own message; every failure is a parameter-validation error |
| VolumeInfo.ValidNameIff | src/ltfs/volume_info.rs:79-94 | a name passes exactly when it has 1 to 32 characters, each an ASCII letter, digit, '-' or '_' |
| VolumeInfo.BadCharacterRejected | src/ltfs/volume_info.rs:88-91 | a bad character is rejected as invalid when the name fits in 32 bytes, and as too long otherwise |
| VolumeInfo.UuidNameRejected | src/ltfs/volume_info.rs:28-35 | the 36-character volume UUID that from_index takes as the name never passes the name rules |
| VolumeInfo.TruncatedGenerationInvalid | src/ltfs/volume_info.rs:46-51 | a generation that is a multiple of 2^32 becomes 0, so the record built from it is not valid |
| VolumeInfo.IncrementGenerationValidity | src/ltfs/volume_info.rs:46-51 | one more generation keeps a valid record valid except at the 32-bit limit, where the generation wraps to 0 |
| VolumeInfo.RecordExamples | src/ltfs/volume_info.rs:221-232 | the test record is valid, and one more generation makes 2 |
| VolumeInfo.ManagerScenario | src/ltfs/volume_info.rs:265-285 | a fresh manager holds no record; setting the test record loads it, raising its generation gives 2, and clearing it leaves the manager empty again |
| VolumeInfo.GoodNameExample | src/ltfs/volume_info.rs:235-250 | "ValidName123" passes |
| VolumeInfo.BadNameExample | src/ltfs/volume_info.rs:235-250 | "Invalid Name!@#" fails |
| VolumeInfo.VolumeInfoManager.constructor | src/ltfs/volume_info.rs:146-150 | nothing loaded |
| VolumeInfo.VolumeInfoManager.SetVolumeInfo | src/ltfs/volume_info.rs:153-157 | the result is the name check's; a passing record replaces the current one, a failing one changes nothing |
| VolumeInfo.VolumeInfoManager.UpdateFromIndex | src/ltfs/volume_info.rs:165-169 | the record built from the index replaces the current one, without the name rules |
| VolumeInfo.VolumeInfoManager.Clear | src/ltfs/volume_info.rs:172-175 | nothing loaded |
| VolumeInfo.VolumeInfoManager.IsLoaded | src/ltfs/volume_info.rs:178-180 | true exactly when a record is loaded |
| VolumeInfo.VolumeInfoManager.IncrementGeneration | src/ltfs/volume_info.rs:188-196 | without a record, "No volume info loaded" and nothing changes; otherwise the record gets one more generation |
| VolumeInfo.VolumeInfoManager.UpdateFormatTime | src/ltfs/volume_info.rs:199-207 | without a record, "No volume info loaded" and nothing changes; otherwise the record takes the current timestamp |
| LtfsCapacity.NewCapacity | src/ltfs/capacity.rs:17-24 | total and used as given; available is what the used bytes leave of the total, or 0 when more is used |
| LtfsCapacity.CapacityExample | src/ltfs/capacity.rs:364-371 | 1000 total and 300 used leave 700: room for 500, not for 800 |
| LtfsCapacity.SpaceForSmaller | src/ltfs/capacity.rs:36-38 | room for a request is room for any smaller one, and a fresh record never has room for more than its total |
| LtfsCapacity.EstimateTotalCapacity | src/ltfs/capacity.rs:292-320 | a failed media query is passed on; otherwise the native capacity of the generation, 400 GB to 18 TB, and 2.5 TB for other media |
| LtfsCapacity.EstimateGrowsWithGeneration | src/ltfs/capacity.rs:292-320 | a later generation never gets a smaller estimate, and the access kind does not matter |
| LtfsCapacity.EstimateCapacity | src/ltfs/capacity.rs:323-333 | half the estimated total counts as used: used and available add up to the total and differ by at most one |
| LtfsCapacity.UsedFromMam | src/ltfs/capacity.rs:180-210 | succeeds exactly when the bytes-written attribute was read; then those bytes plus 5% (below the wrap-around point) |
| LtfsCapacity.RemainingFromMam | src/ltfs/capacity.rs:102-142 | always a value: the remaining-capacity attribute, else the maximum less the used bytes saturated at 0 (never more than the maximum), else the wear estimate, else 1 TB |
| LtfsCapacity.GetCapacityInfo | src/ltfs/capacity.rs:64-84 | without a reading, the half-used estimate; with one, a failed media query is passed on |
| LtfsCapacity.ReadingBecomesAvailable | src/ltfs/capacity.rs:70-77 | a reading within the total becomes the available bytes, a larger one is capped at the total, and used plus available is the total |
| LtfsCapacity.CapacityAlwaysFromMam | src/ltfs/capacity.rs:64-142 | since the cartridge-memory chain always yields a value, the record fails exactly when the media type cannot be read and its available bytes are the reading capped at the total |
| LtfsCapacity.CheckAvailableSpace | src/ltfs/capacity.rs:87-99 | fails exactly when the capacity record fails; otherwise true exactly when the available bytes cover the request |
| LtfsCapacity.CheckUsesReading | src/ltfs/capacity.rs:87-99 | with a reading within the total, the check compares the request with the reading |
| WriteOperations.Detail | src/tape_ops/write_operations.rs:62-117 | a detail exists only for a sense key with a category, and keys 0 and 1 always have one whatever the ASC/ASCQ |
| WriteOperations.SenseDescription | src/tape_ops/write_operations.rs:58-122 | a listed key's text starts with its category; keys 0 and 1 never get the catch-all text |
| WriteOperations.ScsiErrorHandler.ParseSenseDataAsWritten | src/tape_ops/write_operations.rs:53-60 | fewer than 8 bytes give the invalid-length text; a reply of 8 to 13 bytes panics on the read of bytes 12 and 13 |
| WriteOperations.ScsiErrorHandler.ParseSenseData | src/tape_ops/write_operations.rs:53-123 | fewer than 14 bytes give the invalid-length text; otherwise the description of (byte 2 & 0x0F, byte 12, byte 13) |
| WriteOperations.ScsiErrorHandler.Decide | src/tape_ops/write_operations.rs:158-202 | volume overflow is ignored exactly when configured so and is never retried; an early warning is ignored; any other error is retried exactly while the retry count is below the maximum, else aborted |
| WriteOperations.ScsiErrorHandler.HandleWriteErrorAsWritten | src/tape_ops/write_operations.rs:158-166 | panics exactly for sense data of 8 to 13 bytes; otherwise returns the decision |
| WriteOperations.ScsiErrorHandler.HandleWriteError | src/tape_ops/write_operations.rs:158-202 | corrected (see Findings): always decides; Ignore only with the EOM bit set in byte 2; never Retry once the retry count reaches the maximum |
| WriteOperations.OverflowWarningPartition | src/tape_ops/write_operations.rs:127-154 | overflow and early warning are never both true, and one holds exactly when byte 2 exists and has the EOM bit |
| WriteOperations.ShortSensePanics | src/tape_ops/write_operations.rs:53-60 | eight zero bytes make the as-written handler panic, while the corrected parse gives the invalid-length text |
| WriteOperations.ParseAgreesElsewhere | src/tape_ops/write_operations.rs:53-202 | outside 8..13 bytes the as-written and corrected parse and handler give the same results |
| WriteOperations.OverflowDescription | src/tape_ops/write_operations.rs:108-118 | key 0x0D with ASC/ASCQ 0/0 reads "Volume overflow - physical end of medium"; any other pair is the unknown text |
| WriteOperations.Padded | src/tape_ops/write_operations.rs:627-632 | a block of exactly the block size that starts with the chunk and is zero after it |
| WriteOperations.LoopBlocksCount | src/tape_ops/write_operations.rs:662-700 | the loop writes ceil(n / block size) blocks, each exactly one block size long |
| WriteOperations.FlattenLength | src/tape_ops/write_operations.rs:662-700 | blocks of one size laid end to end take count times size bytes |
| WriteOperations.LoopBlocksContent | src/tape_ops/write_operations.rs:662-700 | the written blocks laid end to end start with the content and are zero after it |
| WriteOperations.WriteFileStreaming | src/tape_ops/write_operations.rs:510-782 | a raised stop flag fails with "Write operation stopped by user"; offline mode, an `.xattr` file and a skipped symlink write nothing; a metadata failure and a file over the capacity limit fail with their messages; a failed start position is passed on; a larger file stalls exactly when paused; otherwise a file within one block is one padded block and a larger file is streamed block by block, from the start position, with the block count equal to the number of blocks |
| WriteOperations.CheckAvailableSpace | src/tape_ops/write_operations.rs:1694-1716 | a size up to 8 TiB passes; a larger one fails with the tape-device error "File too large for tape capacity" |
| WriteOperations.StreamBlocks | src/tape_ops/write_operations.rs:662-700 | the blocks written are the loop's blocks over the first min(size, available) bytes, and the byte total is that amount (0 for a zero block size) |
| WriteOperations.LoopBlocksStep | src/tape_ops/write_operations.rs:665-699 | one turn of the loop peels exactly one padded block off the rest of the content |
| WriteOperations.LoopBlocksEnd | src/tape_ops/write_operations.rs:665-689 | nothing remains to write at the end of the content or with a zero block size |
| WriteOperations.StreamedFileReadsBack | src/tape_ops/write_operations.rs:623-700 | a file read in full becomes BlocksFor(size) blocks (one for an empty file) of the block size, holding its bytes followed by zeros |
| WriteOperations.WritePosition | src/tape_ops/write_operations.rs:432-506 | the write goes to the mapped data partition, at end of data when elsewhere or when asked; it is refused, with a tape device error, exactly when the index's mapped partition is the same and the block is at or before the index's start |
| WriteOperations.WriteGuardByLayout | src/tape_ops/write_operations.rs:479-491 | on a dual-partition tape an index on partition a never blocks a write; on a single-partition tape a write at end of data at or before the index start is refused |

## Left out

- Platform I/O is not modelled: the Windows `DeviceIoControl` pass-through, the `ioctl` path, device handles and drive enumeration. The drive is the abstract `TapeDevice` tape, or a reply parameter.
- Async orchestration is not modelled: tokio tasks, progress reporting and logging.
- `src/scsi/commands/positioning.rs` does not compile as it stands. The model follows the live copies of its functions in `src/scsi/mod.rs`: `locate_block`, `space`, `read_position`, `space6`, `read_file_mark`, `locate` and its helpers.
- Retries of locate and read commands inside the drive layer are folded into the reader parameter. The reader returns the outcome after any retries.
- Ltfs.ExtentReadFromImage: proved only for an ideal drive (`Ltfs.ReadsImage`), one that lands on the requested partition and block and returns all n requested blocks in one read. The source's path does not give that drive. It calls `locate_block` (`src/ltfs.rs:636`), which lands on partition 0 at block `block >> 8` (`ScsiPositioning.LocateBlockAsWritten`). It then calls `read_blocks`. A 256-block request there asks the drive for 0 bytes and still reports 256 blocks (`ScsiReads.ReadBlocks256`). A request for several blocks is a single variable-mode READ(6), which the modelled drive (`TapeDevice.ExecRead6`) answers with one record only. The ideal drive stands for the corrected locate (`ScsiPositioning.LocateBlockFixedLands`) followed by a read that returns n whole blocks. Neither this lemma nor the model as a whole claims that the source's `read_blocks` returns n whole blocks.
- TapeOps.ExtentFromImage: proved for the same ideal drive, for the same reasons. The source's path (`src/tape_ops.rs:3227`) also locates with `locate_block` and reads with `read_blocks`.
- TapeOps.ReadPathsAgree: the two read paths are shown to agree only on the same ideal drive. Both source paths go through the mis-addressing `locate_block` and the multi-block `read_blocks`.
- Hash computations (SHA1, MD5, SHA256, BLAKE3, XxHash) are not modelled. Digests are inputs.
- The deduplication database's file I/O, its JSON form (`to_json`/`from_json`), CSV import and export, and its backups are not modelled. The database is the in-memory map.
- `age_in_days`, `format_info`, `format_capacity`, `PerformanceMonitor` and `path_to_string` are not modelled. They are display and monitoring helpers with no effect on the tape.
- IndexRead.FromSchemaText: the too-short message keeps the two byte counts but leaves out the null percentage, a float (`src/tape_ops/index_io/read.rs:606`).
- Floating point is not modelled: `utilization_percentage`, `hit_rate`, `format_bytes`, `format_size`, `format_duration` and `format_speed`. Where a decision compares a float ratio, the model compares integers.
- Clocks are parameters: every `now`, the `Instant` ages of cache entries and queued requests, and the chrono timestamps.
- Random values are parameters: the volume UUID from `Uuid::new_v4`.
- The XML deserialiser (`quick_xml`) is a parameter `deserialise`. The model covers what the code does before and after it; the serializer is not part of this model.
- The messages of `src/tape_ops/index_validator.rs` are modelled as English renderings of the source's Chinese text. Only which message is produced matters to the contracts.
- `print_validation_details` is not modelled; it only writes to the log.
- The cartridge-memory (MAM) attribute readings and the wear estimate are parameters of `LtfsCapacity.RemainingFromMam`. As in the source, the position-based estimate always fails.
- The usage count of cache entries (`access_count`) and `usize` lengths are unbounded integers. The overflows the source can reach are modelled explicitly: generation counters (`u32`/`u64`), extent totals (`u64`), the next file UID, and the used bytes from cartridge memory.
- The iteration order of a Rust `HashMap` is not fixed. `Performance.LtfsPerformanceCache.EvictLru` picks any entry of least last access (its victim is a ghost choice), which covers every order.
- The duplicated MKLTFS parameter code, index-location scan and partition readers in `src/tape_ops.rs` are modelled once, by the partition manager and the format operations. `parse_vol1_label` in `src/tape_ops.rs` is the same test as `PartitionManager.ParseLtfsVolumeLabel`.
- `IndexLocation::new` is the datatype constructor `LtfsUtils.IndexLocation`.
- Also not modelled: the synchronisation helpers (`sync.rs`), the dual-partition index writer, the data partition reader (except the `locate_block(1, 38)` call quoted in a finding) and the block-38 diagnostics.
- LtfsIndexValidator.TimestampCheck: checks the shape of each timestamp (at least 20 bytes, ends in 'Z', holds a 'T'; validator.rs:353-373) but not chrono's RFC 3339 parse (validator.rs:375-387), which is not part of this model; so a text such as "XXXXXXXXXXXXXXXXXXTZ" passes the model and fails the source.
- Ltfs.ReadFileContent: requires each extent's byte count plus one block to fit in 64 bits (`ExtentsFit`). Beyond that, the source's slice arithmetic overflows. It is built on the corrected `Ltfs.ReadEnd`, so an extent that starts past the end of the request gives nothing, where the source reads it whole (see Findings).
- Ltfs.ReadExtents: built on the corrected `Ltfs.ReadEnd`, as `Ltfs.ReadFileContent` is; `Ltfs.ExtentPastEndIsReadWhole` shows the source's wrap.
- Ltfs.ExtentPiece: built on the corrected `Ltfs.ReadEnd`; for an extent past the end of the request it gives no bytes, where line 488 of `src/ltfs.rs` wraps and reads the whole extent.
- IndexDataValidator.XmlFormat: uses the corrected scan `IndexDataValidator.BasicXmlParseCheckFixed`. The source's scan rejects a document that starts with an XML declaration or has an attribute, so the source fails such a document where the model passes it (see Findings; `IndexDataValidator.BasicXmlParseCheck` is the scan as written).
- IndexDataValidator.TextChecks: built on `IndexDataValidator.XmlFormat`, so it carries the same corrected scan.
- IndexDataValidator.Validate: built on `IndexDataValidator.XmlFormat`, so it carries the same corrected scan.
- IndexDataValidator.IndexValidator.ValidateIndexData: built on `IndexDataValidator.Validate`, so it carries the same corrected scan.
- IndexDataValidator.IsValidIndexData: built on `IndexDataValidator.Validate`, so it carries the same corrected scan.
- IndexDataValidator.NameChar: keeps ASCII letters and digits only, where Rust's `char::is_alphanumeric` accepts every Unicode letter and digit. A tag such as `<文件></目录>` gathers two empty names and passes the model's scan, where the source's scan fails it as a mismatch.
- IndexWrite.HashXattrs: takes the hashes in the order given. The source iterates a `HashMap`, whose order is not fixed, so the model's order is one of the orders the source can produce.
- WriteOperations.WriteFileStreaming: tape writes (`write_blocks`, `write_filemarks`) are taken to succeed, and every file read returns the smaller of the bytes asked for and the bytes left. The `.xattr` extension test is a parameter. Hashing and speed limiting are left out. The index update, the progress counters and the interval-triggered index write after the loop are not composed with it; `IndexWrite.UpdateIndexForFileWrite` models the update on its own.
- WriteOperations.WriteFileStreaming: the locate to the write position and the file open are folded into the start-position parameter; their failures are the `start` error passed on.
- Ltfs.ReadExtentData: requires the in-block offset plus the length to fit in 64 bits, for the same reason.
- IndexWrite.UpdateIndexForFileWriteEnhanced: returns the new index. Storing it as `self.index` and as `self.schema` and setting `self.modified = true` (`src/tape_ops/index/write.rs:376-378`) are not modelled.
- IndexWrite.UpdateIndexForFileWrite: returns the new index. Storing it as `self.index` (`src/tape_ops/index/write.rs:457`) is not modelled.
- LtfsIndexParser.FromXml: the corrected parse. It never panics, where the source's `from_xml` panics in two cases. (1) A closing tag comes before the first opening tag and is not adjacent to it, as in `"</ltfsindex> <ltfsindex>"`. (2) Deserialisation fails and byte min(1000, length) of the section falls inside a multi-byte character (`src/ltfs_index/parser.rs:33`). `LtfsIndexParser.FromXmlAsWritten` is the parse as written; see Findings. `debug_xml_structure` runs only when debug logging is on (`src/ltfs_index/parser.rs:20-22`) and is not modelled.
- LtfsIndexParser.FromXmlSteps: states the steps of the corrected `LtfsIndexParser.FromXml`, so it carries the same two differences.
- IndexRead.ValidateAndProcessIndex: built on the corrected `LtfsIndexParser.FromXml`. Where the source panics inside `from_xml`, the model refuses the text with `Ok(false)`. The byte-sliced previews at `src/tape_ops/index_io/read.rs:26-29` and `54-58` are arguments of `debug!`, evaluated only when debug logging is on, and are not modelled.
- Performance.BatchOperationManager.ShouldProcessBatch: keeps the source's test of the front request's wait only. A longer wait further back in the queue does not trigger a batch, as written.
- ScsiSense.BytesRead: its contract covers only the case where the `i32` arithmetic of the source does not wrap. The body models the wrap.
- TapeOps.ReadCompleteFile: ignores the file offset of the extent, as the source does.

## Findings

| source | as written | input that shows it | evidently intended | confidence | as-written member | corrected member |
|---|---|---|---|---|---|---|
| src/scsi/mod.rs:1212-1225 | `locate_block` sets CP in a LOCATE(10) CDB but writes the partition into reserved byte 2 and the block address into bytes 4-7 | `locate_block(1, 38)` lands on block 0 of partition 0 | address in bytes 3-6, partition in byte 8 | not executed | ScsiPositioning.LocateBlockPartitionOneExample | ScsiPositioning.LocateBlockFixedLands |
| src/scsi/mod.rs:2291-2310 | the LOCATE(10) retry of a failed LOCATE(16) moves byte 1's low bits up by three, turning CP into bit 4, and leaves the partition byte 0 | a failed block LOCATE(16) to partition 1 | the retry goes where the LOCATE(16) asked: CP, partition and destination type kept | not executed | ScsiPositioning.RetryDropsPartition | ScsiPositioning.RetryFixedAgrees |
| src/scsi/mod.rs:1657-1716 | `read_file_mark` tests `test_buffer.is_empty()` on a buffer allocated at 64 KiB, so an empty transfer over a filemark is taken for data | a READ(6) probe with the head on a filemark | an empty transfer reports the filemark and only a data block is backed over | not executed | ScsiPositioning.ReadFileMarkMissesFileMark | ScsiPositioning.ReadFileMarkFixedSkips |
| src/scsi/mod.rs:813-849 | the READ(6) transfer length is a byte count in three bytes, and 256 blocks of 64 KiB make 2^24 | `read_blocks(256, …)` with a 16 MiB buffer | every command carries its full byte count | not executed | ScsiReads.ReadBlocks256 | ScsiReads.ReadBlocksFixedEncoded |
| src/scsi/mod.rs:876-881 | a delivered direct read reports every block requested, even when the drive stopped at a filemark | a direct read of 2 blocks at a filemark | 0 blocks at a filemark | not executed | ScsiReads.DirectReadAtFileMark | ScsiReads.DirectReadFixedAtFileMark |
| src/scsi/mod.rs:1930-1951 | when a long block is followed by a filemark, the read loop keeps only the filemark's zeroed buffer | a 70000-byte block followed by a filemark | the long block's first 64 KiB kept before the mark | not executed | ScsiReads.LongBlockLost | ScsiReads.LongBlockKept |
| src/scsi/mod.rs:1744-1983 | the stop test `!result && read_buffer.is_empty()` looks at a buffer allocated at the block limit, so it never fires and a drive that keeps failing is asked again and again | a drive that fails every read, with a non-zero limit | the first failed read with nothing read ends the loop | not executed | ScsiReads.FailingDriveSpins | ScsiReads.FailingDriveStops |
| src/ltfs_index/parser.rs:60-66 | the section is sliced from the first opening tag to the first closing tag, which panics when the closing tag comes first | `"</ltfsindex> <ltfsindex>"` | the closing tag is searched after the opening one | not executed | LtfsIndexParser.ExtractPanicsIff | LtfsIndexParser.ExtractAgrees |
| src/ltfs_index/parser.rs:33 | on a deserialiser failure the warning previews `&index_xml[..min(1000, len)]`, a byte slice that panics when byte 1000 falls inside a character; the slice is not inside a log macro, so it runs at every log level | a section that passes the structure check and fails to deserialise, with 999 bytes before an "é" | the preview cut at the last character boundary within 1000 bytes, and the parse error returned | not executed | LtfsIndexParser.PreviewPanics | LtfsIndexParser.FromXmlAgrees |
| src/tape_ops/index_validator.rs:375-406 | the tag scan never keeps '?' in a name, so the XML declaration is pushed as an open tag | a document starting with `<?xml version="1.0"?>` | a declaration is skipped | not executed | IndexDataValidator.DeclarationLeftOpen | IndexDataValidator.FixedDeclarationPasses |
| src/tape_ops/index_validator.rs:379-406 | attribute characters are appended to the tag name, so the closing tag does not match | `<t a></t>` | the name ends at the first space | not executed | IndexDataValidator.AttributeBreaksMatch | IndexDataValidator.FixedAttributePasses |
| src/tape_ops/partition_manager.rs:1349-1352 | the scan bound `search_area.len() - 8` underflows when "LTFS" is found within the last 7 bytes of the buffer | a buffer whose last four bytes are "LTFS" | a search area shorter than 8 bytes holds no location and is skipped | not executed | PartitionManager.SignatureAtEndPanics | PartitionManager.ParseIndexLocationFromBuffer |
| src/tape_ops/write_operations.rs:53-60 | `parse_sense_data` refuses fewer than 8 bytes, then reads bytes 12 and 13 | 8 zero bytes of sense data | fewer than 14 bytes give the invalid-length text | not executed | WriteOperations.ShortSensePanics | WriteOperations.ScsiErrorHandler.HandleWriteError |
| src/ltfs.rs:488 | `end_position - extent_start` wraps when an extent starts past the end of the request, so the whole extent is read | an extent of 10 bytes at file offset 100, with a request ending at byte 5 | nothing is read from such an extent | not executed | Ltfs.ExtentPastEndIsReadWhole | Ltfs.ReadEnd |
| src/ltfs/performance.rs:110-114 | a lookup that finds an expired entry removes it without taking its bytes off the size counter | a 100-byte cache holding one expired 100-byte entry, then a one-byte `put` | the removal takes the entry's bytes off the counter | not executed | Performance.ExpiredGetBlocksPut | Performance.ExpiredGetThenPut |
| src/ltfs/performance.rs:428-439 | the queue statistics report the wait of the front request, but the queue is sorted by priority | a high-priority request sorted in front of an older low-priority one | the longest wait in the queue | not executed | Performance.FrontWaitMissesOldest | Performance.BatchOperationManager.GetQueueStats |
| src/tape_ops.rs:5434 | the partition count `extra + 1` is computed in `u8` | a report of 255 extra partitions gives 0 | at least one partition | not executed | TapeOps.MaxExtraPartitionsGiveZero | TapeOps.DetectPartitionCount |
| src/utils.rs:60 | the string is sliced at byte `max_len - 3`, which panics inside a multi-byte character | `truncate_string("ééé", 4)` | cut at the last character boundary within the budget | not executed | Utils.AccentedTextPanics | Utils.TruncateString |

// Helpers of the tape operations object (`src/tape_ops.rs`): the partition
// letter, the checks on index text, the classification of a failed format
// detection, the partition count from MODE SENSE, and the whole-file read that
// concatenates a file's extents.

module TapeOps {
  import opened Wrappers
  import opened Bytes
  import opened Strings
  import opened Utf8
  import opened IndexTypes
  import Ltfs

  const BLOCK: nat := 65536

  /** `get_partition_id`: the letter, in either case, names partition 0 or 1. */
  function GetPartitionId(partition: string): (r: Result<u8>)
    ensures r == Ok(0) <==> partition == "a" || partition == "A"
    ensures r == Ok(1) <==> partition == "b" || partition == "B"
    ensures r.Err? <==> Ltfs.PartitionId(partition).None?
    ensures r.Err? ==> r == Fail(LtfsIndex, "Invalid partition: " + partition)
  {
    if partition == "a" || partition == "A" then Ok(0)
    else if partition == "b" || partition == "B" then Ok(1)
    else Fail(LtfsIndex, "Invalid partition: " + partition)
  }

  /** The direct-access layer maps the letters to the same partitions. */
  lemma PartitionIdsAgree(partition: string)
    ensures GetPartitionId(partition).Ok? ==>
      Ltfs.PartitionId(partition) == Some(GetPartitionId(partition).value as nat)
  {
  }

  // ---------------------------------------------------------------------------
  // Checks on index text

  const OPEN_TAG: string := "<ltfsindex"
  const CLOSE_TAG: string := "</ltfsindex>"
  const DIRECTORY_TAG: string := "<directory"

  /** `is_valid_ltfs_index`: both index tags, a directory element, and more than 200 bytes. */
  predicate IsValidLtfsIndex(xml: string)
  {
    Contains(xml, OPEN_TAG) && Contains(xml, CLOSE_TAG) && Contains(xml, DIRECTORY_TAG) && Utf8Len(xml) > 200
  }

  /**
   * `validate_index_xml`: empty text and text without an opening index tag are
   * errors; a missing closing tag is only a warning.
   */
  function ValidateIndexXml(xml: string): (r: Result<()>)
    ensures r.Ok? <==> xml != [] && Contains(xml, OPEN_TAG)
    ensures xml == [] ==> r == Fail(LtfsIndex, "Index XML is empty")
    ensures xml != [] && !Contains(xml, OPEN_TAG) ==>
      r == Fail(LtfsIndex, "Invalid LTFS index format - missing ltfsindex element")
  {
    if xml == [] then Fail(LtfsIndex, "Index XML is empty")
    else if !Contains(xml, OPEN_TAG) then Fail(LtfsIndex, "Invalid LTFS index format - missing ltfsindex element")
    else Ok(())
  }

  /** Text the index search accepts always passes validation, and an unclosed index passes too. */
  lemma ValidIndexValidates(xml: string)
    ensures IsValidLtfsIndex(xml) ==> ValidateIndexXml(xml).Ok?
    ensures Contains(xml, OPEN_TAG) && !Contains(xml, CLOSE_TAG) ==> ValidateIndexXml(xml).Ok? && !IsValidLtfsIndex(xml)
  {
    if Contains(xml, OPEN_TAG) {
      var i := Find(xml, OPEN_TAG).value;
      assert MatchAt(xml, OPEN_TAG, i);
      assert xml != [];
    }
  }

  // ---------------------------------------------------------------------------
  // classify_format_detection_error

  /** `LtfsFormatStatus` of the tape operations object. */
  datatype LtfsFormatStatus =
    | LtfsFormatted(indexSize: nat)
    | BlankTape
    | NonLtfsFormat
    | CorruptedIndex
    | PositioningFailed
    | HardwareError
    | Unknown

  /**
   * `classify_format_detection_error`: the displayed error text decides, by the
   * first of these phrases it contains: "No data could be read", then
   * "positioning" or "locate", then "SCSI" or "communication".
   */
  function ClassifyFormatDetectionError(e: Error): (r: LtfsFormatStatus)
    ensures r in {BlankTape, PositioningFailed, HardwareError, Unknown}
    ensures r == BlankTape <==> Contains(Display(e), "No data could be read")
    ensures r == Unknown ==> !Contains(Display(e), "SCSI") && !Contains(Display(e), "communication")
  {
    var text := Display(e);
    if Contains(text, "No data could be read") then BlankTape
    else if Contains(text, "positioning") || Contains(text, "locate") then PositioningFailed
    else if Contains(text, "SCSI") || Contains(text, "communication") then HardwareError
    else Unknown
  }

  /**
   * Every SCSI error displays with the prefix "SCSI operation error", so it is
   * never classified as unknown.
   */
  lemma ScsiErrorsAreClassified(message: string)
    ensures ClassifyFormatDetectionError(Error(Scsi, message)) != Unknown
  {
    var text := Display(Error(Scsi, message));
    assert text[0..4] == "SCSI";
    ContainsAt(text, "SCSI", 0);
  }

  // ---------------------------------------------------------------------------
  // detect_partition_count

  /** The extra-partition count in byte 3 of MODE SENSE page 0x11, if the data holds it. */
  function ExtraPartitions(modeData: seq<byte>): Option<u8>
  {
    if |modeData| >= 4 then Some(modeData[3]) else None
  }

  /**
   * `detect_partition_count` as written: the `u8` sum extra + 1 wraps to 0 when
   * the drive reports 255 extra partitions (a debug build panics instead), and
   * only a sum above 2 is capped. Without MODE SENSE data, whether partition 1
   * can be located decides between 2 and 1.
   */
  function DetectPartitionCountAsWritten(modeSense: Result<seq<byte>>, canLocatePartition1: bool): (r: u8)
    ensures modeSense.Err? ==> r == if canLocatePartition1 then 2 else 1
    ensures modeSense.Ok? && |modeSense.value| < 4 ==> r == 1
  {
    match modeSense
    case Ok(modeData) =>
      (match ExtraPartitions(modeData)
       case Some(extra) =>
         var total := AsU8(extra as int + 1);
         if total > 2 then 2 else total
       case None => 1)
    case Err(_) => if canLocatePartition1 then 2 else 1
  }

  /** A reported count of 255 extra partitions makes the tape look as if it had no partition at all. */
  lemma MaxExtraPartitionsGiveZero(modeData: seq<byte>, canLocatePartition1: bool)
    requires |modeData| >= 4 && modeData[3] == 255
    ensures DetectPartitionCountAsWritten(Ok(modeData), canLocatePartition1) == 0
  {
  }

  /** `detect_partition_count` as intended: extra partitions plus the first, capped at 2, without wrapping. */
  function DetectPartitionCount(modeSense: Result<seq<byte>>, canLocatePartition1: bool): (r: u8)
    ensures 1 <= r <= 2
    ensures modeSense.Ok? && |modeSense.value| >= 4 ==> (r == 2 <==> modeSense.value[3] >= 1)
    ensures modeSense.Ok? && |modeSense.value| < 4 ==> r == 1
    ensures modeSense.Err? ==> r == if canLocatePartition1 then 2 else 1
  {
    match modeSense
    case Ok(modeData) =>
      (match ExtraPartitions(modeData)
       case Some(extra) => if extra as int + 1 > 2 then 2 else extra + 1
       case None => 1)
    case Err(_) => if canLocatePartition1 then 2 else 1
  }

  /** The two agree on every report except 255 extra partitions. */
  lemma PartitionCountsAgree(modeSense: Result<seq<byte>>, canLocatePartition1: bool)
    requires !(modeSense.Ok? && |modeSense.value| >= 4 && modeSense.value[3] == 255)
    ensures DetectPartitionCountAsWritten(modeSense, canLocatePartition1) == DetectPartitionCount(modeSense, canLocatePartition1)
  {
  }

  // ---------------------------------------------------------------------------
  // read_extent_from_tape / read_complete_file_from_tape

  /** The blocks read for an extent: enough to cover its in-block offset and its bytes. */
  function BlocksNeeded(e: Extent): (n: nat)
    ensures n * BLOCK >= e.byteOffset as nat + e.byteCount as nat
    ensures n > 0 ==> (n - 1) * BLOCK < e.byteOffset as nat + e.byteCount as nat
  {
    (e.byteCount as nat + e.byteOffset as nat + BLOCK - 1) / BLOCK
  }

  /** A slice that stops at the end of the buffer when it would run past it. */
  function Clip(buffer: seq<byte>, start: nat, end: nat): (r: seq<byte>)
    requires start <= end && start <= |buffer|
    ensures r == buffer[start..if end <= |buffer| then end else |buffer|]
  {
    if end > |buffer| then buffer[start..] else buffer[start..end]
  }

  /**
   * `read_extent_from_tape`: the partition letter is resolved, the drive locates
   * the extent's first block and reads the blocks needed into a zeroed buffer
   * (locate and read, with their retries, are the `reader` parameter); a read
   * of no block is an error, and the extent's bytes are cut out of the buffer
   * from its byte offset.
   */
  function ReadExtentFromTape(reader: Ltfs.BlockReader, e: Extent): (r: Result<seq<byte>>)
    ensures GetPartitionId(e.partition).Err? ==> r == Err(GetPartitionId(e.partition).error)
    ensures r.Ok? ==> |r.value| == e.byteCount as nat
    ensures r.Ok? ==> var reply := reader(GetPartitionId(e.partition).value as nat, e.startBlock, AsU32(BlocksNeeded(e)));
      && reply.Ok? && reply.value.blocksRead != 0
      && r.value == Ltfs.Fill(reply.value.data, BlocksNeeded(e) * BLOCK)[e.byteOffset..e.byteOffset as nat + e.byteCount as nat]
  {
    var partition :- GetPartitionId(e.partition);
    var needed := BlocksNeeded(e);
    var reply :- reader(partition as nat, e.startBlock, AsU32(needed));
    if reply.blocksRead == 0 then
      Fail(Scsi, "No data read from tape")
    else
      var buffer := Ltfs.Fill(reply.data, needed * BLOCK);
      Ok(Clip(buffer, e.byteOffset as nat, e.byteOffset as nat + e.byteCount as nat))
  }

  /** The bytes of an extent on a tape image, where its first block lies within 2^32 blocks of the image's end. */
  predicate ExtentOnImage(image: seq<seq<byte>>, e: Extent)
  {
    && Ltfs.PartitionId(e.partition).Some? && Ltfs.PartitionId(e.partition).value < |image|
    && BlocksNeeded(e) < U32_LIMIT
    && (e.startBlock as nat + BlocksNeeded(e)) * BLOCK <= |image[Ltfs.PartitionId(e.partition).value]|
  }

  /**
   * Reading a non-empty extent of a tape image gives exactly the bytes that
   * start `byteOffset` bytes into its first block.
   */
  lemma ExtentFromImage(reader: Ltfs.BlockReader, image: seq<seq<byte>>, e: Extent)
    requires Ltfs.ReadsImage(reader, image) && ExtentOnImage(image, e) && e.byteCount > 0
    ensures ReadExtentFromTape(reader, e).Ok?
    ensures var at := e.startBlock as nat * BLOCK + e.byteOffset as nat;
      && at + e.byteCount as nat <= |image[Ltfs.PartitionId(e.partition).value]|
      && ReadExtentFromTape(reader, e).value == image[Ltfs.PartitionId(e.partition).value][at..at + e.byteCount as nat]
  {
    var p := Ltfs.PartitionId(e.partition).value;
    PartitionIdsAgree(e.partition);
    var n := BlocksNeeded(e);
    var count := AsU32(n);
    assert count as nat == n;
    var lo := e.startBlock as nat * BLOCK;
    var data := image[p][lo..lo + n * BLOCK];
    assert reader(p, e.startBlock, count) == Ok(Ltfs.BlockReply(count, data));
    assert Ltfs.Fill(data, n * BLOCK) == data;
    Ltfs.SliceOfSlice(image[p], lo, lo + n * BLOCK, e.byteOffset as nat, e.byteOffset as nat + e.byteCount as nat);
  }

  /**
   * On a tape image both read paths (this one and the direct-access layer's)
   * return the same bytes for a whole extent.
   */
  lemma ReadPathsAgree(reader: Ltfs.BlockReader, image: seq<seq<byte>>, e: Extent)
    requires Ltfs.ReadsImage(reader, image) && e.byteCount > 0
    requires ExtentOnImage(image, e) && Ltfs.ImageHolds(image, e, 0, e.byteCount)
    ensures ReadExtentFromTape(reader, e) == Ltfs.ReadExtentData(reader, e, 0, e.byteCount)
  {
    ExtentFromImage(reader, image, e);
    Ltfs.ExtentReadFromImage(reader, image, e, 0, e.byteCount);
  }

  /** The bytes of the extents read in index order, the first failure stopping the read. */
  function ExtentsData(reader: Ltfs.BlockReader, es: seq<Extent>): (r: Result<seq<byte>>)
    ensures r.Ok? ==> |r.value| == TotalCount(es)
  {
    if es == [] then Ok([])
    else
      var init :- ExtentsData(reader, es[..|es| - 1]);
      var last :- ReadExtentFromTape(reader, es[|es| - 1]);
      Ok(init + last)
  }

  /** The byte counts of extents, added up. */
  function TotalCount(es: seq<Extent>): nat
  {
    if es == [] then 0 else TotalCount(es[..|es| - 1]) + es[|es| - 1].byteCount as nat
  }

  /** Once a prefix of the extents fails, the whole read fails with the same error. */
  lemma {:induction false} FailureSticks(reader: Ltfs.BlockReader, es: seq<Extent>, i: nat)
    requires i <= |es| && ExtentsData(reader, es[..i]).Err?
    ensures ExtentsData(reader, es) == ExtentsData(reader, es[..i])
    decreases |es| - i
  {
    if i < |es| {
      var es' := es[..|es| - 1];
      assert es'[..i] == es[..i];
      FailureSticks(reader, es', i);
      assert es == es[..|es|];
    } else {
      assert es[..i] == es;
    }
  }

  /** `Vec::truncate`: at most n elements. */
  function Truncate(s: seq<byte>, n: nat): (r: seq<byte>)
    ensures |r| == if |s| <= n then |s| else n
    ensures r == s[..|r|]
  {
    if |s| <= n then s else s[..n]
  }

  /**
   * `read_complete_file_from_tape` as a value: a file without extents is an
   * error; otherwise the extents' bytes, concatenated in index order, cut to
   * the file length.
   */
  function CompleteFile(reader: Ltfs.BlockReader, f: File): (r: Result<seq<byte>>)
    ensures f.extents == [] ==> r == Fail(LtfsIndex, "File has no extent information")
    ensures r.Ok? ==> |r.value| == if TotalCount(f.extents) <= f.length as nat then TotalCount(f.extents) else f.length as nat
  {
    if f.extents == [] then Fail(LtfsIndex, "File has no extent information")
    else
      var data :- ExtentsData(reader, f.extents);
      Ok(Truncate(data, f.length as nat))
  }

  /** `read_complete_file_from_tape`: reads the extents one by one. */
  method ReadCompleteFile(reader: Ltfs.BlockReader, f: File) returns (r: Result<seq<byte>>)
    ensures r == CompleteFile(reader, f)
  {
    if f.extents == [] {
      return Fail(LtfsIndex, "File has no extent information");
    }
    var result: seq<byte> := [];
    for i := 0 to |f.extents|
      invariant ExtentsData(reader, f.extents[..i]) == Ok(result)
    {
      var data := ReadExtentFromTape(reader, f.extents[i]);
      assert f.extents[..i + 1][..i] == f.extents[..i];
      if data.Err? {
        FailureSticks(reader, f.extents, i + 1);
        return Err(data.error);
      }
      result := result + data.value;
    }
    assert f.extents[..|f.extents|] == f.extents;
    r := Ok(Truncate(result, f.length as nat));
  }
}

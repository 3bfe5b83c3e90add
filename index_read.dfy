// The index reading rules of tape_ops/index_io/read.rs: the schema-text
// normalisation of indexes written by LTFSCopyGUI, the choice of the
// filemark that holds the latest index when reading from end of data, the
// bounded read-to-filemark loop, the block size read from a partition
// label, and the check-then-parse step that installs a new index.

module IndexRead {
  import opened Wrappers
  import opened Bytes
  import opened Strings
  import opened Utf8
  import opened IndexTypes
  import LtfsIndexParser
  import TapeOpsCore
  import PartitionManager

  // ---------------------------------------------------------------------------
  // ltfscopygui_from_schema_text

  const DIRECTORY_WRAPPER_OPEN: string := "<_directory>"
  const DIRECTORY_WRAPPER_CLOSE: string := "</_directory>"
  const FILE_WRAPPER_OPEN: string := "<_file>"
  const FILE_WRAPPER_CLOSE: string := "</_file>"
  const ESCAPED_PERCENT: string := "%25"

  /** The four wrapper tags removed, in order, then "%25" turned back into "%". */
  function Unwrapped(s: string): string
  {
    var a := ReplaceAll(s, DIRECTORY_WRAPPER_OPEN, "");
    var b := ReplaceAll(a, DIRECTORY_WRAPPER_CLOSE, "");
    var c := ReplaceAll(b, FILE_WRAPPER_OPEN, "");
    var d := ReplaceAll(c, FILE_WRAPPER_CLOSE, "");
    ReplaceAll(d, ESCAPED_PERCENT, "%")
  }

  /** Text showing at least one of the words of an LTFS index. */
  predicate HasLtfsStructure(s: string)
  {
    Contains(s, "ltfsindex") || Contains(s, "directory") || Contains(s, "file")
  }

  /**
   * `ltfscopygui_from_schema_text`: NULs are removed; fewer than 20 bytes
   * (UTF-8) left is an error; the wrapper tags are dropped and "%25"
   * unescaped; text that has none of the words "ltfsindex", "directory" and
   * "file" is an error.
   */
  function FromSchemaText(s: string): (r: Result<string>)
    ensures var t := RemoveAll(s, '\0');
      r.Ok? <==> Utf8Len(t) >= 20 && HasLtfsStructure(Unwrapped(t))
    ensures r.Ok? ==> r.value == Unwrapped(RemoveAll(s, '\0'))
    ensures r.Err? ==> r.error.kind == LtfsIndex
  {
    var t := RemoveAll(s, '\0');
    if Utf8Len(t) < 20 then
      Fail(LtfsIndex, "Schema text too short after null removal: " + NatToDecimal(Utf8Len(t)) + " bytes (original: " + NatToDecimal(Utf8Len(s)) + " bytes)")
    else
      var u := Unwrapped(t);
      if !HasLtfsStructure(u) then Fail(LtfsIndex, "No LTFS structure found in " + NatToDecimal(Utf8Len(u)) + " bytes of processed text")
      else Ok(u)
  }

  /** The normalised text has no NUL and is never longer than the input. */
  lemma UnwrappedClean(s: string)
    ensures var u := Unwrapped(RemoveAll(s, '\0'));
      |u| <= |s| && forall i :: 0 <= i < |u| ==> u[i] != '\0'
  {
    var t := RemoveAll(s, '\0');
    var a := ReplaceAll(t, DIRECTORY_WRAPPER_OPEN, "");
    var b := ReplaceAll(a, DIRECTORY_WRAPPER_CLOSE, "");
    var c := ReplaceAll(b, FILE_WRAPPER_OPEN, "");
    var d := ReplaceAll(c, FILE_WRAPPER_CLOSE, "");
    ReplaceAllShorter(t, DIRECTORY_WRAPPER_OPEN, "");
    ReplaceAllShorter(a, DIRECTORY_WRAPPER_CLOSE, "");
    ReplaceAllShorter(b, FILE_WRAPPER_OPEN, "");
    ReplaceAllShorter(c, FILE_WRAPPER_CLOSE, "");
    ReplaceAllShorter(d, ESCAPED_PERCENT, "%");
    ReplaceAllAvoids(t, DIRECTORY_WRAPPER_OPEN, "", '\0');
    ReplaceAllAvoids(a, DIRECTORY_WRAPPER_CLOSE, "", '\0');
    ReplaceAllAvoids(b, FILE_WRAPPER_OPEN, "", '\0');
    ReplaceAllAvoids(c, FILE_WRAPPER_CLOSE, "", '\0');
    ReplaceAllAvoids(d, ESCAPED_PERCENT, "%", '\0');
  }

  /**
   * A standard index (no NUL, no wrapper tag, no "%25", at least 20 bytes,
   * naming "ltfsindex") passes through unchanged.
   */
  lemma StandardTextUnchanged(s: string)
    requires forall i :: 0 <= i < |s| ==> s[i] != '\0'
    requires !Contains(s, DIRECTORY_WRAPPER_OPEN) && !Contains(s, DIRECTORY_WRAPPER_CLOSE)
    requires !Contains(s, FILE_WRAPPER_OPEN) && !Contains(s, FILE_WRAPPER_CLOSE)
    requires !Contains(s, ESCAPED_PERCENT)
    requires Utf8Len(s) >= 20 && Contains(s, "ltfsindex")
    ensures FromSchemaText(s).Ok? && FromSchemaText(s).value == s
  {
    assert RemoveAll(s, '\0') == s;
    ReplaceAllAbsent(s, DIRECTORY_WRAPPER_OPEN, "");
    ReplaceAllAbsent(s, DIRECTORY_WRAPPER_CLOSE, "");
    ReplaceAllAbsent(s, FILE_WRAPPER_OPEN, "");
    ReplaceAllAbsent(s, FILE_WRAPPER_CLOSE, "");
    ReplaceAllAbsent(s, ESCAPED_PERCENT, "%");
  }

  // ---------------------------------------------------------------------------
  // try_read_latest_index_from_eod

  /**
   * The filemark in front of the latest index: an end-of-data file number of
   * 1 or less is an error; on the index partition (0) it is filemark 3, on
   * any other partition the filemark before the last one.
   */
  function EodTarget(partition: u8, fileNumber: u64): (r: Result<u64>)
    ensures r.Ok? <==> fileNumber > 1
    ensures r.Ok? ==> 1 <= r.value && (partition != 0 ==> r.value < fileNumber)
  {
    if fileNumber <= 1 then
      Fail(LtfsIndex, "Insufficient file marks in partition " + NatToDecimal(partition) + " for index reading")
    else if partition == 0 then Ok(3)
    else Ok(fileNumber - 1)
  }

  /** Both LTFS index tags occur in the text. */
  predicate HasIndexTags(xml: string)
  {
    Contains(xml, "<ltfsindex") && Contains(xml, "</ltfsindex>")
  }

  /**
   * `try_read_latest_index_from_eod`, given what the drive answers: the
   * outcome of the LOCATE to block 0 and of the LOCATE to end of data, the
   * file number READ POSITION reports there, and, for a target filemark,
   * the outcome of locating to it, spacing over it and reading up to the
   * next filemark. Errors of the first LOCATE and of READ POSITION pass
   * through; an end-of-data failure is wrapped; everything after the target
   * is chosen only yields "no valid latest index" when it fails or returns
   * text without both index tags.
   */
  function LatestIndexFromEod(partition: u8, locateStart: Result<()>, locateEod: Result<()>,
                              position: Result<u64>, readAt: u64 -> Result<string>): (r: Result<string>)
    ensures locateStart.Err? ==> r == Err(locateStart.error)
    ensures locateStart.Ok? && locateEod.Err? ==> r.Err? && r.error.kind == LtfsIndex
    ensures r.Ok? ==> locateStart.Ok? && locateEod.Ok? && position.Ok? && position.value > 1
    ensures r.Ok? ==> var target := if partition == 0 then 3 else position.value - 1;
      readAt(target) == r && HasIndexTags(r.value)
  {
    if locateStart.Err? then Err(locateStart.error)
    else if locateEod.Err? then Fail(LtfsIndex, "Cannot locate to EOD: " + Display(locateEod.error))
    else if position.Err? then Err(position.error)
    else match EodTarget(partition, position.value)
      case Err(e) => Err(e)
      case Ok(target) =>
        var content := readAt(target);
        if content.Ok? && HasIndexTags(content.value) then content
        else Fail(LtfsIndex, "No valid latest index found at partition " + NatToDecimal(partition) + " EOD")
  }

  /** On the data partitions the index read is the one just before the last filemark. */
  lemma DataPartitionReadsLastIndex(partition: u8, fileNumber: u64, readAt: u64 -> Result<string>)
    requires partition != 0 && fileNumber > 1
    requires readAt(fileNumber - 1).Ok? && HasIndexTags(readAt(fileNumber - 1).value)
    ensures LatestIndexFromEod(partition, Ok(()), Ok(()), Ok(fileNumber), readAt) == readAt(fileNumber - 1)
  {
  }

  // ---------------------------------------------------------------------------
  // read_to_file_mark_with_temp_file

  /** One `read_blocks(1, ..)` call: the block count and what the drive delivered, or the error. */
  datatype BlockReply = Read(count: nat, data: seq<byte>) | ReadFailed(error: Error)

  const INITIAL_MAX_BLOCKS: nat := 50
  const HARD_MAX_BLOCKS: nat := 200
  /** How much of the end of the temporary file is searched for "<?xml". */
  const TAIL_LEN: nat := 4096

  /** The zeroed buffer of `block_size` bytes after the drive has written `data` into it. */
  function Fit(data: seq<byte>, n: nat): (r: seq<byte>)
    ensures |r| == n
    ensures forall i :: 0 <= i < n ==> r[i] == (if i < |data| then data[i] else 0)
  {
    if |data| >= n then data[..n] else data + seq(n - |data|, _ => 0)
  }

  /** The last (at most 4096) bytes of the file hold "<?xml", read lossily. */
  predicate TailHasXml(file: seq<byte>)
  {
    var n := if |file| < TAIL_LEN then |file| else TAIL_LEN;
    Contains(DecodeLossy(file[|file| - n..]), "<?xml")
  }

  /** After k whole blocks the tail check of the file saw "<?xml". */
  predicate XmlSeenAfter(file: seq<byte>, blockSize: nat, k: nat)
  {
    k * blockSize <= |file| && TailHasXml(file[..k * blockSize])
  }

  /** The limit after a block: raised to 200 when it was lower and the tail shows "<?xml". */
  function NextMax(maxBlocks: nat, file: seq<byte>): nat
  {
    if maxBlocks < HARD_MAX_BLOCKS && TailHasXml(file) then HARD_MAX_BLOCKS else maxBlocks
  }

  /** Where the loop stops: the number of blocks read, the limit then in force, and the file. */
  datatype LoopEnd = LoopEnd(blocksRead: nat, maxBlocks: nat, file: seq<byte>)

  /** The error raised when the very first read fails. */
  function FirstReadError(e: Error): Error
  {
    Error(Scsi, "Failed to read any data (Debug Mode - No Retry): " + Display(e))
  }

  /**
   * The read loop from `blocksRead` on: it stops at the limit, on a zero
   * count, and on an error (fatal only before any block was read); each
   * block appends the whole buffer to the file, and the limit rises from 50
   * to 200 once the tail of the file shows "<?xml".
   */
  function ReadLoop(blockSize: nat, drive: nat -> BlockReply, blocksRead: nat, maxBlocks: nat, file: seq<byte>): (r: Result<LoopEnd>)
    requires blocksRead <= maxBlocks && (maxBlocks == INITIAL_MAX_BLOCKS || maxBlocks == HARD_MAX_BLOCKS)
    requires |file| == blocksRead * blockSize
    ensures r.Ok? ==> blocksRead <= r.value.blocksRead <= r.value.maxBlocks <= HARD_MAX_BLOCKS
    ensures r.Ok? ==> r.value.maxBlocks == INITIAL_MAX_BLOCKS || r.value.maxBlocks == HARD_MAX_BLOCKS
    ensures r.Ok? ==> |r.value.file| == r.value.blocksRead * blockSize && file <= r.value.file
    ensures r.Err? ==> blocksRead == 0 && drive(0).ReadFailed? && r.error == FirstReadError(drive(0).error)
    decreases HARD_MAX_BLOCKS - blocksRead
  {
    if blocksRead >= maxBlocks then Ok(LoopEnd(blocksRead, maxBlocks, file))
    else match drive(blocksRead)
      case ReadFailed(e) =>
        if blocksRead == 0 then Err(FirstReadError(e)) else Ok(LoopEnd(blocksRead, maxBlocks, file))
      case Read(count, data) =>
        if count == 0 then Ok(LoopEnd(blocksRead, maxBlocks, file))
        else
          var file' := file + Fit(data, blockSize);
          ReadLoop(blockSize, drive, blocksRead + 1, NextMax(maxBlocks, file'), file')
  }

  /**
   * The limit rises to 200 only after the tail check saw "<?xml": when the
   * loop ends at 200 having started at 50, some block count k of this run
   * left a file whose last 4096 bytes show the declaration.
   */
  lemma {:induction false} LimitRaisedOnXml(blockSize: nat, drive: nat -> BlockReply, blocksRead: nat, file: seq<byte>)
    requires blocksRead <= INITIAL_MAX_BLOCKS && |file| == blocksRead * blockSize
    requires ReadLoop(blockSize, drive, blocksRead, INITIAL_MAX_BLOCKS, file).Ok?
    ensures var e := ReadLoop(blockSize, drive, blocksRead, INITIAL_MAX_BLOCKS, file).value;
      e.maxBlocks == HARD_MAX_BLOCKS ==> exists k :: blocksRead < k <= e.blocksRead && XmlSeenAfter(e.file, blockSize, k)
    decreases INITIAL_MAX_BLOCKS - blocksRead
  {
    if blocksRead < INITIAL_MAX_BLOCKS && drive(blocksRead).Read? && drive(blocksRead).count > 0 {
      var file' := file + Fit(drive(blocksRead).data, blockSize);
      assert |file'| == (blocksRead + 1) * blockSize;
      var e := ReadLoop(blockSize, drive, blocksRead, INITIAL_MAX_BLOCKS, file).value;
      if TailHasXml(file') {
        assert e.file[..(blocksRead + 1) * blockSize] == file';
        assert XmlSeenAfter(e.file, blockSize, blocksRead + 1);
      } else {
        LimitRaisedOnXml(blockSize, drive, blocksRead + 1, file');
      }
    }
  }

  /** One delivered block: the loop goes on with the block appended. */
  lemma ReadLoopContinues(blockSize: nat, drive: nat -> BlockReply, k: nat, maxBlocks: nat, file: seq<byte>)
    requires k < maxBlocks && (maxBlocks == INITIAL_MAX_BLOCKS || maxBlocks == HARD_MAX_BLOCKS)
    requires |file| == k * blockSize && drive(k).Read? && drive(k).count > 0
    ensures var file' := file + Fit(drive(k).data, blockSize);
      |file'| == (k + 1) * blockSize &&
      ReadLoop(blockSize, drive, k, maxBlocks, file) == ReadLoop(blockSize, drive, k + 1, NextMax(maxBlocks, file'), file')
  {
    assert (k + 1) * blockSize == k * blockSize + blockSize;
  }

  /** The three quiet ways out of the loop: the limit, a zero count, an error after some data. */
  lemma ReadLoopStops(blockSize: nat, drive: nat -> BlockReply, k: nat, maxBlocks: nat, file: seq<byte>)
    requires k <= maxBlocks && (maxBlocks == INITIAL_MAX_BLOCKS || maxBlocks == HARD_MAX_BLOCKS)
    requires |file| == k * blockSize
    requires k == maxBlocks || (drive(k).ReadFailed? && k > 0) || (drive(k).Read? && drive(k).count == 0)
    ensures ReadLoop(blockSize, drive, k, maxBlocks, file) == Ok(LoopEnd(k, maxBlocks, file))
  {
  }

  /** What `read_to_file_mark_with_temp_file` returns. */
  function ReadToFileMark(blockSize: nat, drive: nat -> BlockReply): Result<string>
  {
    match ReadLoop(blockSize, drive, 0, INITIAL_MAX_BLOCKS, [])
    case Err(e) => Err(e)
    case Ok(end) =>
      match Decode(end.file)
      case None => Fail(Io, "stream did not contain valid UTF-8")
      case Some(text) => PartitionManager.CleanedXml(text, "Cleaned XML is empty")
  }

  /** The loop of `read_to_file_mark_with_temp_file`, the temporary file held as a byte sequence. */
  method RunReadLoop(blockSize: nat, drive: nat -> BlockReply) returns (r: Result<LoopEnd>)
    ensures r == ReadLoop(blockSize, drive, 0, INITIAL_MAX_BLOCKS, [])
  {
    var file: seq<byte> := [];
    var blocksRead := 0;
    var maxBlocks := INITIAL_MAX_BLOCKS;
    while true
      invariant blocksRead <= maxBlocks && (maxBlocks == INITIAL_MAX_BLOCKS || maxBlocks == HARD_MAX_BLOCKS)
      invariant |file| == blocksRead * blockSize
      invariant ReadLoop(blockSize, drive, blocksRead, maxBlocks, file) == ReadLoop(blockSize, drive, 0, INITIAL_MAX_BLOCKS, [])
      decreases HARD_MAX_BLOCKS - blocksRead
    {
      if blocksRead >= maxBlocks {
        break;
      }
      var reply := drive(blocksRead);
      if reply.ReadFailed? {
        if blocksRead == 0 {
          return Err(FirstReadError(reply.error));
        }
        break;
      }
      if reply.count == 0 {
        break;
      }
      ReadLoopContinues(blockSize, drive, blocksRead, maxBlocks, file);
      file := file + Fit(reply.data, blockSize);
      blocksRead := blocksRead + 1;
      if maxBlocks < HARD_MAX_BLOCKS && TailHasXml(file) {
        maxBlocks := HARD_MAX_BLOCKS;
      }
    }
    ReadLoopStops(blockSize, drive, blocksRead, maxBlocks, file);
    return Ok(LoopEnd(blocksRead, maxBlocks, file));
  }

  /** `read_to_file_mark_with_temp_file`: the loop, then the file read back as UTF-8 and cleaned. */
  method ReadToFileMarkWithTempFile(blockSize: nat, drive: nat -> BlockReply) returns (r: Result<string>)
    ensures r == ReadToFileMark(blockSize, drive)
  {
    var loop := RunReadLoop(blockSize, drive);
    if loop.Err? {
      return Err(loop.error);
    }
    var text := Decode(loop.value.file);
    if text.None? {
      return Fail(Io, "stream did not contain valid UTF-8");
    }
    r := PartitionManager.CleanedXml(text.value, "Cleaned XML is empty");
  }

  /** A drive that delivers a block on every read, from read k on, with the limit already 200. */
  lemma {:induction false} ReadsToHardLimit(blockSize: nat, drive: nat -> BlockReply, k: nat, file: seq<byte>)
    requires k <= HARD_MAX_BLOCKS && |file| == k * blockSize
    requires forall j :: k <= j < HARD_MAX_BLOCKS ==> drive(j).Read? && drive(j).count > 0
    ensures ReadLoop(blockSize, drive, k, HARD_MAX_BLOCKS, file).Ok?
    ensures ReadLoop(blockSize, drive, k, HARD_MAX_BLOCKS, file).value.blocksRead == HARD_MAX_BLOCKS
    decreases HARD_MAX_BLOCKS - k
  {
    if k < HARD_MAX_BLOCKS {
      ReadsToHardLimit(blockSize, drive, k + 1, file + Fit(drive(k).data, blockSize));
    }
  }

  /** Once the first block shows "<?xml", a drive that keeps delivering is read for 200 blocks. */
  lemma XmlStartRaisesLimit(blockSize: nat, drive: nat -> BlockReply)
    requires forall j :: 0 <= j < HARD_MAX_BLOCKS ==> drive(j).Read? && drive(j).count > 0
    requires TailHasXml(Fit(drive(0).data, blockSize))
    ensures ReadLoop(blockSize, drive, 0, INITIAL_MAX_BLOCKS, []).Ok?
    ensures ReadLoop(blockSize, drive, 0, INITIAL_MAX_BLOCKS, []).value.blocksRead == HARD_MAX_BLOCKS
  {
    var file' := [] + Fit(drive(0).data, blockSize);
    assert file' == Fit(drive(0).data, blockSize);
    ReadsToHardLimit(blockSize, drive, 1, file');
  }

  /** The lossy decoding of zero bytes is all NULs. */
  lemma {:induction false} ZerosDecodeToNul(b: seq<byte>)
    requires forall i :: 0 <= i < |b| ==> b[i] == 0
    ensures forall i :: 0 <= i < |DecodeLossy(b)| ==> DecodeLossy(b)[i] == '\0'
  {
    AsciiDecode(b, 0);
  }

  lemma NoXmlInZeros(file: seq<byte>)
    requires forall i :: 0 <= i < |file| ==> file[i] == 0
    ensures !TailHasXml(file)
  {
    var n := if |file| < TAIL_LEN then |file| else TAIL_LEN;
    ZerosDecodeToNul(file[|file| - n..]);
    AbsentHead(DecodeLossy(file[|file| - n..]), "<?xml");
  }

  /** Over blank tape (blocks of zeros) the limit stays at 50 blocks, from read k on. */
  lemma {:induction false} BlankTapeStaysAtInitial(blockSize: nat, drive: nat -> BlockReply, k: nat, file: seq<byte>)
    requires k <= INITIAL_MAX_BLOCKS && |file| == k * blockSize
    requires forall i :: 0 <= i < |file| ==> file[i] == 0
    requires forall j, i :: k <= j < INITIAL_MAX_BLOCKS && drive(j).Read? && 0 <= i < |drive(j).data| ==> drive(j).data[i] == 0
    ensures var r := ReadLoop(blockSize, drive, k, INITIAL_MAX_BLOCKS, file);
      r.Ok? ==> r.value.maxBlocks == INITIAL_MAX_BLOCKS && r.value.blocksRead <= INITIAL_MAX_BLOCKS
    decreases INITIAL_MAX_BLOCKS - k
  {
    if k < INITIAL_MAX_BLOCKS && drive(k).Read? && drive(k).count > 0 {
      var file' := file + Fit(drive(k).data, blockSize);
      NoXmlInZeros(file');
      BlankTapeStaysAtInitial(blockSize, drive, k + 1, file');
    }
  }

  /** A first read that fails is fatal, whatever the block size. */
  lemma FirstReadFailureFatal(blockSize: nat, drive: nat -> BlockReply)
    requires drive(0).ReadFailed?
    ensures ReadToFileMark(blockSize, drive) == Err(FirstReadError(drive(0).error))
  {
  }

  /** A zero count on the first read leaves an empty file: "Cleaned XML is empty". */
  lemma FileMarkFirstIsEmpty(blockSize: nat, drive: nat -> BlockReply)
    requires drive(0).Read? && drive(0).count == 0
    ensures ReadToFileMark(blockSize, drive) == Fail(LtfsIndex, "Cleaned XML is empty")
  {
    assert Decode([]) == Some([]);
    assert Trim(RemoveAll("", '\0')) == [];
  }

  // ---------------------------------------------------------------------------
  // The block size of the partition label (read_and_parse_partition_label)

  const BLOCKSIZE_OPEN: string := "<blocksize>"
  const BLOCKSIZE_CLOSE: string := "</blocksize>"

  /** The closing tag, searched from the opening tag, is found only after the whole opening tag. */
  lemma CloseAfterOpen(content: string, start: nat, stop: nat)
    requires MatchAt(content, BLOCKSIZE_OPEN, start) && MatchAt(content[start..], BLOCKSIZE_CLOSE, stop)
    ensures stop >= |BLOCKSIZE_OPEN|
  {
    var t := content[start..];
    assert t[..11] == BLOCKSIZE_OPEN;
    NoCloseInsideOpen(t);
  }

  /** No closing tag starts inside an opening tag at the head of the text. */
  lemma NoCloseInsideOpen(t: string)
    requires |t| >= 11 && t[..11] == BLOCKSIZE_OPEN
    ensures forall j :: 0 <= j < 11 ==> !MatchAt(t, BLOCKSIZE_CLOSE, j)
  {
    forall j | 0 <= j < 11
      ensures !MatchAt(t, BLOCKSIZE_CLOSE, j)
    {
      if j + 12 <= |t| {
        assert t[j..j + 12][0] == t[j] && t[j..j + 12][1] == t[j + 1];
        if j == 0 {
          assert t[1] == BLOCKSIZE_OPEN[1];
        } else {
          assert t[j] == BLOCKSIZE_OPEN[j];
        }
      }
    }
  }

  /**
   * The block size named in a partition label: the text between the first
   * `<blocksize>` and the next `</blocksize>` parsed as a u32, and 524288
   * when a tag is missing or the number does not parse. The slice between
   * the tags is always in bounds (CloseAfterOpen).
   */
  function LabelBlockSize(content: string): (r: u32)
    ensures !Contains(content, BLOCKSIZE_OPEN) ==> r == TapeOpsCore.DEFAULT_BLOCK_SIZE
  {
    match Find(content, BLOCKSIZE_OPEN)
    case None => TapeOpsCore.DEFAULT_BLOCK_SIZE
    case Some(start) =>
      match Find(content[start..], BLOCKSIZE_CLOSE)
      case None => TapeOpsCore.DEFAULT_BLOCK_SIZE
      case Some(stop) =>
        CloseAfterOpen(content, start, stop);
        match ParseUnsigned(content[start + 11..start + stop], U32_LIMIT)
        case None => TapeOpsCore.DEFAULT_BLOCK_SIZE
        case Some(n) => n
  }

  /** No '<' in a string of digits. */
  lemma DigitsHaveNoTag(d: string, j: nat)
    requires AllDigits(d) && j < |d|
    ensures d[j] != '<'
  {
  }

  /** The element a label writes for block size n. */
  function BlockSizeElement(n: nat): (r: string)
    ensures |r| == 23 + |NatToDecimal(n)|
  {
    BLOCKSIZE_OPEN + NatToDecimal(n) + BLOCKSIZE_CLOSE
  }

  /** Searched from its start, an element and what follows has its closing tag right after the digits. */
  lemma CloseTagAfterDigits(n: nat, rest: string)
    ensures var t := BlockSizeElement(n) + rest;
      t[..11] == BLOCKSIZE_OPEN && t[11..11 + |NatToDecimal(n)|] == NatToDecimal(n) &&
      Find(t, BLOCKSIZE_CLOSE) == Some(11 + |NatToDecimal(n)|)
  {
    var d := NatToDecimal(n);
    var t := BlockSizeElement(n) + rest;
    var stop := 11 + |d|;
    assert t[..11] == BLOCKSIZE_OPEN && t[11..stop] == d && t[stop..stop + 12] == BLOCKSIZE_CLOSE;
    forall j | 0 <= j < stop
      ensures !MatchAt(t, BLOCKSIZE_CLOSE, j)
    {
      if j >= 11 {
        assert t[j] == d[j - 11];
        DigitsHaveNoTag(d, j - 11);
        assert t[j..j + 12][0] != BLOCKSIZE_CLOSE[0];
      } else {
        NoCloseInsideOpen(t);
      }
    }
    FindFromFirst(t, BLOCKSIZE_CLOSE, 0, stop);
  }

  /** The decimal rendering of a u32 parses back as a u32. */
  lemma DecimalParsesBack(n: u32)
    ensures ParseUnsigned(NatToDecimal(n), U32_LIMIT) == Some(n)
  {
    NatToDecimalValue(n);
  }

  /** The number between the tags the search finds is what the label reads as. */
  lemma LabelBlockSizeFound(content: string, start: nat, n: u32)
    requires Find(content, BLOCKSIZE_OPEN) == Some(start)
    requires Find(content[start..], BLOCKSIZE_CLOSE) == Some(11 + |NatToDecimal(n)|)
    requires content[start + 11..start + 11 + |NatToDecimal(n)|] == NatToDecimal(n)
    ensures LabelBlockSize(content) == n
  {
    DecimalParsesBack(n);
    LabelDigitsFound(content, start, NatToDecimal(n), n);
  }

  /** The text between the tags the search finds, when it parses as n, is what the label reads as. */
  lemma LabelDigitsFound(content: string, start: nat, d: string, n: u32)
    requires Find(content, BLOCKSIZE_OPEN) == Some(start)
    requires Find(content[start..], BLOCKSIZE_CLOSE) == Some(11 + |d|)
    requires start + 11 + |d| <= |content| && content[start + 11..start + 11 + |d|] == d
    requires ParseUnsigned(d, U32_LIMIT) == Some(n)
    ensures LabelBlockSize(content) == n
  {
  }

  /**
   * Round trip: a label whose first `<blocksize>` element holds the decimal
   * rendering of a u32 reads back that number.
   */
  lemma BlockSizeReadsBack(a: string, n: u32, b: string)
    requires forall j :: 0 <= j < |a| ==> !MatchAt(a + BlockSizeElement(n) + b, BLOCKSIZE_OPEN, j)
    ensures LabelBlockSize(a + BlockSizeElement(n) + b) == n
  {
    var content := a + BlockSizeElement(n) + b;
    assert content[|a|..] == BlockSizeElement(n) + b;
    ElementReadsBack(content, |a|, n, b);
  }

  /** A label holding an element for n at start, with no opening tag before it, reads as n. */
  lemma ElementReadsBack(content: string, start: nat, n: u32, rest: string)
    requires start <= |content| && content[start..] == BlockSizeElement(n) + rest
    requires forall j :: 0 <= j < start ==> !MatchAt(content, BLOCKSIZE_OPEN, j)
    ensures LabelBlockSize(content) == n
  {
    var d := NatToDecimal(n);
    var t := content[start..];
    assert |t| == |content| - start == 23 + |d| + |rest|;
    CloseTagAfterDigits(n, rest);
    assert content[start..start + 11] == t[..11];
    FindFromFirst(content, BLOCKSIZE_OPEN, 0, start);
    assert content[start + 11..start + 11 + |d|] == t[11..11 + |d|] by {
      assert start + 11 + |d| <= |content|;
    }
    LabelBlockSizeFound(content, start, n);
  }

  // ---------------------------------------------------------------------------
  // validate_and_process_index

  /**
   * `validate_and_process_index`: text missing either index tag is refused
   * without being parsed; otherwise `from_xml` runs (with `deserialise`
   * standing for quick_xml) and a parsed index replaces the current one.
   * The call itself never fails: a refusal is `Ok(false)`.
   */
  method ValidateAndProcessIndex(ops: TapeOpsCore.TapeOperations, xml: string, deserialise: string -> Result<Index>)
    returns (r: Result<bool>)
    modifies ops
    ensures r.Ok?
    ensures r.value <==> HasIndexTags(xml) && LtfsIndexParser.FromXml(xml, deserialise).Ok?
    ensures r.value ==> ops.index == Some(LtfsIndexParser.FromXml(xml, deserialise).value)
    ensures !r.value ==> ops.index == old(ops.index)
    ensures ops.offlineMode == old(ops.offlineMode) && ops.modified == old(ops.modified)
    ensures ops.stopFlag == old(ops.stopFlag) && ops.pauseFlag == old(ops.pauseFlag)
    ensures ops.extraPartitionCount == old(ops.extraPartitionCount)
    ensures ops.maxExtraPartitionAllowed == old(ops.maxExtraPartitionAllowed)
    ensures ops.blockSize == old(ops.blockSize) && ops.labelBlockSize == old(ops.labelBlockSize)
  {
    if !Contains(xml, "<ltfsindex") || !Contains(xml, "</ltfsindex>") {
      return Ok(false);
    }
    var parsed := LtfsIndexParser.FromXml(xml, deserialise);
    if parsed.Ok? {
      ops.index := Some(parsed.value);
      return Ok(true);
    }
    return Ok(false);
  }
}

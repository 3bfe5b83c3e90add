// The write path of tape_ops/write_operations.rs: the SCSI error handler
// that turns sense data into Abort/Retry/Ignore, the block-by-block
// streaming of a file onto the tape, and the guard that keeps a data write
// from landing on or before the index it would overwrite.

module WriteOperations {
  import opened Wrappers
  import opened Bytes
  import opened Strings
  import opened TapeOpsCore
  import opened ScsiTypes

  // ---------------------------------------------------------------------------
  // Sense data and the error decision

  datatype ScsiErrorAction = Abort | Retry | Ignore

  /** Bit 6 of sense byte 2: end of medium. */
  predicate EomBit(b: byte)
  {
    (b / 64) % 2 == 1
  }

  /** The name every description of a sense key starts with, for the keys the table knows. */
  function Category(key: nat): Option<string>
  {
    match key
    case 0x00 => Some("No sense")
    case 0x01 => Some("Recovered error")
    case 0x02 => Some("Not ready")
    case 0x03 => Some("Medium error")
    case 0x04 => Some("Hardware error")
    case 0x05 => Some("Illegal request")
    case 0x06 => Some("Unit attention")
    case 0x07 => Some("Data protect")
    case 0x08 => Some("Blank check")
    case 0x0B => Some("Aborted command")
    case 0x0D => Some("Volume overflow")
    case _ => None
  }

  /** A table entry: the key's category, a dash, and the detail. */
  function Entry(key: nat, detail: string): string
    requires Category(key).Some?
  {
    Category(key).value + " - " + detail
  }

  /** The catch-all text, with the three codes as two upper-case hexadecimal digits. */
  function UnknownText(key: nat, asc: byte, ascq: byte): string
    requires key < 16
  {
    "Unknown error - Sense Key: 0x" + Hex2(key) + ", ASC: 0x" + Hex2(asc) + ", ASCQ: 0x" + Hex2(ascq)
  }

  /**
   * The detail half of `parse_sense_data`'s table, for the (sense key,
   * ASC, ASCQ) triples it lists; keys 0 and 1 match whatever the ASC/ASCQ.
   */
  function Detail(key: nat, asc: byte, ascq: byte): (r: Option<string>)
    ensures r.Some? ==> Category(key).Some?
    ensures key <= 1 ==> r.Some?
  {
    match (key, asc, ascq)
    case (0x00, _, _) => Some("operation completed successfully")
    case (0x01, _, _) => Some("operation completed with recovery action")
    case (0x02, 0x04, 0x01) => Some("becoming ready")
    case (0x02, 0x04, 0x02) => Some("initializing command required")
    case (0x02, 0x04, 0x03) => Some("manual intervention required")
    case (0x02, 0x04, 0x04) => Some("format in progress")
    case (0x02, 0x30, 0x00) => Some("incompatible medium installed")
    case (0x02, 0x3A, 0x00) => Some("medium not present")
    case (0x03, 0x11, 0x00) => Some("unrecovered read error")
    case (0x03, 0x14, 0x01) => Some("record not found")
    case (0x03, 0x30, 0x00) => Some("incompatible medium installed")
    case (0x03, 0x31, 0x00) => Some("medium format corrupted")
    case (0x04, 0x08, 0x00) => Some("logical unit communication failure")
    case (0x04, 0x08, 0x01) => Some("logical unit communication timeout")
    case (0x04, 0x15, 0x01) => Some("mechanical positioning error")
    case (0x04, 0x40, 0x00) => Some("diagnostic failure")
    case (0x04, 0x44, 0x00) => Some("internal target failure")
    case (0x05, 0x20, 0x00) => Some("invalid command operation code")
    case (0x05, 0x24, 0x00) => Some("invalid field in CDB")
    case (0x05, 0x25, 0x00) => Some("logical unit not supported")
    case (0x05, 0x26, 0x00) => Some("invalid field in parameter list")
    case (0x06, 0x28, 0x00) => Some("not ready to ready change")
    case (0x06, 0x29, 0x00) => Some("power on, reset, or bus device reset occurred")
    case (0x06, 0x2A, 0x01) => Some("mode parameters changed")
    case (0x07, 0x27, 0x00) => Some("write protected")
    case (0x07, 0x30, 0x00) => Some("incompatible medium installed")
    case (0x08, 0x00, 0x05) => Some("end of data detected")
    case (0x0D, 0x00, 0x00) => Some("physical end of medium")
    case (0x0B, 0x08, 0x00) => Some("logical unit communication failure")
    case (0x0B, 0x08, 0x01) => Some("logical unit communication timeout")
    case (0x0B, 0x43, 0x00) => Some("message error")
    case (0x0B, 0x47, 0x00) => Some("SCSI parity error")
    case _ => None
  }

  /**
   * The description of `parse_sense_data`: a listed triple gets its key's
   * category, a dash and the detail; anything else gets the catch-all text.
   */
  function SenseDescription(key: nat, asc: byte, ascq: byte): (r: string)
    requires key < 16
    ensures (Category(key).Some? && |Category(key).value| <= |r| && r[..|Category(key).value|] == Category(key).value)
      || r == UnknownText(key, asc, ascq)
    ensures key <= 1 ==> r != UnknownText(key, asc, ascq)
  {
    match Detail(key, asc, ascq)
    case Some(d) => Entry(key, d)
    case None => UnknownText(key, asc, ascq)
  }

  const INVALID_SENSE_TEXT: string := "Invalid sense data length"

  /** `ScsiErrorHandler`: the retry budget and whether a volume overflow is ignored. */
  datatype ScsiErrorHandler = ScsiErrorHandler(maxRetryAttempts: u32, ignoreVolumeOverflow: bool)
  {
    /**
     * `parse_sense_data` as written: the length guard admits 8 bytes but
     * ASC and ASCQ are read from bytes 12 and 13, so a reply of 8 to 13
     * bytes panics on the index.
     */
    function ParseSenseDataAsWritten(sense: seq<byte>): (r: Outcome<string>)
      ensures r.Panics? <==> 8 <= |sense| < 14
      ensures |sense| < 8 ==> r == Returns(INVALID_SENSE_TEXT)
    {
      if |sense| < 8 then Returns(INVALID_SENSE_TEXT)
      else if |sense| < 14 then Panics
      else Returns(SenseDescription(sense[2] % 16, sense[12], sense[13]))
    }

    /** `parse_sense_data` with the guard covering the bytes it reads. */
    function ParseSenseData(sense: seq<byte>): (r: string)
      ensures |sense| < 14 ==> r == INVALID_SENSE_TEXT
      ensures |sense| >= 14 ==> r == SenseDescription(sense[2] % 16, sense[12], sense[13])
    {
      if |sense| < 14 then INVALID_SENSE_TEXT
      else SenseDescription(sense[2] % 16, sense[12], sense[13])
    }

    /** `is_volume_overflow`: the EOM bit with sense key VOLUME OVERFLOW (0x0D). */
    predicate IsVolumeOverflow(sense: seq<byte>)
    {
      |sense| >= 3 && EomBit(sense[2]) && sense[2] % 16 == 0x0D
    }

    /** `is_end_of_medium_warning`: the EOM bit with any other sense key (early warning). */
    predicate IsEndOfMediumWarning(sense: seq<byte>)
    {
      |sense| >= 3 && EomBit(sense[2]) && sense[2] % 16 != 0x0D
    }

    /** The decision of `handle_write_error` once the description exists. */
    function Decide(sense: seq<byte>, retryCount: u32): (r: ScsiErrorAction)
      ensures IsVolumeOverflow(sense) ==> (r == Ignore <==> ignoreVolumeOverflow) && r != Retry
      ensures IsEndOfMediumWarning(sense) ==> r == Ignore
      ensures !IsVolumeOverflow(sense) && !IsEndOfMediumWarning(sense) ==>
        r != Ignore && (r == Retry <==> retryCount < maxRetryAttempts)
    {
      if IsVolumeOverflow(sense) then (if ignoreVolumeOverflow then Ignore else Abort)
      else if IsEndOfMediumWarning(sense) then Ignore
      else if retryCount < maxRetryAttempts then Retry
      else Abort
    }

    /** `handle_write_error` as written: it parses the sense data first, so it panics where the parse does. */
    function HandleWriteErrorAsWritten(sense: seq<byte>, retryCount: u32): (r: Outcome<ScsiErrorAction>)
      ensures r.Panics? <==> 8 <= |sense| < 14
      ensures r.Returns? ==> r.value == Decide(sense, retryCount)
    {
      match ParseSenseDataAsWritten(sense)
      case Panics => Panics
      case Returns(_) => Returns(Decide(sense, retryCount))
    }

    /** `handle_write_error` over the corrected parse: it always decides. */
    function HandleWriteError(sense: seq<byte>, retryCount: u32): (r: ScsiErrorAction)
      ensures r == Decide(sense, retryCount)
      ensures r == Ignore ==> |sense| >= 3 && EomBit(sense[2])
      ensures retryCount >= maxRetryAttempts ==> r != Retry
    {
      var _ := ParseSenseData(sense);
      Decide(sense, retryCount)
    }
  }

  /** Overflow and early warning split the EOM bit between them: never both, and one exactly when it is set. */
  lemma OverflowWarningPartition(h: ScsiErrorHandler, sense: seq<byte>)
    ensures !(h.IsVolumeOverflow(sense) && h.IsEndOfMediumWarning(sense))
    ensures h.IsVolumeOverflow(sense) || h.IsEndOfMediumWarning(sense) <==> |sense| >= 3 && EomBit(sense[2])
    ensures |sense| < 3 ==> !h.IsVolumeOverflow(sense) && !h.IsEndOfMediumWarning(sense)
  {
  }

  /** Sense data of 8 to 13 bytes (for example 8 zero bytes) makes the as-written handler panic; the corrected one decides. */
  lemma ShortSensePanics(h: ScsiErrorHandler, retryCount: u32)
    ensures h.HandleWriteErrorAsWritten([0, 0, 0, 0, 0, 0, 0, 0], retryCount).Panics?
    ensures h.ParseSenseData([0, 0, 0, 0, 0, 0, 0, 0]) == INVALID_SENSE_TEXT
  {
  }

  /** Outside 8..13 bytes the two parses agree, and so do the two handlers. */
  lemma ParseAgreesElsewhere(h: ScsiErrorHandler, sense: seq<byte>, retryCount: u32)
    requires |sense| < 8 || |sense| >= 14
    ensures h.ParseSenseDataAsWritten(sense) == Returns(h.ParseSenseData(sense))
    ensures h.HandleWriteErrorAsWritten(sense, retryCount) == Returns(h.HandleWriteError(sense, retryCount))
  {
  }

  /** Volume overflow with the standard codes gets its own text, and any other ASC/ASCQ of key 0x0D is unknown. */
  lemma OverflowDescription(asc: byte, ascq: byte)
    ensures SenseDescription(0x0D, 0, 0) == "Volume overflow - physical end of medium"
    ensures (asc, ascq) != (0, 0) ==> SenseDescription(0x0D, asc, ascq) == UnknownText(0x0D, asc, ascq)
  {
  }

  // ---------------------------------------------------------------------------
  // Streaming a file onto the tape

  /** A block buffer zero-filled and then overwritten with `chunk` from the start. */
  function Padded(chunk: seq<byte>, blockSize: nat): (r: seq<byte>)
    requires |chunk| <= blockSize
    ensures |r| == blockSize && r[..|chunk|] == chunk
    ensures forall i :: |chunk| <= i < blockSize ==> r[i] == 0
  {
    chunk + seq(blockSize - |chunk|, _ => 0)
  }

  function MinNat(a: nat, b: nat): nat { if a <= b then a else b }

  /** The blocks of the streaming loop for the bytes it reads: full blocks, then a zero-padded last one. */
  function LoopBlocks(content: seq<byte>, blockSize: nat): seq<seq<byte>>
    decreases |content|
  {
    if content == [] || blockSize == 0 then []
    else
      var n := MinNat(|content|, blockSize);
      [Padded(content[..n], blockSize)] + LoopBlocks(content[n..], blockSize)
  }

  function Flatten(blocks: seq<seq<byte>>): seq<byte>
  {
    if blocks == [] then [] else blocks[0] + Flatten(blocks[1..])
  }

  /** The number of blocks `n` bytes take, rounded up. */
  function BlocksFor(n: nat, blockSize: nat): nat
    requires blockSize > 0
  {
    (n + blockSize - 1) / blockSize
  }

  /** The loop writes ceil(n / block size) blocks, each of exactly the block size. */
  lemma LoopBlocksCount(content: seq<byte>, blockSize: nat)
    requires blockSize > 0
    ensures |LoopBlocks(content, blockSize)| == BlocksFor(|content|, blockSize)
    ensures forall b :: b in LoopBlocks(content, blockSize) ==> |b| == blockSize
  {
    LoopBlocksLength(content, blockSize);
    LoopBlocksSizes(content, blockSize);
  }

  lemma {:induction false} LoopBlocksLength(content: seq<byte>, blockSize: nat)
    requires blockSize > 0
    ensures |LoopBlocks(content, blockSize)| == BlocksFor(|content|, blockSize)
    decreases |content|
  {
    if content == [] {
      assert BlocksFor(0, blockSize) == 0;
    } else {
      var n := MinNat(|content|, blockSize);
      var rest := content[n..];
      assert |rest| == |content| - n;
      assert |LoopBlocks(content, blockSize)| == 1 + |LoopBlocks(rest, blockSize)|;
      LoopBlocksLength(rest, blockSize);
      BlocksForStep(|content|, blockSize);
    }
  }

  lemma {:induction false} LoopBlocksSizes(content: seq<byte>, blockSize: nat)
    requires blockSize > 0
    ensures forall b :: b in LoopBlocks(content, blockSize) ==> |b| == blockSize
    decreases |content|
  {
    if content != [] {
      var n := MinNat(|content|, blockSize);
      LoopBlocksSizes(content[n..], blockSize);
    }
  }

  /** Blocks of one size laid end to end. */
  lemma {:induction false} FlattenLength(blocks: seq<seq<byte>>, blockSize: nat)
    requires forall b :: b in blocks ==> |b| == blockSize
    ensures |Flatten(blocks)| == |blocks| * blockSize
  {
    if blocks != [] {
      assert forall b :: b in blocks[1..] ==> b in blocks;
      FlattenLength(blocks[1..], blockSize);
      assert |Flatten(blocks)| == blockSize + |blocks[1..]| * blockSize;
      MulStep(|blocks[1..]|, blockSize);
    }
  }

  /** Laid end to end, the loop's blocks start with the content and are zero after it. */
  lemma {:induction false} LoopBlocksContent(content: seq<byte>, blockSize: nat)
    requires blockSize > 0
    ensures |content| <= |Flatten(LoopBlocks(content, blockSize))|
    ensures Flatten(LoopBlocks(content, blockSize))[..|content|] == content
    ensures forall i :: |content| <= i < |Flatten(LoopBlocks(content, blockSize))| ==>
      Flatten(LoopBlocks(content, blockSize))[i] == 0
    decreases |content|
  {
    if content != [] {
      var n := MinNat(|content|, blockSize);
      var rest := content[n..];
      LoopBlocksContent(rest, blockSize);
      var head := Padded(content[..n], blockSize);
      var tail := Flatten(LoopBlocks(rest, blockSize));
      assert LoopBlocks(content, blockSize)[1..] == LoopBlocks(rest, blockSize);
      assert Flatten(LoopBlocks(content, blockSize)) == head + tail;
      if |content| <= blockSize {
        assert tail == [];
      } else {
        assert (head + tail)[..|content|] == content[..blockSize] + tail[..|rest|];
        assert content == content[..blockSize] + rest;
      }
    }
  }

  lemma BlocksForStep(n: nat, blockSize: nat)
    requires blockSize > 0 && n > 0
    ensures BlocksFor(n, blockSize) == 1 + BlocksFor(n - MinNat(n, blockSize), blockSize)
  {
    if n <= blockSize {
      assert BlocksFor(n, blockSize) == 1 by {
        DivRange(n + blockSize - 1, blockSize, 1);
      }
      assert BlocksFor(0, blockSize) == 0;
    } else {
      assert n + blockSize - 1 == (n - blockSize + blockSize - 1) + blockSize;
      DivShift(n - blockSize + blockSize - 1, blockSize);
    }
  }

  lemma DivRange(x: nat, d: nat, q: nat)
    requires d > 0 && q * d <= x < (q + 1) * d
    ensures x / d == q
  {
    ModUnique(x, d, q, x - q * d);
  }

  lemma DivShift(x: nat, d: nat)
    requires d > 0
    ensures (x + d) / d == x / d + 1
  {
    ModUnique(x + d, d, x / d + 1, x % d);
  }

  lemma MulStep(n: nat, b: nat)
    ensures b + n * b == (n + 1) * b
  {
  }

  /** What the streaming write reports: where it started, the blocks written and the two counters. */
  datatype StreamResult = StreamResult(position: TapePosition, blocks: seq<seq<byte>>, totalBlocks: nat, totalBytes: u64)

  /** How the streaming write ends: with a result, or waiting for ever on the pause flag. */
  datatype StreamOutcome = Finished(result: Result<StreamResult>) | Stalls

  /** The writer's switches that the streaming write reads. */
  datatype WriteSetup = WriteSetup(stopFlag: bool, pauseFlag: bool, offlineMode: bool, skipSymlinks: bool)

  /** The file's metadata: its length and whether it is a symbolic link. */
  datatype FileMeta = FileMeta(size: u64, isSymlink: bool)

  /** The result reported for a file that is not written (offline mode, or a skipped file). */
  function Skipped(): StreamResult
  {
    StreamResult(TapePosition(1, 0, 0, 0, false, false), [], 0, 0)
  }

  /** The 8 TiB bound of `check_available_space`. */
  const MAX_FILE_SIZE: nat := 8 * 1024 * 1024 * 1024 * 1024

  /** `check_available_space`: only a file larger than 8 TiB is refused. */
  function CheckAvailableSpace(requiredSize: u64): (r: Result<()>)
    ensures r.Ok? <==> requiredSize as nat <= MAX_FILE_SIZE
    ensures r.Err? ==> r.error == Error(TapeDevice, "File too large for tape capacity")
  {
    if requiredSize as nat > MAX_FILE_SIZE then Fail(TapeDevice, "File too large for tape capacity") else Ok(())
  }

  /**
   * The streaming write gets past its early exits: not stopped, not offline,
   * metadata read, not a skipped file, within the space bound, and the tape
   * positioned, its position read and the file opened (`start`).
   */
  predicate Proceeds(setup: WriteSetup, isXattr: bool, meta: Result<FileMeta>, start: Result<TapePosition>)
  {
    && !setup.stopFlag && !setup.offlineMode && meta.Ok? && !isXattr
    && !(setup.skipSymlinks && meta.value.isSymlink)
    && meta.value.size as nat <= MAX_FILE_SIZE && start.Ok?
  }

  /**
   * `write_file_to_tape_streaming`. `isXattr` says whether the source path
   * has the extension "xattr" (in any case); `meta` is the metadata query;
   * `start` is the outcome of locating the write position, reading the
   * position and opening the file; `data` is the file's bytes. The flags are
   * fields of the writer, which the call holds exclusively, so the in-loop
   * stop check never fires and the in-loop pause wait never ends.
   */
  method WriteFileStreaming(setup: WriteSetup, isXattr: bool, meta: Result<FileMeta>, start: Result<TapePosition>,
                            data: seq<byte>, blockSize: u32) returns (r: StreamOutcome)
    ensures setup.stopFlag ==> r == Finished(Fail(OperationCancelled, "Write operation stopped by user"))
    ensures !setup.stopFlag && setup.offlineMode ==> r == Finished(Ok(Skipped()))
    ensures !setup.stopFlag && !setup.offlineMode && meta.Err? ==>
      r == Finished(Fail(FileOperation, "Unable to get file information: " + meta.error.message))
    ensures !setup.stopFlag && !setup.offlineMode && meta.Ok? && (isXattr || (setup.skipSymlinks && meta.value.isSymlink)) ==>
      r == Finished(Ok(Skipped()))
    ensures !setup.stopFlag && !setup.offlineMode && meta.Ok? && !isXattr && !(setup.skipSymlinks && meta.value.isSymlink) ==>
      (meta.value.size as nat > MAX_FILE_SIZE ==>
        r == Finished(Fail(TapeDevice, "Insufficient tape space: " + Display(Error(TapeDevice, "File too large for tape capacity")))))
      && (meta.value.size as nat <= MAX_FILE_SIZE && start.Err? ==> r == Finished(Err(start.error)))
    ensures Proceeds(setup, isXattr, meta, start) && meta.value.size > blockSize as int ==>
      (r.Stalls? <==> setup.pauseFlag)
    ensures Proceeds(setup, isXattr, meta, start) && r.Finished? && r.result.Ok? ==>
      r.result.value.position == start.value && r.result.value.totalBlocks == |r.result.value.blocks|
    ensures Proceeds(setup, isXattr, meta, start) && meta.value.size <= blockSize as int ==>
      var fileSize := meta.value.size;
      && r.Finished?
      && (r.result.Ok? <==> |data| >= fileSize as int)
      && (r.result.Ok? ==> r.result.value.blocks == [Padded(data[..fileSize], blockSize as int)] && r.result.value.totalBytes == fileSize)
      && (r.result.Err? ==> r.result.error.kind == FileOperation)
    ensures Proceeds(setup, isXattr, meta, start) && meta.value.size > blockSize as int && r.Finished? ==>
      var fileSize := meta.value.size;
      && r.result.Ok?
      && r.result.value.blocks == LoopBlocks(data[..MinNat(fileSize as int, |data|)], blockSize as int)
      && r.result.value.totalBytes as int == (if blockSize == 0 then 0 else MinNat(fileSize as int, |data|))
  {
    if setup.stopFlag {
      return Finished(Fail(OperationCancelled, "Write operation stopped by user"));
    }
    if setup.offlineMode {
      return Finished(Ok(Skipped()));
    }
    if meta.Err? {
      return Finished(Fail(FileOperation, "Unable to get file information: " + meta.error.message));
    }
    var fileSize := meta.value.size;
    if isXattr || (setup.skipSymlinks && meta.value.isSymlink) {
      return Finished(Ok(Skipped()));
    }
    var space := CheckAvailableSpace(fileSize);
    if space.Err? {
      return Finished(Fail(TapeDevice, "Insufficient tape space: " + Display(space.error)));
    }
    if start.Err? {
      return Finished(Err(start.error));
    }
    if fileSize as int <= blockSize as int {
      var bytesRead := MinNat(fileSize as int, |data|);
      if bytesRead != fileSize as int {
        return Finished(Fail(FileOperation, "Bytes read mismatch: expected " + NatToDecimal(fileSize as int)
          + " bytes, actually read " + NatToDecimal(bytesRead) + " bytes"));
      }
      var buffer := Padded(data[..bytesRead], blockSize as int);
      return Finished(Ok(StreamResult(start.value, [buffer], 1, fileSize)));
    }
    if setup.pauseFlag {
      // `while self.pause_flag && !self.stop_flag` with flags nothing can change
      return Stalls;
    }
    var blocks, totalBlocks, totalBytes := StreamBlocks(data, fileSize as int, blockSize as int);
    return Finished(Ok(StreamResult(start.value, blocks, totalBlocks, totalBytes)));
  }

  /**
   * The block loop of `write_file_to_tape_streaming`: while bytes remain,
   * read min(remaining, block size) into a zeroed block buffer and write
   * it; a read of nothing ends the loop.
   */
  method StreamBlocks(data: seq<byte>, fileSize: nat, blockSize: nat)
    returns (blocks: seq<seq<byte>>, totalBlocks: nat, totalBytes: nat)
    ensures blocks == LoopBlocks(data[..MinNat(fileSize, |data|)], blockSize)
    ensures totalBlocks == |blocks|
    ensures totalBytes == if blockSize == 0 then 0 else MinNat(fileSize, |data|)
  {
    var content := data[..MinNat(fileSize, |data|)];
    blocks, totalBlocks, totalBytes := [], 0, 0;
    var remaining: nat := fileSize;
    var pos: nat := 0;
    while remaining > 0
      invariant pos == totalBytes <= |content| && pos <= fileSize
      invariant remaining == fileSize - pos
      invariant totalBlocks == |blocks|
      invariant blocks + LoopBlocks(content[pos..], blockSize) == LoopBlocks(content, blockSize)
      invariant blockSize == 0 ==> pos == 0
      decreases remaining
    {
      var bytesToRead := MinNat(remaining, blockSize);
      var bytesRead := MinNat(bytesToRead, |content| - pos);
      if bytesRead == 0 {
        break;
      }
      var buffer := Padded(content[pos..pos + bytesRead], blockSize);
      LoopBlocksStep(content, pos, bytesRead, blockSize, blocks);
      blocks := blocks + [buffer];
      totalBlocks := totalBlocks + 1;
      totalBytes := totalBytes + bytesRead;
      remaining := remaining - bytesRead;
      pos := pos + bytesRead;
    }
    LoopBlocksEnd(content, pos, blockSize);
  }

  /** One turn of the streaming loop peels one block off the rest of the content. */
  lemma LoopBlocksStep(content: seq<byte>, pos: nat, n: nat, blockSize: nat, done: seq<seq<byte>>)
    requires pos < |content| && blockSize > 0
    requires n == MinNat(|content| - pos, blockSize)
    requires done + LoopBlocks(content[pos..], blockSize) == LoopBlocks(content, blockSize)
    ensures (done + [Padded(content[pos..pos + n], blockSize)]) + LoopBlocks(content[pos + n..], blockSize)
      == LoopBlocks(content, blockSize)
  {
    assert content[pos..][..n] == content[pos..pos + n];
    assert content[pos..][n..] == content[pos + n..];
    var b := Padded(content[pos..pos + n], blockSize);
    assert LoopBlocks(content[pos..], blockSize) == [b] + LoopBlocks(content[pos + n..], blockSize);
  }

  /** Nothing is left once the position reaches the end, or when the block size is 0. */
  lemma LoopBlocksEnd(content: seq<byte>, pos: nat, blockSize: nat)
    requires pos <= |content|
    requires pos == |content| || blockSize == 0
    ensures LoopBlocks(content[pos..], blockSize) == []
  {
  }

  /**
   * Whichever branch runs, a file that reads in full is written as exactly
   * BlocksFor(size) blocks (one for an empty file), each of the block size,
   * holding the file's bytes followed by zeros.
   */
  lemma StreamedFileReadsBack(data: seq<byte>, fileSize: u64, blockSize: u32, blocks: seq<seq<byte>>)
    requires blockSize > 0 && |data| >= fileSize as int
    requires blocks == (if fileSize as int <= blockSize as int then [Padded(data[..fileSize], blockSize as int)]
      else LoopBlocks(data[..fileSize], blockSize as int))
    ensures |blocks| == if fileSize == 0 then 1 else BlocksFor(fileSize as int, blockSize as int)
    ensures forall b :: b in blocks ==> |b| == blockSize as int
    ensures |Flatten(blocks)| == |blocks| * blockSize as int
    ensures Flatten(blocks)[..fileSize] == data[..fileSize]
    ensures forall i :: fileSize as int <= i < |Flatten(blocks)| ==> Flatten(blocks)[i] == 0
  {
    if fileSize as int <= blockSize as int {
      var b := Padded(data[..fileSize], blockSize as int);
      assert Flatten(blocks) == b + Flatten([]);
      if fileSize > 0 {
        BlocksForStep(fileSize as int, blockSize as int);
        assert BlocksFor(0, blockSize as int) == 0;
      }
    } else {
      LoopBlocksCount(data[..fileSize], blockSize as int);
      FlattenLength(blocks, blockSize as int);
      LoopBlocksContent(data[..fileSize], blockSize as int);
    }
  }

  // ---------------------------------------------------------------------------
  // The write position

  /** `PartitionWriteState`. */
  datatype PartitionWriteState = PartitionWriteState(
    currentPartition: u8, currentBlock: u64, isIndexPartition: bool, lastFilemarkPosition: Option<u64>)

  /** Where the current index lives (`schema.location`). */
  datatype IndexLocation = IndexLocation(partition: string, startBlock: u64)

  /**
   * `locate_to_write_position`, with the drive's answers as parameters:
   * `current` is the position before the call and `eodBlock` the block READ
   * POSITION reports after spacing to end of data on the data partition.
   * The write goes to logical partition 1, mapped through the detected
   * partition count; it moves to end of data when it is elsewhere or when
   * `gotoEod` asks to. It refuses a position on the index's (mapped)
   * partition at or before the index's start block.
   */
  function WritePosition(currentPartition: u8, currentBlock: u64, extraCount: u8, gotoEod: bool, eodBlock: u64,
                         schema: Option<IndexLocation>): (r: Result<PartitionWriteState>)
    ensures var data := TargetPartition(1, extraCount);
      var block := if currentPartition != data || gotoEod then eodBlock else currentBlock;
      var refused := schema.Some?
        && TargetPartition(if schema.value.partition == "b" then 1 else 0, extraCount) == data
        && block <= schema.value.startBlock;
      (r.Ok? <==> !refused)
      && (r.Ok? ==> r.value == PartitionWriteState(data, block, false, None))
      && (r.Err? ==> r.error.kind == TapeDevice)
  {
    var dataPartition := TargetPartition(1, extraCount);
    var targetBlock := if currentPartition != dataPartition then eodBlock
      else if gotoEod then eodBlock else currentBlock;
    if schema.Some? then
      var schemaPartition: u8 := if schema.value.partition == "b" then 1 else 0;
      var targetSchemaPartition := TargetPartition(schemaPartition, extraCount);
      if targetSchemaPartition == dataPartition && targetBlock <= schema.value.startBlock then
        Fail(TapeDevice, "Current position p" + NatToDecimal(dataPartition) + "b" + NatToDecimal(targetBlock)
          + " not allowed for index write, index is at p" + NatToDecimal(targetSchemaPartition)
          + "b" + NatToDecimal(schema.value.startBlock))
      else
        Ok(PartitionWriteState(dataPartition, targetBlock, false, None))
    else
      Ok(PartitionWriteState(dataPartition, targetBlock, false, None))
  }

  /**
   * On a dual-partition tape an index on partition a never blocks a data
   * write; on a single-partition tape everything shares partition 0, so a
   * write at or before the index's start block is always refused.
   */
  lemma WriteGuardByLayout(currentPartition: u8, currentBlock: u64, extraCount: u8, gotoEod: bool, eodBlock: u64,
                           loc: IndexLocation)
    ensures extraCount != 0 && loc.partition != "b" ==>
      WritePosition(currentPartition, currentBlock, extraCount, gotoEod, eodBlock, Some(loc)).Ok?
    ensures extraCount == 0 && (currentPartition != 0 || gotoEod) && eodBlock <= loc.startBlock ==>
      WritePosition(currentPartition, currentBlock, extraCount, gotoEod, eodBlock, Some(loc)).Err?
  {
    TargetPartitionShape(1, extraCount);
    TargetPartitionShape(0, extraCount);
  }
}

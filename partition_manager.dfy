// The decisions of tape_ops/partition_manager.rs: the strategy and the
// partition mapping chosen from ExtraPartitionCount, the VOL1 and LTFS
// volume label checks, the scan of a volume label for an index location,
// the classification of read errors, and the bounded read of an index at
// the current tape position. Device reads are replies given as parameters.

module PartitionManager {
  import opened Wrappers
  import opened Bytes
  import opened Strings
  import opened Utf8
  import TapeOpsCore

  /** LTO_BLOCK_SIZE (scsi/constants.rs), the default label block size. */
  const LTO_BLOCK_SIZE: u32 := 65536

  datatype PartitionStrategy = StandardMultiPartition | SinglePartitionFallback | IndexFromDataPartition

  /** `determine_partition_strategy`: only a count of 0 falls back to the single-partition strategy. */
  function DeterminePartitionStrategy(extraCount: u8): (r: PartitionStrategy)
    ensures r.SinglePartitionFallback? <==> extraCount == 0
    ensures r != IndexFromDataPartition
  {
    match extraCount
    case 0 => SinglePartitionFallback
    case 1 => StandardMultiPartition
    case _ => StandardMultiPartition
  }

  /** `map_partition_number` (and `get_target_partition`, which calls it). */
  function MapPartitionNumber(logical: u8, extraCount: u8): (r: u8)
    ensures r <= 1
    ensures r == 1 <==> extraCount != 0 && logical != 0
  {
    match extraCount
    case 0 => 0
    case 1 => (match logical case 0 => 0 case 1 => 1 case _ => 1)
    case _ => if logical == 0 then 0 else 1
  }

  /** The partition manager and `TapeOperations::get_target_partition` map every input alike. */
  lemma MapAgreesWithTapeOperations(logical: u8, extraCount: u8)
    ensures MapPartitionNumber(logical, extraCount) == TapeOpsCore.TargetPartition(logical, extraCount)
  {
    TapeOpsCore.TargetPartitionShape(logical, extraCount);
  }

  /** `validate_extra_partition_count`: Math.Min(1, value), then Math.Min with the allowed maximum. */
  function ValidateExtraPartitionCount(value: u8, maxAllowed: u8): (r: u8)
    ensures r == TapeOpsCore.ValidatedExtraCount(value, maxAllowed)
  {
    var step1 := if value < 1 then value else 1;
    if step1 < maxAllowed then step1 else maxAllowed
  }

  // ---------------------------------------------------------------------------
  // Labels

  /** "VOL1" and "LTFS" as bytes. */
  const VOL1: seq<byte> := [0x56, 0x4F, 0x4C, 0x31]
  const LTFS: seq<byte> := [0x4C, 0x54, 0x46, 0x53]

  /** `parse_vol1_label`: at least 80 bytes, "VOL1" first, "LTFS" at bytes 24-27. */
  predicate Vol1Label(buffer: seq<byte>)
  {
    |buffer| >= 80 && buffer[..4] == VOL1 && buffer[24..28] == LTFS
  }

  /** The block sizes the label may declare. */
  predicate KnownBlockSize(n: nat)
  {
    n == 65536 || n == 524288 || n == 1048576 || n == 262144 || n == 131072
  }

  datatype LtfsPartitionLabel = LtfsPartitionLabel(
    volumeUuid: string, blocksize: u32, compression: bool, indexPartition: u8, dataPartition: u8, formatTime: string)

  /** `LtfsPartitionLabel::default()`. */
  const DefaultLabel := LtfsPartitionLabel("", LTO_BLOCK_SIZE, false, 0, 1, "")

  /** The block size written as ASCII digits in bytes 40-43, when it is one of the known sizes. */
  function LabelBlockSize(buffer: seq<byte>): (r: Option<u32>)
    requires |buffer| >= 44
    ensures r.Some? ==> KnownBlockSize(r.value)
  {
    match Decode(buffer[40..44])
    case None => None
    case Some(text) =>
      match ParseUnsigned(Trim(text), U32_LIMIT)
      case None => None
      case Some(n) => if KnownBlockSize(n) then Some(n) else None
  }

  /**
   * `detect_blocksize_heuristic`: more than 80% zero bytes suggests 512 KiB
   * blocks, more than 32768 non-zero bytes 64 KiB, and 512 KiB otherwise.
   * The floating-point ratio test is written as the integer comparison
   * 5 * zeros > 4 * length.
   */
  function HeuristicBlockSize(buffer: seq<byte>): (r: u32)
    ensures KnownBlockSize(r)
  {
    var nonZero := NonZeroCount(buffer);
    var zeros := |buffer| - nonZero;
    if 5 * zeros > 4 * |buffer| then 524288
    else if nonZero > 32768 then 65536
    else 524288
  }

  function NonZeroCount(b: seq<byte>): (r: nat)
    ensures r <= |b|
  {
    if b == [] then 0 else NonZeroCount(b[..|b| - 1]) + (if b[|b| - 1] != 0 then 1 else 0)
  }

  /** `parse_ltfs_volume_label`: a VOL1 label may set the block size; without one the heuristic decides. */
  function ParseLtfsVolumeLabel(buffer: seq<byte>): (r: LtfsPartitionLabel)
    ensures r == DefaultLabel.(blocksize := r.blocksize)
    ensures Vol1Label(buffer) && LabelBlockSize(buffer).None? ==> r.blocksize == LTO_BLOCK_SIZE
  {
    if Vol1Label(buffer) then
      match LabelBlockSize(buffer)
      case Some(n) => DefaultLabel.(blocksize := n)
      case None => DefaultLabel
    else DefaultLabel.(blocksize := HeuristicBlockSize(buffer))
  }

  /** Whatever the buffer holds, the label ends up with one of the five known block sizes. */
  lemma LabelBlockSizeKnown(buffer: seq<byte>)
    ensures KnownBlockSize(ParseLtfsVolumeLabel(buffer).blocksize)
  {
  }

  /**
   * Four bytes cannot spell any of the known sizes (the smallest, 65536,
   * has five digits): the VOL1 branch always keeps the default 64 KiB.
   */
  lemma Vol1KeepsDefaultBlockSize(buffer: seq<byte>)
    requires Vol1Label(buffer)
    ensures LabelBlockSize(buffer).None?
    ensures ParseLtfsVolumeLabel(buffer).blocksize == LTO_BLOCK_SIZE
  {
    match Decode(buffer[40..44])
    case None =>
    case Some(text) =>
      DecodeFromShorter(buffer[40..44], 0);
      ShortNumeralUnknown(Trim(text));
  }

  /** A numeral of at most four characters parses to none of the known block sizes. */
  lemma ShortNumeralUnknown(s: string)
    requires |s| <= 4
    ensures ParseUnsigned(s, U32_LIMIT).None? || !KnownBlockSize(ParseUnsigned(s, U32_LIMIT).value)
  {
    var k := NumeralStart(s);
    if |s| > k && AllDigits(s[k..]) {
      DigitsValueBound(s[k..]);
    }
  }

  /** A string of n digits has a value below 10^n; at most four digits stay below 10000. */
  lemma {:induction false} DigitsValueBound(s: string)
    requires AllDigits(s) && |s| <= 4
    ensures DigitsValue(s) < 10000
    ensures |s| <= 3 ==> DigitsValue(s) < 1000
    ensures |s| <= 2 ==> DigitsValue(s) < 100
    ensures |s| <= 1 ==> DigitsValue(s) < 10
  {
    if s != [] {
      DigitsValueBound(s[..|s| - 1]);
    }
  }

  // ---------------------------------------------------------------------------
  // parse_index_location_from_buffer

  /** The location found in a volume label: partition "a" or "b" and a start block. */
  datatype IndexLocation = IndexLocation(partition: string, startBlock: u64)

  /** The area searched: up to 1024 bytes from the "LTFS" signature. */
  function SearchArea(buffer: seq<byte>, pos: nat): (r: seq<byte>)
    requires pos <= |buffer|
    ensures |r| <= 1024
  {
    buffer[pos..if pos + 1024 < |buffer| then pos + 1024 else |buffer|]
  }

  /**
   * The first little-endian u32 at a multiple of four below `limit` whose
   * value lies in [lo, hi], searching from i.
   */
  function FirstWordIn(area: seq<byte>, limit: nat, lo: nat, hi: nat, i: nat): (r: Option<nat>)
    requires limit + 8 <= |area| && i % 4 == 0
    ensures r.Some? ==> i <= r.value < limit && r.value % 4 == 0 && lo <= U32Le(area, r.value) <= hi
    ensures r.Some? ==> forall j :: i <= j < r.value && j % 4 == 0 ==> !(lo <= U32Le(area, j) <= hi)
    ensures r.None? ==> forall j :: i <= j < limit && j % 4 == 0 ==> !(lo <= U32Le(area, j) <= hi)
    decreases limit - i
  {
    if i >= limit then None
    else if lo <= U32Le(area, i) <= hi then Some(i)
    else FirstWordIn(area, limit, lo, hi, i + 4)
  }

  /**
   * The location the scan reports, when the area holds at least 8 bytes: a
   * word in [5, 1000] gives partition "a", failing that a word in
   * [1000, 1000000] gives "b".
   */
  function LocationInArea(area: seq<byte>): (r: Result<IndexLocation>)
    requires |area| >= 8
  {
    var limit := |area| - 8;
    match FirstWordIn(area, limit, 5, 1000, 0)
    case Some(i) => Ok(IndexLocation("a", U32Le(area, i)))
    case None =>
      match FirstWordIn(area, limit, 1000, 1000000, 0)
      case Some(i) => Ok(IndexLocation("b", U32Le(area, i)))
      case None => NoLocation()
  }

  function NoLocation(): Result<IndexLocation>
  {
    Fail(LtfsIndex, "No valid index location found in volume label")
  }

  /**
   * `parse_index_location_from_buffer` as written: `search_area.len() - 8`
   * underflows when the signature lies in the last seven bytes of the
   * buffer, and the scan then indexes past the area: a panic.
   */
  function IndexLocationAsWritten(buffer: seq<byte>): Outcome<Result<IndexLocation>>
  {
    match Find(buffer, LTFS)
    case None => Returns(NoLocation())
    case Some(pos) =>
      var area := SearchArea(buffer, pos);
      if |area| < 8 then Panics else Returns(LocationInArea(area))
  }

  /** A buffer that ends in the signature makes the scan panic. */
  lemma SignatureAtEndPanics(buffer: seq<byte>)
    requires buffer == LTFS
    ensures IndexLocationAsWritten(buffer) == Panics
  {
    assert MatchAt(buffer, LTFS, 0);
  }

  /**
   * The scan with the evident intent: an area too short to hold a word plus
   * the eight bytes the loop bound keeps free has no candidate.
   */
  function IndexLocationSpec(buffer: seq<byte>): (r: Result<IndexLocation>)
    ensures r.Ok? ==> Contains(buffer, LTFS) && (r.value.partition == "a" || r.value.partition == "b")
    ensures r.Ok? && r.value.partition == "a" ==> 5 <= r.value.startBlock <= 1000
    ensures r.Ok? && r.value.partition == "b" ==> 1000 < r.value.startBlock <= 1000000
  {
    match Find(buffer, LTFS)
    case None => NoLocation()
    case Some(pos) =>
      var area := SearchArea(buffer, pos);
      if |area| < 8 then NoLocation() else LocationInArea(area)
  }

  /** Where the written scan returns, it returns what the corrected scan does. */
  lemma AsWrittenAgrees(buffer: seq<byte>)
    requires IndexLocationAsWritten(buffer).Returns?
    ensures IndexLocationAsWritten(buffer).value == IndexLocationSpec(buffer)
  {
  }

  /** One scan of the source: a `for i in (0..len - 8).step_by(4)` loop for a word in [lo, hi]. */
  method ScanWords(area: seq<byte>, lo: nat, hi: nat) returns (r: Option<nat>)
    requires |area| >= 8
    ensures r == FirstWordIn(area, |area| - 8, lo, hi, 0)
  {
    var limit := |area| - 8;
    var i := 0;
    while i < limit
      invariant i % 4 == 0
      invariant FirstWordIn(area, limit, lo, hi, i) == FirstWordIn(area, limit, lo, hi, 0)
      decreases limit - i
    {
      var potentialBlock := U32Le(area, i);
      if lo <= potentialBlock <= hi {
        return Some(i);
      }
      i := i + 4;
    }
    return None;
  }

  /** `parse_index_location_from_buffer` with the corrected bound: the two scans in turn. */
  method ParseIndexLocationFromBuffer(buffer: seq<byte>) returns (r: Result<IndexLocation>)
    ensures r == IndexLocationSpec(buffer)
  {
    var found := Find(buffer, LTFS);
    if found.None? {
      return NoLocation();
    }
    var area := SearchArea(buffer, found.value);
    if |area| < 8 {
      return NoLocation();
    }
    var a := ScanWords(area, 5, 1000);
    if a.Some? {
      return Ok(IndexLocation("a", U32Le(area, a.value)));
    }
    var b := ScanWords(area, 1000, 1000000);
    if b.Some? {
      return Ok(IndexLocation("b", U32Le(area, b.value)));
    }
    return NoLocation();
  }

  // ---------------------------------------------------------------------------
  // handle_scsi_read_error

  /**
   * Whether reading goes on after an error, by the text of the error:
   * a failed direct read ends a read that has data and allows two retries
   * otherwise; a device-status error goes on when TEST UNIT READY
   * (`unitReady`) succeeds and allows one retry otherwise; a medium error
   * ends a read past 10 blocks and allows one retry otherwise; a command
   * error ends the read; a hardware error allows one retry; anything else
   * two.
   */
  function HandleScsiReadError(error: Error, blocksRead: u32, errorCount: u32, unitReady: bool): (r: bool)
    ensures r && !(Contains(Display(error), "Device not ready") || Contains(Display(error), "Unit attention")) ==> errorCount <= 2
    ensures Contains(Display(error), "Direct block read operation failed") && blocksRead > 0 ==> !r
  {
    var text := Display(error);
    if Contains(text, "Direct block read operation failed") then
      if blocksRead > 0 then false else errorCount <= 2
    else if Contains(text, "Device not ready") || Contains(text, "Unit attention") then
      if unitReady then true else errorCount <= 1
    else if Contains(text, "Medium error") || Contains(text, "Unrecovered read error") then
      if blocksRead > 10 then false else errorCount <= 1
    else if Contains(text, "Illegal request") || Contains(text, "Invalid field") then false
    else if Contains(text, "Hardware error") || Contains(text, "Communication failure") then errorCount <= 1
    else errorCount <= 2
  }

  /** After three errors nothing is retried but a device-status error that TEST UNIT READY clears. */
  lemma ThirdErrorStops(error: Error, blocksRead: u32, errorCount: u32, unitReady: bool)
    requires errorCount > 2
    ensures HandleScsiReadError(error, blocksRead, errorCount, unitReady) ==>
      unitReady && (Contains(Display(error), "Device not ready") || Contains(Display(error), "Unit attention"))
  {
  }

  // ---------------------------------------------------------------------------
  // try_read_index_at_current_position_sync

  /** One `read_blocks(1, ..)` call: the block count and the buffer after the read, or an error. */
  datatype BlockRead = BlockRead(count: nat, buffer: seq<byte>) | BlockReadFailed

  /** The reads run at most this many times. */
  const MAX_POSITION_BLOCKS: nat := 50

  predicate AllZero(b: seq<byte>)
  {
    forall i :: 0 <= i < |b| ==> b[i] == 0
  }

  const CLOSE_TAG: string := "</ltfsindex>"

  /**
   * The text gathered from read k on, given the text so far: a zero count,
   * an all-zero block, a non-UTF-8 block or a failed read ends the loop;
   * otherwise the block's text without trailing NULs is appended, and a
   * complete closing tag ends it too.
   */
  function PositionText(device: nat -> BlockRead, k: nat, xml: string): string
    requires k <= MAX_POSITION_BLOCKS
    decreases MAX_POSITION_BLOCKS - k
  {
    if k == MAX_POSITION_BLOCKS then xml
    else match device(k)
      case BlockReadFailed => xml
      case BlockRead(count, buffer) =>
        if count == 0 || AllZero(buffer) then xml
        else match Decode(buffer)
          case None => xml
          case Some(text) =>
            var xml' := xml + TrimEndChar(text, '\0');
            if Contains(xml', CLOSE_TAG) then xml' else PositionText(device, k + 1, xml')
  }

  /** The cleanup shared by the index readers: NULs removed, then trimmed; empty is an error. */
  function CleanedXml(xml: string, emptyMessage: string): (r: Result<string>)
    ensures r.Ok? ==> r.value != [] && r.value == Trim(RemoveAll(xml, '\0'))
    ensures r.Ok? ==> forall i :: 0 <= i < |r.value| ==> r.value[i] != '\0'
  {
    var cleaned := Trim(RemoveAll(xml, '\0'));
    TrimKeepsNoNul(RemoveAll(xml, '\0'));
    if cleaned == [] then Fail(LtfsIndex, emptyMessage) else Ok(cleaned)
  }

  lemma TrimKeepsNoNul(s: string)
    requires forall i :: 0 <= i < |s| ==> s[i] != '\0'
    ensures forall i :: 0 <= i < |Trim(s)| ==> Trim(s)[i] != '\0'
  {
    var t := TrimStart(s);
    forall i | 0 <= i < |t|
      ensures t[i] != '\0'
    {
      assert t[i] == s[|s| - |t| + i];
    }
    var u := TrimEnd(t);
    forall i | 0 <= i < |u|
      ensures u[i] != '\0'
    {
      assert u[i] == t[i];
    }
  }

  function PositionRead(device: nat -> BlockRead): Result<string>
  {
    CleanedXml(PositionText(device, 0, ""), "No XML content found at current position")
  }

  /** `try_read_index_at_current_position_sync`: at most 50 reads of one block. */
  method TryReadIndexAtCurrentPosition(device: nat -> BlockRead) returns (r: Result<string>)
    ensures r == PositionRead(device)
  {
    var xml := "";
    var blocksRead := 0;
    var blockNum := 0;
    while blockNum < MAX_POSITION_BLOCKS
      invariant blockNum <= MAX_POSITION_BLOCKS
      invariant PositionText(device, blockNum, xml) == PositionText(device, 0, "")
      decreases MAX_POSITION_BLOCKS - blockNum
    {
      var reply := device(blockNum);
      if reply.BlockReadFailed? {
        break;
      }
      if reply.count == 0 {
        break;
      }
      blocksRead := blocksRead + 1;
      if AllZero(reply.buffer) {
        break;
      }
      var decoded := Decode(reply.buffer);
      if decoded.None? {
        break;
      }
      xml := xml + TrimEndChar(decoded.value, '\0');
      if Contains(xml, CLOSE_TAG) {
        break;
      }
      blockNum := blockNum + 1;
    }
    r := CleanedXml(xml, "No XML content found at current position");
  }

  /** Only the first 50 replies matter: two devices that agree on them give the same text. */
  lemma {:induction false} PositionReadBounded(d1: nat -> BlockRead, d2: nat -> BlockRead, k: nat, xml: string)
    requires k <= MAX_POSITION_BLOCKS
    requires forall j :: k <= j < MAX_POSITION_BLOCKS ==> d1(j) == d2(j)
    ensures PositionText(d1, k, xml) == PositionText(d2, k, xml)
    decreases MAX_POSITION_BLOCKS - k
  {
    if k < MAX_POSITION_BLOCKS && d1(k).BlockRead? && d1(k).count != 0 && !AllZero(d1(k).buffer) {
      match Decode(d1(k).buffer)
      case None =>
      case Some(text) =>
        PositionReadBounded(d1, d2, k + 1, xml + TrimEndChar(text, '\0'));
    }
  }

  /** The text only grows: what was gathered is a prefix of the final text. */
  lemma {:induction false} PositionTextExtends(device: nat -> BlockRead, k: nat, xml: string)
    requires k <= MAX_POSITION_BLOCKS
    ensures xml <= PositionText(device, k, xml)
    decreases MAX_POSITION_BLOCKS - k
  {
    if k < MAX_POSITION_BLOCKS && device(k).BlockRead? && device(k).count != 0 && !AllZero(device(k).buffer) {
      match Decode(device(k).buffer)
      case None =>
      case Some(text) =>
        var xml' := xml + TrimEndChar(text, '\0');
        if !Contains(xml', CLOSE_TAG) {
          PositionTextExtends(device, k + 1, xml');
        }
    }
  }

  /** A first read that returns no block, or fails, leaves nothing: an error. */
  lemma NothingReadIsError(device: nat -> BlockRead)
    requires device(0).BlockReadFailed? || device(0).count == 0
    ensures PositionRead(device).Err?
  {
    assert Trim(RemoveAll("", '\0')) == [];
  }
}

// The state of `TapeOperations` that tape_ops/core.rs keeps and decides on:
// the ExtraPartitionCount detected from MODE SENSE and the partition every
// logical partition maps to, the stop and pause flags, the tape-space
// summary built from the capacity page, and the recursive file, directory
// and size totals of an index tree.

module TapeOpsCore {
  import opened Wrappers
  import opened Bytes
  import opened IndexTypes

  /** `TapeOperations::new`'s block size. */
  const DEFAULT_BLOCK_SIZE: u32 := 524288

  function MinU8(a: u8, b: u8): u8
  {
    if a < b then a else b
  }

  /**
   * LTFSCopyGUI's double Math.Min: at most one extra partition, and no more
   * than the drive allows.
   */
  function ValidatedExtraCount(detected: u8, maxAllowed: u8): (r: u8)
    ensures r <= 1 && r <= maxAllowed && r <= detected
    ensures r == 0 <==> detected == 0 || maxAllowed == 0
  {
    MinU8(MinU8(1, detected), maxAllowed)
  }

  /**
   * `get_target_partition` and `map_partition_number`: a single-partition
   * tape puts everything on partition 0; otherwise logical 0 stays on the
   * index partition 0 and every other logical partition goes to 1.
   */
  function TargetPartition(logical: u8, extraCount: u8): (r: u8)
  {
    if extraCount == 0 then 0
    else if extraCount == 1 then (if logical == 0 then 0 else if logical == 1 then 1 else 1)
    else if logical == 0 then 0 else 1
  }

  /** The mapping only ever names partition 0 or 1, and 1 exactly for data on a multi-partition tape. */
  lemma TargetPartitionShape(logical: u8, extraCount: u8)
    ensures TargetPartition(logical, extraCount) <= 1
    ensures TargetPartition(logical, extraCount) == 1 <==> extraCount != 0 && logical != 0
  {
  }

  /** The tape-space summary of `get_tape_capacity_info`, in bytes. */
  datatype TapeSpaceInfo = TapeSpaceInfo(totalCapacity: u64, usedSpace: u64, availableSpace: u64)

  /** The capacity page figures of one refresh (`TapeCapacityInfo`). */
  datatype TapeCapacityInfo = TapeCapacityInfo(p0Remaining: u64, p0Maximum: u64, p1Remaining: u64, p1Maximum: u64)

  /** Rust `saturating_sub` on u64. */
  function SaturatingSub(a: u64, b: u64): (r: u64)
    ensures r == if a >= b then a - b else 0
  {
    if a >= b then a - b else 0
  }

  /** Rust `x << 20` on u64: the high bits are shifted out. */
  function Shl20(x: u64): u64
  {
    AsU64(x * 0x10_0000)
  }

  /**
   * `get_tape_capacity_info`: the data partition (P1) on a multi-partition
   * tape, P0 otherwise; used = maximum saturating_sub remaining, both
   * shifted left by 20, and available = total saturating_sub used.
   */
  function SpaceInfo(info: TapeCapacityInfo, extraCount: u8): (r: TapeSpaceInfo)
    ensures r.availableSpace == SaturatingSub(r.totalCapacity, r.usedSpace)
  {
    var (maximum, remaining) := if extraCount > 0 then (info.p1Maximum, info.p1Remaining) else (info.p0Maximum, info.p0Remaining);
    var used := SaturatingSub(maximum, remaining);
    var total := Shl20(maximum);
    var usedBytes := Shl20(used);
    TapeSpaceInfo(total, usedBytes, SaturatingSub(total, usedBytes))
  }

  /**
   * While the maximum fits in 44 bits the shift loses nothing: used and
   * available add up to the total, used is (maximum - remaining) MiB, and
   * the partition is the data partition exactly on a multi-partition tape.
   */
  lemma SpaceInfoSums(info: TapeCapacityInfo, extraCount: u8)
    requires (if extraCount > 0 then info.p1Maximum else info.p0Maximum) < 0x1000_0000_0000
    ensures var r := SpaceInfo(info, extraCount);
      var (maximum, remaining) := if extraCount > 0 then (info.p1Maximum, info.p1Remaining) else (info.p0Maximum, info.p0Remaining);
      && r.totalCapacity == maximum * 0x10_0000
      && r.usedSpace == (if remaining <= maximum then (maximum - remaining) * 0x10_0000 else 0)
      && r.usedSpace + r.availableSpace == r.totalCapacity
  {
    var (maximum, remaining) := if extraCount > 0 then (info.p1Maximum, info.p1Remaining) else (info.p0Maximum, info.p0Remaining);
    var used := SaturatingSub(maximum, remaining);
    assert used <= maximum;
    assert maximum * 0x10_0000 < U64_LIMIT;
    assert used * 0x10_0000 <= maximum * 0x10_0000;
  }

  // ---------------------------------------------------------------------------
  // Tree totals: count_files_in_directory, count_directories_in_directory,
  // calculate_total_size

  /** Files in d and below: d's own files plus each subtree's total. */
  function FileCount(d: Directory): nat
    decreases d, 1
  {
    |d.files| + ChildFileCount(d, 0)
  }

  function ChildFileCount(d: Directory, i: nat): nat
    requires i <= |d.directories|
    decreases d, 0, |d.directories| - i
  {
    if i == |d.directories| then 0 else FileCount(d.directories[i]) + ChildFileCount(d, i + 1)
  }

  /** Directories below d: d's own subdirectories plus each subtree's total. */
  function DirectoryCount(d: Directory): nat
    decreases d, 1
  {
    |d.directories| + ChildDirectoryCount(d, 0)
  }

  function ChildDirectoryCount(d: Directory, i: nat): nat
    requires i <= |d.directories|
    decreases d, 0, |d.directories| - i
  {
    if i == |d.directories| then 0 else DirectoryCount(d.directories[i]) + ChildDirectoryCount(d, i + 1)
  }

  /**
   * Every entry below d carries one UID: the files and the directories
   * counted add up to the UIDs collected below d.
   */
  lemma {:induction false} CountsMatchUids(d: Directory)
    ensures FileCount(d) + DirectoryCount(d) == |SubUids(d)|
    decreases d, 1
  {
    ChildCountsMatchUids(d, 0);
  }

  lemma {:induction false} ChildCountsMatchUids(d: Directory, i: nat)
    requires i <= |d.directories|
    ensures ChildFileCount(d, i) + ChildDirectoryCount(d, i) + (|d.directories| - i) == |ChildUids(d, i)|
    decreases d, 0, |d.directories| - i
  {
    if i < |d.directories| {
      CountsMatchUids(d.directories[i]);
      ChildCountsMatchUids(d, i + 1);
    }
  }

  /** The exact sum of the file lengths in d and below. */
  function SizeSum(d: Directory): nat
    decreases d, 1
  {
    LengthSum(d.files) + ChildSizeSum(d, 0)
  }

  function ChildSizeSum(d: Directory, i: nat): nat
    requires i <= |d.directories|
    decreases d, 0, |d.directories| - i
  {
    if i == |d.directories| then 0 else SizeSum(d.directories[i]) + ChildSizeSum(d, i + 1)
  }

  function LengthSum(fs: seq<File>): nat
  {
    if fs == [] then 0 else LengthSum(fs[..|fs| - 1]) + fs[|fs| - 1].length
  }

  /** `size += file.length` over the files, each addition wrapping at 2^64. */
  function FilesSize(fs: seq<File>): u64
  {
    if fs == [] then 0 else AsU64(FilesSize(fs[..|fs| - 1]) + fs[|fs| - 1].length)
  }

  /** `calculate_total_size`: the files of d first, then each subtree, with u64 additions. */
  function TotalSize(d: Directory): u64
    decreases d, 1
  {
    ChildTotalSize(d, 0, FilesSize(d.files))
  }

  function ChildTotalSize(d: Directory, i: nat, acc: u64): u64
    requires i <= |d.directories|
    decreases d, 0, |d.directories| - i
  {
    if i == |d.directories| then acc
    else ChildTotalSize(d, i + 1, AsU64(acc + TotalSize(d.directories[i])))
  }

  lemma AddMod(a: int, b: int)
    ensures AsU64(AsU64(a) + b) == AsU64(a + b)
  {
  }

  /** The step-by-step wrap of the u64 additions equals the exact sum modulo 2^64. */
  lemma {:induction false} FilesSizeWraps(fs: seq<File>)
    ensures FilesSize(fs) == LengthSum(fs) % U64_LIMIT
  {
    if fs != [] {
      FilesSizeWraps(fs[..|fs| - 1]);
      AddMod(LengthSum(fs[..|fs| - 1]), fs[|fs| - 1].length);
    }
  }

  lemma {:induction false} TotalSizeWraps(d: Directory)
    ensures TotalSize(d) == SizeSum(d) % U64_LIMIT
    decreases d, 1
  {
    FilesSizeWraps(d.files);
    ChildTotalSizeWraps(d, 0, LengthSum(d.files));
  }

  lemma {:induction false} ChildTotalSizeWraps(d: Directory, i: nat, exact: nat)
    requires i <= |d.directories|
    ensures ChildTotalSize(d, i, AsU64(exact)) == (exact + ChildSizeSum(d, i)) % U64_LIMIT
    decreases d, 0, |d.directories| - i
  {
    if i < |d.directories| {
      var sub := d.directories[i];
      TotalSizeWraps(sub);
      calc {
        AsU64(AsU64(exact) + TotalSize(sub));
        { AddMod(exact, TotalSize(sub)); }
        AsU64(exact + TotalSize(sub));
        { AddMod(SizeSum(sub), exact); }
        AsU64(exact + SizeSum(sub));
      }
      ChildTotalSizeWraps(d, i + 1, exact + SizeSum(sub));
    }
  }

  // ---------------------------------------------------------------------------
  // The partition detection and flags of TapeOperations

  class TapeOperations {
    var offlineMode: bool
    var index: Option<Index>
    var modified: bool
    var stopFlag: bool
    var pauseFlag: bool
    var extraPartitionCount: Option<u8>
    var maxExtraPartitionAllowed: u8
    var blockSize: u32
    /** The block size of the partition label, once one was read (`partition_label`). */
    var labelBlockSize: Option<u32>

    /** `TapeOperations::new`. */
    constructor (offline: bool)
      ensures offlineMode == offline && index.None? && !modified && !stopFlag && !pauseFlag
      ensures extraPartitionCount.None? && maxExtraPartitionAllowed == 1
      ensures blockSize == DEFAULT_BLOCK_SIZE && labelBlockSize.None?
    {
      offlineMode := offline;
      index := None;
      modified := false;
      stopFlag := false;
      pauseFlag := false;
      extraPartitionCount := None;
      maxExtraPartitionAllowed := 1;
      blockSize := DEFAULT_BLOCK_SIZE;
      labelBlockSize := None;
    }

    /** `get_extra_partition_count`: an undetected count reads as 0. */
    function ExtraPartitionCount(): (r: u8)
      reads this
      ensures extraPartitionCount.None? ==> r == 0
    {
      match extraPartitionCount
      case None => 0
      case Some(n) => n
    }

    /** `get_target_partition`, on the detected count. */
    function GetTargetPartition(logical: u8): (r: u8)
      reads this
      ensures r <= 1
      ensures r == 1 <==> ExtraPartitionCount() != 0 && logical != 0
    {
      TargetPartitionShape(logical, ExtraPartitionCount());
      TargetPartition(logical, ExtraPartitionCount())
    }

    /**
     * `initialize_partition_detection`, given the MODE SENSE reply. Offline,
     * the tape is taken as dual-partition. A reply of at least 4 bytes sets
     * the count from byte 3, validated, and `modified` exactly when it is
     * positive; a short reply or a failed command sets 0 and clears
     * `modified`.
     */
    method InitializePartitionDetection(modeSense: Result<seq<byte>>)
      modifies this
      ensures offlineMode ==> extraPartitionCount == Some(1) && modified == old(modified)
      ensures !offlineMode && modeSense.Ok? && |modeSense.value| >= 4 ==>
        extraPartitionCount == Some(ValidatedExtraCount(modeSense.value[3], maxExtraPartitionAllowed))
        && modified == (extraPartitionCount.value > 0)
      ensures !offlineMode && !(modeSense.Ok? && |modeSense.value| >= 4) ==>
        extraPartitionCount == Some(0) && !modified
      ensures offlineMode == old(offlineMode) && index == old(index) && stopFlag == old(stopFlag)
      ensures pauseFlag == old(pauseFlag) && maxExtraPartitionAllowed == old(maxExtraPartitionAllowed)
      ensures blockSize == old(blockSize) && labelBlockSize == old(labelBlockSize)
    {
      if offlineMode {
        extraPartitionCount := Some(1);
        return;
      }
      match modeSense {
        case Ok(modeData) =>
          if |modeData| >= 4 {
            var detected := modeData[3];
            var validated := MinU8(1, detected);
            var finalCount := MinU8(validated, maxExtraPartitionAllowed);
            extraPartitionCount := Some(finalCount);
            modified := finalCount > 0;
          } else {
            extraPartitionCount := Some(0);
            modified := false;
          }
        case Err(_) =>
          extraPartitionCount := Some(0);
          modified := false;
      }
    }

    /**
     * `check_pause_and_stop`: a raised stop flag cancels the operation. The
     * flags are plain fields read through a shared reference, so nothing can
     * change them while the wait loop sleeps: with the pause flag raised the
     * call never returns.
     */
    function CheckPauseAndStop(): (r: PauseCheck)
      reads this
      ensures r.Resumes? && r.result.Err? <==> stopFlag
      ensures r.Hangs? <==> pauseFlag && !stopFlag
      ensures r.Resumes? && r.result.Err? ==> r.result.error.kind == OperationCancelled
    {
      if stopFlag then Resumes(Fail(OperationCancelled, "Operation stopped by user"))
      else if pauseFlag then Hangs
      else Resumes(Ok(()))
    }

    /** `stop_write`. */
    method StopWrite()
      modifies this`stopFlag
      ensures stopFlag
    {
      stopFlag := true;
    }

    /** `set_pause`. */
    method SetPause(pause: bool)
      modifies this`pauseFlag
      ensures pauseFlag == pause
    {
      pauseFlag := pause;
    }
  }

  /** What `check_pause_and_stop` does: return a result, or wait for ever. */
  datatype PauseCheck = Resumes(result: Result<()>) | Hangs

  /**
   * The wait loop of `check_pause_and_stop` over `turns` sleeps, with flags
   * that stay as they were: None while it is still waiting.
   */
  function WaitLoop(stop: bool, pause: bool, turns: nat): (r: Option<Result<()>>)
    ensures r.Some? && r.value.Err? ==> r.value.error.kind == OperationCancelled
  {
    if !pause then Some(Ok(()))
    else if turns == 0 then None
    else if stop then Some(Fail(OperationCancelled, "Operation stopped while paused"))
    else WaitLoop(stop, pause, turns - 1)
  }

  /** Paused and not stopped, the wait loop is still waiting after any number of sleeps. */
  lemma {:induction false} PausedWaitNeverEnds(stop: bool, pause: bool, turns: nat)
    requires pause && !stop
    ensures WaitLoop(stop, pause, turns).None?
  {
    if turns > 0 {
      PausedWaitNeverEnds(stop, pause, turns - 1);
    }
  }

  /**
   * Once the stop flag has been checked, the call hangs exactly when the wait
   * loop never ends, and otherwise returns what the loop returns.
   */
  lemma PauseCheckMatchesWait(ops: TapeOperations)
    requires !ops.stopFlag
    ensures ops.CheckPauseAndStop().Hangs? <==> forall turns: nat :: WaitLoop(ops.stopFlag, ops.pauseFlag, turns).None?
    ensures ops.CheckPauseAndStop().Resumes? ==> Some(ops.CheckPauseAndStop().result) == WaitLoop(ops.stopFlag, ops.pauseFlag, 0)
  {
    if ops.pauseFlag {
      forall turns: nat ensures WaitLoop(ops.stopFlag, ops.pauseFlag, turns).None? {
        PausedWaitNeverEnds(ops.stopFlag, ops.pauseFlag, turns);
      }
    } else {
      assert WaitLoop(ops.stopFlag, ops.pauseFlag, 0).Some?;
    }
  }

  /** After detection on a drive, the count is 0 or 1 and `modified` says whether it is 1. */
  lemma DetectionOutcome(detected: u8, maxAllowed: u8)
    ensures ValidatedExtraCount(detected, maxAllowed) <= 1
    ensures maxAllowed >= 1 ==> (ValidatedExtraCount(detected, maxAllowed) > 0 <==> detected > 0)
  {
  }
}

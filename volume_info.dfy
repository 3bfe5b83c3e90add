// Volume information of the direct-access LTFS layer (`src/ltfs/volume_info.rs`):
// the volume record, its validity and name rules, and the manager that holds
// the record of the mounted volume.

module VolumeInfo {
  import opened Wrappers
  import opened Bytes
  import opened Strings
  import opened Utf8
  import opened IndexTypes
  import FormatOperations

  const DEFAULT_BLOCK_SIZE: u32 := 65536
  const NAME_LIMIT: nat := 32

  /** `LtfsVolumeInfo`. */
  datatype LtfsVolumeInfo = LtfsVolumeInfo(volumeName: string, formatTime: string, generation: u32, blockSize: u32)
  {
    /** `is_valid`: a name, a format time, a generation and a block size are all present. */
    predicate IsValid()
    {
      volumeName != [] && formatTime != [] && generation > 0 && blockSize > 0
    }

    /** `increment_generation`: one more generation, wrapping at 32 bits as a release build does. */
    function IncrementGeneration(): (w: LtfsVolumeInfo)
      ensures w.volumeName == this.volumeName && w.formatTime == this.formatTime && w.blockSize == this.blockSize
      ensures (this.generation as int) < U32_LIMIT - 1 ==> w.generation == this.generation + 1
      ensures (this.generation as int) == U32_LIMIT - 1 ==> w.generation == 0
    {
      this.(generation := AsU32(generation as int + 1))
    }

    /** `update_format_time`: the format time becomes the current timestamp, a parameter here. */
    function UpdateFormatTime(now: string): (w: LtfsVolumeInfo)
      ensures w.formatTime == now
      ensures w.volumeName == this.volumeName && w.generation == this.generation && w.blockSize == this.blockSize
    {
      this.(formatTime := now)
    }
  }

  /** `from_index`: the volume UUID as name, the update time, the generation cut to 32 bits, 64 KiB blocks. */
  function FromIndex(index: Index): (v: LtfsVolumeInfo)
    ensures v.volumeName == index.volumeuuid && v.formatTime == index.updatetime
    ensures v.generation as int == index.generation as int % U32_LIMIT
    ensures v.blockSize == DEFAULT_BLOCK_SIZE
  {
    LtfsVolumeInfo(index.volumeuuid, index.updatetime, AsU32(index.generation), DEFAULT_BLOCK_SIZE)
  }

  /** The characters a volume name may hold: ASCII letters, digits, '-' and '_'. */
  predicate IsNameChar(c: char)
  {
    IsAsciiAlphanumeric(c) || c == '-' || c == '_'
  }

  /**
   * `validate_volume_name`: empty, then longer than 32 bytes of UTF-8, then
   * holding a character other than a letter, digit, '-' or '_', each with its
   * own message.
   */
  function ValidateVolumeName(name: string): (r: Result<()>)
    ensures name == [] ==> r == Fail(ParameterValidation, "Volume name cannot be empty")
    ensures name != [] && Utf8Len(name) > NAME_LIMIT ==> r == Fail(ParameterValidation, "Volume name too long (max 32 characters)")
    ensures r.Err? ==> r.error.kind == ParameterValidation
  {
    if name == [] then
      Fail(ParameterValidation, "Volume name cannot be empty")
    else if Utf8Len(name) > NAME_LIMIT then
      Fail(ParameterValidation, "Volume name too long (max 32 characters)")
    else if exists i :: 0 <= i < |name| && !IsNameChar(name[i]) then
      Fail(ParameterValidation, "Volume name contains invalid characters")
    else
      Ok(())
  }

  /** The accepted names are exactly the non-empty ones of at most 32 letters, digits, '-' and '_'. */
  lemma ValidNameIff(name: string)
    ensures ValidateVolumeName(name).Ok? <==>
      (1 <= |name| <= NAME_LIMIT && forall i :: 0 <= i < |name| ==> IsNameChar(name[i]))
  {
    if forall i :: 0 <= i < |name| ==> IsNameChar(name[i]) {
      assert FormatOperations.AllAscii(name);
      FormatOperations.AsciiEncode(name);
    }
  }

  /**
   * A name with a character outside the allowed set is rejected as invalid
   * when it fits in 32 bytes, and as too long otherwise.
   */
  lemma BadCharacterRejected(name: string, i: nat)
    requires i < |name| && !IsNameChar(name[i])
    ensures ValidateVolumeName(name) ==
      if Utf8Len(name) > NAME_LIMIT then Fail(ParameterValidation, "Volume name too long (max 32 characters)")
      else Fail(ParameterValidation, "Volume name contains invalid characters")
  {
  }

  /**
   * The volume UUID that `from_index` takes as the name is 36 characters in its
   * standard form, so that name never passes the name rules.
   */
  lemma UuidNameRejected(index: Index)
    requires |index.volumeuuid| == 36
    ensures ValidateVolumeName(FromIndex(index).volumeName).Err?
  {
    ValidNameIff(index.volumeuuid);
  }

  /** One more generation keeps a valid record valid, except at the 32-bit limit, where the generation wraps to 0. */
  lemma IncrementGenerationValidity(v: LtfsVolumeInfo)
    requires v.IsValid()
    ensures v.IncrementGeneration().IsValid() <==> v.generation as int != U32_LIMIT - 1
  {
  }

  /** A generation number that is a multiple of 2^32 becomes 0, so the record read from that index is not valid. */
  lemma TruncatedGenerationInvalid(index: Index)
    requires index.generation as int % U32_LIMIT == 0
    ensures !FromIndex(index).IsValid()
  {
  }

  /** The records of the unit tests: a valid record, and one more generation. */
  lemma RecordExamples()
    ensures LtfsVolumeInfo("TestVolume", "2023-01-01T00:00:00Z", 1, 65536).IsValid()
    ensures LtfsVolumeInfo("TestVolume", "2023-01-01T00:00:00Z", 1, 65536).IncrementGeneration().generation == 2
  {
  }

  /** A name of the unit test that passes. */
  lemma GoodNameExample()
    ensures ValidateVolumeName("ValidName123").Ok?
  {
    var good := "ValidName123";
    assert forall i :: 0 <= i < |good| ==> IsNameChar(good[i]);
    ValidNameIff(good);
  }

  /** A name of the unit test that fails on its space and punctuation. */
  lemma BadNameExample()
    ensures ValidateVolumeName("Invalid Name!@#").Err?
  {
    var bad := "Invalid Name!@#";
    assert !IsNameChar(bad[7]);
    ValidNameIff(bad);
  }

  /** `VolumeInfoManager`: the record of the mounted volume, if one is loaded. */
  class VolumeInfoManager {
    var currentInfo: Option<LtfsVolumeInfo>

    /** `new`: nothing loaded. */
    constructor ()
      ensures currentInfo.None?
    {
      currentInfo := None;
    }

    /** `set_volume_info`: a record whose name passes the rules replaces the current one; otherwise nothing changes. */
    method SetVolumeInfo(info: LtfsVolumeInfo) returns (r: Result<()>)
      modifies this
      ensures r == ValidateVolumeName(info.volumeName)
      ensures r.Ok? ==> currentInfo == Some(info)
      ensures r.Err? ==> currentInfo == old(currentInfo)
    {
      r := ValidateVolumeName(info.volumeName);
      if r.Ok? {
        currentInfo := Some(info);
      }
    }

    /** `update_from_index`: the record built from the index replaces the current one, without the name rules. */
    method UpdateFromIndex(index: Index)
      modifies this
      ensures currentInfo == Some(FromIndex(index))
    {
      currentInfo := Some(FromIndex(index));
    }

    /** `clear`. */
    method Clear()
      modifies this
      ensures currentInfo.None?
    {
      currentInfo := None;
    }

    /** `is_loaded`. */
    function IsLoaded(): (r: bool)
      reads this
      ensures r <==> currentInfo.Some?
    {
      currentInfo.Some?
    }

    /** `increment_generation`: the loaded record gets one more generation; without one, an index error. */
    method IncrementGeneration() returns (r: Result<()>)
      modifies this
      ensures old(currentInfo).None? ==> r == Fail(LtfsIndex, "No volume info loaded") && currentInfo == old(currentInfo)
      ensures old(currentInfo).Some? ==> r.Ok? && currentInfo == Some(old(currentInfo).value.IncrementGeneration())
    {
      match currentInfo
      case Some(info) =>
        currentInfo := Some(info.IncrementGeneration());
        r := Ok(());
      case None =>
        r := Fail(LtfsIndex, "No volume info loaded");
    }

    /** `update_format_time`: the loaded record takes the current timestamp `now`; without one, an index error. */
    method UpdateFormatTime(now: string) returns (r: Result<()>)
      modifies this
      ensures old(currentInfo).None? ==> r == Fail(LtfsIndex, "No volume info loaded") && currentInfo == old(currentInfo)
      ensures old(currentInfo).Some? ==> r.Ok? && currentInfo == Some(old(currentInfo).value.UpdateFormatTime(now))
    {
      match currentInfo
      case Some(info) =>
        currentInfo := Some(info.UpdateFormatTime(now));
        r := Ok(());
      case None =>
        r := Fail(LtfsIndex, "No volume info loaded");
    }
  }

  /**
   * The manager test: a fresh manager is empty; setting a valid record loads
   * it, raising its generation gives 2, and clearing empties it again.
   */
  method ManagerScenario() returns (loadedAtStart: bool, loadedAfterSet: bool, generation: u32, loadedAfterClear: bool)
    ensures !loadedAtStart && loadedAfterSet && generation == 2 && !loadedAfterClear
  {
    var manager := new VolumeInfoManager();
    loadedAtStart := manager.IsLoaded();
    var info := LtfsVolumeInfo("TestVolume", "2023-01-01T00:00:00Z", 1, 65536);
    assert forall i :: 0 <= i < |info.volumeName| ==> IsNameChar(info.volumeName[i]);
    ValidNameIff(info.volumeName);
    var r := manager.SetVolumeInfo(info);
    loadedAfterSet := manager.IsLoaded();
    r := manager.IncrementGeneration();
    generation := manager.currentInfo.value.generation;
    manager.Clear();
    loadedAfterClear := manager.IsLoaded();
  }
}

// MKLTFS parameters and the pieces of formatting that are rules rather than
// device traffic (src/tape_ops/format_operations.rs): the parameter set with
// its defaults, setters and validation; the 80-byte VOL1 label written at
// the start of partition 0 and its padding to whole blocks; and the format
// status read back from a tape.

module FormatOperations {
  import opened Wrappers
  import opened Bytes
  import opened Strings
  import opened Utf8
  import PartitionManager

  // ---------------------------------------------------------------------------
  // Parameters

  /** A partition size of 0xFFFF GB means "whatever space is left". */
  const REST_OF_TAPE: u16 := 0xFFFF

  const DEFAULT_BLOCK_LENGTH: u32 := 524288
  const MIN_BLOCK_LENGTH: nat := 512
  const MAX_BLOCK_LENGTH: nat := 2_097_152
  const BARCODE_LIMIT: nat := 20

  predicate IsAscii(c: char) { c as int < 128 }

  predicate AllAscii(s: string)
  {
    forall i :: 0 <= i < |s| ==> IsAscii(s[i])
  }

  /** The characters of s that are ASCII, in order. */
  function AsciiOnly(s: string): (r: string)
    ensures |r| <= |s|
    ensures AllAscii(r)
    ensures AllAscii(s) ==> r == s
  {
    if s == [] then []
    else if IsAscii(s[0]) then [s[0]] + AsciiOnly(s[1..])
    else AsciiOnly(s[1..])
  }

  /** Filtering distributes over concatenation, so a character is kept exactly when it is ASCII. */
  lemma {:induction false} AsciiOnlyConcat(a: string, b: string)
    ensures AsciiOnly(a + b) == AsciiOnly(a) + AsciiOnly(b)
  {
    if a == [] {
      assert a + b == b;
    } else {
      assert (a + b)[1..] == a[1..] + b;
      AsciiOnlyConcat(a[1..], b);
    }
  }

  /** `set_barcode`'s filter: keep the ASCII characters, then take at most 20 of them. */
  function BarcodeOf(s: string): (r: string)
    ensures |r| <= BARCODE_LIMIT && AllAscii(r)
    ensures |r| == Min(BARCODE_LIMIT, |AsciiOnly(s)|)
    ensures r == AsciiOnly(s)[..|r|]
  {
    var kept := AsciiOnly(s);
    if |kept| <= BARCODE_LIMIT then kept else kept[..BARCODE_LIMIT]
  }

  function Min(a: nat, b: nat): nat { if a <= b then a else b }

  /** An ASCII string is one byte per character. */
  lemma {:induction false} AsciiEncode(s: string)
    requires AllAscii(s)
    ensures |Encode(s)| == |s|
    ensures forall i :: 0 <= i < |s| ==> Encode(s)[i] == s[i] as int
  {
    if s != [] {
      AsciiEncode(s[1..]);
      assert Encode(s) == [s[0] as int] + Encode(s[1..]);
    }
  }

  /** The barcode set_barcode stores is never longer than validate allows (it counts bytes). */
  lemma BarcodeFits(s: string)
    ensures Utf8Len(BarcodeOf(s)) <= BARCODE_LIMIT
  {
    AsciiEncode(BarcodeOf(s));
  }

  /** The partner size set_p0_size/set_p1_size give the other partition. */
  function OtherSize(size: u16): (r: u16)
    ensures r == REST_OF_TAPE <==> size != REST_OF_TAPE
    ensures r != REST_OF_TAPE ==> r == 1
  {
    if size < 0xFFFF then REST_OF_TAPE else 1
  }

  /** `validate`, on the values it looks at; the checks run in this order and the first failure is reported. */
  function ValidateValues(blockLength: u32, extraPartitionCount: u8, p0Size: u16, p1Size: u16, barcode: string): (r: Result<()>)
    ensures r.Ok? <==>
      MIN_BLOCK_LENGTH <= blockLength <= MAX_BLOCK_LENGTH && extraPartitionCount <= 1
      && !(p0Size == REST_OF_TAPE && p1Size == REST_OF_TAPE) && Utf8Len(barcode) <= BARCODE_LIMIT
    ensures r.Err? ==> r.error.kind == ParameterValidation
    ensures !(MIN_BLOCK_LENGTH <= blockLength <= MAX_BLOCK_LENGTH) ==>
      r == Fail(ParameterValidation, "Block length must be between 512 and 2097152, got " + NatToDecimal(blockLength))
  {
    if blockLength < 512 || blockLength > 2_097_152 then
      Fail(ParameterValidation, "Block length must be between 512 and 2097152, got " + NatToDecimal(blockLength))
    else if extraPartitionCount > 1 then
      Fail(ParameterValidation, "Extra partition count must be 0 or 1, got " + NatToDecimal(extraPartitionCount))
    else if p0Size == 0xFFFF && p1Size == 0xFFFF then
      Fail(ParameterValidation, "P0Size and P1Size cannot both be 65535 (maximum value)")
    else if Utf8Len(barcode) > 20 then
      Fail(ParameterValidation, "Barcode length must not exceed 20 characters, got " + NatToDecimal(Utf8Len(barcode)))
    else
      Ok(())
  }

  /** `MkltfsParams`: the options of one mkltfs run. */
  class MkltfsParams {
    var barcode: string
    var volumeLabel: string
    var extraPartitionCount: u8
    var blockLength: u32
    var immediateMode: bool
    var capacity: u16
    var p0Size: u16
    var p1Size: u16
    var encryptionKey: Option<seq<byte>>

    /** `Default`: one extra partition, 512 KiB blocks, a 1 GB index partition and the rest for data. */
    constructor Default()
      ensures barcode == "" && volumeLabel == "" && extraPartitionCount == 1
      ensures blockLength == DEFAULT_BLOCK_LENGTH && immediateMode && capacity == 0xFFFF
      ensures p0Size == 1 && p1Size == REST_OF_TAPE && encryptionKey.None?
      ensures Validate().Ok?
    {
      barcode := "";
      volumeLabel := "";
      extraPartitionCount := 1;
      blockLength := DEFAULT_BLOCK_LENGTH;
      immediateMode := true;
      capacity := 0xFFFF;
      p0Size := 1;
      p1Size := REST_OF_TAPE;
      encryptionKey := None;
    }

    /** `new`: the defaults, with the extra partition count capped by what the drive allows. */
    constructor New(maxExtraPartitions: u8)
      ensures extraPartitionCount == Min(1, maxExtraPartitions)
      ensures barcode == "" && volumeLabel == ""
      ensures blockLength == DEFAULT_BLOCK_LENGTH && immediateMode && capacity == 0xFFFF
      ensures p0Size == 1 && p1Size == REST_OF_TAPE && encryptionKey.None?
      ensures Validate().Ok?
    {
      barcode := "";
      volumeLabel := "";
      extraPartitionCount := if 1 <= maxExtraPartitions then 1 else maxExtraPartitions;
      blockLength := DEFAULT_BLOCK_LENGTH;
      immediateMode := true;
      capacity := 0xFFFF;
      p0Size := 1;
      p1Size := REST_OF_TAPE;
      encryptionKey := None;
    }

    /** `validate` on the current values. */
    function Validate(): (r: Result<()>)
      reads this
      ensures r == ValidateValues(blockLength, extraPartitionCount, p0Size, p1Size, barcode)
    {
      ValidateValues(blockLength, extraPartitionCount, p0Size, p1Size, barcode)
    }

    /** `set_barcode`: only the filtered barcode is stored, so the barcode check of validate passes afterwards. */
    method SetBarcode(s: string)
      modifies this`barcode
      ensures barcode == BarcodeOf(s)
      ensures Utf8Len(barcode) <= BARCODE_LIMIT
      ensures old(blockLength) == blockLength && old(p0Size) == p0Size && old(p1Size) == p1Size
    {
      barcode := BarcodeOf(s);
      BarcodeFits(s);
    }

    /** `set_p0_size`: the data partition takes the rest, unless the index partition already does. */
    method SetP0Size(size: u16)
      modifies this`p0Size, this`p1Size
      ensures p0Size == size && p1Size == OtherSize(size)
      ensures !(p0Size == REST_OF_TAPE && p1Size == REST_OF_TAPE)
    {
      p0Size := size;
      if size < 0xFFFF {
        p1Size := REST_OF_TAPE;
      } else {
        p1Size := 1;
      }
    }

    /** `set_p1_size`: the mirror image of set_p0_size. */
    method SetP1Size(size: u16)
      modifies this`p0Size, this`p1Size
      ensures p1Size == size && p0Size == OtherSize(size)
      ensures !(p0Size == REST_OF_TAPE && p1Size == REST_OF_TAPE)
    {
      p1Size := size;
      if size < 0xFFFF {
        p0Size := REST_OF_TAPE;
      } else {
        p0Size := 1;
      }
    }
  }

  /**
   * Whatever the setters are given, parameters that passed validation still
   * pass afterwards: set_barcode and set_p0_size/set_p1_size cannot break the
   * two checks they touch.
   */
  lemma SettersKeepValid(blockLength: u32, extra: u8, p0: u16, p1: u16, barcode: string, s: string, size: u16)
    requires ValidateValues(blockLength, extra, p0, p1, barcode).Ok?
    ensures ValidateValues(blockLength, extra, p0, p1, BarcodeOf(s)).Ok?
    ensures ValidateValues(blockLength, extra, size, OtherSize(size), barcode).Ok?
    ensures ValidateValues(blockLength, extra, OtherSize(size), size, barcode).Ok?
  {
    BarcodeFits(s);
  }

  // ---------------------------------------------------------------------------
  // The VOL1 label

  /** Rust's `%` on a signed integer: the remainder takes the sign of the dividend. */
  function TruncatedRem(x: int, m: nat): (r: int)
    requires m > 0
    ensures -(m as int) < r < m
    ensures x >= 0 ==> r == x % m
    ensures r == 0 || (r < 0 <==> x < 0)
  {
    if x >= 0 then x % m else -((-x) % m)
  }

  /** Digits padded on the left with '0' up to a width. */
  function ZeroPad(s: string, width: nat): (r: string)
    ensures |r| == if |s| < width then width else |s|
    ensures AllDigits(s) ==> AllDigits(r)
  {
    if |s| < width then ZeroChars(width - |s|) + s else s
  }

  /** `k` zero digits. */
  function ZeroChars(k: nat): (r: string)
    ensures |r| == k && forall i :: 0 <= i < k ==> r[i] == '0'
  {
    seq(k, _ => '0')
  }

  /** `format!("{:06}", v)`: at least six characters, zero-padded after the sign. */
  function Decimal06(v: int): string
  {
    if v < 0 then "-" + ZeroPad(NatToDecimal(-v), 5) else ZeroPad(NatToDecimal(v), 6)
  }

  /** The volume identifier: the configured label, or six digits of the clock when none is set. */
  function VolumeId(volumeLabel: string, now: int): string
  {
    if volumeLabel == [] then Decimal06(TruncatedRem(now, 1000000)) else volumeLabel
  }

  lemma {:induction false} NatToDecimalLength(n: nat, k: nat)
    requires n < Pow10(k + 1)
    ensures |NatToDecimal(n)| <= k + 1
  {
    if n >= 10 {
      NatToDecimalLength(n / 10, k - 1);
    }
  }

  function Pow10(k: nat): nat
  {
    if k == 0 then 1 else 10 * Pow10(k - 1)
  }

  /** Leading zeros do not change a numeral's value. */
  lemma {:induction false} LeadingZeroValue(s: string)
    requires AllDigits(s)
    ensures AllDigits(['0'] + s) && DigitsValue(['0'] + s) == DigitsValue(s)
  {
    var z := ['0'] + s;
    if s != [] {
      assert z[..|z| - 1] == ['0'] + s[..|s| - 1];
      LeadingZeroValue(s[..|s| - 1]);
    }
  }

  lemma ZeroPadValue(s: string, width: nat)
    requires AllDigits(s)
    ensures DigitsValue(ZeroPad(s, width)) == DigitsValue(s)
  {
    if |s| < width {
      ZerosValue(width - |s|, s);
    }
  }

  /** Any number of leading zeros leaves the value alone. */
  lemma {:induction false} ZerosValue(k: nat, s: string)
    requires AllDigits(s)
    ensures AllDigits(ZeroChars(k) + s) && DigitsValue(ZeroChars(k) + s) == DigitsValue(s)
  {
    if k > 0 {
      LeadingZeroValue(s);
      ZerosValue(k - 1, ['0'] + s);
      assert ZeroChars(k) == ZeroChars(k - 1) + ['0'];
      assert ZeroChars(k) + s == ZeroChars(k - 1) + (['0'] + s);
    } else {
      assert ZeroChars(k) + s == s;
    }
  }

  /** With the clock at or after the epoch, the generated identifier is six digits reading back as the time modulo 10^6. */
  lemma GeneratedIdDigits(now: int)
    requires now >= 0
    ensures var id := VolumeId("", now);
      |id| == 6 && AllDigits(id) && DigitsValue(id) == now % 1000000
  {
    var v := now % 1000000;
    assert Pow10(6) == 1000000 by {
      assert Pow10(1) == 10;
      assert Pow10(3) == 1000;
    }
    NatToDecimalLength(v, 5);
    NatToDecimalValue(v);
    ZeroPadValue(NatToDecimal(v), 6);
  }

  /** How many bytes of the identifier fit in the label's six-byte field. */
  function IdLength(idBytes: seq<byte>): nat
  {
    Min(|idBytes|, 6)
  }

  /** The 80-byte label of `create_ltfs_volume_label`. */
  function VolumeLabel(idBytes: seq<byte>): (r: seq<byte>)
    ensures |r| == 80
    ensures r[..4] == PartitionManager.VOL1 && r[24..28] == PartitionManager.LTFS
    ensures r[4..4 + IdLength(idBytes)] == idBytes[..IdLength(idBytes)]
    ensures forall i :: 4 + IdLength(idBytes) <= i < 24 || 28 <= i < 80 ==> r[i] == 0
  {
    var k := IdLength(idBytes);
    seq(80, i requires 0 <= i < 80 =>
      if i < 4 then PartitionManager.VOL1[i]
      else if i < 4 + k then idBytes[i - 4]
      else if 24 <= i < 28 then PartitionManager.LTFS[i - 24]
      else 0)
  }

  /** A label written by mkltfs is one the label parser accepts. */
  lemma VolumeLabelIsVol1(idBytes: seq<byte>)
    ensures PartitionManager.Vol1Label(VolumeLabel(idBytes))
  {
  }

  /** The identifier is read back from bytes 4.. of the label: all of it when it has at most six bytes. */
  lemma VolumeIdReadsBack(volumeLabel: string, now: int)
    requires (volumeLabel != [] && Utf8Len(volumeLabel) <= 6) || (volumeLabel == [] && now >= 0)
    ensures var idBytes := Encode(VolumeId(volumeLabel, now));
      |idBytes| <= 6 && VolumeLabel(idBytes)[4..4 + |idBytes|] == idBytes
  {
    if volumeLabel == [] {
      GeneratedIdDigits(now);
      var id := VolumeId("", now);
      assert AllAscii(id) by {
        forall i | 0 <= i < |id| ensures IsAscii(id[i]) {
          assert IsAsciiDigit(id[i]);
        }
      }
      AsciiEncode(id);
    }
  }

  /** `copy_from_slice` into a buffer at an offset: src lands at `at`, everything else is kept. */
  method CopyInto(a: array<byte>, at: nat, src: seq<byte>)
    requires at + |src| <= a.Length
    modifies a
    ensures forall i :: 0 <= i < a.Length ==> a[i] == if at <= i < at + |src| then src[i - at] else old(a[i])
  {
    var i := 0;
    while i < |src|
      invariant 0 <= i <= |src|
      invariant forall j :: 0 <= j < a.Length ==> a[j] == if at <= j < at + i then src[j - at] else old(a[j])
    {
      a[at + i] := src[i];
      i := i + 1;
    }
  }

  /** `create_ltfs_volume_label`: a zeroed 80-byte buffer with "VOL1", up to six identifier bytes and "LTFS" written into it. */
  method CreateLtfsVolumeLabel(volumeLabel: string, now: int) returns (vol1: array<byte>)
    ensures fresh(vol1)
    ensures vol1[..] == VolumeLabel(Encode(VolumeId(volumeLabel, now)))
  {
    vol1 := new byte[80](_ => 0);
    CopyInto(vol1, 0, PartitionManager.VOL1);
    var idBytes := Encode(VolumeId(volumeLabel, now));
    var k := if |idBytes| <= 6 then |idBytes| else 6;
    CopyInto(vol1, 4, idBytes[..k]);
    CopyInto(vol1, 24, PartitionManager.LTFS);
    var expected := VolumeLabel(idBytes);
    forall i | 0 <= i < 80
      ensures vol1[i] == expected[i]
    {
    }
    assert vol1[..] == expected;
  }

  /** The bounds of a ceiling division: q*b is the least multiple of b that is at least n. */
  lemma CeilDiv(n: nat, b: nat)
    requires b > 0
    ensures var q := (n + b - 1) / b;
      n <= q * b < n + b && (q * b) % b == 0
  {
    var q := (n + b - 1) / b;
    assert n + b - 1 == q * b + (n + b - 1) % b;
    ModUnique(q * b, b, q, 0);
  }

  /** `write_ltfs_volume_label`: the label, zero-padded to a whole number of blocks. */
  function PadToBlocks(data: seq<byte>, blockSize: nat): (r: seq<byte>)
    requires blockSize > 0
    ensures |r| % blockSize == 0
    ensures |data| <= |r| < |data| + blockSize
    ensures r[..|data|] == data
    ensures forall i :: |data| <= i < |r| ==> r[i] == 0
  {
    var blocks := (|data| + blockSize - 1) / blockSize;
    CeilDiv(|data|, blockSize);
    data + seq(blocks * blockSize - |data|, _ => 0)
  }

  // ---------------------------------------------------------------------------
  // Format status

  datatype LtfsFormatStatus = Formatted | UnknownFormat | Empty
  {
    predicate IsLtfsFormatted() { this == Formatted }

    function Description(): (d: string)
      ensures |d| > 0
    {
      match this
      case Formatted => "LTFS formatted"
      case UnknownFormat => "Unknown format"
      case Empty => "Empty tape"
    }
  }

  /** Distinct statuses describe themselves differently. */
  lemma DescriptionInjective(a: LtfsFormatStatus, b: LtfsFormatStatus)
    requires a != b
    ensures a.Description() != b.Description()
  {
    assert a.Description()[0] != b.Description()[0];
  }

  /** `parse_partition_label`: the block holds a partition label iff "LTFS" occurs in it. */
  predicate HasPartitionLabel(block: seq<byte>)
  {
    Contains(block, PartitionManager.LTFS)
  }

  /**
   * `detect_ltfs_format_status`, with the outcome of reading block 0 of
   * partition 0 and of TEST UNIT READY as parameters.
   */
  function DetectLtfsFormatStatus(firstBlock: Result<seq<byte>>, unitReady: Result<()>): (r: LtfsFormatStatus)
    ensures r.IsLtfsFormatted() <==> firstBlock.Ok? && HasPartitionLabel(firstBlock.value)
    ensures r == Empty <==> !(firstBlock.Ok? && HasPartitionLabel(firstBlock.value)) && unitReady.Err?
  {
    if firstBlock.Ok? && HasPartitionLabel(firstBlock.value) then Formatted
    else if unitReady.Ok? then UnknownFormat
    else Empty
  }

  /** A tape whose first block is a label written by mkltfs reads back as formatted. */
  lemma LabelledTapeIsFormatted(idBytes: seq<byte>, blockSize: nat, unitReady: Result<()>)
    requires blockSize > 0
    ensures DetectLtfsFormatStatus(Ok(PadToBlocks(VolumeLabel(idBytes), blockSize)), unitReady) == Formatted
  {
    var block := PadToBlocks(VolumeLabel(idBytes), blockSize);
    assert block[24..28] == PartitionManager.LTFS by {
      assert block[..80] == VolumeLabel(idBytes);
      assert block[24..28] == block[..80][24..28];
    }
    ContainsAt(block, PartitionManager.LTFS, 24);
  }
}

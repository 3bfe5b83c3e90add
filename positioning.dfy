// Tape positioning (scsi/commands/positioning.rs): the command descriptor
// blocks for LOCATE, SPACE and READ POSITION, the decoding of the position
// reply, the choice between LOCATE(16) and LOCATE(10), the retry after a
// locate error, and the filemark probe `read_file_mark`. The device is a
// parameter (`Device`); the lemmas run the commands on the drive of
// TapeDevice.

module ScsiPositioning {
  import opened Wrappers
  import opened Bytes
  import opened Strings
  import opened ScsiTypes
  import opened TapeDevice
  import ScsiSense

  /** What `scsi_io_control` reaches: a drive in some state, given a CDB. */
  type Device = (Tape, seq<byte>) -> Reply

  /** The fields of `ScsiInterface` the positioning commands read. */
  datatype ScsiInterface = ScsiInterface(allowPartition: bool, driveType: DriveType)

  /** A command's result and the drive state it leaves. */
  datatype Step<T> = Step(result: Result<T>, tape: Tape)

  /** The first n bytes the driver copies into a zero-filled buffer of n bytes. */
  function Fit(s: seq<byte>, n: nat): (b: seq<byte>)
    ensures |b| == n && (|s| == n ==> b == s)
    ensures forall i :: 0 <= i < n ==> b[i] == if i < |s| then s[i] else 0
  {
    if |s| >= n then s[..n] else s + Zeros(n - |s|)
  }

  /** `((sense[12] as u16) << 8) | sense[13] as u16`. */
  function AddCode(sense: seq<byte>): (c: u16)
    requires |sense| >= 14
    ensures c / 256 == sense[12] && c % 256 == sense[13]
  {
    ScsiSense.AddKey(sense[12], sense[13])
  }

  /** `{:04X}`: four upper-case hexadecimal digits. */
  function Hex4(n: u16): (s: string)
    ensures |s| == 4 && Hex2Value(s[..2]) == Some(n / 256) && Hex2Value(s[2..]) == Some(n % 256)
  {
    Hex2RoundTrip(n / 256);
    Hex2RoundTrip(n % 256);
    var s := Hex2(n / 256) + Hex2(n % 256);
    assert s[..2] == Hex2(n / 256) && s[2..] == Hex2(n % 256);
    s
  }

  // ---------------------------------------------------------------------------
  // Command descriptor blocks

  /** `locate_block`'s LOCATE(10): byte 1 is 02h, or 03h with the partition in byte 2; the low 32 address bits in bytes 4-7. */
  function LocateBlockCdb(partition: u8, block: u64): (cdb: seq<byte>)
    ensures |cdb| == 10 && cdb[0] == 0x2B
    ensures BeValue(cdb[4..8]) == block % U32_LIMIT
  {
    var flags := if partition != 0 then 0x03 else 0x02;
    var partitionByte := if partition != 0 then partition else 0;
    var cdb := [0x2B, flags, partitionByte, 0] + BeBytes(block, 4) + [0, 0];
    assert cdb[4..8] == BeBytes(block, 4);
    BeRoundTrip(block, 4);
    Pow256Values();
    cdb
  }

  method BuildLocateBlockCdb(partition: u8, block: u64) returns (cdb: array<byte>)
    ensures fresh(cdb) && cdb[..] == LocateBlockCdb(partition, block)
  {
    cdb := new byte[10](_ => 0);
    cdb[0] := 0x2B;
    cdb[1] := 0x02;
    if partition != 0 {
      cdb[1] := 0x03;
      cdb[2] := partition;
    }
    cdb[4] := (block / 0x100_0000) % 256;
    cdb[5] := (block / 0x1_0000) % 256;
    cdb[6] := (block / 0x100) % 256;
    cdb[7] := block % 256;
    Be4Bytes(block);
  }

  /** SPACE sends a count of 1 for end of data, whatever was asked. */
  function SpaceCount(st: SpaceType, count: i32): i32
  {
    if st == EndOfData then 1 else count
  }

  /** `space`'s SPACE(6): the code in byte 1 and the count's low 24 bits (two's complement) in bytes 2-4. */
  function SpaceCdb(st: SpaceType, count: i32): (cdb: seq<byte>)
    ensures |cdb| == 6 && cdb[0] == 0x11 && cdb[1] == SpaceTypeCode(st)
    ensures BeValue(cdb[2..5]) == SpaceCount(st, count) % U24_LIMIT
  {
    var cdb := [0x11, SpaceTypeCode(st)] + BeBytes(SpaceCount(st, count), 3) + [0];
    assert cdb[2..5] == BeBytes(SpaceCount(st, count), 3);
    BeRoundTrip(SpaceCount(st, count), 3);
    Pow256Values();
    cdb
  }

  method BuildSpaceCdb(st: SpaceType, count: i32) returns (cdb: array<byte>)
    ensures fresh(cdb) && cdb[..] == SpaceCdb(st, count)
  {
    cdb := new byte[6](_ => 0);
    cdb[0] := 0x11;
    cdb[1] := SpaceTypeCode(st);
    var actual := if st == EndOfData then 1 else count;
    cdb[2] := (actual / 0x1_0000) % 256;
    cdb[3] := (actual / 0x100) % 256;
    cdb[4] := actual % 256;
    cdb[5] := 0;
    Be3Bytes(actual);
  }

  /** The 24-bit field `space6` writes: a negative count as `(!(-count as u32) + 1) & 0xFFFFFF`. */
  function Space6Field(count: i32): (v: nat)
    ensures v % U24_LIMIT == count % U24_LIMIT
  {
    if count < 0 then
      var abs := AsU32(AsI32(-(count as int)));
      var complement := AsU32((U32_LIMIT - 1 - abs) + 1) % U24_LIMIT;
      assert complement == count % U24_LIMIT by {
        if count == -0x8000_0000 {
          assert abs == 0x8000_0000;
          assert AsU32((U32_LIMIT - 1 - abs) + 1) == 0x8000_0000;
        } else {
          assert abs == -count;
          assert AsU32((U32_LIMIT - 1 - abs) + 1) == U32_LIMIT + count;
          assert U32_LIMIT + count == count + 256 * U24_LIMIT;
        }
      }
      complement
    else count
  }

  /** `space6`'s SPACE(6): the caller's code in byte 1, the 24-bit count in bytes 2-4. */
  function Space6Cdb(count: i32, code: u8): (cdb: seq<byte>)
    ensures |cdb| == 6 && cdb[0] == 0x11 && cdb[1] == code
    ensures BeValue(cdb[2..5]) == count % U24_LIMIT
  {
    var cdb := [0x11, code] + BeBytes(Space6Field(count), 3) + [0];
    assert cdb[2..5] == BeBytes(Space6Field(count), 3);
    BeRoundTrip(Space6Field(count), 3);
    Pow256Values();
    assert Space6Field(count) % U24_LIMIT == count % U24_LIMIT;
    cdb
  }

  method BuildSpace6Cdb(count: i32, code: u8) returns (cdb: array<byte>)
    ensures fresh(cdb) && cdb[..] == Space6Cdb(count, code)
  {
    cdb := new byte[6](_ => 0);
    cdb[0] := 0x11;
    cdb[1] := code;
    var field := Space6Field(count);
    cdb[2] := (field / 0x1_0000) % 256;
    cdb[3] := (field / 0x100) % 256;
    cdb[4] := field % 256;
    Be3Bytes(field);
  }

  /** `space(Blocks, n)` and `space6(n, 0)` send the same six bytes, negative counts included. */
  lemma SpaceAgreesWithSpace6(count: i32)
    ensures SpaceCdb(Blocks, count) == Space6Cdb(count, 0)
  {
    Pow256Values();
    BeBytesMod(count, Space6Field(count), 3);
  }

  /** A 24-bit count round-trips through the device's signed reading of bytes 2-4. */
  lemma Signed24RoundTrip(count: int)
    requires -0x80_0000 <= count < 0x80_0000
    ensures Signed24(count % U24_LIMIT) == count
  {
  }

  /** LOCATE(16): destination type in bits 3-5 and CP in bit 1 of byte 1, the partition in byte 3, the 64-bit address in bytes 4-11. */
  function Locate16Cdb(dest: LocateDestType, cp: bool, partition: u8, address: u64): (cdb: seq<byte>)
    ensures |cdb| == 16 && cdb[0] == 0x92 && cdb[1] == Locate16Mode(dest, cp) && cdb[3] == partition
    ensures (cdb[1] / 8) % 8 == DestCode(dest) && ((cdb[1] / 2) % 2 == 1 <==> cp) && cdb[1] % 8 < 4
    ensures BeValue(cdb[4..12]) == address
  {
    var cdb := [0x92, Locate16Mode(dest, cp), 0, partition] + BeBytes(address, 8) + [0, 0, 0, 0];
    assert BeValue(cdb[4..12]) == address by {
      assert cdb[4..12] == BeBytes(address, 8);
      BeRoundTrip(address, 8);
      Pow256Values();
    }
    cdb
  }

  /** Byte 1 of LOCATE(16): the destination type shifted left by 3, and CP as bit 1. */
  function Locate16Mode(dest: LocateDestType, cp: bool): (b: byte)
    ensures (b / 8) % 8 == DestCode(dest) && ((b / 2) % 2 == 1 <==> cp) && b % 8 == (if cp then 2 else 0)
  {
    DestCode(dest) * 8 + (if cp then 2 else 0)
  }

  method BuildLocate16Cdb(dest: LocateDestType, cp: bool, partition: u8, address: u64) returns (cdb: array<byte>)
    ensures fresh(cdb) && cdb[..] == Locate16Cdb(dest, cp, partition, address)
  {
    cdb := new byte[16](_ => 0);
    cdb[0] := 0x92;
    cdb[1] := Locate16Mode(dest, cp);
    cdb[2] := 0;
    cdb[3] := partition;
    ghost var head := cdb[..4];
    assert head == [0x92, Locate16Mode(dest, cp), 0, partition];
    PutBe64(cdb, 4, address);
    assert cdb[..] == head + BeBytes(address, 8) + [0, 0, 0, 0];
  }

  /** Bytes at..at+7 of the CDB get the 64-bit value, most significant byte first (shifts by 56 down to 0, masked to a byte). */
  method PutBe64(cdb: array<byte>, at: nat, v: u64)
    requires at + 8 <= cdb.Length
    modifies cdb
    ensures cdb[..] == old(cdb[..at]) + BeBytes(v, 8) + old(cdb[at + 8..])
  {
    ghost var before := cdb[..];
    var b0, b1, b2, b3: byte := (v / 0x100_0000_0000_0000) % 256, (v / 0x1_0000_0000_0000) % 256,
      (v / 0x100_0000_0000) % 256, (v / 0x1_0000_0000) % 256;
    var b4, b5, b6, b7: byte := (v / 0x100_0000) % 256, (v / 0x1_0000) % 256, (v / 0x100) % 256, v % 256;
    assert BeBytes(v, 8) == [b0, b1, b2, b3, b4, b5, b6, b7] by { Be8Bytes(v); }
    cdb[at], cdb[at + 1], cdb[at + 2], cdb[at + 3] := b0, b1, b2, b3;
    cdb[at + 4], cdb[at + 5], cdb[at + 6], cdb[at + 7] := b4, b5, b6, b7;
    assert cdb[at..at + 8] == [b0, b1, b2, b3, b4, b5, b6, b7];
    assert cdb[..at] == before[..at] && cdb[at + 8..] == before[at + 8..];
    Spliced(before, cdb[..], at, BeBytes(v, 8));
  }

  /** A sequence that agrees with `before` outside at..at+|mid| and holds `mid` there is the splice. */
  lemma Spliced(before: seq<byte>, after: seq<byte>, at: nat, mid: seq<byte>)
    requires |after| == |before| && at + |mid| <= |before|
    requires after[..at] == before[..at] && after[at..at + |mid|] == mid && after[at + |mid|..] == before[at + |mid|..]
    ensures after == before[..at] + mid + before[at + |mid|..]
  {
    assert after == after[..at] + after[at..at + |mid|] + after[at + |mid|..];
  }

  /** `locate_standard`'s LOCATE(10): byte 1 clear, the low 32 address bits in bytes 3-6. */
  function Locate10Cdb(address: u64): (cdb: seq<byte>)
    ensures |cdb| == 10 && cdb[0] == 0x2B && cdb[1] == 0
    ensures BeValue(cdb[3..7]) == address % U32_LIMIT
  {
    var cdb := [0x2B, 0, 0] + BeBytes(address, 4) + [0, 0, 0];
    assert BeValue(cdb[3..7]) == address % U32_LIMIT by {
      assert cdb[3..7] == BeBytes(address, 4);
      BeRoundTrip(address, 4);
      Pow256Values();
    }
    cdb
  }

  method BuildLocate10Cdb(address: u64) returns (cdb: array<byte>)
    ensures fresh(cdb) && cdb[..] == Locate10Cdb(address)
  {
    cdb := new byte[10](_ => 0);
    cdb[0] := 0x2B;
    cdb[3] := (address / 0x100_0000) % 256;
    cdb[4] := (address / 0x1_0000) % 256;
    cdb[5] := (address / 0x100) % 256;
    cdb[6] := address % 256;
    Be4Bytes(address);
  }

  /**
   * `retry_locate_on_error`'s LOCATE(10), built from a failed LOCATE(16):
   * the address from bytes 8-11 goes to bytes 3-6, and byte 1 becomes
   * `(cdb[1] & 0x07) << 3`.
   */
  function RetryCdb(orig: seq<byte>): (cdb: seq<byte>)
    requires |orig| >= 12
    ensures |cdb| == 10 && cdb[0] == 0x2B && cdb[1] == (orig[1] % 8) * 8
    ensures BeValue(cdb[3..7]) == BeValue(orig[8..12])
  {
    var address := U32Be(orig, 8);
    var cdb := [0x2B, (orig[1] % 8) * 8, 0] + BeBytes(address, 4) + [0, 0, 0];
    assert BeValue(cdb[3..7]) == address by {
      assert cdb[3..7] == BeBytes(address, 4);
      Be4ReadsBack(address);
    }
    cdb
  }

  method BuildRetryCdb(orig: array<byte>) returns (cdb: array<byte>)
    requires orig.Length >= 12
    ensures fresh(cdb) && cdb[..] == RetryCdb(orig[..])
  {
    var address := (orig[8] as int) * 0x100_0000 + (orig[9] as int) * 0x1_0000 + (orig[10] as int) * 0x100 + (orig[11] as int);
    assert address == BeValue(orig[..][8..12]) by {
      var s := orig[..];
      BeValueSnoc(s, 8, 0);
      BeValueSnoc(s, 8, 1);
      BeValueSnoc(s, 8, 2);
      BeValueSnoc(s, 8, 3);
    }
    cdb := new byte[10](_ => 0);
    cdb[0] := 0x2B;
    cdb[1] := (orig[1] % 8) * 8;
    cdb[3] := (address / 0x100_0000) % 256;
    cdb[4] := (address / 0x1_0000) % 256;
    cdb[5] := (address / 0x100) % 256;
    cdb[6] := address % 256;
    Be4Bytes(address);
  }

  /** `locate_slr1`'s six-byte locate (opcode 0Ch): a 20-bit address in bytes 2-4. */
  function Slr1LocateCdb(address: u64): (cdb: seq<byte>)
    ensures |cdb| == 6 && cdb[0] == 0x0C
    ensures (cdb[2] as int) * 0x1_0000 + (cdb[3] as int) * 0x100 + (cdb[4] as int) == address % 0x10_0000
  {
    Mod20(address);
    [0x0C, 0, (address / 0x1_0000) % 16, (address / 0x100) % 256, address % 256, 0]
  }

  /** The low 20 bits of a: bits 16-19, 8-15 and 0-7 put together. */
  lemma Mod20(a: int)
    requires a >= 0
    ensures ((a / 0x1_0000) % 16) * 0x1_0000 + ((a / 0x100) % 256) * 0x100 + a % 256 == a % 0x10_0000
  {
    var q, r := a / 256, a % 256;
    var h := a / 0x1_0000;
    DivDiv(a, 256, 256);
    assert q / 256 == h;
    assert q == 256 * h + q % 256;
    assert a == 0x1_0000 * h + 256 * (q % 256) + r;
    var top, low := h / 16, h % 16;
    assert h == 16 * top + low;
    assert a == 0x10_0000 * top + (0x1_0000 * low + 256 * (q % 256) + r);
    ModUnique(a, 0x10_0000, top, 0x1_0000 * low + 256 * (q % 256) + r);
  }

  /** `locate_slr3`'s LOCATE(10) with byte 1 = 4 and the low 32 address bits in bytes 3-6. */
  function Slr3LocateCdb(address: u64): (cdb: seq<byte>)
    ensures |cdb| == 10 && cdb[0] == 0x2B && cdb[1] == 4
    ensures BeValue(cdb[3..7]) == address % U32_LIMIT
  {
    var cdb := [0x2B, 4, 0] + BeBytes(address, 4) + [0, 0, 0];
    assert cdb[3..7] == BeBytes(address, 4);
    BeRoundTrip(address, 4);
    Pow256Values();
    cdb
  }

  /** SPACE(6) to end of data with a zero count, as the SLR locates send it. */
  const SpaceEodCdb: seq<byte> := [0x11, 3, 0, 0, 0, 0]

  /** READ POSITION, service action 6 (long form). */
  const ReadPositionCdb: seq<byte> := [0x34, 0x06, 0, 0, 0, 0, 0, 0, 0, 0]

  /** `read_file_mark`'s READ(6) with transfer length 1. */
  const ReadOneCdb: seq<byte> := [0x08, 0x00, 0x00, 0x00, 0x01, 0x00]

  // ---------------------------------------------------------------------------
  // READ POSITION

  /** The long-form reply: partition bytes 4-7 cut to u8, block 8-15, file 16-23, set 24-31; EOD flag 04h, BOP flag 08h. */
  function DecodePosition(buf: seq<byte>): (p: TapePosition)
    requires |buf| == 32
    ensures p.partition == BeValue(buf[4..8]) % 256
    ensures p.blockNumber == BeValue(buf[8..16]) && p.fileNumber == BeValue(buf[16..24]) && p.setNumber == BeValue(buf[24..32])
    ensures p.endOfData == ((buf[0] as bv8) & 0x04 != 0) && p.beginningOfPartition == ((buf[0] as bv8) & 0x08 != 0)
  {
    TapePosition(
      AsU8(U32Be(buf, 4)), U64Be(buf, 8), U64Be(buf, 16), U64Be(buf, 24),
      (buf[0] / 4) % 2 == 1, (buf[0] / 8) % 2 == 1)
  }

  /** One of `read_position`'s loops: shift left by 8 in a `limit`-wide integer, then OR in the next byte. */
  method ShiftInField(buf: array<byte>, start: nat, n: nat, limit: nat) returns (acc: nat)
    requires start + n <= buf.Length && Pow256(n) <= limit
    ensures acc == BeValue(buf[start..start + n]) && acc < limit
  {
    acc := 0;
    for i := 0 to n
      invariant acc == BeValue(buf[start..start + i])
    {
      var shifted := (acc * 256) % limit;
      ShiftStep(buf[..], start, i, n, limit);
      acc := shifted + buf[start + i];
    }
    BeValueBound(buf[start..start + n]);
  }

  /** One step of the loop: the shift does not wrap, and the OR appends the next byte. */
  lemma ShiftStep(s: seq<byte>, start: nat, i: nat, n: nat, limit: nat)
    requires i < n && start + n <= |s| && Pow256(n) <= limit
    ensures (BeValue(s[start..start + i]) * 256) % limit + s[start + i] == BeValue(s[start..start + i + 1])
  {
    var v := BeValue(s[start..start + i]);
    BeValueBound(s[start..start + i]);
    PowMono(i + 1, n);
    assert v * 256 < limit;
    ModUnique(v * 256, limit, 0, v * 256);
    BeValueSnoc(s, start, i);
  }

  lemma {:induction false} PowMono(a: nat, b: nat)
    requires a <= b
    ensures Pow256(a) <= Pow256(b)
    decreases b
  {
    if a < b {
      PowMono(a, b - 1);
    }
  }

  /** `read_position`'s decoding, loop by loop. */
  method DecodePositionBuffer(buf: array<byte>) returns (p: TapePosition)
    requires buf.Length == 32
    ensures p == DecodePosition(buf[..])
  {
    Pow256Values();
    var flags := buf[0];
    var partitionNumber := ShiftInField(buf, 4, 4, U32_LIMIT);
    var blockNumber := ShiftInField(buf, 8, 8, U64_LIMIT);
    var fileNumber := ShiftInField(buf, 16, 8, U64_LIMIT);
    var setNumber := ShiftInField(buf, 24, 8, U64_LIMIT);
    assert buf[..][4..8] == buf[4..8] && buf[..][8..16] == buf[8..16];
    assert buf[..][16..24] == buf[16..24] && buf[..][24..32] == buf[24..32];
    p := TapePosition(partitionNumber % 256, blockNumber, fileNumber, setNumber, (flags / 4) % 2 == 1, (flags / 8) % 2 == 1);
  }

  /** `read_position`: send READ POSITION and decode the 32-byte buffer. */
  function ReadPosition(exec: Device, t: Tape): (s: Step<TapePosition>)
    ensures s.tape == exec(t, ReadPositionCdb).after
    ensures s.result.Ok? <==> exec(t, ReadPositionCdb).delivered
    ensures s.result.Err? ==> s.result.error.kind == Scsi
  {
    var r := exec(t, ReadPositionCdb);
    if !r.delivered then Step(Fail(Scsi, "Read position failed"), r.after)
    else Step(Ok(DecodePosition(Fit(r.data, 32))), r.after)
  }

  /** The position the drive of TapeDevice is at, as the source reads it back. */
  function PositionOf(t: Tape): TapePosition
    requires Valid(t)
  {
    TapePosition(AsU8(t.partition), AsU64(t.block), AsU64(MarksBefore(Records(t), t.block)), 0, false, false)
  }

  /** The drive answers READ POSITION with its position and does not move. */
  lemma ReadPositionExecutes(t: Tape)
    requires Valid(t)
    ensures Execute(t, ReadPositionCdb) == Good(t, PositionData(t))
  {
    var c := ReadPositionCdb;
    assert c[0] == 0x34 && |c| == 10 && c[1] == 6;
  }

  /** The position reply decodes to the drive's partition (low 8 bits), block and file number. */
  lemma DecodePositionData(t: Tape)
    requires Valid(t)
    ensures DecodePosition(PositionData(t)) == PositionOf(t)
  {
    var d := PositionData(t);
    var marks := MarksBefore(Records(t), t.block);
    PositionDataFields(t);
    assert U32Be(d, 4) == t.partition % U32_LIMIT by {
      FieldValue(t.partition, 4, U32_LIMIT);
    }
    assert U64Be(d, 8) == AsU64(t.block) by {
      FieldValue(t.block, 8, U64_LIMIT);
    }
    assert U64Be(d, 16) == AsU64(marks) by {
      FieldValue(marks, 8, U64_LIMIT);
    }
    assert U64Be(d, 24) == 0 by {
      FieldValue(0, 8, U64_LIMIT);
    }
    assert AsU8(t.partition % U32_LIMIT) == AsU8(t.partition) by {
      ModMod(t.partition, 256, 0x100_0000);
    }
    assert d[0] == 0;
    var p := DecodePosition(d);
    assert p.partition == AsU8(t.partition);
    assert !p.endOfData && !p.beginningOfPartition;
  }

  /** Keeping the low bits of the low bits: (v mod ab) mod a = v mod a. */
  lemma ModMod(v: nat, a: nat, b: nat)
    requires a > 0 && b > 0
    ensures (v % (a * b)) % a == v % a
  {
    var m := v % (a * b);
    var q := v / (a * b);
    assert v == q * (a * b) + m;
    var m2, q2 := m % a, m / a;
    assert m == q2 * a + m2;
    assert v == (q * b + q2) * a + m2;
    ModUnique(v, a, q * b + q2, m2);
  }

  lemma FieldValue(v: nat, n: nat, limit: nat)
    requires (n == 4 && limit == U32_LIMIT) || (n == 8 && limit == U64_LIMIT)
    ensures BeValue(BeBytes(v, n)) == v % limit
  {
    BeRoundTrip(v, n);
    Pow256Values();
  }

  /** READ POSITION on the drive reports its partition (low 8 bits), block and file number, and moves nothing. */
  lemma ReadPositionReports(t: Tape)
    requires Valid(t)
    ensures ReadPosition(Execute, t) == Step(Ok(PositionOf(t)), t)
  {
    ReadPositionExecutes(t);
    DecodePositionData(t);
    assert Fit(PositionData(t), 32) == PositionData(t);
  }

  // ---------------------------------------------------------------------------
  // LOCATE

  /**
   * `retry_locate_on_error`: a failed LOCATE(16) is sent again as
   * LOCATE(10) and reports the new ASC/ASCQ; any other command fails with
   * the first code.
   */
  function RetryLocateOnError(exec: Device, t: Tape, cdb: seq<byte>, code: u16): (s: Step<u16>)
    requires |cdb| > 0
    ensures s.result.Err? ==> s.result.error.kind == Scsi
    ensures cdb[0] != 0x92 ==> s == Step(Fail(Scsi, "Locate operation failed with ASC/ASCQ: 0x" + Hex4(code)), t)
  {
    if cdb[0] == 0x92 then
      if |cdb| >= 12 then
        var r := exec(t, RetryCdb(cdb));
        if r.delivered then Step(Ok(AddCode(Fit(r.sense, SENSE_INFO_LEN))), r.after)
        else Step(Fail(Scsi, "Locate retry also failed"), r.after)
      else Step(Fail(Scsi, "Invalid CDB for retry"), t)
    else Step(Fail(Scsi, "Locate operation failed with ASC/ASCQ: 0x" + Hex4(code)), t)
  }

  /** Whether `execute_locate_command` retries: a nonzero ASC/ASCQ with a sense key other than BLANK CHECK (8). */
  predicate NeedsRetry(sense: seq<byte>)
    requires |sense| >= 14
  {
    AddCode(sense) != 0 && sense[2] % 16 != 8
  }

  /** `execute_locate_command`: send, then retry when the sense data reports an error. */
  function ExecuteLocateCommand(exec: Device, t: Tape, cdb: seq<byte>): (s: Step<u16>)
    requires |cdb| > 0
    ensures !exec(t, cdb).delivered ==> s.result.Err?
    ensures s.result.Err? ==> s.result.error.kind == Scsi
  {
    var r := exec(t, cdb);
    if !r.delivered then Step(Fail(Scsi, "Locate command failed"), r.after)
    else
      var sense := Fit(r.sense, SENSE_INFO_LEN);
      if NeedsRetry(sense) then RetryLocateOnError(exec, r.after, cdb, AddCode(sense))
      else Step(Ok(0), r.after)
  }

  /** A retry happens exactly for a nonzero ASC/ASCQ pair outside BLANK CHECK. */
  lemma NeedsRetryIff(sense: seq<byte>)
    requires |sense| >= 14
    ensures NeedsRetry(sense) <==> !(sense[12] == 0 && sense[13] == 0) && sense[2] % 16 != 8
  {
    var c := AddCode(sense);
    assert c == 0 <==> sense[12] == 0 && sense[13] == 0;
  }

  /**
   * `locate_standard`: a filemark by locating block 0 of the partition and
   * spacing forward over `address as i32` filemarks; otherwise LOCATE(16)
   * when partitions are allowed or the destination is end of data, with CP
   * set when the drive reports another partition (or no position at all
   * leaves it clear), and LOCATE(10) for a plain block.
   */
  function LocateStandard(exec: Device, iface: ScsiInterface, t: Tape, address: u64, partition: u8, dest: LocateDestType): (s: Step<u16>)
    ensures s.result.Err? ==> s.result.error.kind == Scsi
    decreases DestRank(dest), 0
  {
    if dest.FileMark? then
      var first := Locate(exec, iface, t, 0, partition, Block);
      if first.result.Err? then Step(Err(first.result.error), first.tape)
      else
        var sp := Space(exec, first.tape, FileMarks, AsI32(address));
        if sp.result.Err? then Step(Err(sp.result.error), sp.tape) else Step(Ok(0), sp.tape)
    else if iface.allowPartition || dest != Block then
      var pos := ReadPosition(exec, t);
      var cp := pos.result.Ok? && pos.result.value.partition != partition;
      ExecuteLocateCommand(exec, pos.tape, Locate16Cdb(dest, cp, partition, address))
    else ExecuteLocateCommand(exec, t, Locate10Cdb(address))
  }

  function DestRank(d: LocateDestType): nat
  {
    if d.FileMark? then 1 else 0
  }

  /** `space`: SPACE(6) of the given type and count. */
  function Space(exec: Device, t: Tape, st: SpaceType, count: i32): (s: Step<()>)
    ensures s.tape == exec(t, SpaceCdb(st, count)).after
    ensures s.result.Ok? <==> exec(t, SpaceCdb(st, count)).delivered
    ensures s.result.Err? ==> s.result.error.kind == Scsi
  {
    var r := exec(t, SpaceCdb(st, count));
    if r.delivered then Step(Ok(()), r.after) else Step(Fail(Scsi, "Space operation failed"), r.after)
  }

  /** `space6`: SPACE(6) with a raw code; the result is the ASC/ASCQ pair. */
  function Space6(exec: Device, t: Tape, count: i32, code: u8): (s: Step<u16>)
    ensures s.tape == exec(t, Space6Cdb(count, code)).after
    ensures s.result.Ok? <==> exec(t, Space6Cdb(count, code)).delivered
    ensures s.result.Err? ==> s.result.error.kind == Scsi
  {
    var r := exec(t, Space6Cdb(count, code));
    if r.delivered then Step(Ok(AddCode(Fit(r.sense, SENSE_INFO_LEN))), r.after)
    else Step(Fail(Scsi, "Space6 command failed"), r.after)
  }

  /**
   * The SLR drives' locate: a block through the drive's own CDB, a
   * filemark by locating block 0 and spacing forward, end of data by a
   * SPACE to end of data unless the drive already reports it.
   */
  function LocateSlr(exec: Device, t: Tape, address: u64, dest: LocateDestType, blockCdb: u64 -> seq<byte>): (s: Step<u16>)
    requires forall a :: |blockCdb(a)| > 0
    ensures s.result.Err? ==> s.result.error.kind == Scsi
    decreases DestRank(dest)
  {
    match dest
    case Block => ExecuteLocateCommand(exec, t, blockCdb(address))
    case FileMark =>
      var first := LocateSlr(exec, t, 0, Block, blockCdb);
      if first.result.Err? then Step(Err(first.result.error), first.tape)
      else
        var sp := Space(exec, first.tape, FileMarks, AsI32(address));
        if sp.result.Err? then Step(Err(sp.result.error), sp.tape) else Step(Ok(0), sp.tape)
    case EOD =>
      var pos := ReadPosition(exec, t);
      if pos.result.Err? then Step(Fail(Scsi, "Cannot read position for EOD locate"), pos.tape)
      else if !pos.result.value.endOfData then ExecuteLocateCommand(exec, pos.tape, SpaceEodCdb)
      else Step(Ok(0), pos.tape)
  }

  /** `locate`: the locate of the drive type (M2488 uses the standard one). */
  function Locate(exec: Device, iface: ScsiInterface, t: Tape, address: u64, partition: u8, dest: LocateDestType): (s: Step<u16>)
    ensures s.result.Err? ==> s.result.error.kind == Scsi
    decreases DestRank(dest), 1
  {
    match iface.driveType
    case Standard => LocateStandard(exec, iface, t, address, partition, dest)
    case M2488 => LocateStandard(exec, iface, t, address, partition, dest)
    case SLR3 => LocateSlr(exec, t, address, dest, Slr3LocateCdb)
    case SLR1 => LocateSlr(exec, t, address, dest, Slr1LocateCdb)
  }

  /** `locate_block`. */
  function LocateBlock(exec: Device, t: Tape, partition: u8, block: u64): (s: Step<()>)
    ensures s.tape == exec(t, LocateBlockCdb(partition, block)).after
    ensures s.result.Ok? <==> exec(t, LocateBlockCdb(partition, block)).delivered
    ensures s.result.Err? ==> s.result.error.kind == Scsi
  {
    var r := exec(t, LocateBlockCdb(partition, block));
    if r.delivered then Step(Ok(()), r.after) else Step(Fail(Scsi, "Locate operation failed"), r.after)
  }

  /** `locate_to_filemark`: block 0 of the partition, then SPACE forward over `filemark_number as i32` filemarks. */
  function LocateToFilemark(exec: Device, iface: ScsiInterface, t: Tape, filemark: u64, partition: u8): (s: Step<()>)
    ensures s.result.Ok? ==> Locate(exec, iface, t, 0, partition, Block).result.Ok?
    ensures s.result.Err? ==> s.result.error.kind == Scsi
  {
    var first := Locate(exec, iface, t, 0, partition, Block);
    if first.result.Err? then Step(Err(first.result.error), first.tape)
    else Space(exec, first.tape, FileMarks, AsI32(filemark))
  }

  /** `locate_to_eod`. */
  function LocateToEod(exec: Device, iface: ScsiInterface, t: Tape, partition: u8): (s: Step<()>)
    ensures s.tape == Locate(exec, iface, t, 0, partition, EOD).tape
    ensures s.result.Ok? <==> Locate(exec, iface, t, 0, partition, EOD).result.Ok?
    ensures s.result.Err? ==> s.result.error.kind == Scsi
  {
    var s := Locate(exec, iface, t, 0, partition, EOD);
    if s.result.Err? then Step(Err(s.result.error), s.tape) else Step(Ok(()), s.tape)
  }

  // ---------------------------------------------------------------------------
  // Behaviour on the drive of TapeDevice

  /** LOCATE(16) and LOCATE(10) as the drive reads them. */
  lemma Locate16Executes(t: Tape, dest: LocateDestType, cp: bool, partition: u8, address: u64)
    requires Valid(t)
    ensures Execute(t, Locate16Cdb(dest, cp, partition, address)) == ExecLocate(t, DestCode(dest), cp, partition, address)
  {
  }

  lemma Locate10Executes(t: Tape, address: u64)
    requires Valid(t)
    ensures Execute(t, Locate10Cdb(address)) == ExecLocate(t, 0, false, 0, address % U32_LIMIT)
  {
  }

  /** A locate command that completes with ASC/ASCQ 0000h, or with BLANK CHECK, is not retried. */
  lemma NoRetryOnGood(exec: Device, t: Tape, cdb: seq<byte>)
    requires |cdb| > 0
    requires var r := exec(t, cdb);
      r.delivered && |r.sense| == SENSE_INFO_LEN && ((r.sense[12] == 0 && r.sense[13] == 0) || r.sense[2] == BLANK_CHECK)
    ensures ExecuteLocateCommand(exec, t, cdb) == Step(Ok(0), exec(t, cdb).after)
  {
  }

  /** On a standard drive, LOCATE(16) is sent for a block when partitions are allowed and always for end of data, with CP set exactly when the drive's reported partition differs. */
  lemma Locate16Path(iface: ScsiInterface, t: Tape, address: u64, partition: u8, dest: LocateDestType)
    requires Valid(t) && (iface.allowPartition || dest == EOD) && !dest.FileMark?
    requires iface.driveType == Standard || iface.driveType == M2488
    ensures Locate(Execute, iface, t, address, partition, dest)
      == ExecuteLocateCommand(Execute, t, Locate16Cdb(dest, AsU8(t.partition) != partition, partition, address))
  {
    ReadPositionReports(t);
  }

  /** Otherwise LOCATE(10) is sent and the drive's position is not read. */
  lemma Locate10Path(iface: ScsiInterface, t: Tape, address: u64, partition: u8)
    requires !iface.allowPartition && (iface.driveType == Standard || iface.driveType == M2488)
    ensures Locate(Execute, iface, t, address, partition, Block) == ExecuteLocateCommand(Execute, t, Locate10Cdb(address))
  {
  }

  /** With at most 256 partitions, LOCATE(16) always moves to the partition it names. */
  lemma Locate16Target(t: Tape, dest: LocateDestType, partition: u8, address: u64)
    requires Valid(t) && |t.partitions| <= 256
    ensures var cp := AsU8(t.partition) != partition;
      Execute(t, Locate16Cdb(dest, cp, partition, address)) == ExecLocate(t, DestCode(dest), true, partition, address)
  {
    var cp := AsU8(t.partition) != partition;
    Locate16Executes(t, dest, cp, partition, address);
    TargetPartition(t, cp, partition);
    assert ExecLocate(t, DestCode(dest), cp, partition, address) == LocateIn(t, DestCode(dest), partition, address);
  }

  /** With at most 256 partitions, the partition a LOCATE(16) goes to is the one it names, CP set or not. */
  lemma TargetPartition(t: Tape, cp: bool, partition: u8)
    requires Valid(t) && |t.partitions| <= 256 && cp == (AsU8(t.partition) != partition)
    ensures (if cp then partition as nat else t.partition) == partition
  {
    assert t.partition < U8_LIMIT;
  }

  /**
   * With partitions allowed, a standard drive's block locate lands exactly
   * on the requested block of the requested partition (there are at most
   * 256 partitions, so the reported partition number is exact).
   */
  lemma LocateBlockAllowed(iface: ScsiInterface, t: Tape, address: u64, partition: u8)
    requires Valid(t) && |t.partitions| <= 256
    requires iface.allowPartition && (iface.driveType == Standard || iface.driveType == M2488)
    requires partition < |t.partitions| && address <= |t.partitions[partition]|
    ensures Locate(Execute, iface, t, address, partition, Block) == Step(Ok(0), Tape(t.partitions, partition, address))
  {
    Locate16Path(iface, t, address, partition, Block);
    var cdb := Locate16Cdb(Block, AsU8(t.partition) != partition, partition, address);
    Locate16Target(t, Block, partition, address);
    assert Execute(t, cdb) == Good(Tape(t.partitions, partition, address), []);
    NoRetryOnGood(Execute, t, cdb);
  }

  /** Without partitions, a block locate uses LOCATE(10): it stays in the current partition and uses the low 32 address bits. */
  lemma LocateBlockSinglePartition(iface: ScsiInterface, t: Tape, address: u64, partition: u8)
    requires Valid(t)
    requires !iface.allowPartition && (iface.driveType == Standard || iface.driveType == M2488)
    requires address % U32_LIMIT <= |Records(t)|
    ensures Locate(Execute, iface, t, address, partition, Block) == Step(Ok(0), t.(block := address % U32_LIMIT))
  {
    Locate10Path(iface, t, address, partition);
    Locate10Executes(t, address);
    assert Execute(t, Locate10Cdb(address)) == Good(t.(block := address % U32_LIMIT), []);
    NoRetryOnGood(Execute, t, Locate10Cdb(address));
  }

  /** A locate to end of data always uses LOCATE(16) and ends at the end of the requested partition. */
  lemma LocateEodLands(iface: ScsiInterface, t: Tape, partition: u8)
    requires Valid(t) && |t.partitions| <= 256
    requires iface.driveType == Standard || iface.driveType == M2488
    requires partition < |t.partitions|
    ensures LocateToEod(Execute, iface, t, partition) == Step(Ok(()), Tape(t.partitions, partition, |t.partitions[partition]|))
  {
    Locate16Path(iface, t, 0, partition, EOD);
    var cdb := Locate16Cdb(EOD, AsU8(t.partition) != partition, partition, 0);
    Locate16Target(t, EOD, partition, 0);
    assert Execute(t, cdb) == Good(Tape(t.partitions, partition, |t.partitions[partition]|), []);
    NoRetryOnGood(Execute, t, cdb);
  }

  /** SPACE over n filemarks (n below 2^23) from block 0 ends just past the n-th filemark. */
  lemma SpaceFileMarksExecutes(t: Tape, n: u64)
    requires Valid(t) && t.block == 0 && n < 0x80_0000
    requires AfterMarks(Records(t), 0, n).Some?
    ensures Space(Execute, t, FileMarks, AsI32(n)) == Step(Ok(()), t.(block := AfterMarks(Records(t), 0, n).value))
  {
    var cdb := SpaceCdb(FileMarks, AsI32(n));
    assert AsI32(n) == n;
    Signed24RoundTrip(n);
    assert Execute(t, cdb) == ExecSpace6(t, cdb);
  }

  /** `locate_to_filemark` with partitions allowed ends just past the n-th filemark of the partition (n below 2^23). */
  lemma LocateToFilemarkLands(iface: ScsiInterface, t: Tape, n: u64, partition: u8)
    requires Valid(t) && |t.partitions| <= 256
    requires iface.allowPartition && (iface.driveType == Standard || iface.driveType == M2488)
    requires partition < |t.partitions| && n < 0x80_0000
    requires AfterMarks(t.partitions[partition], 0, n).Some?
    ensures LocateToFilemark(Execute, iface, t, n, partition)
      == Step(Ok(()), Tape(t.partitions, partition, AfterMarks(t.partitions[partition], 0, n).value))
  {
    LocateBlockAllowed(iface, t, 0, partition);
    SpaceFileMarksExecutes(Tape(t.partitions, partition, 0), n);
  }

  /** A filemark locate with partitions allowed does the same as `locate_to_filemark`: it ends just past the n-th filemark of the partition. */
  lemma LocateFileMarkLands(iface: ScsiInterface, t: Tape, n: u64, partition: u8)
    requires Valid(t) && |t.partitions| <= 256
    requires iface.allowPartition && (iface.driveType == Standard || iface.driveType == M2488)
    requires partition < |t.partitions| && n < 0x80_0000
    requires AfterMarks(t.partitions[partition], 0, n).Some?
    ensures Locate(Execute, iface, t, n, partition, LocateDestType.FileMark)
      == Step(Ok(0), Tape(t.partitions, partition, AfterMarks(t.partitions[partition], 0, n).value))
  {
    LocateBlockAllowed(iface, t, 0, partition);
    SpaceFileMarksExecutes(Tape(t.partitions, partition, 0), n);
  }

  // ---------------------------------------------------------------------------
  // read_file_mark

  /** The back-up step: LOCATE to the previous block (partitions allowed), or SPACE(6) one block back. */
  function BackUpOne(exec: Device, iface: ScsiInterface, t: Tape, pos: TapePosition): Step<()>
  {
    if iface.allowPartition then
      if pos.blockNumber > 0 then
        var l := Locate(exec, iface, t, pos.blockNumber - 1, pos.partition, Block);
        Step(if l.result.Ok? then Ok(()) else Err(l.result.error), l.tape)
      else Step(Ok(()), t)
    else
      var s := Space6(exec, t, -1, 0);
      Step(if s.result.Ok? then Ok(()) else Err(s.result.error), s.tape)
  }

  /** After a read that returned data: read the position, back up one block, read the position again, report false. */
  function BackUpAfterRead(exec: Device, iface: ScsiInterface, t: Tape): Step<bool>
  {
    var pos := ReadPosition(exec, t);
    if pos.result.Err? then Step(Err(pos.result.error), pos.tape)
    else
      var back := BackUpOne(exec, iface, pos.tape, pos.result.value);
      if back.result.Err? then Step(Err(back.result.error), back.tape)
      else
        var check := ReadPosition(exec, back.tape);
        if check.result.Err? then Step(Err(check.result.error), check.tape)
        else Step(Ok(false), check.tape)
  }

  /**
   * `read_file_mark` as written: READ(6) of one block into a 64 KiB buffer.
   * The buffer is a `vec![0u8; LTO_BLOCK_SIZE]`, never empty, so only a
   * request that did not reach the drive counts as "no data"; whatever was
   * read, the tape is then backed up one block.
   */
  function ReadFileMark(exec: Device, iface: ScsiInterface, t: Tape): (s: Step<bool>)
    ensures s.result == Ok(true) <==> !exec(t, ReadOneCdb).delivered
  {
    var r := exec(t, ReadOneCdb);
    if !r.delivered then Step(Ok(true), r.after)
    else BackUpAfterRead(exec, iface, r.after)
  }

  /** `read_file_mark` as evidently intended: an empty transfer means the read met a filemark (or end of data), and only a data block is backed over. */
  function ReadFileMarkFixed(exec: Device, iface: ScsiInterface, t: Tape): (s: Step<bool>)
    ensures s.result == Ok(true) <==> !exec(t, ReadOneCdb).delivered || exec(t, ReadOneCdb).data == []
  {
    var r := exec(t, ReadOneCdb);
    if !r.delivered || r.data == [] then Step(Ok(true), r.after)
    else BackUpAfterRead(exec, iface, r.after)
  }

  /** The read probe on the drive: always delivered; it moves past the record it reads, and transfers data only from a data block. */
  lemma ReadOneExecutes(t: Tape)
    requires Valid(t)
    ensures var r := Execute(t, ReadOneCdb);
      r.delivered
      && (t.block == |Records(t)| ==> r.after == t && r.data == [])
      && (t.block < |Records(t)| ==> r.after == t.(block := t.block + 1))
      && (t.block < |Records(t)| && Records(t)[t.block].FileMark? ==> r.data == [])
      && (t.block < |Records(t)| && Records(t)[t.block].Data? ==> r.data == Records(t)[t.block].bytes[..1])
  {
    assert ReadOneCdb[2..5] == [0, 0, 1];
    assert BeValue([0, 0, 1]) == 1 by {
      assert [0, 0, 1][..2] == [0, 0];
      assert [0, 0][..1] == [0];
      assert [0][..0] == [];
    }
  }

  /** SPACE(6) one block back always moves back one record: onto a data block, or in front of a filemark (which then reports it). */
  lemma Space6BackOne(t: Tape)
    requires Valid(t) && t.block > 0
    ensures Space6(Execute, t, -1, 0).result.Ok? && Space6(Execute, t, -1, 0).tape == t.(block := t.block - 1)
  {
    var cdb := Space6Cdb(-1, 0);
    assert BeValue(cdb[2..5]) == U24_LIMIT - 1;
    var recs := Records(t);
    assert SpaceBackward(recs, t.block, 1).0 == t.block - 1;
    var r := Execute(t, cdb);
    assert r == ExecSpace6(t, cdb);
    assert r.delivered && r.after == t.(block := t.block - 1);
  }

  /** The back-up step returns to the previous block, on a standard drive in either mode. */
  lemma BackUpOneSteps(iface: ScsiInterface, t: Tape)
    requires Valid(t) && |t.partitions| <= 256 && 0 < t.block < U64_LIMIT
    requires iface.driveType == Standard || iface.driveType == M2488
    ensures BackUpOne(Execute, iface, t, PositionOf(t)) == Step(Ok(()), t.(block := t.block - 1))
  {
    var pos := PositionOf(t);
    assert pos.blockNumber == t.block && pos.partition == t.partition;
    if iface.allowPartition {
      BackUpByLocate(iface, t, pos);
    } else {
      BackUpBySpace(iface, t, pos);
    }
  }

  lemma BackUpByLocate(iface: ScsiInterface, t: Tape, pos: TapePosition)
    requires Valid(t) && |t.partitions| <= 256 && 0 < t.block
    requires iface.allowPartition && (iface.driveType == Standard || iface.driveType == M2488)
    requires pos.blockNumber == t.block && pos.partition == t.partition
    ensures BackUpOne(Execute, iface, t, pos) == Step(Ok(()), t.(block := t.block - 1))
  {
    var back: u64 := pos.blockNumber - 1;
    LocateBlockAllowed(iface, t, back, pos.partition);
    assert Tape(t.partitions, pos.partition, back) == t.(block := t.block - 1);
  }

  lemma BackUpBySpace(iface: ScsiInterface, t: Tape, pos: TapePosition)
    requires Valid(t) && 0 < t.block && !iface.allowPartition
    ensures BackUpOne(Execute, iface, t, pos) == Step(Ok(()), t.(block := t.block - 1))
  {
    Space6BackOne(t);
  }

  /** Backing up after a read: two position reads around the back-up step, which returns to the previous block. */
  lemma BackUpAfterReadSteps(iface: ScsiInterface, t: Tape)
    requires Valid(t) && |t.partitions| <= 256 && 0 < t.block < U64_LIMIT
    requires iface.driveType == Standard || iface.driveType == M2488
    ensures BackUpAfterRead(Execute, iface, t) == Step(Ok(false), t.(block := t.block - 1))
  {
    ReadPositionReports(t);
    BackUpOneSteps(iface, t);
    ReadPositionReports(t.(block := t.block - 1));
  }

  /** Over a data block both versions report false and leave the tape where it was. */
  lemma ReadFileMarkOnData(iface: ScsiInterface, t: Tape)
    requires Valid(t) && |t.partitions| <= 256 && t.block < |Records(t)| && t.block + 1 < U64_LIMIT
    requires Records(t)[t.block].Data?
    requires iface.driveType == Standard || iface.driveType == M2488
    ensures ReadFileMark(Execute, iface, t) == Step(Ok(false), t)
    ensures ReadFileMarkFixed(Execute, iface, t) == Step(Ok(false), t)
  {
    ReadOneExecutes(t);
    BackUpAfterReadSteps(iface, t.(block := t.block + 1));
  }

  /** As written, a filemark under the head is reported as "no filemark", and the tape is put back in front of it. */
  lemma ReadFileMarkMissesFileMark(iface: ScsiInterface, t: Tape)
    requires Valid(t) && |t.partitions| <= 256 && t.block < |Records(t)| && t.block + 1 < U64_LIMIT
    requires Records(t)[t.block].FileMark?
    requires iface.driveType == Standard || iface.driveType == M2488
    ensures ReadFileMark(Execute, iface, t) == Step(Ok(false), t)
  {
    ReadOneExecutes(t);
    BackUpAfterReadSteps(iface, t.(block := t.block + 1));
  }

  /** As written, at end of data the probe backs the tape up one block. */
  lemma ReadFileMarkAtEndMoves(iface: ScsiInterface, t: Tape)
    requires Valid(t) && |t.partitions| <= 256 && 0 < t.block == |Records(t)| < U64_LIMIT
    requires iface.driveType == Standard || iface.driveType == M2488
    ensures ReadFileMark(Execute, iface, t) == Step(Ok(false), t.(block := t.block - 1))
  {
    ReadOneExecutes(t);
    BackUpAfterReadSteps(iface, t);
  }

  /** Corrected, the probe skips a filemark and reports it, and at end of data reports true without moving. */
  lemma ReadFileMarkFixedSkips(iface: ScsiInterface, t: Tape)
    requires Valid(t)
    ensures t.block < |Records(t)| && Records(t)[t.block].FileMark? ==>
      ReadFileMarkFixed(Execute, iface, t) == Step(Ok(true), t.(block := t.block + 1))
    ensures t.block == |Records(t)| ==> ReadFileMarkFixed(Execute, iface, t) == Step(Ok(true), t)
  {
    ReadOneExecutes(t);
  }

  // ---------------------------------------------------------------------------
  // locate_block and the LOCATE(10) layout

  /**
   * As written, `locate_block` sets CP (byte 1 bit 1) and leaves the
   * partition field (byte 8) zero and the address one byte too far right
   * (bytes 4-7 instead of 3-6): the drive goes to partition 0, block
   * `block >> 8`.
   */
  lemma LocateBlockAsWritten(t: Tape, partition: u8, block: u64)
    requires Valid(t) && (block / 256) % U24_LIMIT <= |t.partitions[0]|
    ensures LocateBlock(Execute, t, partition, block) == Step(Ok(()), Tape(t.partitions, 0, (block / 256) % U24_LIMIT))
  {
    var cdb := LocateBlockCdb(partition, block);
    LocateBlockCdbFields(partition, block);
    assert Execute(t, cdb) == ExecLocate10(t, cdb);
  }

  /** How a drive reads `locate_block`'s CDB: CP set, partition 0, address `block >> 8` (24 bits). */
  lemma LocateBlockCdbFields(partition: u8, block: u64)
    ensures var cdb := LocateBlockCdb(partition, block);
      (cdb[1] / 2) % 2 == 1 && cdb[8] == 0 && BeValue(cdb[3..7]) == (block / 256) % U24_LIMIT
  {
    var cdb := LocateBlockCdb(partition, block);
    var bytes := BeBytes(block, 4);
    assert cdb[3..7] == [0] + bytes[..3];
    assert bytes[..3] == BeBytes(block / 256, 3);
    BeValueLeadingZero(bytes[..3]);
    BeRoundTrip(block / 256, 3);
    Pow256Values();
  }

  /** The call `locate_block(1, 38)` of the data partition reader lands on block 0 of partition 0. */
  lemma LocateBlockPartitionOneExample(t: Tape)
    requires Valid(t) && |t.partitions| >= 2
    ensures LocateBlock(Execute, t, 1, 38) == Step(Ok(()), Tape(t.partitions, 0, 0))
  {
    assert (38 / 256) % U24_LIMIT == 0;
    LocateBlockAsWritten(t, 1, 38);
  }

  /** LOCATE(10) as SSC-3 lays it out: CP in byte 1, the address in bytes 3-6, the partition in byte 8. */
  function LocateBlockFixedCdb(partition: u8, block: u64): (cdb: seq<byte>)
    ensures |cdb| == 10 && cdb[0] == 0x2B && (cdb[1] / 2) % 2 == 1 && cdb[8] == partition
    ensures BeValue(cdb[3..7]) == block % U32_LIMIT
  {
    var cdb := [0x2B, 0x02, 0] + BeBytes(block, 4) + [0, partition, 0];
    assert cdb[3..7] == BeBytes(block, 4);
    BeRoundTrip(block, 4);
    Pow256Values();
    cdb
  }

  /** `locate_block` with the corrected CDB. */
  function LocateBlockFixed(exec: Device, t: Tape, partition: u8, block: u64): Step<()>
  {
    var r := exec(t, LocateBlockFixedCdb(partition, block));
    if r.delivered then Step(Ok(()), r.after) else Step(Fail(Scsi, "Locate operation failed"), r.after)
  }

  /** Corrected, the locate lands on the requested block (low 32 bits) of the requested partition. */
  lemma LocateBlockFixedLands(t: Tape, partition: u8, block: u64)
    requires Valid(t) && partition < |t.partitions| && block % U32_LIMIT <= |t.partitions[partition]|
    ensures LocateBlockFixed(Execute, t, partition, block) == Step(Ok(()), Tape(t.partitions, partition, block % U32_LIMIT))
  {
    var cdb := LocateBlockFixedCdb(partition, block);
    assert Execute(t, cdb) == ExecLocate10(t, cdb);
  }

  // ---------------------------------------------------------------------------
  // The LOCATE(10) retry

  lemma Locate16LowAddress(dest: LocateDestType, cp: bool, partition: u8, address: u64)
    ensures Locate16Cdb(dest, cp, partition, address)[8..12] == BeBytes(address, 4)
  {
    var cdb := Locate16Cdb(dest, cp, partition, address);
    assert cdb[4..12] == BeBytes(address, 8);
    Be8Bytes(address);
    Be4Bytes(address);
  }

  /**
   * As written, the retry keeps the low 32 address bits but turns the CP
   * bit into bit 4 and drops the partition and the destination type: the
   * retried command is a block locate within the current partition.
   */
  lemma RetryDropsPartition(t: Tape, dest: LocateDestType, cp: bool, partition: u8, address: u64)
    requires Valid(t)
    ensures Execute(t, RetryCdb(Locate16Cdb(dest, cp, partition, address))) == ExecLocate(t, 0, false, 0, address % U32_LIMIT)
  {
    var cdb := RetryCdb(Locate16Cdb(dest, cp, partition, address));
    RetryFields(dest, cp, partition, address);
    assert Execute(t, cdb) == ExecLocate10(t, cdb);
  }

  lemma RetryFields(dest: LocateDestType, cp: bool, partition: u8, address: u64)
    ensures var cdb := RetryCdb(Locate16Cdb(dest, cp, partition, address));
      (cdb[1] / 2) % 2 == 0 && cdb[8] == 0 && BeValue(cdb[3..7]) == address % U32_LIMIT
  {
    var orig := Locate16Cdb(dest, cp, partition, address);
    assert BeValue(orig[8..12]) == address % U32_LIMIT by {
      Locate16LowAddress(dest, cp, partition, address);
      FieldValue(address, 4, U32_LIMIT);
    }
    assert orig[1] % 8 == if cp then 2 else 0;
    assert (((orig[1] % 8) * 8) / 2) % 2 == 0;
  }

  /** The retry CDB as evidently intended: the CP bit and the partition carried over to their LOCATE(10) places. */
  function RetryCdbFixed(orig: seq<byte>): (cdb: seq<byte>)
    requires |orig| >= 12
    ensures |cdb| == 10 && cdb[0] == 0x2B && ((cdb[1] / 2) % 2 == 1 <==> (orig[1] / 2) % 2 == 1) && cdb[8] == orig[3]
    ensures BeValue(cdb[3..7]) == BeValue(orig[8..12])
  {
    var address := U32Be(orig, 8);
    var cdb := [0x2B, ((orig[1] / 2) % 2) * 2, 0] + BeBytes(address, 4) + [0, orig[3], 0];
    assert BeValue(cdb[3..7]) == address by {
      assert cdb[3..7] == BeBytes(address, 4);
      Be4ReadsBack(address);
    }
    cdb
  }

  /** Corrected, the retry of a block LOCATE(16) with a 32-bit address does exactly what the original asked. */
  lemma RetryFixedAgrees(t: Tape, cp: bool, partition: u8, address: u64)
    requires Valid(t) && address < U32_LIMIT
    ensures Execute(t, RetryCdbFixed(Locate16Cdb(Block, cp, partition, address))) == Execute(t, Locate16Cdb(Block, cp, partition, address))
  {
    var orig := Locate16Cdb(Block, cp, partition, address);
    var cdb := RetryCdbFixed(orig);
    RetryFixedFields(cp, partition, address);
    assert Execute(t, cdb) == ExecLocate10(t, cdb);
    Locate16Executes(t, Block, cp, partition, address);
  }

  lemma RetryFixedFields(cp: bool, partition: u8, address: u64)
    requires address < U32_LIMIT
    ensures var cdb := RetryCdbFixed(Locate16Cdb(Block, cp, partition, address));
      ((cdb[1] / 2) % 2 == 1 <==> cp) && cdb[8] == partition && BeValue(cdb[3..7]) == address
  {
    Locate16LowAddress(Block, cp, partition, address);
    RetryFixedAddress(Locate16Cdb(Block, cp, partition, address), address);
  }

  lemma RetryFixedAddress(orig: seq<byte>, address: u64)
    requires |orig| == 16 && orig[8..12] == BeBytes(address, 4) && address < U32_LIMIT
    ensures BeValue(RetryCdbFixed(orig)[3..7]) == address
  {
    assert BeValue(orig[8..12]) == address by {
      FieldValue(address, 4, U32_LIMIT);
    }
    var cdb := RetryCdbFixed(orig);
    assert BeValue(cdb[3..7]) == BeValue(orig[8..12]);
  }
}

// An abstract tape drive that executes command descriptor blocks. It stands
// for the device behind the Windows SCSI pass-through call, holding what
// the source never sees directly: the records of each partition and the
// current position. Commands follow the SCSI Stream Commands (SSC-3)
// layouts for READ(6), SPACE(6), LOCATE(10), LOCATE(16) and READ POSITION
// (long form). The reply says whether the request reached the drive (what
// `scsi_io_control` returns), the data transferred, the 64-byte sense buffer
// (all zero when the command completed with GOOD status) and the state
// afterwards.

module TapeDevice {
  import opened Wrappers
  import opened Bytes

  /** SENSE_INFO_LEN (scsi/constants.rs). */
  const SENSE_INFO_LEN: nat := 64

  // Sense keys and flags of byte 2 of fixed-format sense data.
  const NO_SENSE: byte := 0x00
  const MEDIUM_ERROR: byte := 0x03
  const ILLEGAL_REQUEST: byte := 0x05
  const BLANK_CHECK: byte := 0x08
  const ILI: byte := 0x20
  const FILEMARK_BIT: byte := 0x80

  /** A logical object on tape: a data block or a filemark. */
  datatype Record = Data(bytes: seq<byte>) | FileMark

  datatype Tape = Tape(partitions: seq<seq<Record>>, partition: nat, block: nat)

  /** The position lies in an existing partition, at most at its end of data; data blocks are not empty. */
  predicate Valid(t: Tape)
  {
    && t.partition < |t.partitions|
    && t.block <= |t.partitions[t.partition]|
    && NoEmptyBlocks(t.partitions)
  }

  predicate NoEmptyBlocks(partitions: seq<seq<Record>>)
  {
    forall p, i :: 0 <= p < |partitions| && 0 <= i < |partitions[p]| && partitions[p][i].Data? ==> |partitions[p][i].bytes| > 0
  }

  function Records(t: Tape): seq<Record>
    requires t.partition < |t.partitions|
  {
    t.partitions[t.partition]
  }

  /** The number of filemarks among the first n records: the logical file number at n. */
  function MarksBefore(recs: seq<Record>, n: nat): (m: nat)
    requires n <= |recs|
    ensures m <= n
  {
    if n == 0 then 0 else MarksBefore(recs, n - 1) + (if recs[n - 1].FileMark? then 1 else 0)
  }

  /** The position just past the k-th filemark at or after i; k = 0 is i itself. */
  function AfterMarks(recs: seq<Record>, i: nat, k: nat): (r: Option<nat>)
    requires i <= |recs|
    ensures r.Some? ==> i <= r.value <= |recs|
    decreases |recs| - i
  {
    if k == 0 then Some(i)
    else if i == |recs| then None
    else AfterMarks(recs, i + 1, if recs[i].FileMark? then k - 1 else k)
  }

  /** How a SPACE over blocks ends: done, stopped by a filemark, at end of data or at the beginning. */
  datatype SpaceEnd = Done | HitMark | HitEnd | HitStart

  /** Space forward over n blocks from i: a filemark stops the motion just after it. */
  function SpaceForward(recs: seq<Record>, i: nat, n: nat): (r: (nat, SpaceEnd))
    requires i <= |recs|
    ensures i <= r.0 <= |recs|
    decreases n
  {
    if n == 0 then (i, Done)
    else if i == |recs| then (i, HitEnd)
    else if recs[i].FileMark? then (i + 1, HitMark)
    else SpaceForward(recs, i + 1, n - 1)
  }

  /** Space backward over n blocks from i: a filemark stops the motion just before it. */
  function SpaceBackward(recs: seq<Record>, i: nat, n: nat): (r: (nat, SpaceEnd))
    requires i <= |recs|
    ensures r.0 <= i
    decreases n
  {
    if n == 0 then (i, Done)
    else if i == 0 then (0, HitStart)
    else if recs[i - 1].FileMark? then (i - 1, HitMark)
    else SpaceBackward(recs, i - 1, n - 1)
  }

  datatype Reply = Reply(delivered: bool, data: seq<byte>, sense: seq<byte>, after: Tape)

  function Zeros(n: nat): (z: seq<byte>)
    ensures |z| == n && forall i :: 0 <= i < n ==> z[i] == 0
  {
    seq(n, i => 0)
  }

  const ZeroSense: seq<byte> := Zeros(SENSE_INFO_LEN)

  /** Fixed-format sense data: the key and flags in byte 2, the information field in bytes 3-6, ASC and ASCQ in bytes 12 and 13. */
  function Sense(flags: byte, asc: byte, ascq: byte, info: int): (s: seq<byte>)
    ensures |s| == SENSE_INFO_LEN
    ensures s[2] == flags && s[12] == asc && s[13] == ascq
    ensures BeValue(s[3..7]) == info % U32_LIMIT
  {
    var s := [0x70, 0, flags] + BeBytes(info, 4) + [10, 0, 0, 0, 0, asc, ascq] + Zeros(50);
    assert s[3..7] == BeBytes(info, 4);
    BeRoundTrip(info, 4);
    Pow256Values();
    s
  }

  function Good(t: Tape, data: seq<byte>): (r: Reply)
    ensures r.delivered && r.after == t && r.data == data && r.sense == ZeroSense
  {
    Reply(true, data, ZeroSense, t)
  }

  function Check(t: Tape, flags: byte, asc: byte, ascq: byte, info: int, data: seq<byte>): (r: Reply)
    ensures r.delivered && r.after == t && r.data == data && |r.sense| == SENSE_INFO_LEN
    ensures r.sense[2] == flags && r.sense[12] == asc && r.sense[13] == ascq
  {
    Reply(true, data, Sense(flags, asc, ascq, info), t)
  }

  /** An invalid field in the CDB: nothing moves. */
  function Refuse(t: Tape): (r: Reply)
    ensures r.delivered && r.after == t && r.data == [] && |r.sense| == SENSE_INFO_LEN
    ensures r.sense[2] == ILLEGAL_REQUEST && r.sense[12] == 0x24 && r.sense[13] == 0
  {
    Check(t, ILLEGAL_REQUEST, 0x24, 0x00, 0, [])
  }

  /** READ(6), variable-length mode: one record, at most the transfer length of bytes 2-4. */
  function ExecRead6(t: Tape, cdb: seq<byte>): (r: Reply)
    requires Valid(t) && |cdb| >= 6
    ensures r.after.partitions == t.partitions && Valid(r.after) && |r.sense| == SENSE_INFO_LEN
  {
    var want := BeValue(cdb[2..5]);
    var recs := Records(t);
    var next := t.(block := t.block + 1);
    if want == 0 then Good(t, [])
    else if t.block == |recs| then Check(t, BLANK_CHECK, 0x00, 0x05, want, [])
    else match recs[t.block]
      case FileMark => Check(next, FILEMARK_BIT + NO_SENSE, 0x00, 0x01, want, [])
      case Data(d) =>
        if |d| == want then Good(next, d)
        else if |d| < want then Check(next, ILI + NO_SENSE, 0x00, 0x00, want - |d|, d)
        else Check(next, ILI + NO_SENSE, 0x00, 0x00, want - |d|, d[..want])
  }

  /** The 24-bit two's complement count of SPACE(6), bytes 2-4. */
  function Signed24(raw: nat): int
  {
    if raw >= 0x80_0000 then raw - 0x100_0000 else raw
  }

  /** SPACE(6): blocks (code 0), filemarks forward (code 1) or to end of data (code 3). */
  function ExecSpace6(t: Tape, cdb: seq<byte>): (r: Reply)
    requires Valid(t) && |cdb| >= 6
    ensures r.after.partitions == t.partitions && Valid(r.after) && |r.sense| == SENSE_INFO_LEN
  {
    var code := cdb[1] % 8;
    var count := Signed24(BeValue(cdb[2..5]));
    var recs := Records(t);
    if code == 0 then
      var motion := if count >= 0 then SpaceForward(recs, t.block, count) else SpaceBackward(recs, t.block, -count);
      var moved := t.(block := motion.0);
      match motion.1
      case Done => Good(moved, [])
      case HitMark => Check(moved, FILEMARK_BIT + NO_SENSE, 0x00, 0x01, 0, [])
      case HitEnd => Check(moved, BLANK_CHECK, 0x00, 0x05, 0, [])
      case HitStart => Check(moved, FILEMARK_BIT + NO_SENSE, 0x00, 0x04, 0, [])
    else if code == 1 && count >= 0 then
      match AfterMarks(recs, t.block, count)
      case Some(pos) => Good(t.(block := pos), [])
      case None => Check(t.(block := |recs|), BLANK_CHECK, 0x00, 0x05, 0, [])
    else if code == 3 then Good(t.(block := |recs|), [])
    else Refuse(t)
  }

  /**
   * The motion of LOCATE(10) and LOCATE(16): to an object (type 0), past a
   * number of filemarks from the start (type 1) or to end of data (type 3),
   * in the partition named when CP is set and in the current one otherwise.
   */
  function ExecLocate(t: Tape, dest: nat, cp: bool, partition: nat, address: nat): (r: Reply)
    requires Valid(t)
    ensures r.after.partitions == t.partitions && Valid(r.after) && |r.sense| == SENSE_INFO_LEN
  {
    LocateIn(t, dest, if cp then partition else t.partition, address)
  }

  /** The locate motion once the target partition is known. */
  function LocateIn(t: Tape, dest: nat, target: nat, address: nat): (r: Reply)
    requires Valid(t)
    ensures r.after.partitions == t.partitions && Valid(r.after) && |r.sense| == SENSE_INFO_LEN
  {
    if target >= |t.partitions| then Refuse(t)
    else
      var recs := t.partitions[target];
      var atEnd := Tape(t.partitions, target, |recs|);
      if dest == 0 then
        if address <= |recs| then Good(Tape(t.partitions, target, address), [])
        else Check(atEnd, BLANK_CHECK, 0x00, 0x05, 0, [])
      else if dest == 1 then
        match AfterMarks(recs, 0, address)
        case Some(pos) => Good(Tape(t.partitions, target, pos), [])
        case None => Check(atEnd, BLANK_CHECK, 0x00, 0x05, 0, [])
      else if dest == 3 then Good(atEnd, [])
      else Refuse(t)
  }

  /** LOCATE(10): CP is bit 1 of byte 1, the address bytes 3-6, the partition byte 8. */
  function ExecLocate10(t: Tape, cdb: seq<byte>): (r: Reply)
    requires Valid(t) && |cdb| >= 10
    ensures r.after.partitions == t.partitions && Valid(r.after) && |r.sense| == SENSE_INFO_LEN
  {
    ExecLocate(t, 0, (cdb[1] / 2) % 2 == 1, cdb[8], BeValue(cdb[3..7]))
  }

  /** LOCATE(16): the destination type is bits 3-5 of byte 1, CP bit 1, the partition byte 3, the address bytes 4-11. */
  function ExecLocate16(t: Tape, cdb: seq<byte>): (r: Reply)
    requires Valid(t) && |cdb| >= 16
    ensures r.after.partitions == t.partitions && Valid(r.after) && |r.sense| == SENSE_INFO_LEN
  {
    ExecLocate(t, (cdb[1] / 8) % 8, (cdb[1] / 2) % 2 == 1, cdb[3], BeValue(cdb[4..12]))
  }

  /** The 32 bytes of a long-form READ POSITION reply; no flags are reported. */
  function PositionData(t: Tape): (d: seq<byte>)
    requires Valid(t)
    ensures |d| == 32
  {
    [0, 0, 0, 0] + BeBytes(t.partition, 4) + BeBytes(t.block, 8) + BeBytes(MarksBefore(Records(t), t.block), 8) + BeBytes(0, 8)
  }

  /** Where the fields of the position reply are. */
  lemma PositionDataFields(t: Tape)
    requires Valid(t)
    ensures var d := PositionData(t);
      && d[0] == 0
      && d[4..8] == BeBytes(t.partition, 4) && d[8..16] == BeBytes(t.block, 8)
      && d[16..24] == BeBytes(MarksBefore(Records(t), t.block), 8) && d[24..32] == BeBytes(0, 8)
  {
    var head, p, b := [0, 0, 0, 0], BeBytes(t.partition, 4), BeBytes(t.block, 8);
    var m, z := BeBytes(MarksBefore(Records(t), t.block), 8), BeBytes(0, 8);
    var d := PositionData(t);
    assert d == head + p + b + m + z;
    MidSlice(head, p, b + m + z);
    MidSlice(head + p, b, m + z);
    MidSlice(head + p + b, m, z);
    MidSlice(head + p + b + m, z, []);
  }

  /** The middle part of a three-part concatenation. */
  lemma MidSlice(x: seq<byte>, y: seq<byte>, z: seq<byte>)
    ensures (x + y + z)[|x|..|x| + |y|] == y
  {
  }

  /** What the drive does with a CDB: the command is in byte 0. */
  function Execute(t: Tape, cdb: seq<byte>): (r: Reply)
    ensures Valid(t) ==> Valid(r.after) && r.after.partitions == t.partitions
    ensures |r.sense| == SENSE_INFO_LEN
  {
    if !Valid(t) || |cdb| == 0 then Refuse(t)
    else if cdb[0] == 0x08 && |cdb| >= 6 then ExecRead6(t, cdb)
    else if cdb[0] == 0x11 && |cdb| >= 6 then ExecSpace6(t, cdb)
    else if cdb[0] == 0x2B && |cdb| >= 10 then ExecLocate10(t, cdb)
    else if cdb[0] == 0x92 && |cdb| >= 16 then ExecLocate16(t, cdb)
    else if cdb[0] == 0x34 && |cdb| >= 10 && cdb[1] % 32 == 6 then Good(t, PositionData(t))
    else Check(t, ILLEGAL_REQUEST, 0x20, 0x00, 0, [])
  }
}

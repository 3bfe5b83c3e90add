// Fixed-format sense data (SPC-4 section 4.5.3) as scsi/sense.rs reads it:
// the sense key in the low nibble of byte 2, the information field in bytes
// 3-6, ASC and ASCQ in bytes 12 and 13. Two readings: a text for device
// readiness, and the outcome of a READ (bytes and blocks transferred,
// filemark seen).

module ScsiSense {
  import opened Wrappers
  import opened Bytes
  import opened Strings

  /** The standard LTO block size (scsi/constants.rs). */
  const LTO_BLOCK_SIZE: nat := 65536

  function SenseKey(sense: seq<byte>): (k: nat)
    requires |sense| >= 3
    ensures k < 16
  {
    sense[2] % 16
  }

  /** ASC, or 0 when the sense data stops before byte 12. */
  function AscOf(sense: seq<byte>): byte
  {
    if |sense| > 12 then sense[12] else 0
  }

  /** ASCQ, or 0 when the sense data stops before byte 13. */
  function AscqOf(sense: seq<byte>): byte
  {
    if |sense| > 13 then sense[13] else 0
  }

  const DefaultPrefix: string := "Device not ready - Sense Key: 0x"

  /** The fallback text, with the three codes in two-digit upper-case hexadecimal. */
  function NotReadyText(key: nat, asc: byte, ascq: byte): string
    requires key < 16
  {
    DefaultPrefix + Hex2(key) + ", ASC/ASCQ: 0x" + Hex2(asc) + "/0x" + Hex2(ascq)
  }

  /** `parse_sense_data`: the readiness text for a Test Unit Ready reply. */
  function ParseSenseData(sense: seq<byte>): string
  {
    if |sense| < 3 then "Invalid sense data (too short)"
    else
      var key := SenseKey(sense);
      var asc := AscOf(sense);
      var ascq := AscqOf(sense);
      if key == 0x00 then "Device ready"
      else if key == 0x02 && asc == 0x3A && ascq == 0x00 then "No tape loaded"
      else if key == 0x02 && asc == 0x04 && ascq == 0x00 then "Drive not ready"
      else if key == 0x02 && asc == 0x3B && ascq == 0x0D then "Medium not present"
      else if key == 0x04 && asc == 0x00 && ascq == 0x00 then "Drive not ready - becoming ready"
      else if key == 0x06 && asc == 0x28 && ascq == 0x00 then "Unit attention - not ready to ready transition"
      else NotReadyText(key, asc, ascq)
  }

  /** The fallback text carries the three codes at fixed places, and they read back. */
  lemma NotReadyTextFields(key: nat, asc: byte, ascq: byte)
    requires key < 16
    ensures var t := NotReadyText(key, asc, ascq);
      |t| == 55 && StartsWith(t, DefaultPrefix)
      && Hex2Value(t[32..34]) == Some(key) && Hex2Value(t[48..50]) == Some(asc as nat) && Hex2Value(t[53..55]) == Some(ascq as nat)
  {
    var t := NotReadyText(key, asc, ascq);
    assert t[32..34] == Hex2(key);
    assert t[48..50] == Hex2(asc);
    assert t[53..55] == Hex2(ascq);
    Hex2RoundTrip(key);
    Hex2RoundTrip(asc);
    Hex2RoundTrip(ascq);
  }

  /** "No tape loaded" is reported exactly for sense key 2 with ASC 0x3A and ASCQ 0 (a missing byte 13 reads as 0). */
  lemma NoTapeLoadedIff(sense: seq<byte>)
    ensures ParseSenseData(sense) == "No tape loaded" <==>
      |sense| > 12 && sense[2] % 16 == 2 && sense[12] == 0x3A && (|sense| == 13 || sense[13] == 0)
  {
    if |sense| >= 3 && SenseKey(sense) != 0 {
      var key := SenseKey(sense);
      NotReadyTextFields(key, AscOf(sense), AscqOf(sense));
      assert |"No tape loaded"| == 14;
    }
  }

  /** Sense key 0 always reads as ready, whatever ASC and ASCQ say; short data is "too short". */
  lemma ReadyAndShort(sense: seq<byte>)
    ensures |sense| < 3 ==> ParseSenseData(sense) == "Invalid sense data (too short)"
    ensures |sense| >= 3 && sense[2] % 16 == 0 ==> ParseSenseData(sense) == "Device ready"
    ensures |sense| >= 3 && sense[2] % 16 != 0 ==> ParseSenseData(sense) != "Device ready"
  {
    if |sense| >= 3 && SenseKey(sense) != 0 {
      NotReadyTextFields(SenseKey(sense), AscOf(sense), AscqOf(sense));
    }
  }

  // ---------------------------------------------------------------------------
  // analyze_read_sense_data

  /** The information field, bytes 3-6, as a big-endian signed 32-bit integer. */
  function DiffBytes(sense: seq<byte>): (d: i32)
    requires |sense| >= 7
    ensures (d - BeValue(sense[3..7])) % U32_LIMIT == 0
  {
    AsI32(BeValue(sense[3..7]))
  }

  /**
   * The bytes actually transferred, in the source's i32 arithmetic (which
   * wraps in a release build): the request when the residue is negative
   * (an overlength block), else the request less the residue, at least 0.
   */
  function BytesRead(requested: u32, diff: i32): (r: u32)
    ensures requested < 0x8000_0000 && requested - diff < 0x8000_0000 ==>
              r as int == (if diff < 0 then requested as int else if requested - diff < 0 then 0 else requested - diff)
              && r <= requested
  {
    assert requested < 0x8000_0000 && requested - diff < 0x8000_0000 ==>
             AsI32(requested) == requested && AsI32(requested - diff) == requested - diff by {
      if requested < 0x8000_0000 && requested - diff < 0x8000_0000 {
        AsI32InRange(requested);
        AsI32InRange(requested - diff);
      }
    }
    var req := AsI32(requested);
    if diff < 0 then
      var more := AsI32(req - diff);
      AsU32(if req < more then req else more)
    else
      var less := AsI32(req - diff);
      AsU32(if 0 > less then 0 else less)
  }

  /** Blocks for a byte count: ceil(bytes / 65536). */
  function BlocksFor(bytes: u32): (blocks: u32)
    ensures blocks as int * LTO_BLOCK_SIZE >= bytes
    ensures blocks > 0 ==> (blocks as int - 1) * LTO_BLOCK_SIZE < bytes
  {
    if bytes > 0 then bytes / LTO_BLOCK_SIZE + (if bytes % LTO_BLOCK_SIZE > 0 then 1 else 0) else 0
  }

  /** Rust `((asc as u16) << 8) | (ascq as u16)`. */
  function AddKey(asc: byte, ascq: byte): (k: nat)
    ensures k < U16_LIMIT && k / 256 == asc && k % 256 == ascq
  {
    asc * 256 + ascq
  }

  /** The filemark verdict: an additional sense code other than 0000h and 0004h, or sense key 0 or 1, or (3, 00h, 01h). */
  predicate FileMarkSeen(key: nat, asc: byte, ascq: byte)
  {
    var addKey := AddKey(asc, ascq);
    (addKey >= 1 && addKey != 4) || key == 0x00 || key == 0x01 || (key == 0x03 && asc == 0x00 && ascq == 0x01)
  }

  /** `analyze_read_sense_data`: (blocks read, filemark seen); data shorter than 18 bytes says nothing. */
  function AnalyzeReadSense(sense: seq<byte>, requested: u32): (r: Result<(u32, bool)>)
    ensures r.Ok?
    ensures |sense| < 18 ==> r == Ok((0, false))
    ensures |sense| >= 18 ==>
      (r.value.1 <==> !(sense[12] == 0 && (sense[13] == 0 || sense[13] == 4)) || SenseKey(sense) <= 1)
  {
    if |sense| < 18 then Ok((0, false))
    else
      var key := SenseKey(sense);
      FileMarkIff(key, sense[12], sense[13]);
      var diff := DiffBytes(sense);
      var bytes := BytesRead(requested, diff);
      Ok((BlocksFor(bytes), FileMarkSeen(key, sense[12], sense[13])))
  }

  /**
   * The filemark verdict in plain terms: any ASC/ASCQ pair but (00h, 00h)
   * and (00h, 04h), or sense key 0 or 1. The explicit (3, 00h, 01h) case
   * is already covered by its ASC/ASCQ pair.
   */
  lemma FileMarkIff(key: nat, asc: byte, ascq: byte)
    ensures FileMarkSeen(key, asc, ascq) <==>
      !(asc == 0 && (ascq == 0 || ascq == 4)) || key == 0 || key == 1
  {
    var k := AddKey(asc, ascq);
    assert k == 0 <==> asc == 0 && ascq == 0;
    assert k == 4 <==> asc == 0 && ascq == 4;
  }

  /** The blocks reported for a read cover the bytes transferred, and a read without wrap-around never reports more than requested. */
  lemma AnalyzeReadSenseBlocks(sense: seq<byte>, requested: u32)
    requires |sense| >= 18
    requires requested < 0x8000_0000 && requested - DiffBytes(sense) < 0x8000_0000
    ensures var blocks := AnalyzeReadSense(sense, requested).value.0;
      blocks as int * LTO_BLOCK_SIZE >= BytesRead(requested, DiffBytes(sense))
      && blocks as int <= (requested + LTO_BLOCK_SIZE - 1) / LTO_BLOCK_SIZE
  {
    var bytes := BytesRead(requested, DiffBytes(sense));
    var blocks := BlocksFor(bytes);
    if blocks > 0 {
      assert (blocks as int - 1) * LTO_BLOCK_SIZE < requested;
      assert blocks as int * LTO_BLOCK_SIZE < requested + LTO_BLOCK_SIZE;
    }
  }
}

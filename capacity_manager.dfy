// The LOG SENSE tape-capacity page parser of tape_ops/capacity_manager.rs
// (`CapacityPageParser`): a walk over the page's parameter entries, each a
// four-byte header (parameter code in bytes 0-1, parameter length in byte 3)
// followed by its value, looking for one parameter code. The parser never
// fails: every irregular page reads as capacity 0.

module CapacityManager {
  import opened Bytes

  /** The capacity page as `CapacityPageParser::new` keeps it. */
  datatype CapacityPageParser = CapacityPageParser(pageData: seq<byte>)

  /** Where the parameter entries start: after the page code and the page length. */
  const ENTRIES_START: nat := 4

  /** Parameter code of the remaining capacity of a partition: partition + 1 (u8 arithmetic). */
  function RemainingCode(partition: u8): u8
  {
    AsU8(partition + 1)
  }

  /** Parameter code of the maximum capacity of a partition: partition + 3 (u8 arithmetic). */
  function MaximumCode(partition: u8): u8
  {
    AsU8(partition + 3)
  }

  /**
   * The value of the entry whose header starts at `offset`. When the value
   * runs past the end of the page, four available bytes give a u32 and
   * fewer give 0. Otherwise a length of at least 8 gives a big-endian u64, a
   * length of 4 to 7 a big-endian u32, and a shorter one 0.
   */
  function EntryValue(data: seq<byte>, offset: nat): (r: u64)
    requires offset + 4 <= |data|
    ensures var start, len := offset + 4, data[offset + 3];
      if start + len > |data| then
        r == (if |data| - start >= 4 then BeValue(data[start..start + 4]) else 0)
      else if len >= 8 then r == BeValue(data[start..start + 8])
      else if len >= 4 then r == BeValue(data[start..start + 4])
      else r == 0
  {
    var start := offset + 4;
    var len := data[offset + 3] as nat;
    if start + len > |data| then
      if |data| - start >= 4 then U32Be(data, start) else 0
    else if len >= 8 then U64Be(data, start)
    else if len >= 4 then U32Be(data, start)
    else 0
  }

  /**
   * The walk of `extract_capacity_value` from `offset`: it runs while a whole
   * entry header fits in the buffer and `offset` is inside the declared page
   * length, stops at the first entry with the wanted code, and gives up when
   * the next entry would start past the end of the buffer.
   */
  function ScanParameters(data: seq<byte>, pageLength: nat, code: nat, offset: nat): (r: u64)
    decreases |data| - offset
  {
    if !(offset + 4 <= |data| && offset < ENTRIES_START + pageLength) then 0
    else if U16Be(data, offset) == code then EntryValue(data, offset)
    else if offset + 4 + data[offset + 3] > |data| then 0
    else ScanParameters(data, pageLength, code, offset + 4 + data[offset + 3])
  }

  /** `extract_capacity_value`: pages shorter than 4 bytes read as 0. */
  function CapacityValue(data: seq<byte>, code: u8): (r: u64)
    ensures |data| < 4 ==> r == 0
  {
    if |data| < 4 then 0 else ScanParameters(data, U16Be(data, 2), code, ENTRIES_START)
  }

  /** `get_remaining_capacity`. */
  function RemainingCapacity(p: CapacityPageParser, partition: u8): u64
  {
    CapacityValue(p.pageData, RemainingCode(partition))
  }

  /** `get_maximum_capacity`. */
  function MaximumCapacity(p: CapacityPageParser, partition: u8): u64
  {
    CapacityValue(p.pageData, MaximumCode(partition))
  }

  /** `extract_capacity_value` as the source writes it: a while loop advancing `offset`. */
  method ExtractCapacityValue(p: CapacityPageParser, code: u8) returns (capacity: u64)
    ensures capacity == CapacityValue(p.pageData, code)
  {
    var data := p.pageData;
    if |data| < 4 {
      return 0;
    }
    var pageLength := (data[2] as nat) * 256 + (data[3] as nat);
    var offset := 4;
    while offset + 4 <= |data| && offset < 4 + pageLength
      invariant ScanParameters(data, pageLength, code, offset) == CapacityValue(data, code)
      decreases |data| - offset
    {
      var currentCode := (data[offset] as nat) * 256 + (data[offset + 1] as nat);
      var paramLength := data[offset + 3] as nat;
      if currentCode == code {
        var dataStart := offset + 4;
        if dataStart + paramLength > |data| {
          if |data| - dataStart >= 4 {
            return U32Be(data, dataStart);
          }
          return 0;
        }
        if paramLength >= 8 {
          capacity := U64Be(data, dataStart);
        } else if paramLength >= 4 {
          capacity := U32Be(data, dataStart);
        } else {
          return 0;
        }
        return capacity;
      }
      var nextOffset := offset + 4 + paramLength;
      if nextOffset > |data| {
        // `break`, then the final `Ok(0)`
        return 0;
      }
      offset := nextOffset;
    }
    return 0;
  }

  /** A code that no entry header carries reads as capacity 0. */
  lemma {:induction false} AbsentCodeReadsZero(data: seq<byte>, pageLength: nat, code: nat, offset: nat)
    requires forall i :: offset <= i && i + 2 <= |data| ==> U16Be(data, i) != code
    ensures ScanParameters(data, pageLength, code, offset) == 0
    decreases |data| - offset
  {
    if offset + 4 <= |data| && offset < ENTRIES_START + pageLength && offset + 4 + data[offset + 3] <= |data| {
      AbsentCodeReadsZero(data, pageLength, code, offset + 4 + data[offset + 3]);
    }
  }

  // ---------------------------------------------------------------------------
  // A well-formed page, written out, reads back

  /** One log parameter with an eight-byte value. */
  datatype LogParameter = LogParameter(code: u16, value: u64)

  /** The bytes of one entry: the code big-endian, a zero control byte, length 8, the value big-endian. */
  function EntryBytes(e: LogParameter): (r: seq<byte>)
    ensures |r| == 12
  {
    BeBytes(e.code, 2) + [0, 8] + BeBytes(e.value, 8)
  }

  function ParameterBytes(es: seq<LogParameter>): (r: seq<byte>)
    ensures |r| == 12 * |es|
  {
    if es == [] then [] else EntryBytes(es[0]) + ParameterBytes(es[1..])
  }

  /** A capacity log page (page code 31h) holding the given entries. */
  function CapacityPage(es: seq<LogParameter>): (r: seq<byte>)
    ensures |r| == 4 + 12 * |es|
  {
    [0x31, 0] + BeBytes(12 * |es|, 2) + ParameterBytes(es)
  }

  /** The value of the first entry with the code, or 0. */
  function Lookup(es: seq<LogParameter>, code: nat): u64
  {
    if es == [] then 0 else if es[0].code == code then es[0].value else Lookup(es[1..], code)
  }

  /** The header of an encoded entry decodes to its code, its length 8 and its value. */
  lemma EntryDecodes(data: seq<byte>, offset: nat, e: LogParameter)
    requires offset + 12 <= |data| && data[offset..offset + 12] == EntryBytes(e)
    ensures U16Be(data, offset) == e.code && data[offset + 3] == 8
    ensures EntryValue(data, offset) == e.value
  {
    EntryParts(data[offset..offset + 12], e);
    assert data[offset + 3] == data[offset..offset + 12][3];
    assert data[offset..offset + 2] == data[offset..offset + 12][..2];
    assert data[offset + 4..offset + 12] == data[offset..offset + 12][4..];
  }

  /** The three fields of an encoded entry, each decoded on its own. */
  lemma EntryParts(s: seq<byte>, e: LogParameter)
    requires s == EntryBytes(e)
    ensures s[3] == 8 && BeValue(s[..2]) == e.code && BeValue(s[4..]) == e.value
  {
    assert s[..2] == BeBytes(e.code, 2) && s[4..] == BeBytes(e.value, 8);
    BeFieldValue(e.code as nat, 2);
    BeFieldValue(e.value as nat, 8);
  }

  /** A value that fits in n bytes reads back from its big-endian bytes. */
  lemma BeFieldValue(v: nat, n: nat)
    requires (n == 2 && v < 0x1_0000) || (n == 8 && v < 0x1_0000_0000_0000_0000)
    ensures BeValue(BeBytes(v, n)) == v
  {
    BeRoundTrip(v, n);
    Pow256Values();
    assert v < Pow256(n);
  }

  /** From the start of the encoded entries es that run to the end of the page, the walk finds the first entry with the code. */
  lemma {:induction false} ScanEncoded(data: seq<byte>, pageLength: nat, es: seq<LogParameter>, code: nat, o: nat)
    requires o <= |data| && data[o..] == ParameterBytes(es) && |data| <= ENTRIES_START + pageLength
    ensures ScanParameters(data, pageLength, code, o) == Lookup(es, code)
    decreases es
  {
    if es != [] {
      var rest := ParameterBytes(es[1..]);
      assert data[o..o + 12] == EntryBytes(es[0]) && data[o + 12..] == rest by {
        assert data[o..] == EntryBytes(es[0]) + rest;
        assert data[o..o + 12] == data[o..][..12];
      }
      ScanStep(data, pageLength, code, o, es[0]);
      if es[0].code != code {
        ScanEncoded(data, pageLength, es[1..], code, o + 12);
      }
    } else {
      assert o == |data|;
    }
  }

  /** At an encoded entry inside the page, the walk stops with its value when the code matches and moves 12 bytes on otherwise. */
  lemma ScanStep(data: seq<byte>, pageLength: nat, code: nat, o: nat, e: LogParameter)
    requires o + 12 <= |data| && o < ENTRIES_START + pageLength && data[o..o + 12] == EntryBytes(e)
    ensures ScanParameters(data, pageLength, code, o)
      == if e.code == code then e.value else ScanParameters(data, pageLength, code, o + 12)
  {
    EntryDecodes(data, o, e);
  }

  lemma Be16RoundTrip(v: nat)
    requires v < U16_LIMIT
    ensures BeValue(BeBytes(v, 2)) == v
  {
    BeRoundTrip(v, 2);
    assert Pow256(2) == U16_LIMIT;
  }

  lemma CapacityPageLayout(es: seq<LogParameter>)
    requires 12 * |es| < U16_LIMIT
    ensures U16Be(CapacityPage(es), 2) == 12 * |es|
    ensures CapacityPage(es)[4..] == ParameterBytes(es)
  {
    var h, ps := BeBytes(12 * |es|, 2), ParameterBytes(es);
    var data := CapacityPage(es);
    assert data == [0x31, 0] + h + ps;
    assert data[2..4] == h && data[4..] == ps;
    var v := 12 * |es|;
    Be16RoundTrip(v);
  }

  /**
   * Round trip: a page written with the page length and 12-byte entries
   * reads back, for any code, the value of the first entry carrying it,
   * and 0 when none does.
   */
  lemma CapacityPageReadsBack(es: seq<LogParameter>, code: u8)
    requires 12 * |es| < U16_LIMIT
    ensures CapacityValue(CapacityPage(es), code) == Lookup(es, code)
  {
    CapacityPageLayout(es);
    ScanEncoded(CapacityPage(es), 12 * |es|, es, code, ENTRIES_START);
  }

  /**
   * Partitions 0 and 1 read their remaining capacity from codes 1 and 2 and
   * their maximum capacity from codes 3 and 4.
   */
  lemma PartitionCodes(es: seq<LogParameter>)
    requires 12 * |es| < U16_LIMIT
    ensures RemainingCapacity(CapacityPageParser(CapacityPage(es)), 0) == Lookup(es, 1)
    ensures RemainingCapacity(CapacityPageParser(CapacityPage(es)), 1) == Lookup(es, 2)
    ensures MaximumCapacity(CapacityPageParser(CapacityPage(es)), 0) == Lookup(es, 3)
    ensures MaximumCapacity(CapacityPageParser(CapacityPage(es)), 1) == Lookup(es, 4)
  {
    CapacityPageReadsBack(es, 1);
    CapacityPageReadsBack(es, 2);
    CapacityPageReadsBack(es, 3);
    CapacityPageReadsBack(es, 4);
  }
}

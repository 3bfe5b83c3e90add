// The MODE SENSE parsers of scsi/mod.rs: `parse_partition_info` walks the
// mode pages after the 8-byte mode parameter header looking for the Medium
// Configuration page (page code 1Dh) and `parse_medium_configuration_page`
// reads the two partition sizes out of it; `bytes_to_string` turns a
// NUL-padded byte field into text.

module ScsiModePages {
  import opened Wrappers
  import opened Bytes
  import opened Strings
  import opened Utf8

  /** TC_MP_MEDIUM_CONFIGURATION (scsi/constants.rs). */
  const MEDIUM_CONFIGURATION_PAGE: nat := 0x1D

  /** The mode parameter header `parse_partition_info` skips. */
  const HEADER_LEN: nat := 8

  /** The sizes of partition 0 and partition 1, as the page reports them. */
  datatype PartitionSizes = PartitionSizes(p0: u64, p1: u64)

  /** `byte & 0x3F`: the page code without the PS and SPF bits. */
  function PageCode(b: byte): (r: nat)
    ensures r < 64 && (b - r) % 64 == 0
  {
    b % 64
  }

  // ---------------------------------------------------------------------------
  // parse_medium_configuration_page

  /**
   * The partition sizes of a Medium Configuration page: shorter than 16 bytes
   * is "too short", 16 to 23 bytes is "insufficient data", and from 24 bytes
   * on partition 0's size is bytes 8-15 and partition 1's bytes 16-23, both
   * big-endian.
   */
  function MediumConfigurationPage(page: seq<byte>): (r: Result<PartitionSizes>)
    ensures r.Ok? <==> |page| >= 24
    ensures r.Ok? ==> r.value.p0 == BeValue(page[8..16]) && r.value.p1 == BeValue(page[16..24])
    ensures |page| < 16 ==> r == Fail(Scsi, "Medium Configuration Page too short")
  {
    if |page| < 16 then Fail(Scsi, "Medium Configuration Page too short")
    else if |page| >= 24 then Ok(PartitionSizes(U64Be(page, 8), U64Be(page, 16)))
    else Fail(Scsi, "Insufficient data for partition size parsing")
  }

  // ---------------------------------------------------------------------------
  // parse_partition_info

  /**
   * The offset of the first page along the walk from `offset` whose code is
   * 1Dh: each step reads the page code at `offset` and the page length at
   * `offset + 1` and moves on by the length plus two. The walk runs while
   * `offset < len - 1`.
   */
  function ScanPages(data: seq<byte>, offset: nat): (r: Option<nat>)
    ensures r.Some? ==> offset <= r.value && r.value + 1 < |data|
    ensures r.Some? ==> PageCode(data[r.value]) == MEDIUM_CONFIGURATION_PAGE
    decreases |data| - offset
  {
    if offset + 1 >= |data| then None
    else if PageCode(data[offset]) == MEDIUM_CONFIGURATION_PAGE then Some(offset)
    else ScanPages(data, offset + data[offset + 1] + 2)
  }

  /** The page the walk stops at, with its two header bytes, when it fits in the buffer. */
  predicate PageFits(data: seq<byte>, p: nat)
    requires p + 1 < |data|
  {
    p + data[p + 1] + 2 <= |data|
  }

  /** What `parse_partition_info` returns for a MODE SENSE reply. */
  function PartitionInfo(data: seq<byte>): (r: Result<PartitionSizes>)
  {
    if |data| < HEADER_LEN then Fail(Scsi, "MODE SENSE data too short")
    else if U16Be(data, 0) < 8 || |data| < U16Be(data, 0) + 2 then Fail(Scsi, "Invalid MODE SENSE response")
    else match ScanPages(data, HEADER_LEN)
      case None => Fail(Scsi, "Medium Configuration Mode Page not found")
      case Some(p) =>
        if PageFits(data, p) then MediumConfigurationPage(data[p..p + data[p + 1] + 2])
        else Fail(Scsi, "Medium Configuration Page truncated")
  }

  /** `parse_partition_info`: the walk over the pages, one page per pass. */
  method ParsePartitionInfo(data: seq<byte>) returns (r: Result<PartitionSizes>)
    ensures r == PartitionInfo(data)
  {
    if |data| < 8 {
      return Fail(Scsi, "MODE SENSE data too short");
    }
    var modeDataLength := (data[0] as int) * 256 + (data[1] as int);
    if modeDataLength < 8 || |data| < modeDataLength + 2 {
      return Fail(Scsi, "Invalid MODE SENSE response");
    }
    var offset := 8;
    while offset < |data| - 1
      invariant 8 <= offset
      invariant ScanPages(data, offset) == ScanPages(data, HEADER_LEN)
      decreases |data| - offset
    {
      var pageCode := data[offset] % 64;
      var pageLength := data[offset + 1] as int;
      if pageCode == 0x1D {
        if offset + pageLength + 2 <= |data| {
          return MediumConfigurationPage(data[offset..offset + pageLength + 2]);
        } else {
          return Fail(Scsi, "Medium Configuration Page truncated");
        }
      }
      offset := offset + pageLength + 2;
    }
    return Fail(Scsi, "Medium Configuration Mode Page not found");
  }

  /** The header checks of `parse_partition_info` pass: 8 bytes at least, and a sound mode data length. */
  predicate HeaderSound(data: seq<byte>)
  {
    |data| >= HEADER_LEN && 8 <= BeValue(data[0..2]) && BeValue(data[0..2]) + 2 <= |data|
  }

  /**
   * Success needs a sound header and a walk that reaches a Medium
   * Configuration page that fits in the buffer and is at least 24 bytes
   * long; the sizes are that page's bytes 8-15 and 16-23.
   */
  lemma PartitionInfoOkShape(data: seq<byte>)
    requires PartitionInfo(data).Ok?
    ensures HeaderSound(data) && ScanPages(data, HEADER_LEN).Some?
    ensures var p := ScanPages(data, HEADER_LEN).value;
      PageFits(data, p) && data[p + 1] >= 22 &&
      PartitionInfo(data).value.p0 == BeValue(data[p + 8..p + 16]) &&
      PartitionInfo(data).value.p1 == BeValue(data[p + 16..p + 24])
  {
    assert U16Be(data, 0) == BeValue(data[0..2]);
    assert HeaderSound(data) && ScanPages(data, HEADER_LEN).Some?;
    var p := ScanPages(data, HEADER_LEN).value;
    assert PageFits(data, p);
    var n: nat := data[p + 1] as nat + 2;
    var page := data[p..p + n];
    assert PartitionInfo(data) == MediumConfigurationPage(page);
    assert |page| == n >= 24;
    assert page[8..16] == data[p + 8..p + 16] by {
      assert forall i :: 8 <= i < 16 ==> page[i] == data[p + i];
    }
    assert page[16..24] == data[p + 16..p + 24] by {
      assert forall i :: 16 <= i < 24 ==> page[i] == data[p + i];
    }
  }

  /** Conversely, such a reply is accepted. */
  lemma PartitionInfoOkWhen(data: seq<byte>)
    requires HeaderSound(data) && ScanPages(data, HEADER_LEN).Some?
    requires var p := ScanPages(data, HEADER_LEN).value;
      PageFits(data, p) && data[p + 1] >= 22
    ensures PartitionInfo(data).Ok?
  {
  }

  /** A reply shorter than its declared mode data length (plus the two length bytes) is refused. */
  lemma ShortReplyRefused(data: seq<byte>)
    requires |data| >= HEADER_LEN && |data| < BeValue(data[0..2]) + 2
    ensures PartitionInfo(data) == Fail(Scsi, "Invalid MODE SENSE response")
  {
  }

  /**
   * A walk that never meets a Medium Configuration page between `offset` and
   * the end finds nothing: every page header it visits is checked.
   */
  lemma {:induction false} ScanNoneWhenAbsent(data: seq<byte>, offset: nat)
    requires forall i :: offset <= i < |data| ==> PageCode(data[i]) != MEDIUM_CONFIGURATION_PAGE
    ensures ScanPages(data, offset) == None
    decreases |data| - offset
  {
    if offset + 1 < |data| {
      ScanNoneWhenAbsent(data, offset + data[offset + 1] + 2);
    }
  }

  /**
   * A reply whose first page is a 24-byte Medium Configuration page: the
   * partition sizes are the big-endian values at bytes 16-23 and 24-31 of
   * the reply.
   */
  lemma FirstPageSizes(data: seq<byte>)
    requires |data| >= 32 && 8 <= BeValue(data[0..2]) <= |data| - 2
    requires PageCode(data[8]) == MEDIUM_CONFIGURATION_PAGE && data[9] == 22
    ensures PartitionInfo(data).Ok?
    ensures PartitionInfo(data).value.p0 == BeValue(data[16..24])
    ensures PartitionInfo(data).value.p1 == BeValue(data[24..32])
  {
    assert ScanPages(data, HEADER_LEN) == Some(8);
    PartitionInfoOkWhen(data);
    PartitionInfoOkShape(data);
  }

  // ---------------------------------------------------------------------------
  // bytes_to_string

  /** The index of the first NUL byte, or the length when there is none. */
  function NulEnd(b: seq<byte>): (r: nat)
    ensures r <= |b| && (r < |b| ==> b[r] == 0)
    ensures forall i :: 0 <= i < r ==> b[i] != 0
  {
    if b == [] || b[0] == 0 then 0 else 1 + NulEnd(b[1..])
  }

  /** `bytes_to_string`: the bytes before the first NUL, decoded lossily and trimmed. */
  function BytesToString(b: seq<byte>): string
  {
    Trim(DecodeLossy(b[..NulEnd(b)]))
  }

  /** The text neither starts nor ends with White_Space. */
  lemma BytesToStringTrimmed(b: seq<byte>)
    ensures var r := BytesToString(b);
      r == [] || (!IsWhitespace(r[0]) && !IsWhitespace(r[|r| - 1]))
  {
    var t := TrimStart(DecodeLossy(b[..NulEnd(b)]));
    var r := TrimEnd(t);
    if r != [] {
      assert r[0] == t[0];
    }
  }

  /** Whatever follows the first NUL byte has no effect on the text. */
  lemma {:induction false} BytesAfterNulIgnored(b: seq<byte>, rest: seq<byte>)
    requires forall i :: 0 <= i < |b| ==> b[i] != 0
    ensures BytesToString(b + [0] + rest) == BytesToString(b)
  {
    var c := b + [0] + rest;
    assert c == b + ([0] + rest);
    NulEndPrefix(b, [0] + rest);
    assert c[..NulEnd(c)] == b == b[..NulEnd(b)];
  }

  lemma {:induction false} NulEndPrefix(b: seq<byte>, rest: seq<byte>)
    requires forall i :: 0 <= i < |b| ==> b[i] != 0
    requires rest != [] && rest[0] == 0
    ensures NulEnd(b + rest) == |b| && NulEnd(b) == |b|
    decreases |b|
  {
    if b != [] {
      assert (b + rest)[1..] == b[1..] + rest;
      NulEndPrefix(b[1..], rest);
    }
  }

  /** On ASCII bytes without NUL and without surrounding blanks, the text is the bytes read as characters. */
  lemma AsciiBytesToString(b: seq<byte>)
    requires forall i :: 0 <= i < |b| ==> 0 < b[i] < 0x80
    requires b != [] ==> b[0] > 0x20 && b[|b| - 1] > 0x20
    ensures |BytesToString(b)| == |b|
    ensures forall i :: 0 <= i < |b| ==> BytesToString(b)[i] as int == b[i]
  {
    assert b[..NulEnd(b)] == b;
    var s := DecodeLossy(b);
    AsciiDecode(b, 0);
    if b != [] {
      assert !IsWhitespace(s[0]) && !IsWhitespace(s[|s| - 1]);
      TrimStartKeeps(s);
    }
  }
}
